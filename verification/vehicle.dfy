/** The vehicle of vehicle.py: a pose that steps forward inside optional
    bounds (it has no backward step), and a right-hand traversal that spreads
    each compound move over two calls with two "remember" flags, recording a
    directed graph of open sides and the set of visited cells. */
module Vehicles {
  import opened Wrappers
  import opened Datatypes
  import Robots

  /** The side of a tile in pixels, fixed by the constructor. */
  const SIDE: int := 55

  /** A bound the vehicle may not step past; None is the infinite float
      the constructor starts with, which no integer coordinate equals. */
  type Bound = Option<int>

  datatype Bounds = Bounds(minX: Bound, minY: Bound, maxX: Bound, maxY: Bound)

  /** The state `traverse` reads and writes. */
  datatype VehicleState = VehicleState(
    x: int, y: int, direction: int,
    graph: map<Cell, set<Cell>>, visited: set<Cell>,
    goForwardRemember: bool, clockWiseTurnRemember: bool)

  /** Which sides the three sensors report as open paths. */
  datatype Openings = Openings(front: bool, left: bool, right: bool)

  /** `__getPoint`: the neighbouring cell in direction `d`; an undefined
      direction raises. */
  function GetPoint(x: int, y: int, d: int): (r: Result<Cell, Robots.RobotError>)
    ensures r.Ok? <==> IsDirection(d)
    ensures r.Ok? ==> r.value == TileInDirection(x, y, d) && Adjacent((x, y), r.value)
    ensures r.Err? ==> r.error == Robots.UndefinedDirection
  {
    if d == EAST then Ok((x + 1, y))
    else if d == WEST then Ok((x - 1, y))
    else if d == NORTH then Ok((x, y - 1))
    else if d == SOUTH then Ok((x, y + 1))
    else Err(Robots.UndefinedDirection)
  }

  /** `__go(forward=True)`: one tile along the heading, except that a
      coordinate already equal to the bound it moves toward stays put; an
      undefined heading raises. */
  function BoundedStep(x: int, y: int, d: int, b: Bounds): Result<Cell, Robots.RobotError> {
    if d == EAST then Ok((x + (if b.maxX == Some(x) then 0 else 1), y))
    else if d == WEST then Ok((x - (if b.minX == Some(x) then 0 else 1), y))
    else if d == NORTH then Ok((x, y - (if b.minY == Some(y) then 0 else 1)))
    else if d == SOUTH then Ok((x, y + (if b.maxY == Some(y) then 0 else 1)))
    else Err(Robots.UndefinedDirection)
  }

  /** The cell is within every finite bound. */
  predicate Inside(c: Cell, b: Bounds) {
    (b.minX.Some? ==> b.minX.value <= c.0) && (b.maxX.Some? ==> c.0 <= b.maxX.value)
    && (b.minY.Some? ==> b.minY.value <= c.1) && (b.maxY.Some? ==> c.1 <= b.maxY.value)
  }

  /** A bounded step raises exactly for an undefined heading; it stays put
      when the coordinate it would change already equals the bound ahead,
      and otherwise reaches the tile ahead. A vehicle inside its bounds
      stays inside. */
  lemma BoundedStepStopsAtBound(x: int, y: int, d: int, b: Bounds)
    ensures BoundedStep(x, y, d, b).Err? <==> !IsDirection(d)
    ensures IsDirection(d) ==>
      var c := BoundedStep(x, y, d, b).value;
      var blocked := (d == EAST && b.maxX == Some(x)) || (d == WEST && b.minX == Some(x))
        || (d == NORTH && b.minY == Some(y)) || (d == SOUTH && b.maxY == Some(y));
      c == if blocked then (x, y) else TileInDirection(x, y, d)
    ensures IsDirection(d) && Inside((x, y), b) ==> Inside(BoundedStep(x, y, d, b).value, b)
  {
  }

  /** Directed edge `a -> b` in a dict of sets that creates missing keys. */
  function AddDirected(g: map<Cell, set<Cell>>, a: Cell, b: Cell): (h: map<Cell, set<Cell>>)
    ensures h.Keys == g.Keys + {a}
    ensures h[a] == (if a in g then g[a] else {}) + {b}
    ensures forall u :: u in g && u != a ==> h[u] == g[u]
  {
    g[a := (if a in g then g[a] else {}) + {b}]
  }

  /** Neither remember flag is pending while the other is, and a pending flag
      comes with a defined heading (both are set right after a turn). */
  predicate Inv(v: VehicleState) {
    !(v.goForwardRemember && v.clockWiseTurnRemember)
    && (v.goForwardRemember || v.clockWiseTurnRemember ==> IsDirection(v.direction))
  }

  /** The graph edges `traverse` adds from `here` for the open sides, in the
      order right, front, left. */
  function OpenEdges(g: map<Cell, set<Cell>>, here: Cell, d: int, o: Openings): map<Cell, set<Cell>>
    requires o.front ==> IsDirection(d)
  {
    var g1 := if o.right then AddDirected(g, here, GetPoint(here.0, here.1, RightOf(d)).value) else g;
    var g2 := if o.front then AddDirected(g1, here, GetPoint(here.0, here.1, d).value) else g1;
    if o.left then AddDirected(g2, here, GetPoint(here.0, here.1, LeftOf(d)).value) else g2
  }

  /** The cells of the open sides around `here`. */
  function OpenTiles(here: Cell, d: int, o: Openings): set<Cell> {
    (if o.right then {TileInDirection(here.0, here.1, RightOf(d))} else {})
    + (if o.front then {TileInDirection(here.0, here.1, d)} else {})
    + (if o.left then {TileInDirection(here.0, here.1, LeftOf(d))} else {})
  }

  /** Recording the open sides adds exactly their cells to the entry of
      `here`, creating it when some side is open, and leaves every other key
      alone. */
  lemma OpenEdgesAreTheOpenSides(g: map<Cell, set<Cell>>, here: Cell, d: int, o: Openings)
    requires (o.front ==> IsDirection(d)) && (o.front || o.left || o.right)
    ensures var h := OpenEdges(g, here, d, o);
      h.Keys == g.Keys + {here}
      && h[here] == (if here in g then g[here] else {}) + OpenTiles(here, d, o)
      && forall u :: u in g && u != here ==> h[u] == g[u]
  {
  }

  /** One call of `traverse`, given what the sensors reported. A pending
      forward step or clockwise turn is carried out first and is the whole
      call; otherwise the cell is marked visited, an edge is added toward
      each open side, and the move is started: right (turn now, step next
      call), else front (step now), else left (turn now, step next call);
      with no open side the vehicle turns clockwise and remembers to turn
      again. An open front is only reported for a defined heading, since a
      ray in an undefined direction stops at its first pixel. */
  function Traverse(v: VehicleState, b: Bounds, o: Openings): (w: VehicleState)
    requires Inv(v) && (o.front ==> IsDirection(v.direction))
    ensures Inv(w)
  {
    if v.goForwardRemember then
      var c := BoundedStep(v.x, v.y, v.direction, b).value;
      v.(goForwardRemember := false, x := c.0, y := c.1)
    else if v.clockWiseTurnRemember then
      v.(clockWiseTurnRemember := false, goForwardRemember := true, direction := RightOf(v.direction))
    else
      var here := (v.x, v.y);
      var seen := v.visited + {here};
      if !(o.front || o.left || o.right) then
        v.(visited := seen, direction := RightOf(v.direction), clockWiseTurnRemember := true)
      else
        var d := v.direction;
        var u := v.(visited := seen, graph := OpenEdges(v.graph, here, d, o));
        if o.right then u.(direction := RightOf(d), goForwardRemember := true)
        else if o.front then
          var c := BoundedStep(v.x, v.y, d, b).value;
          u.(x := c.0, y := c.1)
        else u.(direction := LeftOf(d), goForwardRemember := true)
  }

  /** A pending flag is consumed before anything is recorded: the call
      changes neither `visited` nor `graph`, and clears the flag it acted on
      (a pending clockwise turn leaves a forward step pending). */
  lemma PendingFlagComesFirst(v: VehicleState, b: Bounds, o: Openings)
    requires Inv(v) && (o.front ==> IsDirection(v.direction))
    requires v.goForwardRemember || v.clockWiseTurnRemember
    ensures var w := Traverse(v, b, o);
      w.visited == v.visited && w.graph == v.graph && !w.clockWiseTurnRemember
      && w.goForwardRemember == v.clockWiseTurnRemember
      && (v.goForwardRemember ==>
            w.direction == v.direction && (w.x, w.y) == BoundedStep(v.x, v.y, v.direction, b).value)
      && (v.clockWiseTurnRemember ==> w.direction == RightOf(v.direction) && (w.x, w.y) == (v.x, v.y))
  {
  }

  /** Without a pending flag the call marks the cell visited, adds an edge
      from it to each open side and to nothing else, and prefers right, then
      front, then left; with no open side it turns clockwise and remembers
      to turn again. */
  lemma FreshCallRecordsAndPrefersRight(v: VehicleState, b: Bounds, o: Openings)
    requires Inv(v) && (o.front ==> IsDirection(v.direction))
    requires !v.goForwardRemember && !v.clockWiseTurnRemember
    ensures var w := Traverse(v, b, o); var here := (v.x, v.y);
      w.visited == v.visited + {here}
      && (!(o.front || o.left || o.right) ==>
            w.graph == v.graph && w.direction == RightOf(v.direction) && w.clockWiseTurnRemember
            && (w.x, w.y) == here)
      && ((o.front || o.left || o.right) ==>
            w.graph.Keys == v.graph.Keys + {here}
            && w.graph[here] == (if here in v.graph then v.graph[here] else {}) + OpenTiles(here, v.direction, o)
            && (forall u :: u in v.graph && u != here ==> w.graph[u] == v.graph[u])
            && !w.clockWiseTurnRemember)
      && (o.right ==> w.direction == RightOf(v.direction) && w.goForwardRemember && (w.x, w.y) == here)
      && (!o.right && o.front ==>
            w.direction == v.direction && !w.goForwardRemember
            && (w.x, w.y) == BoundedStep(v.x, v.y, v.direction, b).value)
      && (!o.right && !o.front && o.left ==>
            w.direction == LeftOf(v.direction) && w.goForwardRemember && (w.x, w.y) == here)
  {
    if o.front || o.left || o.right {
      OpenEdgesAreTheOpenSides(v.graph, (v.x, v.y), v.direction, o);
    }
  }

  /** A right turn is completed by the next call: two calls in a row take an
      unbounded vehicle with an open right side onto the tile to its right. */
  lemma RightTurnCompletesNextCall(v: VehicleState, o: Openings, o': Openings)
    requires Inv(v) && IsDirection(v.direction) && !v.goForwardRemember && !v.clockWiseTurnRemember
    requires o.right
    ensures var b := Bounds(None, None, None, None);
      var w := Traverse(v, b, o);
      Inv(w) && (o'.front ==> IsDirection(w.direction))
      && var w' := Traverse(w, b, o');
      (w'.x, w'.y) == TileInDirection(v.x, v.y, RightOf(v.direction))
      && w'.direction == RightOf(v.direction) && !w'.goForwardRemember && !w'.clockWiseTurnRemember
  {
  }

  /** The pixel the sensors start from: the tile's corner minus half a side,
      with point.py's Point and iteration. */
  function CenterPixel(x: int, y: int): Cell {
    var corner := Point((x * SIDE) as real, (y * SIDE) as real);
    Iter(StrictSub(corner, Number(SIDE as real * 50.0 * 0.01)).value)
  }

  /** `__sendSignal`: a side is an open path when the ray of at most 1000
      pixels runs more than one tile side before meeting a black pixel. */
  function IsPath(m: seq<seq<int>>, x: int, y: int, d: int): (r: Result<bool, Robots.RobotError>)
    ensures r.Ok? && r.value ==> IsDirection(d)
  {
    var s := Robots.Signal(m, CenterPixel(x, y), d, 1000, 0);
    Robots.UndefinedRayStopsAtStart(m, CenterPixel(x, y), d, 1000, 0);
    if s.Ok? then Ok(s.value > SIDE) else Err(s.error)
  }

  /** The three readings `traverse` takes first, front, then left, then
      right; the first that raises aborts the call. */
  function Sense(m: seq<seq<int>>, x: int, y: int, d: int): (r: Result<Openings, Robots.RobotError>)
    ensures r.Ok? && r.value.front ==> IsDirection(d)
  {
    var f := IsPath(m, x, y, d);
    if f.Err? then Err(f.error)
    else
      var l := IsPath(m, x, y, LeftOf(d));
      if l.Err? then Err(l.error)
      else
        var rt := IsPath(m, x, y, RightOf(d));
        if rt.Err? then Err(rt.error)
        else Ok(Openings(f.value, l.value, rt.value))
  }

  /** An open side is one whose ray, in the sense of robot.py, passes more
      than a tile side of clear pixels. */
  lemma OpenMeansClearRay(m: seq<seq<int>>, x: int, y: int, d: int)
    requires IsPath(m, x, y, d) == Ok(true)
    ensures Robots.ClearFor(m, CenterPixel(x, y), d, SIDE + 1, 0)
  {
    Robots.SignalIsFirstBarrier(m, CenterPixel(x, y), d, 1000, 0);
    var k := Robots.Signal(m, CenterPixel(x, y), d, 1000, 0).value;
    assert k > SIDE;
  }

  class Vehicle {
    var x: int
    var y: int
    var direction: int
    var minX: Bound
    var minY: Bound
    var maxX: Bound
    var maxY: Bound
    const threshholded: seq<seq<int>>
    var graph: map<Cell, set<Cell>>
    var visited: set<Cell>
    var goForwardRemember: bool
    var clockWiseTurnRemember: bool

    function State(): VehicleState
      reads this
    {
      VehicleState(x, y, direction, graph, visited, goForwardRemember, clockWiseTurnRemember)
    }

    function Limits(): Bounds
      reads this
    {
      Bounds(minX, minY, maxX, maxY)
    }

    predicate Valid()
      reads this
    {
      Inv(State())
    }

    /** A vehicle at (x, y) with unbounded moves, an empty graph, nothing
        visited and no pending move. */
    constructor (x: int, y: int, direction: int, threshholded: seq<seq<int>>)
      ensures Valid()
      ensures State() == VehicleState(x, y, direction, map[], {}, false, false)
      ensures Limits() == Bounds(None, None, None, None) && this.threshholded == threshholded
    {
      this.x, this.y, this.direction := x, y, direction;
      this.threshholded := threshholded;
      minX, minY, maxX, maxY := None, None, None, None;
      graph, visited := map[], {};
      goForwardRemember, clockWiseTurnRemember := false, false;
    }

    function Front(): int
      reads this
    {
      direction
    }

    function Left(): (d: int)
      reads this
      ensures IsDirection(d) && d == LeftOf(direction)
    {
      (direction - 1) % DIRECTIONS
    }

    function Right(): (d: int)
      reads this
      ensures IsDirection(d) && d == RightOf(direction)
    {
      (direction + 1) % DIRECTIONS
    }

    function GetCurrentPos(): Cell
      reads this
    {
      (x, y)
    }

    /** `setBoundaries`: exactly the four bound fields change. */
    method SetBoundaries(minX: int, minY: int, maxX: int, maxY: int)
      modifies this`minX, this`minY, this`maxX, this`maxY
      ensures Limits() == Bounds(Some(minX), Some(minY), Some(maxX), Some(maxY))
    {
      this.minX, this.minY, this.maxX, this.maxY := Some(minX), Some(minY), Some(maxX), Some(maxY);
    }

    /** `__go`: only a forward step does anything; it stops at a bound and
        raises for an undefined heading. */
    method Go(forward: bool) returns (r: Option<Robots.RobotError>)
      modifies this`x, this`y
      ensures !forward ==> r == None && GetCurrentPos() == old(GetCurrentPos())
      ensures forward ==>
        var s := BoundedStep(old(x), old(y), direction, Limits());
        (s.Err? ==> r == Some(s.error) && GetCurrentPos() == old(GetCurrentPos()))
        && (s.Ok? ==> r == None && GetCurrentPos() == s.value)
    {
      r := None;
      if forward {
        if direction == EAST {
          x := x + if maxX != Some(x) then 1 else 0;
        } else if direction == WEST {
          x := x - if minX != Some(x) then 1 else 0;
        } else if direction == NORTH {
          y := y - if minY != Some(y) then 1 else 0;
        } else if direction == SOUTH {
          y := y + if maxY != Some(y) then 1 else 0;
        } else {
          r := Some(Robots.UndefinedDirection);
        }
      }
    }

    method GoForward() returns (r: Option<Robots.RobotError>)
      modifies this`x, this`y
      ensures var s := BoundedStep(old(x), old(y), direction, Limits());
        (s.Err? ==> r == Some(s.error) && GetCurrentPos() == old(GetCurrentPos()))
        && (s.Ok? ==> r == None && GetCurrentPos() == s.value)
    {
      r := Go(true);
    }

    /** `goBackward` goes through `__go`, which has no backward branch: the
        vehicle stays where it is. */
    method GoBackward()
      modifies this`x, this`y
      ensures GetCurrentPos() == old(GetCurrentPos())
    {
      var _ := Go(false);
    }

    /** `__turn`: the heading becomes the right or the left one. */
    method Turn(clockwise: bool)
      modifies this`direction
      ensures direction == if clockwise then RightOf(old(direction)) else LeftOf(old(direction))
    {
      direction := if clockwise then Right() else Left();
    }

    method TurnClockwise()
      modifies this`direction
      ensures direction == RightOf(old(direction))
    {
      Turn(true);
    }

    method TurnCounterClockwise()
      modifies this`direction
      ensures direction == LeftOf(old(direction))
    {
      Turn(false);
    }

    /** `__sendSignal` toward direction `d`. */
    method SendSignal(d: int) returns (r: Result<bool, Robots.RobotError>)
      ensures r == IsPath(threshholded, x, y, d)
    {
      var s := Robots.WalkRay(threshholded, CenterPixel(x, y), d, 1000, 0);
      if s.Ok? {
        r := Ok(s.value > SIDE);
      } else {
        r := Err(s.error);
      }
    }

    /** The three readings, front, left, right, stopping at the first that
        raises. */
    method Sensors() returns (r: Result<Openings, Robots.RobotError>)
      ensures r == Sense(threshholded, x, y, direction)
    {
      var front := SendSignal(Front());
      if front.Err? {
        return Err(front.error);
      }
      var left := SendSignal(Left());
      if left.Err? {
        return Err(left.error);
      }
      var right := SendSignal(Right());
      if right.Err? {
        return Err(right.error);
      }
      r := Ok(Openings(front.value, left.value, right.value));
    }

    /** `graph[this].add(__getPoint(d))` for a defined direction `d`. */
    method AddEdgeToward(here: Cell, d: int)
      requires IsDirection(d)
      modifies this`graph
      ensures graph == AddDirected(old(graph), here, GetPoint(here.0, here.1, d).value)
    {
      var p := GetPoint(here.0, here.1, d).value;
      graph := graph[here := (if here in graph then graph[here] else {}) + {p}];
    }

    /** Record the open sides and start the preferred move. */
    method RecordAndMove(here: Cell, o: Openings)
      requires (o.front ==> IsDirection(direction)) && here == GetCurrentPos() && (o.front || o.left || o.right)
      requires !goForwardRemember && !clockWiseTurnRemember
      modifies this`graph, this`x, this`y, this`direction, this`goForwardRemember
      ensures var v := old(State()).(visited := visited);
        var w := v.(graph := OpenEdges(old(graph), here, old(direction), o));
        State() == (if o.right then w.(direction := RightOf(old(direction)), goForwardRemember := true)
          else if o.front then
            var c := BoundedStep(old(x), old(y), old(direction), Limits()).value; w.(x := c.0, y := c.1)
          else w.(direction := LeftOf(old(direction)), goForwardRemember := true))
    {
      if o.right {
        AddEdgeToward(here, Right());
      }
      if o.front {
        AddEdgeToward(here, Front());
      }
      if o.left {
        AddEdgeToward(here, Left());
      }
      if o.right {
        TurnClockwise();
        goForwardRemember := true;
      } else if o.front {
        var _ := GoForward();
      } else {
        TurnCounterClockwise();
        goForwardRemember := true;
      }
    }

    /** `traverse`: read the sensors (a reading that raises aborts the call
        with nothing changed), then make the step `Traverse` describes. */
    method DoTraverse() returns (r: Option<Robots.RobotError>)
      requires Valid()
      modifies this`x, this`y, this`direction, this`graph, this`visited,
        this`goForwardRemember, this`clockWiseTurnRemember
      ensures Valid()
      ensures var s := Sense(threshholded, old(x), old(y), old(direction));
        (s.Err? ==> r == Some(s.error) && State() == old(State()))
        && (s.Ok? ==> r == None && State() == Traverse(old(State()), Limits(), s.value))
    {
      var here := GetCurrentPos();
      var sensed := Sensors();
      if sensed.Err? {
        return Some(sensed.error);
      }
      var o := sensed.value;
      r := None;
      if goForwardRemember {
        goForwardRemember := false;
        var _ := GoForward();
        return;
      }
      if clockWiseTurnRemember {
        clockWiseTurnRemember := false;
        goForwardRemember := true;
        TurnClockwise();
        return;
      }
      visited := visited + {here};
      if !(o.front || o.left || o.right) {
        TurnClockwise();
        clockWiseTurnRemember := true;
      } else {
        RecordAndMove(here, o);
      }
    }
  }
}
