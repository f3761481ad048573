/** The depth-first maze explorer (scripts/depth_first_search.py and its older
    form scripts.py).  While its stack is non-empty each frame runs one
    discover step: mark the stack top visited, record an edge toward every
    open side, then push an unvisited neighbour or pop, and drive the robot
    onto the new top.  Once the stack is empty the planner computes a route
    from the start to the ground-marker cell and the robot follows it. */
module DepthFirst {
  import opened Wrappers
  import opened Datatypes
  import opened MazeGraph
  import Pose
  import Planner

  /** The sensor readings at the robot's cell. `walled` holds the absolute
      directions whose side is walled (the distance sensor reads less than
      a cell side; the front sensor looks along the heading, the right one
      along RightOf, the left one along LeftOf), and `groundCenter` says
      whether the floor has the centre colour. */
  datatype Surroundings = Surroundings(walled: set<int>, groundCenter: bool) {
    /** The side facing absolute direction `d` is walled. */
    predicate Walled(d: int) {
      d in walled
    }
  }

  /** scripts.py's own status codes. */
  const LEGACY_STOP: int := 0x542
  const RESUME_LOOP: int := 0x546

  /** What one frame of the explorer ends with. */
  datatype Outcome =
    | Moved                            // discover moved the robot and returned None
    | Done(status: int)                // a status code was returned
    | Failed(error: Planner.PlanError) // a lookup failed (or, for NoDescent, the source loops forever)
    | Spinning                         // walled on all four sides: the first turning loop never ends

  /** The cells on the open sides, in the order discover records them:
      front, left, right. */
  function OpenSides(p: Pose.PoseState, s: Surroundings): (open: seq<Cell>)
    ensures IsDirection(p.direction) ==> forall i :: 0 <= i < |open| ==> Adjacent(Pose.Cell(p), open[i])
    ensures !s.Walled(p.direction) <==> TileInDirection(p.x, p.y, p.direction) in open
    ensures |open| <= 3
  {
    var d := p.direction;
    (if !s.Walled(d) then [TileInDirection(p.x, p.y, d)] else [])
    + (if !s.Walled(LeftOf(d)) then [TileInDirection(p.x, p.y, LeftOf(d))] else [])
    + (if !s.Walled(RightOf(d)) then [TileInDirection(p.x, p.y, RightOf(d))] else [])
  }

  /** discover's edge recording: an edge between `top` and each open tile,
      in order. */
  function Record(g: Graph, top: Cell, open: seq<Cell>): (h: Graph)
    ensures forall c :: c in open ==> c in h && top in h && top in h[c] && c in h[top]
    ensures forall u, v {:trigger v in h[u]} :: u in h && v in h[u] ==>
      (u in g && v in g[u]) || (u == top && v in open) || (v == top && u in open)
    ensures forall u :: u in g ==> u in h && g[u] <= h[u]
    ensures open == [] ==> h == g
    decreases |open|
  {
    if open == [] then g
    else
      var pre := open[..|open| - 1];
      assert forall x :: x in pre ==> x in open;
      assert open[|open| - 1] in open;
      AddEdge(Record(g, top, pre), open[|open| - 1], top)
  }

  /** Recording one more open tile is one more add_edge_between. */
  lemma RecordSnoc(g: Graph, top: Cell, open: seq<Cell>, c: Cell)
    ensures Record(g, top, open + [c]) == AddEdge(Record(g, top, open), c, top)
  {
    assert (open + [c])[..|open|] == open;
  }

  /** Recording edges from `top` to adjacent cells keeps the graph symmetric
      and every edge a grid step. */
  lemma {:induction false} RecordKeepsMazeShape(g: Graph, top: Cell, open: seq<Cell>)
    requires Symmetric(g) && GridEdges(g)
    requires forall i :: 0 <= i < |open| ==> Adjacent(top, open[i])
    ensures Symmetric(Record(g, top, open)) && GridEdges(Record(g, top, open))
    decreases |open|
  {
    if open != [] {
      var pre := open[..|open| - 1];
      var c := open[|open| - 1];
      assert forall i :: 0 <= i < |pre| ==> pre[i] == open[i];
      RecordKeepsMazeShape(g, top, pre);
      assert Adjacent(c, top);
      AddEdgePreservesSymmetry(Record(g, top, pre), c, top);
      AddEdgeKeepsGridEdges(Record(g, top, pre), c, top);
    }
  }

  /** discover's move toward the chosen cell: forward if it is in front,
      else go left, else go right, else go backward. */
  function MoveToward(p: Pose.PoseState, choice: Cell): (q: Pose.PoseState)
    ensures IsDirection(p.direction) && Adjacent(Pose.Cell(p), choice) ==>
      Pose.Cell(q) == choice && IsDirection(q.direction)
  {
    var d := p.direction;
    var q :=
      if choice == TileInDirection(p.x, p.y, d) then Pose.Forward(p)
      else if choice == TileInDirection(p.x, p.y, LeftOf(d)) then Pose.ToLeft(p)
      else if choice == TileInDirection(p.x, p.y, RightOf(d)) then Pose.ToRight(p)
      else Pose.Backward(p);
    if IsDirection(d) && Adjacent(Pose.Cell(p), choice) then
      NeighbourIsOneOfFour(p.x, p.y, d, choice);
      FourRightTurns(d);
      q
    else
      q
  }

  /** The heading after `j` right turns from `d`. */
  function Turned(d: int, j: nat): (t: int)
    ensures IsDirection(t)
  {
    (d + j) % 4
  }

  /** One more right turn from `j` turns. */
  lemma TurnedNext(d: int, j: nat)
    ensures RightOf(Turned(d, j)) == Turned(d, j + 1)
  {
  }

  /** Each heading is `(e - d) % 4` right turns away from `d`. */
  lemma TurnedReaches(d: int, e: int)
    requires IsDirection(e)
    ensures Turned(d, (e - d) % 4) == e
  {
  }

  /** The explorer's invariant: the graph is symmetric with grid-step edges,
      the heading is valid, the robot stands on the stack top (on the start
      once the stack is empty), the stack begins at the start, every entry
      below the top is visited, and consecutive entries are graph
      neighbours. */
  ghost predicate ExplorerInv(p: Pose.PoseState, start: Cell, visited: set<Cell>, g: Graph, stack: seq<Cell>) {
    Symmetric(g) && GridEdges(g) && IsDirection(p.direction)
    && (stack == [] ==> Pose.Cell(p) == start)
    && (stack != [] ==> stack[0] == start && Pose.Cell(p) == stack[|stack| - 1])
    && forall i :: 0 <= i < |stack| - 1 ==> stack[i] in visited && stack[i] in g && stack[i + 1] in g[stack[i]]
  }

  /** The second half of a discover step, after the top has been marked
      and the open sides recorded in `g`: fail if the top has no entry,
      otherwise push an unvisited neighbour of the top, or pop and return
      `emptied` if that empties the stack; the robot moves onto the new top. */
  ghost predicate Advanced(p: Pose.PoseState, visited: set<Cell>, g: Graph, stack: seq<Cell>, emptied: int,
                           p': Pose.PoseState, stack': seq<Cell>, r: Outcome)
    requires |stack| > 0
  {
    var top := stack[|stack| - 1];
    (top !in g ==> r == Failed(Planner.KeyError) && stack' == stack && p' == p)
    && (top in g ==>
         (|stack'| == |stack| + 1 && stack'[..|stack|] == stack
          && stack'[|stack|] in g[top] && stack'[|stack|] !in visited
          && r == Moved && p' == MoveToward(p, stack'[|stack|]))
         || (g[top] <= visited && stack' == stack[..|stack| - 1]
             && (stack' == [] ==> r == Done(emptied) && p' == p)
             && (stack' != [] ==> r == Moved && p' == MoveToward(p, stack'[|stack'| - 1]))))
  }

  /** One discover step after sensing, as a relation between the state
      before (unprimed) and after (primed) and the outcome `r`: the top is
      marked visited, it becomes the centre if the floor says so, an edge is
      recorded toward each open side, and the stack and robot advance. */
  ghost predicate ExploreStep(p: Pose.PoseState, visited: set<Cell>, g: Graph, stack: seq<Cell>, center: Option<Cell>,
                              s: Surroundings, emptied: int,
                              p': Pose.PoseState, visited': set<Cell>, g': Graph, stack': seq<Cell>, center': Option<Cell>,
                              r: Outcome)
    requires |stack| > 0
  {
    var top := stack[|stack| - 1];
    visited' == visited + {top}
    && center' == (if s.groundCenter then Some(top) else center)
    && g' == Record(g, top, OpenSides(p, s))
    && Advanced(p, visited', g', stack, emptied, p', stack', r)
  }

  /** Every discover step keeps the explorer's invariant. */
  lemma ExploreStepKeepsInv(p: Pose.PoseState, start: Cell, visited: set<Cell>, g: Graph, stack: seq<Cell>,
                            center: Option<Cell>, s: Surroundings, emptied: int,
                            p': Pose.PoseState, visited': set<Cell>, g': Graph, stack': seq<Cell>,
                            center': Option<Cell>, r: Outcome)
    requires |stack| > 0 && ExplorerInv(p, start, visited, g, stack)
    requires ExploreStep(p, visited, g, stack, center, s, emptied, p', visited', g', stack', center', r)
    ensures ExplorerInv(p', start, visited', g', stack')
  {
    var top := stack[|stack| - 1];
    RecordKeepsMazeShape(g, top, OpenSides(p, s));
    if top in g' {
      if |stack'| == |stack| + 1 {
        var c := stack'[|stack|];
        assert Adjacent(top, c);
        forall i | 0 <= i < |stack'| - 1
          ensures stack'[i] in visited' && stack'[i] in g' && stack'[i + 1] in g'[stack'[i]]
        {
          if i < |stack| - 1 {
            assert stack'[i] == stack[i] && stack'[i + 1] == stack[i + 1];
          }
        }
      } else if stack' != [] {
        var c := stack'[|stack'| - 1];
        assert c == stack[|stack| - 2];
        assert top in g[c];
        assert Adjacent(c, top);
        assert Adjacent(top, c);
      }
    }
  }

  /** The first discover step from the start is ready to run after setup. */
  lemma SetupEstablishesInv(start: Cell, p: Pose.PoseState)
    requires IsDirection(p.direction) && Pose.Cell(p) == start
    ensures ExplorerInv(p, start, {}, map[], [start])
  {
  }

  /** scripts.py's exit test as written: the status code returned by
      base_script.py's user_pressed_exit is tested for truth, and both codes
      are non-zero. */
  function ExitTestAsWritten(key: int): (stop: bool)
    ensures stop
  {
    Pose.UserPressedExitStatus(key) != 0
  }

  /** The exit test as intended: the status code says Escape was pressed. */
  function ExitRequested(key: int): (stop: bool)
    ensures stop <==> key == Pose.ESCAPE
  {
    Pose.UserPressedExitStatus(key) == STOP_SIMULATION
  }

  /** A key other than Escape already makes the written test stop the run. */
  lemma ExitTestAsWrittenIgnoresKey()
    ensures ExitTestAsWritten(0) && !ExitRequested(0)
  {
  }

  class Explorer {
    const pose: Pose.UserScript
    var visited: set<Cell>
    var graph: Graph
    var stack: seq<Cell>
    var center: Option<Cell>
    var wasRunningBefore: bool

    ghost predicate Valid()
      reads this, pose
    {
      ExplorerInv(pose.State(), pose.start, visited, graph, stack)
    }

    /** The fields start unset; the centre stays unset until the ground
        marker is seen. */
    constructor (pose: Pose.UserScript)
      ensures this.pose == pose && center == None && !wasRunningBefore
      ensures visited == {} && graph == map[] && stack == []
    {
      this.pose := pose;
      visited, graph, stack := {}, map[], [];
      center, wasRunningBefore := None, false;
    }

    /** add_edge_between on the explorer's graph. */
    method AddEdgeBetween(a: Cell, b: Cell)
      modifies this`graph
      ensures graph == AddEdge(old(graph), a, b)
    {
      graph := AddEdge(graph, a, b);
    }

    /** setup: the base pose, no visited cells, no edges, and the start as
        the only stack entry. */
    method Setup()
      modifies this, pose
      ensures pose.start == (0, 0) && pose.State() == Pose.PoseState(0, 0, NORTH) && pose.waitDuration == 100
      ensures visited == {} && graph == map[] && stack == [pose.start] && !wasRunningBefore
      ensures center == old(center)
      ensures Valid()
    {
      pose.Setup();
      visited := {};
      graph := map[];
      stack := [pose.start];
      wasRunningBefore := false;
      SetupEstablishesInv(pose.start, pose.State());
    }

    /** loop's first-frame turning: turn right while the front is walled.
        Four turns in a row mean every side is walled; the source then turns
        forever, and the model stops there. */
    method InitialTurn(s: Surroundings) returns (turns: nat)
      requires IsDirection(pose.direction)
      modifies pose`direction, pose`refreshes
      ensures turns <= 4 && pose.direction == Turned(old(pose.direction), turns)
      ensures forall j :: 0 <= j < turns ==> s.Walled(Turned(old(pose.direction), j))
      ensures turns < 4 ==> !s.Walled(pose.direction)
      ensures turns == 4 <==> forall d :: 0 <= d < 4 ==> s.Walled(d)
      ensures pose.refreshes == old(pose.refreshes) + turns
    {
      turns := 0;
      while turns < 4 && s.Walled(pose.direction)
        invariant turns <= 4 && pose.direction == Turned(old(pose.direction), turns)
        invariant forall j :: 0 <= j < turns ==> s.Walled(Turned(old(pose.direction), j))
        invariant pose.refreshes == old(pose.refreshes) + turns
      {
        TurnedNext(old(pose.direction), turns);
        pose.TurnRight();
        turns := turns + 1;
      }
      if turns == 4 {
        forall d | 0 <= d < 4 ensures s.Walled(d) {
          TurnedReaches(old(pose.direction), d);
        }
      }
    }

    /** discover's scan of the top's neighbours for one not yet visited; the
        order of a Python set is arbitrary, so any such neighbour may come
        first. */
    method ChooseUnvisited(top: Cell) returns (found: bool, choice: Cell)
      requires top in graph
      ensures found ==> choice in graph[top] && choice !in visited
      ensures !found ==> graph[top] <= visited
    {
      var remaining := graph[top];
      found, choice := false, top;
      while remaining != {}
        invariant remaining <= graph[top]
        invariant graph[top] - remaining <= visited
        decreases |remaining|
      {
        var c :| c in remaining;
        if c !in visited {
          return true, c;
        }
        remaining := remaining - {c};
      }
    }

    /** discover's move onto the chosen cell. */
    method Move(choice: Cell)
      modifies pose`x, pose`y, pose`direction, pose`refreshes
      ensures pose.State() == MoveToward(old(pose.State()), choice)
    {
      var d := pose.direction;
      if choice == TileInDirection(pose.x, pose.y, d) {
        pose.GoForward();
      } else if choice == TileInDirection(pose.x, pose.y, LeftOf(d)) {
        pose.GoToLeft();
      } else if choice == TileInDirection(pose.x, pose.y, RightOf(d)) {
        pose.GoToRight();
      } else {
        pose.GoBackward();
      }
    }

    /** discover's three add_edge_between calls, front, left, right, each
        only for an open side. */
    method RecordSides(p: Pose.PoseState, top: Cell, s: Surroundings)
      modifies this`graph
      ensures graph == Record(old(graph), top, OpenSides(p, s))
    {
      var d := p.direction;
      ghost var open: seq<Cell> := [];
      assert graph == Record(old(graph), top, open);
      if !s.Walled(d) {
        RecordSnoc(old(graph), top, open, TileInDirection(p.x, p.y, d));
        AddEdgeBetween(TileInDirection(p.x, p.y, d), top);
        open := open + [TileInDirection(p.x, p.y, d)];
      }
      if !s.Walled(LeftOf(d)) {
        RecordSnoc(old(graph), top, open, TileInDirection(p.x, p.y, LeftOf(d)));
        AddEdgeBetween(TileInDirection(p.x, p.y, LeftOf(d)), top);
        open := open + [TileInDirection(p.x, p.y, LeftOf(d))];
      }
      if !s.Walled(RightOf(d)) {
        RecordSnoc(old(graph), top, open, TileInDirection(p.x, p.y, RightOf(d)));
        AddEdgeBetween(TileInDirection(p.x, p.y, RightOf(d)), top);
        open := open + [TileInDirection(p.x, p.y, RightOf(d))];
      }
      assert open == OpenSides(p, s);
    }

    /** discover's choice: push the first unvisited neighbour of the top, or
        pop and stop when the stack runs empty, then move onto the new top. */
    method Advance(emptied: int) returns (r: Outcome)
      requires |stack| > 0
      modifies this`stack, pose`x, pose`y, pose`direction, pose`refreshes
      ensures Advanced(old(pose.State()), visited, graph, old(stack), emptied, pose.State(), stack, r)
    {
      var top := stack[|stack| - 1];
      if top !in graph {
        return Failed(Planner.KeyError);
      }
      var found, choice := ChooseUnvisited(top);
      if found {
        stack := stack + [choice];
      } else {
        stack := stack[..|stack| - 1];
        if stack == [] {
          return Done(emptied);
        }
        choice := stack[|stack| - 1];
      }
      Move(choice);
      r := Moved;
    }

    /** discover after sensing (the part both versions share): mark the top
        visited, note the centre, record the open sides, then advance.
        `emptied` is the status returned when the stack runs empty. */
    method Explore(s: Surroundings, emptied: int) returns (r: Outcome)
      requires |stack| > 0
      modifies this`visited, this`graph, this`stack, this`center, pose`x, pose`y, pose`direction, pose`refreshes
      ensures ExploreStep(old(pose.State()), old(visited), old(graph), old(stack), old(center), s, emptied,
                          pose.State(), visited, graph, stack, center, r)
    {
      var p := pose.State();
      var top := stack[|stack| - 1];
      visited := visited + {top};
      if s.groundCenter {
        center := Some(top);
      }
      RecordSides(p, top, s);
      r := Advance(emptied);
    }

    /** depth_first_search.py's discover. */
    method Discover(s: Surroundings) returns (r: Outcome)
      requires |stack| > 0
      modifies this`visited, this`graph, this`stack, this`center, pose`x, pose`y, pose`direction, pose`refreshes
      ensures ExploreStep(old(pose.State()), old(visited), old(graph), old(stack), old(center), s, RESUME_SIMULATION,
                          pose.State(), visited, graph, stack, center, r)
    {
      r := Explore(s, RESUME_SIMULATION);
    }

    /** scripts.py's discover, with the exit test as intended: Escape stops
        the run before any sensing or state change. */
    method LegacyDiscover(key: int, s: Surroundings) returns (r: Outcome)
      requires |stack| > 0
      modifies this`visited, this`graph, this`stack, this`center, pose`x, pose`y, pose`direction, pose`refreshes
      ensures ExitRequested(key) ==>
                r == Done(LEGACY_STOP) && visited == old(visited) && graph == old(graph)
                && stack == old(stack) && center == old(center) && pose.State() == old(pose.State())
      ensures !ExitRequested(key) ==>
        ExploreStep(old(pose.State()), old(visited), old(graph), old(stack), old(center), s, RESUME_LOOP,
                    pose.State(), visited, graph, stack, center, r)
    {
      if ExitRequested(key) {
        return Done(LEGACY_STOP);
      }
      r := Explore(s, RESUME_LOOP);
    }

    /** go_to_center: label the graph by distance from the centre, stopping at
        `search`, descend from the start and follow the descent.  With a
        symmetric graph whose edges are grid steps, the robot on the start and
        the start searched for, a returned route ends on the centre; when the
        start is the centre itself the route is just [start] and the robot
        steps off it. */
    method GoToCenter(search: Cell) returns (r: Result<seq<Cell>, Planner.PlanError>)
      modifies pose`x, pose`y, pose`direction, pose`refreshes
      ensures r.Ok? ==> pose.State() == Planner.Replay(old(pose.State()), r.value)
      ensures r.Err? ==> pose.State() == old(pose.State())
      ensures (Symmetric(graph) && search == pose.start && search in graph && center.Some? && center.value in graph
               && Planner.Reachable(graph, center.value, search)) ==> r.Ok?
      ensures r.Ok? && Symmetric(graph) && GridEdges(graph) && IsDirection(old(pose.direction))
              && search == pose.start && Pose.Cell(old(pose.State())) == pose.start ==>
        center.Some? && (if center.value == search then r.value == [search] && Pose.Cell(pose.State()) != search
                         else Pose.Cell(pose.State()) == center.value)
    {
      var labels := Planner.Bfs(graph, center, search);
      if labels.Err? {
        if Symmetric(graph) {
          SymmetricIsClosed(graph);
        }
        return Err(labels.error);
      }
      if Symmetric(graph) && search == pose.start && search in graph {
        Planner.BfsLabelsDescend(graph, labels.value, center.value, search);
      }
      var path := Planner.ShortestPath(graph, labels.value, pose.start);
      if path.Err? {
        return Err(path.error);
      }
      ghost var p := pose.State();
      Planner.FollowPath(pose, path.value);
      r := Ok(path.value);
      if Symmetric(graph) && GridEdges(graph) && IsDirection(p.direction) && search == pose.start && Pose.Cell(p) == pose.start {
        Planner.RouteArrives(graph, labels.value, center.value, search, p, path.value);
      }
    }

    /** depth_first_search.py's loop: on the first frame turn until the
        front is open, then discover while the stack holds cells, else go to
        the centre and stop. `turns` is the number of first-frame turns,
        `turned` the pose after them, and `route` the route followed to the
        centre, when one is. */
    method Loop(s: Surroundings) returns (r: Outcome, ghost turns: nat, ghost turned: Pose.PoseState, ghost route: seq<Cell>)
      requires Valid()
      modifies this`visited, this`graph, this`stack, this`center, this`wasRunningBefore
      modifies pose`x, pose`y, pose`direction, pose`refreshes
      ensures Valid() || r.Done?
      ensures r == Spinning <==> !old(wasRunningBefore) && forall d :: 0 <= d < 4 ==> s.Walled(d)
      ensures r != Spinning ==> wasRunningBefore
      ensures old(stack) == [] && r.Done? ==> r.status == STOP_SIMULATION
      ensures old(stack) != [] && r.Done? ==> r.status == RESUME_SIMULATION && stack == []
      // the first frame's turns, or none on a later frame
      ensures old(wasRunningBefore) ==> turns == 0
      ensures turns <= 4 && forall j :: 0 <= j < turns ==> s.Walled(Turned(old(pose.direction), j))
      ensures !old(wasRunningBefore) && turns < 4 ==> !s.Walled(Turned(old(pose.direction), turns))
      ensures turned == Pose.PoseState(old(pose.x), old(pose.y), Turned(old(pose.direction), turns))
      // a spinning frame only turns
      ensures r == Spinning ==>
        pose.State() == turned && !wasRunningBefore && visited == old(visited) && graph == old(graph)
        && stack == old(stack) && center == old(center)
      // a discover frame is one exploration step from the turned pose
      ensures r != Spinning && old(stack) != [] ==>
        ExploreStep(turned, old(visited), old(graph), old(stack), old(center), s, RESUME_SIMULATION,
                    pose.State(), visited, graph, stack, center, r)
      // the centre frame follows the route and changes nothing else
      ensures r != Spinning && old(stack) == [] ==>
        visited == old(visited) && graph == old(graph) && stack == old(stack) && center == old(center)
        && (r.Done? ==> pose.State() == Planner.Replay(turned, route))
        && (!r.Done? ==> r.Failed? && pose.State() == turned)
      ensures r != Spinning && old(stack) == [] && r.Done? ==>
        center.Some? && (center.value == pose.start || Pose.Cell(pose.State()) == center.value)
      ensures (r != Spinning && old(stack) == [] && pose.start in graph && center.Some? && center.value in graph
               && Planner.Reachable(graph, center.value, pose.start)) ==> r.Done?
    {
      turns, route := 0, [];
      if !wasRunningBefore {
        var t := InitialTurn(s);
        turns := t;
        if t == 4 {
          return Spinning, turns, pose.State(), route;
        }
        wasRunningBefore := true;
      }
      turned := pose.State();
      r, route := Frame(s);
    }

    /** The rest of depth_first_search.py's loop, once the front is open:
        discover while the stack holds cells, else go to the centre. */
    method Frame(s: Surroundings) returns (r: Outcome, ghost route: seq<Cell>)
      requires Valid()
      modifies this`visited, this`graph, this`stack, this`center
      modifies pose`x, pose`y, pose`direction, pose`refreshes
      ensures Valid() || r.Done?
      ensures r != Spinning
      ensures old(stack) == [] && r.Done? ==> r.status == STOP_SIMULATION
      ensures old(stack) != [] && r.Done? ==> r.status == RESUME_SIMULATION && stack == []
      ensures old(stack) != [] ==>
        ExploreStep(old(pose.State()), old(visited), old(graph), old(stack), old(center), s, RESUME_SIMULATION,
                    pose.State(), visited, graph, stack, center, r)
      ensures old(stack) == [] ==>
        visited == old(visited) && graph == old(graph) && stack == old(stack) && center == old(center)
        && (r.Done? ==> pose.State() == Planner.Replay(old(pose.State()), route))
        && (!r.Done? ==> r.Failed? && pose.State() == old(pose.State()))
      ensures old(stack) == [] && r.Done? ==>
        center.Some? && (center.value == pose.start || Pose.Cell(pose.State()) == center.value)
      ensures (old(stack) == [] && pose.start in graph && center.Some? && center.value in graph
               && Planner.Reachable(graph, center.value, pose.start)) ==> r.Done?
    {
      route := [];
      if stack != [] {
        ghost var p, v, g, st, c := pose.State(), visited, graph, stack, center;
        r := Discover(s);
        ExploreStepKeepsInv(p, pose.start, v, g, st, c, s, RESUME_SIMULATION, pose.State(), visited, graph, stack, center, r);
      } else {
        var path := GoToCenter(pose.start);
        if path.Ok? {
          route := path.value;
        }
        r := if path.Ok? then Done(STOP_SIMULATION) else Failed(path.error);
      }
    }

    /** scripts.py's loop: discover while the stack holds cells, else go to
        the centre, searching from (0, 0) rather than from the start. `route`
        is the route followed to the centre, when one is. */
    method LegacyLoop(key: int, s: Surroundings) returns (r: Outcome, ghost route: seq<Cell>)
      requires Valid()
      modifies this`visited, this`graph, this`stack, this`center
      modifies pose`x, pose`y, pose`direction, pose`refreshes
      ensures Valid() || r.Done?
      ensures old(stack) == [] && r.Done? ==> r.status == LEGACY_STOP
      ensures old(stack) != [] && r.Done? ==> (r.status == LEGACY_STOP && ExitRequested(key)) || (r.status == RESUME_LOOP && stack == [])
      // Escape during discovery stops before any change
      ensures old(stack) != [] && ExitRequested(key) ==>
        r == Done(LEGACY_STOP) && pose.State() == old(pose.State()) && visited == old(visited)
        && graph == old(graph) && stack == old(stack) && center == old(center)
      // otherwise a discover frame is one exploration step
      ensures old(stack) != [] && !ExitRequested(key) ==>
        ExploreStep(old(pose.State()), old(visited), old(graph), old(stack), old(center), s, RESUME_LOOP,
                    pose.State(), visited, graph, stack, center, r)
      // the centre frame follows the route and changes nothing else
      ensures old(stack) == [] ==>
        visited == old(visited) && graph == old(graph) && stack == old(stack) && center == old(center)
        && (r.Done? ==> pose.State() == Planner.Replay(old(pose.State()), route))
        && (!r.Done? ==> r.Failed? && pose.State() == old(pose.State()))
    {
      route := [];
      if stack != [] {
        ghost var p, v, g, st, c := pose.State(), visited, graph, stack, center;
        r := LegacyDiscover(key, s);
        if !ExitRequested(key) {
          ExploreStepKeepsInv(p, pose.start, v, g, st, c, s, RESUME_LOOP, pose.State(), visited, graph, stack, center, r);
        }
      } else {
        // the source's wait for Escape after the route ends at once as
        // written (the truth test of Findings), so the frame stops
        var path := GoToCenter((0, 0));
        if path.Ok? {
          route := path.value;
        }
        r := if path.Ok? then Done(LEGACY_STOP) else Failed(path.error);
      }
    }
  }
}
