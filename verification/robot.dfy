/** The simulated robot of robot.py: a pose on the tile grid, turns, steps,
    and distance sensors that walk a ray over the thresholded maze image
    until it meets a barrier pixel. */
module Robots {
  import opened Wrappers
  import opened Datatypes

  /** What the robot's operations can raise. */
  datatype RobotError =
    | UndefinedDirection  // a step or a ray in a direction outside 0..3
    | UnboundDistance     // a ray of length 0: the loop never binds its counter
    | MapIndexError       // the ray left the image

  /** The cell reached by one step of `__go`: forward adds one along the
      heading, backward subtracts one; an undefined heading raises. */
  function GoTo(c: Cell, d: int, forward: bool): (r: Result<Cell, RobotError>)
    ensures r.Err? <==> !IsDirection(d)
    ensures r.Err? ==> r.error == UndefinedDirection
  {
    var m := if forward then 1 else -1;
    if d == EAST then Ok((c.0 + m, c.1))
    else if d == WEST then Ok((c.0 - m, c.1))
    else if d == NORTH then Ok((c.0, c.1 - m))
    else if d == SOUTH then Ok((c.0, c.1 + m))
    else Err(UndefinedDirection)
  }

  /** A forward step lands on the tile ahead and a backward step on the tile
      behind: each changes exactly one coordinate by one. */
  lemma GoStepsOneTile(c: Cell, d: int)
    requires IsDirection(d)
    ensures GoTo(c, d, true) == Ok(TileInDirection(c.0, c.1, d))
    ensures GoTo(c, d, false) == Ok(TileInDirection(c.0, c.1, Behind(d)))
    ensures Adjacent(c, GoTo(c, d, true).value) && Adjacent(c, GoTo(c, d, false).value)
  {
  }

  /** Going forward and then backward on the same heading returns to the
      starting cell, and so does going backward then forward. */
  lemma ForwardBackwardRestores(c: Cell, d: int)
    requires IsDirection(d)
    ensures GoTo(GoTo(c, d, true).value, d, false) == Ok(c)
    ensures GoTo(GoTo(c, d, false).value, d, true) == Ok(c)
  {
  }

  /** A numpy index into an axis of length `len`: negative indices count
      from the end once, anything else out of range raises IndexError. */
  function NumpyIndex(len: nat, i: int): (r: Option<nat>)
    ensures r.Some? <==> -(len as int) <= i < len
    ensures r.Some? ==> r.value < len && (r.value as int - i) % len == 0
  {
    if 0 <= i < len then Some(i)
    else if -(len as int) <= i < 0 then Some(len + i)
    else None
  }

  /** The pixel `mazeMap[y, x]` of the image (rows first), or None where numpy
      raises IndexError. */
  function Pixel(m: seq<seq<int>>, c: Cell): Option<int> {
    match NumpyIndex(|m|, c.1)
    case None => None
    case Some(row) =>
      match NumpyIndex(|m[row]|, c.0)
      case None => None
      case Some(col) => Some(m[row][col])
  }

  /** The pixel `j` steps from `start` along direction `d`. */
  function Ray(start: Cell, d: int, j: nat): Cell {
    if j == 0 then start
    else var c := Ray(start, d, j - 1); TileInDirection(c.0, c.1, d)
  }

  /** The ray walk from the `i`-th iteration on, standing on pixel `c`. */
  function SignalFrom(m: seq<seq<int>>, c: Cell, d: int, i: nat, max: int, barrier: int): (r: Result<int, RobotError>)
    requires i < max
    ensures r.Err? ==> r.error != UnboundDistance
    ensures r.Ok? ==> i <= r.value < max
    decreases max - i
  {
    match Pixel(m, c)
    case None => Err(MapIndexError)
    case Some(v) =>
      if v == barrier then Ok(i)
      else if !IsDirection(d) then Err(UndefinedDirection)
      else if i == max - 1 then Ok(i)
      else SignalFrom(m, TileInDirection(c.0, c.1, d), d, i + 1, max, barrier)
  }

  /** What `__sendSignal` returns for a ray from `start`: the counter is
      unbound exactly when the length is not positive, and a distance lies
      in [0, max). */
  function Signal(m: seq<seq<int>>, start: Cell, d: int, max: int, barrier: int): (r: Result<int, RobotError>)
    ensures max <= 0 <==> r == Err(UnboundDistance)
    ensures r.Ok? ==> 0 <= r.value < max
  {
    if max <= 0 then Err(UnboundDistance) else SignalFrom(m, start, d, 0, max, barrier)
  }

  /** The ray has crossed `k` pixels, all inside the image and none of the
      barrier colour. */
  ghost predicate ClearFor(m: seq<seq<int>>, start: Cell, d: int, k: nat, barrier: int) {
    forall j :: 0 <= j < k ==> Pixel(m, Ray(start, d, j)).Some? && Pixel(m, Ray(start, d, j)).value != barrier
  }

  /** The meaning of the walk from iteration `i`: its result `k` lies in
      [i, max), every pixel before it is clear, and pixel `k` is the barrier
      unless the walk ran out of iterations. */
  lemma {:induction false} SignalFromFindsBarrier(m: seq<seq<int>>, start: Cell, d: int, i: nat, max: int, barrier: int)
    requires i < max && ClearFor(m, start, d, i, barrier)
    ensures var r := SignalFrom(m, Ray(start, d, i), d, i, max, barrier);
      r.Ok? ==>
        (i <= r.value < max && ClearFor(m, start, d, r.value, barrier)
         && (Pixel(m, Ray(start, d, r.value)) == Some(barrier) || r.value == max - 1))
    decreases max - i
  {
    var c := Ray(start, d, i);
    match Pixel(m, c)
    case None =>
    case Some(v) =>
      if v != barrier && IsDirection(d) && i != max - 1 {
        assert Ray(start, d, i + 1) == TileInDirection(c.0, c.1, d);
        SignalFromFindsBarrier(m, start, d, i + 1, max, barrier);
      }
  }

  /** Conversely, when pixel `k` is the first barrier pixel on a ray with a
      defined direction, the walk from iteration `i` returns `k`. */
  lemma {:induction false} FirstBarrierIsFound(m: seq<seq<int>>, start: Cell, d: int, i: nat, k: nat, max: int, barrier: int)
    requires IsDirection(d) && i <= k < max
    requires ClearFor(m, start, d, k, barrier) && Pixel(m, Ray(start, d, k)) == Some(barrier)
    ensures SignalFrom(m, Ray(start, d, i), d, i, max, barrier) == Ok(k)
    decreases k - i
  {
    if i < k {
      var c := Ray(start, d, i);
      assert Pixel(m, c).Some? && Pixel(m, c).value != barrier;
      assert Ray(start, d, i + 1) == TileInDirection(c.0, c.1, d);
      FirstBarrierIsFound(m, start, d, i + 1, k, max, barrier);
    }
  }

  /** `__sendSignal` returns the index of the first barrier pixel on the ray,
      or `maxSignalDist - 1` if there is none within reach; the result is
      always in [0, maxSignalDist). A length of 0 leaves the counter unbound,
      and an undefined direction raises unless the starting pixel is
      already a barrier. */
  lemma SignalIsFirstBarrier(m: seq<seq<int>>, start: Cell, d: int, max: int, barrier: int)
    ensures var r := Signal(m, start, d, max, barrier);
      r.Ok? ==>
        (ClearFor(m, start, d, r.value, barrier)
         && (Pixel(m, Ray(start, d, r.value)) == Some(barrier) || r.value == max - 1))
    ensures forall k: nat ::
      (IsDirection(d) && k < max && ClearFor(m, start, d, k, barrier) && Pixel(m, Ray(start, d, k)) == Some(barrier))
      ==> Signal(m, start, d, max, barrier) == Ok(k)
    ensures max > 0 && !IsDirection(d) && Pixel(m, start).Some? && Pixel(m, start).value != barrier
        ==> Signal(m, start, d, max, barrier) == Err(UndefinedDirection)
  {
    if max > 0 {
      SignalFromFindsBarrier(m, start, d, 0, max, barrier);
      forall k: nat | IsDirection(d) && k < max && ClearFor(m, start, d, k, barrier)
          && Pixel(m, Ray(start, d, k)) == Some(barrier)
        ensures Signal(m, start, d, max, barrier) == Ok(k)
      {
        FirstBarrierIsFound(m, start, d, 0, k, max, barrier);
      }
    }
  }

  /** The loop of `__sendSignal`: walk from `start` along `d` for at most
      `max` iterations, stopping at the first pixel of colour `barrier`. */
  method WalkRay(m: seq<seq<int>>, start: Cell, d: int, max: int, barrier: int) returns (r: Result<int, RobotError>)
    ensures r == Signal(m, start, d, max, barrier)
  {
    if max <= 0 {
      return Err(UnboundDistance);
    }
    var posX, posY := start.0, start.1;
    var distance: nat := 0;
    while true
      invariant distance < max
      invariant SignalFrom(m, (posX, posY), d, distance, max, barrier) == Signal(m, start, d, max, barrier)
      decreases max - distance
    {
      var v := Pixel(m, (posX, posY));
      if v.None? {
        return Err(MapIndexError);
      }
      if v.value == barrier {
        return Ok(distance);
      }
      if d == EAST {
        posX := posX + 1;
      } else if d == WEST {
        posX := posX - 1;
      } else if d == NORTH {
        posY := posY - 1;
      } else if d == SOUTH {
        posY := posY + 1;
      } else {
        return Err(UndefinedDirection);
      }
      if distance == max - 1 {
        return Ok(distance);
      }
      distance := distance + 1;
    }
  }

  /** A ray in an undefined direction never gets past its first pixel: if it
      returns a distance, that distance is 0. */
  lemma UndefinedRayStopsAtStart(m: seq<seq<int>>, start: Cell, d: int, max: int, barrier: int)
    ensures !IsDirection(d) && Signal(m, start, d, max, barrier).Ok? ==> Signal(m, start, d, max, barrier).value == 0
  {
  }

  /** The pixel the sensors start from: the tile's top corner (x*side,
      y*side) minus half a side on both axes, truncated to integers by
      iterating the Point. */
  function CenterPixel(x: int, y: int, side: int): Cell {
    var corner := Point((x * side) as real, (y * side) as real);
    var half := Number(side as real * 0.5);
    Iter(Sub(corner, half).value)
  }

  /** For an even side length that is exact integer arithmetic. */
  lemma CenterPixelOfEvenSide(x: int, y: int, side: int)
    requires side % 2 == 0
    ensures CenterPixel(x, y, side) == (x * side - side / 2, y * side - side / 2)
  {
    var h := side / 2;
    assert side as real * 0.5 == h as real;
    assert (x * side) as real - h as real == (x * side - h) as real;
    assert (y * side) as real - h as real == (y * side - h) as real;
  }

  class Robot {
    var x: int
    var y: int
    var direction: int
    const mazeMap: seq<seq<int>>
    const side: int

    function Cell(): Cell
      reads this`x, this`y
    {
      (x, y)
    }

    constructor (x: int, y: int, direction: int, mazeMap: seq<seq<int>>, side: int)
      ensures this.x == x && this.y == y && this.direction == direction
      ensures this.mazeMap == mazeMap && this.side == side
    {
      this.x, this.y, this.direction := x, y, direction;
      this.mazeMap, this.side := mazeMap, side;
    }

    function LeftSideDirection(): (d: int)
      reads this`direction
      ensures IsDirection(d) && RightOf(d) == direction % DIRECTIONS
    {
      RightLeftInverse(direction);
      LeftOf(direction)
    }

    function RightSideDirection(): (d: int)
      reads this`direction
      ensures IsDirection(d) && LeftOf(d) == direction % DIRECTIONS
    {
      RightLeftInverse(direction);
      RightOf(direction)
    }

    /** `__go`: one step forward or backward along the heading; an undefined
        heading raises and moves nothing. */
    method Go(forward: bool) returns (r: Result<Cell, RobotError>)
      modifies this`x, this`y
      ensures r == GoTo(old(Cell()), direction, forward)
      ensures Cell() == if r.Ok? then r.value else old(Cell())
    {
      var m := if forward then 1 else -1;
      if direction == EAST {
        x := x + m;
      } else if direction == WEST {
        x := x - m;
      } else if direction == NORTH {
        y := y - m;
      } else if direction == SOUTH {
        y := y + m;
      } else {
        return Err(UndefinedDirection);
      }
      r := Ok(Cell());
    }

    /** `__rotate`: a quarter turn to the right or to the left, in place. */
    method Rotate(clockwise: bool)
      modifies this`direction
      ensures direction == if clockwise then RightOf(old(direction)) else LeftOf(old(direction))
    {
      if clockwise {
        direction := RightSideDirection();
      } else {
        direction := LeftSideDirection();
      }
    }

    method GoForward() returns (r: Result<Cell, RobotError>)
      modifies this`x, this`y
      ensures r == GoTo(old(Cell()), direction, true)
      ensures Cell() == if r.Ok? then r.value else old(Cell())
    {
      r := Go(true);
    }

    method GoBackward() returns (r: Result<Cell, RobotError>)
      modifies this`x, this`y
      ensures r == GoTo(old(Cell()), direction, false)
      ensures Cell() == if r.Ok? then r.value else old(Cell())
    {
      r := Go(false);
    }

    method TurnClockwise()
      modifies this`direction
      ensures direction == RightOf(old(direction))
    {
      Rotate(true);
    }

    method TurnCounterClockwise()
      modifies this`direction
      ensures direction == LeftOf(old(direction))
    {
      Rotate(false);
    }

    /** `__sendSignal`: walk from the centre pixel along `signalDirection`
        for at most `maxSignalDist` iterations, stopping at the first pixel
        of colour `barrierColor`. */
    method SendSignal(signalDirection: int, maxSignalDist: int, barrierColor: int) returns (r: Result<int, RobotError>)
      ensures r == Signal(mazeMap, CenterPixel(x, y, side), signalDirection, maxSignalDist, barrierColor)
    {
      r := WalkRay(mazeMap, CenterPixel(x, y, side), signalDirection, maxSignalDist, barrierColor);
    }

    /** The three sensors: a ray of at most 1000 pixels toward barrier colour
        0, ahead, to the left and to the right of the heading. */
    method FrontSensor() returns (r: Result<int, RobotError>)
      ensures r == Signal(mazeMap, CenterPixel(x, y, side), direction, 1000, 0)
    {
      r := SendSignal(direction, 1000, 0);
    }

    method LeftSensor() returns (r: Result<int, RobotError>)
      ensures r == Signal(mazeMap, CenterPixel(x, y, side), LeftOf(direction), 1000, 0)
    {
      r := SendSignal(LeftSideDirection(), 1000, 0);
    }

    method RightSensor() returns (r: Result<int, RobotError>)
      ensures r == Signal(mazeMap, CenterPixel(x, y, side), RightOf(direction), 1000, 0)
    {
      r := SendSignal(RightSideDirection(), 1000, 0);
    }
  }

  /** Turning clockwise and then counter-clockwise (or the other way round)
      gives back the heading, and a backward step after a forward step gives
      back the cell. */
  method TurnsAndStepsUndo(r: Robot)
    requires IsDirection(r.direction)
    modifies r
    ensures r.direction == old(r.direction) && r.Cell() == old(r.Cell())
  {
    r.TurnClockwise();
    r.TurnCounterClockwise();
    RightLeftInverse(old(r.direction));
    var a := r.GoForward();
    var b := r.GoBackward();
    ForwardBackwardRestores(old(r.Cell()), r.direction);
  }
}
