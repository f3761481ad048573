/** Pose bookkeeping of the tuple-coordinate user scripts: the robot's cell
    (x, y) and its heading, updated by turns and one-cell moves.  The three
    base classes scripts/base_script.py, base_script.py and base.py share this
    movement logic; they differ only in how a key press is reported. */
module Pose {
  import opened Datatypes

  /** The part of a script's state the movement methods change. */
  datatype PoseState = PoseState(x: int, y: int, direction: int)

  function Cell(p: PoseState): Cell {
    (p.x, p.y)
  }

  /** One step in the current heading. */
  function Forward(p: PoseState): (q: PoseState)
    ensures q.direction == p.direction
    ensures IsDirection(p.direction) ==> Adjacent(Cell(p), Cell(q))
    ensures !IsDirection(p.direction) ==> Cell(q) == Cell(p)
  {
    var c := TileInDirection(p.x, p.y, p.direction);
    PoseState(c.0, c.1, p.direction)
  }

  /** A quarter turn clockwise, in place. */
  function TurnedRight(p: PoseState): (q: PoseState)
    ensures Cell(q) == Cell(p) && IsDirection(q.direction)
  {
    p.(direction := RightOf(p.direction))
  }

  /** A quarter turn counter-clockwise, in place. */
  function TurnedLeft(p: PoseState): (q: PoseState)
    ensures Cell(q) == Cell(p) && IsDirection(q.direction)
  {
    p.(direction := LeftOf(p.direction))
  }

  /** Turn right, then step: the robot lands on the tile to the right of
      where it stood and faces that way. */
  function ToRight(p: PoseState): (q: PoseState)
    ensures Cell(q) == TileInDirection(p.x, p.y, RightOf(p.direction))
    ensures q.direction == RightOf(p.direction)
  {
    Forward(TurnedRight(p))
  }

  /** Turn left, then step: the robot lands on the tile to the left of
      where it stood and faces that way. */
  function ToLeft(p: PoseState): (q: PoseState)
    ensures Cell(q) == TileInDirection(p.x, p.y, LeftOf(p.direction))
    ensures q.direction == LeftOf(p.direction)
  {
    Forward(TurnedLeft(p))
  }

  /** Two right turns, then step: the robot lands on the tile behind it
      and faces back. */
  function Backward(p: PoseState): (q: PoseState)
    ensures Cell(q) == TileInDirection(p.x, p.y, Behind(p.direction))
    ensures q.direction == Behind(p.direction)
  {
    FourRightTurns(p.direction);
    Forward(TurnedRight(TurnedRight(p)))
  }

  /** Right and left turns undo each other, and four right turns change
      nothing, for any valid heading. */
  lemma TurnsAreInverse(p: PoseState)
    requires IsDirection(p.direction)
    ensures TurnedLeft(TurnedRight(p)) == p
    ensures TurnedRight(TurnedLeft(p)) == p
    ensures TurnedRight(TurnedRight(TurnedRight(TurnedRight(p)))) == p
  {
    RightLeftInverse(p.direction);
    FourRightTurns(p.direction);
  }

  /** Going backward twice returns to the same cell with the same heading. */
  lemma BackwardTwiceRestores(p: PoseState)
    requires IsDirection(p.direction)
    ensures Backward(Backward(p)) == p
  {
    StepBackReturns(p.x, p.y, p.direction);
  }

  /** What the three distance sensors report at the robot's cell, relative
      to its real heading: a wall in front, to the left, to the right (each a
      reading below the cell side, as Sensed says). */
  datatype Sides = Sides(front: bool, left: bool, right: bool)

  /** The three sensor predicates on one set of distance readings: a side
      is walled when its reading is shorter than a cell side. */
  function Sensed(front: int, left: int, right: int, side: int): (r: Sides)
    ensures r.front <==> front < side
    ensures r.left <==> left < side
    ensures r.right <==> right < side
  {
    Sides(front < side, left < side, right < side)
  }

  /** The key code of the Escape key. */
  const ESCAPE: int := 27

  /** base_script.py: the status reported for the key read while waiting. */
  function UserPressedExitStatus(key: int): (status: int)
    ensures status == STOP_SIMULATION <==> key == ESCAPE
    ensures status == STOP_SIMULATION || status == RESUME_SIMULATION
  {
    if key == ESCAPE then STOP_SIMULATION else RESUME_SIMULATION
  }

  /** base.py: whether the key read while waiting was Escape. */
  function UserPressedExit(key: int): (pressed: bool)
    ensures pressed <==> UserPressedExitStatus(key) == STOP_SIMULATION
  {
    key == ESCAPE
  }

  /** A user script's pose and timing fields.  `refreshes` counts the calls
      of the screen-refresh callback, which every primitive move makes once. */
  class UserScript {
    var x: int
    var y: int
    var direction: int
    var start: Cell
    var waitDuration: int
    var refreshes: nat

    function State(): PoseState
      reads this`x, this`y, this`direction
    {
      PoseState(x, y, direction)
    }

    constructor ()
      ensures refreshes == 0
    {
      refreshes := 0;
    }

    /** Starting values: cell (0, 0) facing north, 100 ms between frames. */
    method Setup()
      modifies this
      ensures start == (0, 0) && State() == PoseState(0, 0, NORTH)
      ensures waitDuration == 100 && refreshes == old(refreshes)
    {
      start := (0, 0);
      x, y := start.0, start.1;
      direction := NORTH;
      waitDuration := 100;
    }

    /** The default per-frame hook: it asks the runner to keep going. */
    method Loop() returns (status: int)
      ensures status == RESUME_SIMULATION
    {
      status := RESUME_SIMULATION;
    }

    method TurnRight()
      modifies this`direction, this`refreshes
      ensures State() == TurnedRight(old(State()))
      ensures refreshes == old(refreshes) + 1
    {
      direction := (direction + 1) % 4;
      refreshes := refreshes + 1;
    }

    method TurnLeft()
      modifies this`direction, this`refreshes
      ensures State() == TurnedLeft(old(State()))
      ensures refreshes == old(refreshes) + 1
    {
      direction := (direction - 1) % 4;
      refreshes := refreshes + 1;
    }

    method GoForward()
      modifies this`x, this`y, this`refreshes
      ensures State() == Forward(old(State()))
      ensures refreshes == old(refreshes) + 1
    {
      x, y := TileInDirection(x, y, direction).0, TileInDirection(x, y, direction).1;
      refreshes := refreshes + 1;
    }

    method GoToRight()
      modifies this`x, this`y, this`direction, this`refreshes
      ensures State() == ToRight(old(State()))
      ensures refreshes == old(refreshes) + 2
    {
      TurnRight();
      GoForward();
    }

    method GoToLeft()
      modifies this`x, this`y, this`direction, this`refreshes
      ensures State() == ToLeft(old(State()))
      ensures refreshes == old(refreshes) + 2
    {
      TurnLeft();
      GoForward();
    }

    method GoBackward()
      modifies this`x, this`y, this`direction, this`refreshes
      ensures State() == Backward(old(State()))
      ensures refreshes == old(refreshes) + 3
    {
      TurnRight();
      TurnRight();
      GoForward();
    }
  }
}
