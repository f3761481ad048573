/** Pose bookkeeping of the optimized scripts (optimized_base_script.py): a
    cell is one flat index pos = x * N + y on an N x N board. */
module FlatPose {
  import opened Datatypes

  /** Flat index of cell (x, y). */
  function GetPos(n: nat, x: int, y: int): int {
    x * n + y
  }

  /** For y in 0..N-1, decoding the flat index of (x, y) gives (x, y)
      back. */
  lemma DecodeGetPos(n: nat, x: int, y: int)
    requires 0 <= y < n
    ensures GetX(n, GetPos(n, x, y)) == x && GetY(n, GetPos(n, x, y)) == y
  {
    DivModUnique(n, x, y, x * n + y);
  }

  /** The x coordinate of a flat index (floor division): the column whose
      indices x * N .. x * N + N - 1 hold `pos`. */
  function GetX(n: nat, pos: int): (x: int)
    requires n > 0
    ensures x * n <= pos < x * n + n
  {
    pos / n
  }

  /** The y coordinate of a flat index (floor remainder). */
  function GetY(n: nat, pos: int): (y: int)
    requires n > 0
    ensures 0 <= y < n
  {
    pos % n
  }

  /** Decoding an index and encoding the coordinates again gives the same
      index, for every integer index. */
  lemma EncodeDecode(n: nat, pos: int)
    requires n > 0
    ensures GetPos(n, GetX(n, pos), GetY(n, pos)) == pos
  {
  }

  lemma DivModUnique(n: nat, q: int, r: int, v: int)
    requires 0 <= r < n && v == q * n + r
    ensures v / n == q && v % n == r
  {
    var q', r' := v / n, v % n;
    assert q' * n + r' == q * n + r;
    if q' < q {
      assert (q - q') * n == r' - r;
      assert (q - q') * n >= n by { MulAtLeast(q - q', n); }
      assert false;
    } else if q' > q {
      assert (q' - q) * n == r - r';
      assert (q' - q) * n >= n by { MulAtLeast(q' - q, n); }
      assert false;
    }
  }

  lemma MulAtLeast(k: int, n: nat)
    requires k >= 1
    ensures k * n >= n
  {
  }

  /** The flat index of the neighbouring cell: the coordinates are moved and
      encoded again without any range check. */
  function TileIndexInDirection(n: nat, pos: int, d: int): (p: int)
    requires n > 0
    ensures !IsDirection(d) ==> p == pos
    ensures d == EAST ==> p == pos + n
    ensures d == WEST ==> p == pos - n
    ensures d == NORTH ==> p == pos - 1
    ensures d == SOUTH ==> p == pos + 1
  {
    var c := Datatypes.TileInDirection(GetX(n, pos), GetY(n, pos), d);
    EncodeDecode(n, pos);
    GetPos(n, c.0, c.1)
  }

  /** Stepping north from the top of a column lands at the bottom of the
      previous column: the index of (x, -1) decodes to (x - 1, N - 1). */
  lemma NorthWrapsToPreviousColumn(n: nat, x: int)
    requires n > 0
    ensures GetX(n, GetPos(n, x, -1)) == x - 1
    ensures GetY(n, GetPos(n, x, -1)) == n - 1
  {
    assert GetPos(n, x, -1) == GetPos(n, x - 1, n - 1);
    DecodeGetPos(n, x - 1, n - 1);
  }

  /** Stepping south from the bottom of a column lands at the top of the
      next column: the index of (x, N) decodes to (x + 1, 0). */
  lemma SouthWrapsToNextColumn(n: nat, x: int)
    requires n > 0
    ensures GetX(n, GetPos(n, x, n)) == x + 1
    ensures GetY(n, GetPos(n, x, n)) == 0
  {
    assert GetPos(n, x, n) == GetPos(n, x + 1, 0);
    DecodeGetPos(n, x + 1, 0);
  }

  datatype FlatState = FlatState(pos: int, direction: int)

  function Forward(n: nat, s: FlatState): (t: FlatState)
    requires n > 0
    ensures t.direction == s.direction
    ensures IsDirection(s.direction) ==> t.pos != s.pos
  {
    FlatState(TileIndexInDirection(n, s.pos, s.direction), s.direction)
  }

  function TurnedRight(s: FlatState): FlatState {
    s.(direction := RightOf(s.direction))
  }

  function TurnedLeft(s: FlatState): FlatState {
    s.(direction := LeftOf(s.direction))
  }

  /** go_backward here turns left twice before stepping. Turning left twice
      faces the same way as turning right twice, so the move lands on the
      tile behind and ends facing backward. */
  function Backward(n: nat, s: FlatState): (t: FlatState)
    requires n > 0
    ensures IsDirection(s.direction) ==>
      t.direction == Behind(s.direction) && t.pos == TileIndexInDirection(n, s.pos, Behind(s.direction))
  {
    FourRightTurns(s.direction);
    Forward(n, TurnedLeft(TurnedLeft(s)))
  }

  /** Going backward twice restores the pose. */
  lemma BackwardReverses(n: nat, s: FlatState)
    requires n > 0 && IsDirection(s.direction)
    ensures Backward(n, Backward(n, s)) == s
  {
    FourRightTurns(s.direction);
    FourRightTurns(Behind(s.direction));
  }

  /** Right and left turns undo each other and four right turns change
      nothing, for any valid heading. */
  lemma TurnsAreInverse(s: FlatState)
    requires IsDirection(s.direction)
    ensures TurnedLeft(TurnedRight(s)) == s && TurnedRight(TurnedLeft(s)) == s
    ensures TurnedRight(TurnedRight(TurnedRight(TurnedRight(s)))) == s
  {
    RightLeftInverse(s.direction);
    FourRightTurns(s.direction);
  }

  class OptimizedUserScript {
    /** Squares per board side (SIDE_SQUARES). */
    const n: nat
    /** The flat index of the starting cell. */
    const START: int
    var direction: int
    var pos: int

    function State(): FlatState
      reads this`pos, this`direction
    {
      FlatState(pos, direction)
    }

    constructor (squaresPerSide: nat)
      requires squaresPerSide > 0
      ensures n == squaresPerSide && START == 0
    {
      n := squaresPerSide;
      START := 0;
    }

    method Setup()
      modifies this`pos, this`direction
      ensures State() == FlatState(START, NORTH)
    {
      direction := NORTH;
      pos := START;
    }

    method TurnRight()
      modifies this`direction
      ensures State() == TurnedRight(old(State()))
    {
      direction := (direction + 1) % 4;
    }

    method TurnLeft()
      modifies this`direction
      ensures State() == TurnedLeft(old(State()))
    {
      direction := (direction - 1) % 4;
    }

    method GoForward()
      requires n > 0
      modifies this`pos
      ensures State() == Forward(n, old(State()))
    {
      pos := TileIndexInDirection(n, pos, direction);
    }

    method GoToRight()
      requires n > 0
      modifies this`pos, this`direction
      ensures State() == Forward(n, TurnedRight(old(State())))
    {
      TurnRight();
      GoForward();
    }

    method GoToLeft()
      requires n > 0
      modifies this`pos, this`direction
      ensures State() == Forward(n, TurnedLeft(old(State())))
    {
      TurnLeft();
      GoForward();
    }

    method GoBackward()
      requires n > 0
      modifies this`pos, this`direction
      ensures State() == Backward(n, old(State()))
    {
      TurnLeft();
      TurnLeft();
      GoForward();
    }
  }
}
