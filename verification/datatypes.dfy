/** The shared vocabulary of the maze simulator: direction codes, run-status
    codes, grid cells and the Point value (datatypes.py). */
module Datatypes {
  import opened Wrappers

  // Direction codes, clockwise from north.
  const NORTH: int := 0
  const EAST: int := 1
  const SOUTH: int := 2
  const WEST: int := 3
  const DIRECTIONS: int := 4

  // Status codes a script's loop returns to the simulation runner.
  const STOP_SIMULATION: int := 0x234
  const RESUME_SIMULATION: int := 0x345

  /** A grid cell (x, y); x grows to the east, y grows to the south. */
  type Cell = (int, int)

  predicate IsDirection(d: int) {
    0 <= d < DIRECTIONS
  }

  /** The direction to the right of `d`. */
  function RightOf(d: int): (r: int)
    ensures IsDirection(r)
    ensures IsDirection(d) ==> r != d
  {
    (d + 1) % DIRECTIONS
  }

  /** The direction to the left of `d`. */
  function LeftOf(d: int): (r: int)
    ensures IsDirection(r)
    ensures IsDirection(d) ==> r != d && r != RightOf(d)
  {
    (d - 1) % DIRECTIONS
  }

  /** The direction behind `d`. */
  function Behind(d: int): (r: int)
    ensures IsDirection(r)
    ensures IsDirection(d) ==> r != d && r != RightOf(d) && r != LeftOf(d)
  {
    (d + 2) % DIRECTIONS
  }

  lemma StatusCodesDistinct()
    ensures STOP_SIMULATION != RESUME_SIMULATION
    ensures NORTH != EAST && NORTH != SOUTH && NORTH != WEST
    ensures EAST != SOUTH && EAST != WEST && SOUTH != WEST
    ensures forall d :: IsDirection(d) <==> d in {NORTH, EAST, SOUTH, WEST}
  {
  }

  /** Turning right then left (or left then right) leaves the direction as it
      was, reduced modulo 4. */
  lemma RightLeftInverse(d: int)
    ensures LeftOf(RightOf(d)) == d % DIRECTIONS
    ensures RightOf(LeftOf(d)) == d % DIRECTIONS
  {
  }

  /** Four right turns are the identity (modulo 4), and two right turns face
      the direction behind. */
  lemma FourRightTurns(d: int)
    ensures RightOf(RightOf(d)) == Behind(d)
    ensures RightOf(RightOf(RightOf(RightOf(d)))) == d % DIRECTIONS
    ensures LeftOf(LeftOf(d)) == Behind(d)
  {
  }

  function Abs(n: int): nat {
    if n < 0 then -n else n
  }

  /** Two cells share a side. */
  predicate Adjacent(a: Cell, b: Cell) {
    Abs(a.0 - b.0) + Abs(a.1 - b.1) == 1
  }

  /** The cell one step from (x, y) in direction `d`: east is x+1, west x-1,
      north y-1, south y+1; any other value leaves the cell unchanged. */
  function TileInDirection(x: int, y: int, d: int): (c: Cell)
    ensures IsDirection(d) ==> Adjacent((x, y), c)
    ensures !IsDirection(d) ==> c == (x, y)
    ensures d == EAST || d == WEST ==> c.1 == y
    ensures d == NORTH || d == SOUTH ==> c.0 == x
  {
    if d == EAST then (x + 1, y)
    else if d == WEST then (x - 1, y)
    else if d == NORTH then (x, y - 1)
    else if d == SOUTH then (x, y + 1)
    else (x, y)
  }

  /** Stepping one tile and then one tile in the opposite direction returns
      to the starting cell. */
  lemma StepBackReturns(x: int, y: int, d: int)
    requires IsDirection(d)
    ensures var c := TileInDirection(x, y, d); TileInDirection(c.0, c.1, Behind(d)) == (x, y)
  {
  }

  /** Facing any direction, the four cells in front, to the right, to the left
      and behind are exactly the four neighbours of the cell. */
  lemma NeighbourIsOneOfFour(x: int, y: int, d: int, c: Cell)
    requires IsDirection(d) && Adjacent((x, y), c)
    ensures c == TileInDirection(x, y, d) || c == TileInDirection(x, y, RightOf(d))
         || c == TileInDirection(x, y, LeftOf(d)) || c == TileInDirection(x, y, Behind(d))
  {
  }

  /** Truncation toward zero, as Python's int() applied to a number. */
  function Trunc(r: real): (n: int)
    ensures r >= 0.0 ==> n as real <= r < n as real + 1.0
    ensures r < 0.0 ==> n as real - 1.0 < r <= n as real
  {
    if r >= 0.0 then r.Floor else -((-r).Floor)
  }

  /** A point of the plane (floats in the source; exact reals here). */
  datatype Point = Point(x: real, y: real)

  /** The right-hand operand of `+` and `-` on a Point, by its Python type. */
  datatype Operand =
    | Number(k: real)            // int or float: added to both coordinates
    | Sequence(items: seq<real>) // tuple or list: first two items added componentwise
    | OtherPoint(p: Point)       // another Point: added componentwise
    | Unsupported                // any other type

  datatype PointError = IndexError | ValueError

  /** The operand with every number negated. */
  function Negated(v: Operand): (w: Operand)
    ensures w.Number? == v.Number? && w.Sequence? == v.Sequence? && w.Unsupported? == v.Unsupported?
    ensures v.Sequence? ==> |w.items| == |v.items|
  {
    match v
    case Number(k) => Number(-k)
    case Sequence(items) => Sequence(seq(|items|, i requires 0 <= i < |items| => -items[i]))
    case OtherPoint(q) => OtherPoint(Point(-q.x, -q.y))
    case Unsupported => Unsupported
  }

  /** The shared helper of `+` and `-` (datatypes.py): an unsupported operand
      gives the point back unchanged; a tuple or list shorter than two items
      raises IndexError. */
  function Addition(p: Point, other: Operand, add: bool): (r: Result<Point, PointError>)
    ensures r.Err? <==> other.Sequence? && |other.items| < 2
    ensures other.Unsupported? ==> r == Ok(p)
  {
    var m: real := if add then 1.0 else -1.0;
    match other
    case Number(k) => Ok(Point(p.x + m * k, p.y + m * k))
    case Sequence(items) =>
      if |items| < 2 then Err(IndexError) else Ok(Point(p.x + m * items[0], p.y + m * items[1]))
    case OtherPoint(q) => Ok(Point(p.x + m * q.x, p.y + m * q.y))
    case Unsupported => Ok(p)
  }

  function Add(p: Point, other: Operand): Result<Point, PointError> {
    Addition(p, other, true)
  }

  function Sub(p: Point, other: Operand): Result<Point, PointError> {
    Addition(p, other, false)
  }

  /** The same helper in point.py: identical on numbers, sequences and
      points, but an unsupported operand raises ValueError instead of giving
      the point back. */
  function StrictAddition(p: Point, other: Operand, add: bool): (r: Result<Point, PointError>)
    ensures r == Err(ValueError) <==> other.Unsupported?
    ensures r == Err(IndexError) <==> other.Sequence? && |other.items| < 2
  {
    var m: real := if add then 1.0 else -1.0;
    match other
    case Number(k) => Ok(Point(p.x + m * k, p.y + m * k))
    case Sequence(items) =>
      if |items| < 2 then Err(IndexError) else Ok(Point(p.x + m * items[0], p.y + m * items[1]))
    case OtherPoint(q) => Ok(Point(p.x + m * q.x, p.y + m * q.y))
    case Unsupported => Err(ValueError)
  }

  /** The two helpers agree on every operand except an unsupported one. */
  lemma StrictAgreesExceptUnsupported(p: Point, other: Operand, add: bool)
    ensures other.Unsupported? ==> Addition(p, other, add) == Ok(p)
    ensures !other.Unsupported? ==> StrictAddition(p, other, add) == Addition(p, other, add)
  {
  }

  function StrictAdd(p: Point, other: Operand): Result<Point, PointError> {
    StrictAddition(p, other, true)
  }

  function StrictSub(p: Point, other: Operand): Result<Point, PointError> {
    StrictAddition(p, other, false)
  }

  /** In point.py too, adding then subtracting an operand that does not
      raise gives the point back, and subtraction is addition of the
      negated operand. */
  lemma StrictAddSubRoundTrip(p: Point, v: Operand)
    ensures StrictAdd(p, v).Ok? ==> StrictSub(StrictAdd(p, v).value, v) == Ok(p)
    ensures StrictSub(p, v) == StrictAdd(p, Negated(v))
  {
  }

  /** Iterating a Point yields its coordinates truncated to integers. */
  function Iter(p: Point): (c: Cell)
    ensures Abs(c.0) as real <= if p.x < 0.0 then -p.x else p.x
    ensures Abs(c.1) as real <= if p.y < 0.0 then -p.y else p.y
  {
    (Trunc(p.x), Trunc(p.y))
  }

  /** Adding an operand and then subtracting it gives the point back, for
      every operand that does not raise. */
  lemma AddSubRoundTrip(p: Point, v: Operand)
    requires Add(p, v).Ok?
    ensures Sub(Add(p, v).value, v) == Ok(p)
  {
  }

  /** Subtraction is addition of the negated operand. */
  lemma SubIsAddNegated(p: Point, v: Operand)
    ensures Sub(p, v) == Add(p, Negated(v))
  {
  }

  /** Adding two points is commutative. */
  lemma AddPointsCommutes(p: Point, q: Point)
    ensures Add(p, OtherPoint(q)) == Add(q, OtherPoint(p))
  {
  }
}
