/** The flood-fill re-planner on flat indices
    (optimized/optimized_flood_fill.py).  Cells are flat indices
    pos = x * N + y, the distance grid is a one-dimensional array of N * N
    values and every recorded wall is a single integer that encodes an
    unordered pair of cells. */
module OptimizedFloodFill {
  import opened Wrappers
  import opened Datatypes
  import opened SetLemmas
  import FlatPose
  import Pose
  import FloodFill

  function Min(a: int, b: int): int {
    if a <= b then a else b
  }

  function Max(a: int, b: int): int {
    if a <= b then b else a
  }

  /** encode_wall: the smaller index times N * N plus the larger. */
  function EncodeWall(n: nat, a: int, b: int): int {
    if b < a then b * n * n + a else a * n * n + b
  }

  /** decode_wall_a: the code floor-divided by N * N, the row of codes that
      holds `v`. */
  function DecodeWallA(n: nat, v: int): (a: int)
    requires n > 0
    ensures a * (n * n) <= v < a * (n * n) + n * n
  {
    v / (n * n)
  }

  /** decode_wall_b: the code modulo N * N; with decode_wall_a it
      reassembles the code. */
  function DecodeWallB(n: nat, v: int): (b: int)
    requires n > 0
    ensures 0 <= b < n * n && DecodeWallA(n, v) * (n * n) + b == v
  {
    v % (n * n)
  }

  /** An index of the N x N board. */
  predicate InGrid(n: nat, p: int) {
    0 <= p < n * n
  }

  /** Decoding the code of a wall between two board cells gives back the
      smaller index and then the larger, whichever order they came in. */
  lemma EncodeDecodeWall(n: nat, a: int, b: int)
    requires n > 0 && InGrid(n, a) && InGrid(n, b)
    ensures DecodeWallA(n, EncodeWall(n, a, b)) == Min(a, b)
    ensures DecodeWallB(n, EncodeWall(n, a, b)) == Max(a, b)
  {
    var v := EncodeWall(n, a, b);
    assert v == Min(a, b) * (n * n) + Max(a, b);
    FlatPose.DivModUnique(n * n, Min(a, b), Max(a, b), v);
  }

  /** Two walls between board cells get the same code exactly when they
      join the same two cells, in either order. */
  lemma WallCodeIdentifiesPair(n: nat, a: int, b: int, c: int, d: int)
    requires n > 0 && InGrid(n, a) && InGrid(n, b) && InGrid(n, c) && InGrid(n, d)
    ensures EncodeWall(n, a, b) == EncodeWall(n, c, d) <==> (a == c && b == d) || (a == d && b == c)
  {
    EncodeDecodeWall(n, a, b);
    EncodeDecodeWall(n, c, d);
  }

  /** The range test the source applies after decoding an index: both
      coordinates lie in 0..N-1. */
  predicate CoordsInRange(n: nat, p: int)
    requires n > 0
  {
    0 <= FlatPose.GetX(n, p) < n && 0 <= FlatPose.GetY(n, p) < n
  }

  /** The coordinate test accepts exactly the indices of the board. */
  lemma CoordsInRangeIsInGrid(n: nat, p: int)
    requires n > 0
    ensures CoordsInRange(n, p) <==> InGrid(n, p)
  {
    var x, y := p / n, p % n;
    assert p == x * n + y;
    if x < 0 {
      assert x * n <= -(n as int) by { FlatPose.MulAtLeast(-x, n); }
    } else if x >= n {
      assert x * n >= n * n by { MulMonotone(n, x, n); }
    } else {
      assert x * n <= (n - 1) * n by { MulMonotone(x, n - 1, n); }
    }
  }

  lemma MulMonotone(a: int, b: int, n: nat)
    requires a <= b
    ensures a * n <= b * n
  {
    assert b * n - a * n == (b - a) * n;
  }

  /** The four indices flood_fill and go_to_best_cell look at, in their
      order: x - 1, x + 1, y - 1 and y + 1, each re-encoded with get_pos
      before any range test, which makes them p - N, p + N, p - 1 and
      p + 1. */
  function FlatNeighbours(n: nat, p: int): (ns: seq<int>)
    requires n > 0
    ensures ns == [p - n, p + n, p - 1, p + 1]
  {
    var x, y := FlatPose.GetX(n, p), FlatPose.GetY(n, p);
    FlatPose.EncodeDecode(n, p);
    ShiftedIndices(n, x, y);
    [FlatPose.GetPos(n, x - 1, y), FlatPose.GetPos(n, x + 1, y),
     FlatPose.GetPos(n, x, y - 1), FlatPose.GetPos(n, x, y + 1)]
  }

  lemma ShiftedIndices(n: nat, x: int, y: int)
    ensures FlatPose.GetPos(n, x - 1, y) == FlatPose.GetPos(n, x, y) - n
    ensures FlatPose.GetPos(n, x + 1, y) == FlatPose.GetPos(n, x, y) + n
  {
    assert (x - 1) * n == x * n - n;
    assert (x + 1) * n == x * n + n;
  }

  /** The row wrap: the "up" neighbour of the top cell of any column but
      the first passes the range test and is the bottom cell of the
      previous column, which does not share a side with it. */
  lemma RowWrap(n: nat, p: int)
    requires n > 0 && InGrid(n, p) && FlatPose.GetY(n, p) == 0 && FlatPose.GetX(n, p) >= 1
    ensures CoordsInRange(n, FlatNeighbours(n, p)[2])
    ensures FlatPose.GetX(n, FlatNeighbours(n, p)[2]) == FlatPose.GetX(n, p) - 1
    ensures FlatPose.GetY(n, FlatNeighbours(n, p)[2]) == n - 1
  {
    var x := FlatPose.GetX(n, p);
    FlatPose.EncodeDecode(n, p);
    assert FlatNeighbours(n, p)[2] == FlatPose.GetPos(n, x, -1);
    FlatPose.NorthWrapsToPreviousColumn(n, x);
    CoordsInRangeIsInGrid(n, p);
  }

  /** `b` is one of the four indices looked at from `a`. */
  predicate Linked(n: int, a: int, b: int) {
    b == a - n || b == a + n || b == a - 1 || b == a + 1
  }

  /** The wall between `a` and `b` is in the list. */
  predicate Blocked(n: nat, walls: seq<int>, a: int, b: int) {
    EncodeWall(n, a, b) in walls
  }

  /** Every open linked board index of `c` carries a distance. */
  ghost predicate FloodClosed(G: seq<int>, n: nat, walls: seq<int>, c: int) {
    forall m :: 0 <= m < |G| && Linked(n, c, m) && !Blocked(n, walls, c, m) ==> G[m] >= 0
  }

  /** `c` was labelled from an open linked index whose value is one less. */
  ghost predicate HasFloodParent(G: seq<int>, n: nat, walls: seq<int>, c: int)
    requires 0 <= c < |G|
  {
    exists p :: 0 <= p < |G| && Linked(n, p, c) && !Blocked(n, walls, p, c) && G[p] + 1 == G[c]
  }

  /** What flood_fill leaves behind: N * N values, 0 at the seed and
      nowhere else, -1 or more everywhere, every labelled index closed and
      every value of 1 or more one more than an open linked index's. */
  ghost predicate FloodResult(G: seq<int>, n: nat, walls: seq<int>, s: int) {
    |G| == n * n && 0 <= s < |G| && G[s] == 0
    && (forall c :: 0 <= c < |G| ==> G[c] >= -1)
    && (forall c :: 0 <= c < |G| && G[c] >= 0 ==> FloodClosed(G, n, walls, c))
    && (forall c {:trigger HasFloodParent(G, n, walls, c)} :: 0 <= c < |G| && G[c] >= 1 ==> HasFloodParent(G, n, walls, c))
    && (forall c :: 0 <= c < |G| && G[c] == 0 ==> c == s)
  }

  /** A walk through board indices, each linked to the one before, that
      never crosses a recorded wall. */
  ghost predicate OpenWalk(G: seq<int>, n: nat, walls: seq<int>, p: seq<int>) {
    (forall i :: 0 <= i < |p| ==> 0 <= p[i] < |G|)
    && forall i :: 0 < i < |p| ==> Linked(n, p[i - 1], p[i]) && !Blocked(n, walls, p[i - 1], p[i])
  }

  /** Every labelled index is reached from the seed by an open walk of
      exactly its value in steps. */
  lemma {:induction false} LabelledCellsAreReached(G: seq<int>, n: nat, walls: seq<int>, s: int, c: int)
    requires FloodResult(G, n, walls, s) && 0 <= c < |G| && G[c] >= 0
    ensures exists p :: |p| == G[c] + 1 && p[0] == s && p[|p| - 1] == c && OpenWalk(G, n, walls, p)
    decreases G[c]
  {
    if G[c] == 0 {
      assert OpenWalk(G, n, walls, [s]);
    } else {
      assert HasFloodParent(G, n, walls, c);
      var p :| 0 <= p < |G| && Linked(n, p, c) && !Blocked(n, walls, p, c) && G[p] + 1 == G[c];
      LabelledCellsAreReached(G, n, walls, s, p);
      var w :| |w| == G[p] + 1 && w[0] == s && w[|w| - 1] == p && OpenWalk(G, n, walls, w);
      var w' := w + [c];
      assert OpenWalk(G, n, walls, w') by {
        forall i | 0 < i < |w'| ensures Linked(n, w'[i - 1], w'[i]) && !Blocked(n, walls, w'[i - 1], w'[i]) {
          if i < |w| {
            assert w'[i - 1] == w[i - 1] && w'[i] == w[i];
          }
        }
      }
    }
  }

  /** Every index an open walk reaches from the seed is labelled. */
  lemma {:induction false} ReachedCellsAreLabelled(G: seq<int>, n: nat, walls: seq<int>, s: int, p: seq<int>)
    requires FloodResult(G, n, walls, s) && |p| > 0 && p[0] == s && OpenWalk(G, n, walls, p)
    ensures G[p[|p| - 1]] >= 0
    decreases |p|
  {
    if |p| > 1 {
      var q := p[..|p| - 1];
      assert OpenWalk(G, n, walls, q);
      ReachedCellsAreLabelled(G, n, walls, s, q);
      assert FloodClosed(G, n, walls, q[|q| - 1]);
      assert Linked(n, p[|p| - 2], p[|p| - 1]) && !Blocked(n, walls, p[|p| - 2], p[|p| - 1]);
    }
  }

  /** The part of flood_fill's loop invariant about the grid alone. */
  ghost predicate GridInv(G: seq<int>, n: nat, walls: seq<int>, s: int, U: set<int>) {
    |G| == n * n && 0 <= s < |G| && G[s] == 0
    && (forall c :: 0 <= c < |G| ==> G[c] >= -1)
    && (forall c :: c in U <==> 0 <= c < |G| && G[c] == -1)
    && (forall c {:trigger HasFloodParent(G, n, walls, c)} :: 0 <= c < |G| && G[c] >= 1 ==> HasFloodParent(G, n, walls, c))
    && (forall c :: 0 <= c < |G| && G[c] == 0 ==> c == s)
  }

  /** Queued indices are labelled board indices. */
  ghost predicate QueueInv(G: seq<int>, q: seq<int>) {
    forall i :: 0 <= i < |q| ==> 0 <= q[i] < |G| && G[q[i]] >= 0
  }

  /** Every labelled index is expanded, queued or in `extra`. */
  ghost predicate Covered(G: seq<int>, q: seq<int>, expanded: set<int>, extra: set<int>) {
    forall c :: 0 <= c < |G| && G[c] >= 0 ==> c in expanded || c in q || c in extra
  }

  /** Every expanded index is closed. */
  ghost predicate AllClosed(G: seq<int>, n: nat, walls: seq<int>, expanded: set<int>) {
    forall c :: c in expanded ==> FloodClosed(G, n, walls, c)
  }

  /** Each index in `done` is off the board, labelled or walled off from
      `current`. */
  ghost predicate Visited(G: seq<int>, n: nat, walls: seq<int>, current: int, done: seq<int>) {
    forall i :: 0 <= i < |done| ==> !(0 <= done[i] < |G|) || G[done[i]] >= 0 || Blocked(n, walls, current, done[i])
  }

  /** The invariant of flood_fill's queue loop between rounds. */
  ghost predicate FloodInv(G: seq<int>, n: nat, walls: seq<int>, s: int, q: seq<int>, expanded: set<int>, U: set<int>) {
    GridInv(G, n, walls, s, U) && QueueInv(G, q) && Covered(G, q, expanded, {}) && AllClosed(G, n, walls, expanded)
  }

  /** The invariant while the popped index `current` has had the indices in
      `done` visited. */
  ghost predicate PartialInv(G: seq<int>, n: nat, walls: seq<int>, s: int, q: seq<int>, expanded: set<int>,
                             U: set<int>, current: int, done: seq<int>)
  {
    GridInv(G, n, walls, s, U) && QueueInv(G, q)
    && 0 <= current < |G| && G[current] >= 0
    && Covered(G, q, expanded, {current}) && AllClosed(G, n, walls, expanded)
    && Visited(G, n, walls, current, done)
  }

  /** The grid after reset and seeding satisfies the loop invariant with the
      seed queued. */
  lemma SeedInv(G: seq<int>, n: nat, walls: seq<int>, s: int) returns (U: set<int>)
    requires |G| == n * n && (forall c :: 0 <= c < |G| ==> G[c] == -1) && 0 <= s < |G|
    ensures FloodInv(G[s := 0], n, walls, s, [s], {}, U)
  {
    U := set c | 0 <= c < |G| && G[c] == -1 && c != s;
    var G' := G[s := 0];
    assert Covered(G', [s], {}, {}) by {
      assert s in [s];
    }
  }

  /** Popping the right end of the queue starts a round. */
  lemma PopStartsRound(G: seq<int>, n: nat, walls: seq<int>, s: int, q: seq<int>, expanded: set<int>, U: set<int>)
    requires FloodInv(G, n, walls, s, q, expanded, U) && |q| > 0
    ensures PartialInv(G, n, walls, s, q[..|q| - 1], expanded, U, q[|q| - 1], [])
  {
    var q' := q[..|q| - 1];
    var current := q[|q| - 1];
    assert QueueInv(G, q') by {
      forall i | 0 <= i < |q'| ensures 0 <= q'[i] < |G| && G[q'[i]] >= 0 {
        assert q'[i] == q[i];
      }
    }
    assert Covered(G, q', expanded, {current}) by {
      forall c | c in q ensures c in q' || c == current {
        var i :| 0 <= i < |q| && q[i] == c;
        if i < |q| - 1 {
          assert q'[i] == c;
        }
      }
    }
  }

  /** Labelling an unlabelled open linked index keeps the grid part. */
  lemma LabelKeepsGridInv(G: seq<int>, n: nat, walls: seq<int>, s: int, U: set<int>, current: int, node: int)
    requires GridInv(G, n, walls, s, U) && 0 <= current < |G| && G[current] >= 0
    requires Linked(n, current, node) && 0 <= node < |G| && G[node] == -1 && !Blocked(n, walls, current, node)
    ensures GridInv(G[node := G[current] + 1], n, walls, s, U - {node})
  {
    var G' := G[node := G[current] + 1];
    forall c | 0 <= c < |G'| && G'[c] >= 1 ensures HasFloodParent(G', n, walls, c) {
      if c != node {
        assert HasFloodParent(G, n, walls, c);
        var p :| 0 <= p < |G| && Linked(n, p, c) && !Blocked(n, walls, p, c) && G[p] + 1 == G[c];
        assert G'[p] == G[p];
      } else {
        assert G'[current] == G[current];
      }
    }
  }

  /** Pushing the newly labelled index keeps the queue part. */
  lemma LabelKeepsQueueInv(G: seq<int>, q: seq<int>, node: int, v: int)
    requires QueueInv(G, q) && 0 <= node < |G| && v >= 0
    ensures QueueInv(G[node := v], [node] + q)
  {
    var q' := [node] + q;
    forall i | 0 < i < |q'| ensures 0 <= q'[i] < |G| && G[node := v][q'[i]] >= 0 {
      assert q'[i] == q[i - 1];
    }
  }

  /** Raising a -1 to a label keeps every expanded index closed. */
  lemma LabelKeepsClosed(G: seq<int>, n: nat, walls: seq<int>, expanded: set<int>, node: int, v: int)
    requires AllClosed(G, n, walls, expanded) && 0 <= node < |G| && v >= 0
    ensures AllClosed(G[node := v], n, walls, expanded)
  {
    forall c | c in expanded ensures FloodClosed(G[node := v], n, walls, c) {
      assert FloodClosed(G, n, walls, c);
    }
  }

  /** An index that ends labelled, off the board or walled off extends the
      visited prefix. */
  lemma VisitExtends(G: seq<int>, n: nat, walls: seq<int>, current: int, done: seq<int>, node: int)
    requires Visited(G, n, walls, current, done)
    requires !(0 <= node < |G|) || G[node] >= 0 || Blocked(n, walls, current, node)
    ensures Visited(G, n, walls, current, done + [node])
  {
    var d' := done + [node];
    forall i | 0 <= i < |d'| ensures !(0 <= d'[i] < |G|) || G[d'[i]] >= 0 || Blocked(n, walls, current, d'[i]) {
      if i < |done| {
        assert d'[i] == done[i];
      }
    }
  }

  /** Labelling raises one -1 and keeps what was visited. */
  lemma LabelKeepsVisited(G: seq<int>, n: nat, walls: seq<int>, current: int, done: seq<int>, node: int, v: int)
    requires Visited(G, n, walls, current, done) && 0 <= node < |G| && v >= 0
    ensures Visited(G[node := v], n, walls, current, done + [node])
  {
    var G' := G[node := v];
    forall i | 0 <= i < |done| ensures !(0 <= done[i] < |G'|) || G'[done[i]] >= 0 || Blocked(n, walls, current, done[i]) {
    }
    VisitExtends(G', n, walls, current, done, node);
  }

  /** Visiting one linked index keeps the round's invariant: an unlabelled
      board index with no wall toward it is labelled one more than the
      current index and pushed on the left of the queue; any other index
      changes nothing. */
  lemma VisitKeepsInv(G: seq<int>, n: nat, walls: seq<int>, s: int, q: seq<int>, expanded: set<int>, U: set<int>,
                      current: int, done: seq<int>, node: int)
    requires PartialInv(G, n, walls, s, q, expanded, U, current, done) && Linked(n, current, node)
    ensures var pushed := 0 <= node < |G| && G[node] == -1 && !Blocked(n, walls, current, node);
      pushed ==> PartialInv(G[node := G[current] + 1], n, walls, s, [node] + q, expanded, U - {node}, current, done + [node])
    ensures var pushed := 0 <= node < |G| && G[node] == -1 && !Blocked(n, walls, current, node);
      !pushed ==> PartialInv(G, n, walls, s, q, expanded, U, current, done + [node])
  {
    if 0 <= node < |G| && G[node] == -1 && !Blocked(n, walls, current, node) {
      var v := G[current] + 1;
      LabelKeepsGridInv(G, n, walls, s, U, current, node);
      LabelKeepsQueueInv(G, q, node, v);
      LabelKeepsClosed(G, n, walls, expanded, node, v);
      LabelKeepsVisited(G, n, walls, current, done, node, v);
      assert current != node;
    } else {
      VisitExtends(G, n, walls, current, done, node);
    }
  }

  /** After all four linked indices are visited the current index is
      closed, and the loop invariant holds with it expanded. */
  lemma RoundEnds(G: seq<int>, n: nat, walls: seq<int>, s: int, q: seq<int>, expanded: set<int>, U: set<int>, current: int)
    requires n > 0 && PartialInv(G, n, walls, s, q, expanded, U, current, FlatNeighbours(n, current))
    ensures FloodInv(G, n, walls, s, q, expanded + {current}, U)
  {
    var ns := FlatNeighbours(n, current);
    forall m | 0 <= m < |G| && Linked(n, current, m) && !Blocked(n, walls, current, m) ensures G[m] >= 0 {
      var i := if m == current - n then 0 else if m == current + n then 1 else if m == current - 1 then 2 else 3;
      assert ns[i] == m;
    }
    assert FloodClosed(G, n, walls, current);
  }

  /** An empty queue leaves the flood result. */
  lemma FloodEnds(G: seq<int>, n: nat, walls: seq<int>, s: int, expanded: set<int>, U: set<int>)
    requires FloodInv(G, n, walls, s, [], expanded, U)
    ensures FloodResult(G, n, walls, s)
  {
  }

  /** The tile index in `d` from the robot, as tile_in_the_direction. */
  function Tile(n: nat, p: FlatPose.FlatState, d: int): int
    requires n > 0
  {
    FlatPose.TileIndexInDirection(n, p.pos, d)
  }

  /** go_to_best_cell's move: go right if the best index is the right tile,
      forward if it is the front tile, left if it is the left tile, and
      backward in every other case, including when it is the robot's own. */
  function BestMove(n: nat, p: FlatPose.FlatState, best: int): FlatPose.FlatState
    requires n > 0
  {
    var d := p.direction;
    if best == Tile(n, p, RightOf(d)) then FlatPose.Forward(n, FlatPose.TurnedRight(p))
    else if best == Tile(n, p, d) then FlatPose.Forward(n, p)
    else if best == Tile(n, p, LeftOf(d)) then FlatPose.Forward(n, FlatPose.TurnedLeft(p))
    else FlatPose.Backward(n, p)
  }

  /** The move lands on the chosen index when it is linked to the robot's,
      on the tile behind when it is the robot's own, and keeps the heading
      valid. */
  lemma BestMoveLands(n: nat, p: FlatPose.FlatState, best: int)
    requires n > 0 && IsDirection(p.direction)
    ensures Linked(n, p.pos, best) ==> BestMove(n, p, best).pos == best
    ensures best == p.pos ==> BestMove(n, p, best).pos == Tile(n, p, Behind(p.direction))
    ensures IsDirection(BestMove(n, p, best).direction)
  {
    FlatPose.BackwardReverses(n, p);
  }

  /** An index go_to_best_cell may choose: on the board and not the tile of
      a side the sensors report walled. */
  predicate Eligible(n: nat, p: FlatPose.FlatState, s: Pose.Sides, node: int)
    requires n > 0
  {
    var d := p.direction;
    InGrid(n, node)
    && !(node == Tile(n, p, RightOf(d)) && s.right)
    && !(node == Tile(n, p, d) && s.front)
    && !(node == Tile(n, p, LeftOf(d)) && s.left)
  }

  /** go_to_best_cell's scan over `nodes`: a node replaces the best so far
      when it is eligible and its value strictly smaller. */
  function BestFrom(G: seq<int>, n: nat, p: FlatPose.FlatState, s: Pose.Sides, nodes: seq<int>, val: int, pos: int): (best: int)
    requires n > 0 && |G| == n * n && 0 <= pos < |G| && G[pos] == val
    ensures 0 <= best < |G| && G[best] <= val
    ensures best == pos || (best in nodes && Eligible(n, p, s, best) && G[best] < val)
    ensures forall i :: 0 <= i < |nodes| && Eligible(n, p, s, nodes[i]) ==> G[best] <= G[nodes[i]]
    decreases |nodes|
  {
    if nodes == [] then pos
    else if Eligible(n, p, s, nodes[0]) && G[nodes[0]] < val then BestFrom(G, n, p, s, nodes[1..], G[nodes[0]], nodes[0])
    else BestFrom(G, n, p, s, nodes[1..], val, pos)
  }

  /** The index go_to_best_cell returns for the robot at `p`. */
  function BestCell(G: seq<int>, n: nat, p: FlatPose.FlatState, s: Pose.Sides): (best: int)
    requires n > 0 && |G| == n * n && InGrid(n, p.pos)
    ensures 0 <= best < |G| && G[best] <= G[p.pos]
    ensures best == p.pos || (Linked(n, p.pos, best) && Eligible(n, p, s, best))
  {
    BestFrom(G, n, p, s, FlatNeighbours(n, p.pos), G[p.pos], p.pos)
  }

  /** Every side the sensors report walled is in the list whenever its tile
      lies on the board. */
  ghost predicate SensedRecorded(walls: seq<int>, n: nat, p: FlatPose.FlatState, s: Pose.Sides)
    requires n > 0
  {
    var d := p.direction;
    (s.right && InGrid(n, Tile(n, p, RightOf(d))) ==> Blocked(n, walls, p.pos, Tile(n, p, RightOf(d))))
    && (s.left && InGrid(n, Tile(n, p, LeftOf(d))) ==> Blocked(n, walls, p.pos, Tile(n, p, LeftOf(d))))
    && (s.front && InGrid(n, Tile(n, p, d)) ==> Blocked(n, walls, p.pos, Tile(n, p, d)))
  }

  /** One guarded add_wall_between: the code is appended, possibly again,
      when both ends pass the coordinate test. */
  function AddWallIfInRange(walls: seq<int>, n: nat, sensed: bool, a: int, b: int): (h: seq<int>)
    requires n > 0
    ensures sensed && InGrid(n, a) && InGrid(n, b) ==> h == walls + [EncodeWall(n, a, b)]
    ensures !(sensed && InGrid(n, a) && InGrid(n, b)) ==> h == walls
  {
    CoordsInRangeIsInGrid(n, a);
    CoordsInRangeIsInGrid(n, b);
    if sensed && CoordsInRange(n, a) && CoordsInRange(n, b) then walls + [EncodeWall(n, a, b)] else walls
  }

  /** add_walls as a function of the list before, the pose and the sensor
      readings: right, then left, then front. */
  function WallsAdded(walls: seq<int>, n: nat, p: FlatPose.FlatState, s: Pose.Sides): (h: seq<int>)
    requires n > 0
    ensures walls <= h && |h| <= |walls| + 3
  {
    var d := p.direction;
    var w1 := AddWallIfInRange(walls, n, s.right, p.pos, Tile(n, p, RightOf(d)));
    var w2 := AddWallIfInRange(w1, n, s.left, p.pos, Tile(n, p, LeftOf(d)));
    AddWallIfInRange(w2, n, s.front, p.pos, Tile(n, p, d))
  }

  /** Appending a wall that is already listed lengthens the list but blocks
      no further pair. */
  lemma DuplicateWallBlocksNothingNew(walls: seq<int>, n: nat, a: int, b: int)
    requires n > 0 && InGrid(n, a) && InGrid(n, b) && Blocked(n, walls, a, b)
    ensures |AddWallIfInRange(walls, n, true, a, b)| == |walls| + 1
    ensures forall x, y :: Blocked(n, AddWallIfInRange(walls, n, true, a, b), x, y) <==> Blocked(n, walls, x, y)
  {
  }

  /** add_walls records every sensed wall around a robot on the board and
      keeps every wall recorded before. */
  lemma WallsAddedRecordsSensed(walls: seq<int>, n: nat, p: FlatPose.FlatState, s: Pose.Sides)
    requires n > 0 && InGrid(n, p.pos)
    ensures SensedRecorded(WallsAdded(walls, n, p, s), n, p, s)
    ensures forall x, y :: Blocked(n, walls, x, y) ==> Blocked(n, WallsAdded(walls, n, p, s), x, y)
  {
    var d := p.direction;
    var w1 := AddWallIfInRange(walls, n, s.right, p.pos, Tile(n, p, RightOf(d)));
    var w2 := AddWallIfInRange(w1, n, s.left, p.pos, Tile(n, p, LeftOf(d)));
    var w3 := AddWallIfInRange(w2, n, s.front, p.pos, Tile(n, p, d));
    assert walls <= w1 <= w2 <= w3;
  }

  /** On a grid flooded from `target`, with every sensed wall recorded, the
      index chosen from one labelled 1 or more is linked to it and labelled
      strictly less: the parent that labelled the robot's index is never
      ruled out, since a sensed wall toward it would have stopped the
      labelling. */
  lemma BestCellDescends(G: seq<int>, walls: seq<int>, n: nat, p: FlatPose.FlatState, s: Pose.Sides, target: int)
    requires n > 0 && FloodResult(G, n, walls, target) && SensedRecorded(walls, n, p, s)
    requires InGrid(n, p.pos) && G[p.pos] >= 1
    ensures Linked(n, p.pos, BestCell(G, n, p, s)) && G[BestCell(G, n, p, s)] < G[p.pos]
  {
    var c := p.pos;
    assert HasFloodParent(G, n, walls, c);
    var par :| 0 <= par < |G| && Linked(n, par, c) && !Blocked(n, walls, par, c) && G[par] + 1 == G[c];
    assert EncodeWall(n, c, par) == EncodeWall(n, par, c);
    assert Eligible(n, p, s, par);
    var ns := FlatNeighbours(n, c);
    var i := if par == c - n then 0 else if par == c + n then 1 else if par == c - 1 then 2 else 3;
    assert ns[i] == par;
  }

  /** What one chasing frame achieves: on a 0 the robot stands on the
      target, and from a value of 1 or more it ends, still on the board, on
      a strictly smaller value. */
  ghost predicate ChaseProgress(G: seq<int>, n: nat, p: FlatPose.FlatState, q: FlatPose.FlatState, target: int)
    requires |G| == n * n && InGrid(n, p.pos)
  {
    (G[p.pos] == 0 ==> p.pos == target)
    && (G[p.pos] >= 1 ==> InGrid(n, q.pos) && G[q.pos] < G[p.pos])
  }

  /** A chasing frame makes progress and keeps the heading valid. */
  lemma ChaseStep(G: seq<int>, walls: seq<int>, n: nat, p: FlatPose.FlatState, s: Pose.Sides, target: int)
    requires n > 0 && FloodResult(G, n, walls, target) && SensedRecorded(walls, n, p, s)
    requires InGrid(n, p.pos) && IsDirection(p.direction)
    ensures ChaseProgress(G, n, p, BestMove(n, p, BestCell(G, n, p, s)), target)
    ensures IsDirection(BestMove(n, p, BestCell(G, n, p, s)).direction)
  {
    BestMoveLands(n, p, BestCell(G, n, p, s));
    if G[p.pos] >= 1 {
      BestCellDescends(G, walls, n, p, s, target);
    }
  }

  /** One chasing frame as a relation between the walls and pose before and
      after: the sensed walls are appended, the grid is flooded from
      `target`, the robot makes go_to_best_cell's move and makes progress. */
  ghost predicate ChaseFrame(G: seq<int>, walls0: seq<int>, walls: seq<int>, n: nat, p: FlatPose.FlatState,
                             q: FlatPose.FlatState, s: Pose.Sides, target: int)
  {
    n > 0 && |G| == n * n && InGrid(n, p.pos)
    && walls == WallsAdded(walls0, n, p, s)
    && FloodResult(G, n, walls, target)
    && q == BestMove(n, p, BestCell(G, n, p, s))
    && ChaseProgress(G, n, p, q, target)
  }

  class OptimizedFloodFillScript {
    const pose: FlatPose.OptimizedUserScript
    /** The number of cells along each side of the square maze. */
    const n: nat
    /** The flat index of the centre cell. */
    const CENTER: int
    var facingDirectionDiscovered: bool
    var pathTracedToCenter: bool
    var realRun: bool
    /** flooded_grid, one value per flat index. */
    var flooded: array<int>
    /** The encoded walls, in the order they were sensed. */
    var walls: seq<int>

    /** What construction establishes: a non-empty board shared with the
        pose, the start at index 0 and the centre at (N/2, N/2). */
    ghost predicate Constructed()
      reads this, pose
    {
      n > 0 && n == pose.n && pose.START == 0 && CENTER == FlatPose.GetPos(n, n / 2, n / 2)
    }

    /** What setup adds and every frame keeps: a grid of N * N values and a
        valid heading. */
    ghost predicate Ready()
      reads this, pose
    {
      Constructed() && flooded.Length == n * n && IsDirection(pose.direction)
    }

    constructor (pose: FlatPose.OptimizedUserScript)
      requires pose.n > 0 && pose.START == 0
      ensures this.pose == pose && Constructed()
    {
      this.pose := pose;
      n := pose.n;
      CENTER := FlatPose.GetPos(pose.n, pose.n / 2, pose.n / 2);
      flooded := new int[0];
      walls := [];
    }

    /** setup: the base pose, every phase flag off, N * N values of -1 and
        no walls. */
    method Setup()
      requires Constructed()
      modifies this, pose`pos, pose`direction
      ensures pose.State() == FlatPose.FlatState(0, NORTH)
      ensures !facingDirectionDiscovered && !pathTracedToCenter && !realRun
      ensures Ready() && fresh(flooded) && walls == []
      ensures forall i :: 0 <= i < flooded.Length ==> flooded[i] == -1
    {
      pose.Setup();
      facingDirectionDiscovered, pathTracedToCenter, realRun := false, false, false;
      flooded := new int[n * n](i => -1);
      walls := [];
    }

    /** add_wall_between: nothing happens unless both indices decode in
        range; then the wall's code is appended, even when already there. */
    method AddWallBetween(a: int, b: int)
      requires n > 0
      modifies this`walls
      ensures walls == AddWallIfInRange(old(walls), n, true, a, b)
    {
      var aX, aY := FlatPose.GetX(n, a), FlatPose.GetY(n, a);
      var bX, bY := FlatPose.GetX(n, b), FlatPose.GetY(n, b);
      if !(0 <= aX < n) || !(0 <= aY < n) {
        return;
      }
      if !(0 <= bX < n) || !(0 <= bY < n) {
        return;
      }
      walls := walls + [EncodeWall(n, a, b)];
    }

    /** add_walls: a wall toward the right, left and front tile, each only
        when that sensor reports one. */
    method AddWalls(s: Pose.Sides)
      requires Constructed()
      modifies this`walls
      ensures walls == WallsAdded(old(walls), n, pose.State(), s)
    {
      ghost var p := pose.State();
      var here := pose.pos;
      var front := FlatPose.TileIndexInDirection(n, pose.pos, pose.direction);
      var right := FlatPose.TileIndexInDirection(n, pose.pos, (pose.direction + 1) % 4);
      var left := FlatPose.TileIndexInDirection(n, pose.pos, (pose.direction - 1) % 4);
      assert right == Tile(n, p, RightOf(p.direction)) && left == Tile(n, p, LeftOf(p.direction));
      if s.right {
        AddWallBetween(here, right);
      }
      ghost var w1 := walls;
      assert w1 == AddWallIfInRange(old(walls), n, s.right, here, right);
      if s.left {
        AddWallBetween(here, left);
      }
      ghost var w2 := walls;
      assert w2 == AddWallIfInRange(w1, n, s.left, here, left);
      if s.front {
        AddWallBetween(here, front);
      }
      assert walls == AddWallIfInRange(w2, n, s.front, here, front);
    }

    /** One neighbour visit of flood_fill's inner loop. */
    method Visit(current: int, node: int, ghost G: seq<int>) returns (pushed: bool)
      requires n > 0 && flooded.Length == n * n && 0 <= current < n * n && G == flooded[..]
      modifies flooded
      ensures pushed == (InGrid(n, node) && G[node] == -1 && !Blocked(n, walls, current, node))
      ensures flooded[..] == if pushed then G[node := G[current] + 1] else G
    {
      CoordsInRangeIsInGrid(n, node);
      var nx, ny := FlatPose.GetX(n, node), FlatPose.GetY(n, node);
      if !(0 <= nx < n) || !(0 <= ny < n) {
        return false;
      }
      if flooded[node] != -1 {
        return false;
      }
      var wall := EncodeWall(n, current, node);
      if wall in walls {
        return false;
      }
      flooded[node] := flooded[current] + 1;
      pushed := true;
    }

    /** flood_fill's reset of every value to -1. */
    method ResetGrid()
      modifies flooded
      ensures forall i :: 0 <= i < flooded.Length ==> flooded[i] == -1
    {
      for i := 0 to flooded.Length
        invariant forall j :: 0 <= j < i ==> flooded[j] == -1
      {
        flooded[i] := -1;
      }
    }

    /** One pass of flood_fill's inner loop, for the linked index `node`. */
    method VisitStep(s: int, q: seq<int>, ghost expanded: set<int>, ghost U: set<int>,
                     current: int, ghost done: seq<int>, node: int, ghost G: seq<int>)
      returns (q': seq<int>, ghost U': set<int>, ghost G': seq<int>)
      requires n > 0 && flooded.Length == n * n && G == flooded[..]
      requires PartialInv(G, n, walls, s, q, expanded, U, current, done) && Linked(n, current, node)
      modifies flooded
      ensures G' == flooded[..] && PartialInv(G', n, walls, s, q', expanded, U', current, done + [node])
      ensures U' <= U && (U' == U ==> q' == q)
    {
      VisitKeepsInv(G, n, walls, s, q, expanded, U, current, done, node);
      var pushed := Visit(current, node, G);
      q', U', G' := q, U, G;
      if pushed {
        q', U', G' := [node] + q, U - {node}, G[node := G[current] + 1];
      }
    }

    /** flood_fill's inner loop over the four linked indices of the popped
        index. */
    method VisitNeighbours(s: int, q: seq<int>, ghost expanded: set<int>, ghost U: set<int>,
                           current: int, ghost G: seq<int>)
      returns (q': seq<int>, ghost U': set<int>, ghost G': seq<int>)
      requires n > 0 && flooded.Length == n * n && G == flooded[..]
      requires PartialInv(G, n, walls, s, q, expanded, U, current, [])
      modifies flooded
      ensures G' == flooded[..] && PartialInv(G', n, walls, s, q', expanded, U', current, FlatNeighbours(n, current))
      ensures U' <= U && (U' == U ==> q' == q)
    {
      var nodes := FlatNeighbours(n, current);
      q', U', G' := q, U, G;
      for k := 0 to 4
        invariant G' == flooded[..] && PartialInv(G', n, walls, s, q', expanded, U', current, nodes[..k])
        invariant U' <= U && (U' == U ==> q' == q)
      {
        assert nodes[..k + 1] == nodes[..k] + [nodes[k]];
        q', U', G' := VisitStep(s, q', expanded, U', current, nodes[..k], nodes[k], G');
      }
      assert nodes[..4] == nodes;
    }

    /** One round of flood_fill's queue loop: pop the right end and visit
        its four linked indices. */
    method FloodRound(s: int, q: seq<int>, ghost expanded: set<int>, ghost U: set<int>)
      returns (q': seq<int>, ghost expanded': set<int>, ghost U': set<int>)
      requires n > 0 && flooded.Length == n * n && FloodInv(flooded[..], n, walls, s, q, expanded, U) && |q| > 0
      modifies flooded
      ensures FloodInv(flooded[..], n, walls, s, q', expanded', U')
      ensures |U'| < |U| || (U' == U && |q'| < |q|)
    {
      var current := q[|q| - 1];
      PopStartsRound(flooded[..], n, walls, s, q, expanded, U);
      ghost var G;
      q', U', G := VisitNeighbours(s, q[..|q| - 1], expanded, U, current, flooded[..]);
      RoundEnds(G, n, walls, s, q', expanded, U', current);
      expanded' := expanded + {current};
      if U' != U {
        var x :| x in U && x !in U' by {
          if forall y :: y in U ==> y in U' {
            assert false;
          }
        }
        ProperSubsetSmaller(U', U, x);
      }
    }

    /** flood_fill: reset every value to -1, write 0 at the search index,
        then label indices breadth-first from it, never across a listed
        wall and never off the board (but across the row wrap). */
    method Flood(searchPos: int)
      requires n > 0 && flooded.Length == n * n && InGrid(n, searchPos)
      modifies flooded
      ensures FloodResult(flooded[..], n, walls, searchPos)
    {
      ResetGrid();
      ghost var G0 := flooded[..];
      flooded[searchPos] := 0;
      assert flooded[..] == G0[searchPos := 0];
      var q := [searchPos];
      ghost var expanded: set<int> := {};
      ghost var U := SeedInv(G0, n, walls, searchPos);
      while q != []
        invariant FloodInv(flooded[..], n, walls, searchPos, q, expanded, U)
        decreases |U|, |q|
      {
        q, expanded, U := FloodRound(searchPos, q, expanded, U);
      }
      FloodEnds(flooded[..], n, walls, searchPos, expanded, U);
    }

    /** go_to_best_cell's scan: the eligible linked index with the strictly
        smallest value, ties keeping the earlier in the order x - 1, x + 1,
        y - 1, y + 1, or the robot's own index when none is smaller. */
    method BestNeighbour(s: Pose.Sides) returns (minPos: int)
      requires Ready() && InGrid(n, pose.pos)
      ensures minPos == BestCell(flooded[..], n, pose.State(), s)
    {
      ghost var G, p := flooded[..], pose.State();
      var nodes := FlatNeighbours(n, pose.pos);
      var d := pose.direction;
      var rightNode := FlatPose.TileIndexInDirection(n, pose.pos, (d + 1) % 4);
      var frontNode := FlatPose.TileIndexInDirection(n, pose.pos, d);
      var leftNode := FlatPose.TileIndexInDirection(n, pose.pos, (d - 1) % 4);
      var minVal := flooded[pose.pos];
      minPos := pose.pos;
      for k := 0 to 4
        invariant 0 <= minPos < |G| && G[minPos] == minVal
        invariant BestFrom(G, n, p, s, nodes[k..], minVal, minPos) == BestCell(G, n, p, s)
      {
        var node := nodes[k];
        assert nodes[k..][1..] == nodes[k + 1..];
        assert BestFrom(G, n, p, s, nodes[k..], minVal, minPos) ==
          if Eligible(n, p, s, node) && G[node] < minVal then BestFrom(G, n, p, s, nodes[k + 1..], G[node], node)
          else BestFrom(G, n, p, s, nodes[k + 1..], minVal, minPos);
        CoordsInRangeIsInGrid(n, node);
        var nx, ny := FlatPose.GetX(n, node), FlatPose.GetY(n, node);
        var onBoard := 0 <= nx < n && 0 <= ny < n;
        var walled := (node == rightNode && s.right) || (node == frontNode && s.front) || (node == leftNode && s.left);
        assert Eligible(n, p, s, node) <==> onBoard && !walled;
        if onBoard && !walled && flooded[node] < minVal {
          minVal := flooded[node];
          minPos := node;
        }
      }
    }

    /** go_to_best_cell's move toward the chosen index. */
    method MoveToBest(best: int)
      requires Constructed()
      modifies pose`pos, pose`direction
      ensures pose.State() == BestMove(n, old(pose.State()), best)
    {
      var d := pose.direction;
      if best == FlatPose.TileIndexInDirection(n, pose.pos, (d + 1) % 4) {
        pose.GoToRight();
      } else if best == FlatPose.TileIndexInDirection(n, pose.pos, d) {
        pose.GoForward();
      } else if best == FlatPose.TileIndexInDirection(n, pose.pos, (d - 1) % 4) {
        pose.GoToLeft();
      } else {
        pose.GoBackward();
      }
    }

    /** go_to_best_cell: choose the best index, then move to it. */
    method GoToBestCell(s: Pose.Sides) returns (minPos: int)
      requires Ready() && InGrid(n, pose.pos)
      modifies pose`pos, pose`direction
      ensures minPos == BestCell(flooded[..], n, old(pose.State()), s)
      ensures pose.State() == BestMove(n, old(pose.State()), minPos)
    {
      minPos := BestNeighbour(s);
      MoveToBest(minPos);
    }

    /** The first half of a chasing frame: add_walls, then flood_fill from
        the target. */
    method RecordAndFlood(target: int, s: Pose.Sides) returns (ghost G: seq<int>)
      requires Ready() && InGrid(n, target) && InGrid(n, pose.pos)
      modifies this`walls, flooded
      ensures Ready() && G == flooded[..]
      ensures walls == WallsAdded(old(walls), n, pose.State(), s)
      ensures SensedRecorded(walls, n, pose.State(), s)
      ensures FloodResult(G, n, walls, target)
    {
      WallsAddedRecordsSensed(walls, n, pose.State(), s);
      AddWalls(s);
      Flood(target);
      G := flooded[..];
    }

    /** One frame of a chasing phase: add_walls, flood_fill from the
        target, go_to_best_cell. */
    method Chase(target: int, s: Pose.Sides) returns (minPos: int, ghost G: seq<int>)
      requires Ready() && InGrid(n, target) && InGrid(n, pose.pos)
      modifies this`walls, flooded, pose`pos, pose`direction
      ensures Ready() && G == flooded[..]
      ensures ChaseFrame(G, old(walls), walls, n, old(pose.State()), pose.State(), s, target)
      ensures minPos == BestCell(G, n, old(pose.State()), s)
    {
      ghost var p := pose.State();
      G := RecordAndFlood(target, s);
      minPos := GoToBestCell(s);
      ChaseStep(G, walls, n, p, s, target);
    }

    /** discover_facing_direction's first loop: drive east while both side
        sensors see walls; `corridor[k]` is the reading after k steps. When
        no reading given opens a side, the robot is still in the loop. */
    method DriveAlongCorridor(corridor: seq<Pose.Sides>) returns (k: nat, sideOpen: bool)
      requires Constructed() && pose.direction == EAST
      modifies pose`pos
      ensures sideOpen <==> exists j :: 0 <= j < |corridor| && !(corridor[j].right && corridor[j].left)
      ensures FloodFill.CorridorRun(corridor, k, sideOpen)
      ensures pose.pos == old(pose.pos) + k * n
    {
      k := 0;
      while k < |corridor| && corridor[k].right && corridor[k].left
        invariant k <= |corridor|
        invariant forall j :: 0 <= j < k ==> corridor[j].right && corridor[j].left
        invariant pose.pos == old(pose.pos) + k * n && pose.direction == EAST
        decreases |corridor| - k
      {
        pose.GoForward();
        k := k + 1;
      }
      sideOpen := k < |corridor|;
    }

    /** discover_facing_direction's second loop: drive west until the
        front sensor sees a wall; `back[m]` is that sensor after m steps.
        When no reading given sees a wall, the robot is still in the loop. */
    method DriveBackToWall(back: seq<bool>) returns (m: nat, walled: bool)
      requires Constructed() && pose.direction == WEST
      modifies pose`pos
      ensures walled <==> exists j :: 0 <= j < |back| && back[j]
      ensures FloodFill.BackRun(back, m, walled)
      ensures pose.pos == old(pose.pos) - m * n
    {
      m := 0;
      while m < |back| && !back[m]
        invariant m <= |back|
        invariant forall j :: 0 <= j < m ==> !back[j]
        invariant pose.pos == old(pose.pos) - m * n && pose.direction == WEST
        decreases |back| - m
      {
        pose.GoForward();
        m := m + 1;
      }
      walled := m < |back|;
    }

    /** discover_facing_direction: turn toward an open side, call the
        heading east, drive forward while both sides are walled, note which
        side opened, drive back until a wall is in front, turn around, and
        call the heading south if it was the left side that opened. The
        call is `done` when both loops end within the readings given;
        otherwise the robot is still in one of them and the heading is not
        yet discovered. */
    method DiscoverFacingDirection(initial: Pose.Sides, corridor: seq<Pose.Sides>, back: seq<bool>)
      returns (done: bool, ghost sideOpen: bool, ghost steps: nat, ghost returned: nat)
      requires Constructed()
      modifies this`facingDirectionDiscovered, pose`pos, pose`direction
      ensures done <==> (exists j :: 0 <= j < |corridor| && !(corridor[j].right && corridor[j].left))
                        && (exists j :: 0 <= j < |back| && back[j])
      ensures done ==> facingDirectionDiscovered
      ensures !done ==> facingDirectionDiscovered == old(facingDirectionDiscovered)
      ensures FloodFill.CorridorRun(corridor, steps, sideOpen)
      ensures sideOpen ==> FloodFill.BackRun(back, returned, done)
      ensures !sideOpen ==> !done && returned == 0
      ensures pose.State() == FlatPose.FlatState(old(pose.pos) + steps * n - returned * n,
                                                 if !sideOpen then EAST
                                                 else if !done then WEST
                                                 else if corridor[steps].right then SOUTH else EAST)
    {
      if !initial.right {
        pose.TurnRight();
      } else if !initial.left {
        pose.TurnLeft();
      } else if !initial.front {
      } else {
        pose.TurnRight();
        pose.TurnRight();
      }
      pose.direction := EAST;
      var k, o := DriveAlongCorridor(corridor);
      steps, sideOpen, returned := k, o, 0;
      if !o {
        return false, sideOpen, steps, returned;
      }
      var assumptionCorrect := !corridor[k].right;
      pose.TurnRight();
      pose.TurnRight();
      var m, w := DriveBackToWall(back);
      returned := m;
      if !w {
        return false, sideOpen, steps, returned;
      }
      pose.TurnRight();
      pose.TurnRight();
      if !assumptionCorrect {
        pose.direction := SOUTH;
      }
      facingDirectionDiscovered := true;
      done := true;
    }

    /** The flag updates at the end of a chasing frame, keyed on the flat
        index: the path is traced once the robot is on CENTER, the real run
        starts once it is back on START and ends on CENTER. */
    method AdvancePhase()
      modifies this`pathTracedToCenter, this`realRun
      ensures FloodFill.PhaseAdvanced(old(pathTracedToCenter), old(realRun), pathTracedToCenter, realRun,
                                      pose.pos == CENTER, pose.pos == pose.START)
    {
      if !pathTracedToCenter {
        if pose.pos == CENTER {
          pathTracedToCenter := true;
        }
      } else if !realRun {
        if pose.pos == pose.START {
          realRun := true;
        }
      } else if pose.pos == CENTER {
        realRun := false;
      }
    }

    /** The index the current chasing phase floods from: START on the way
        back, CENTER otherwise. */
    ghost function Target(): (t: int)
      reads this, pose
      ensures t == CENTER || t == pose.START
    {
      if pathTracedToCenter && !realRun then pose.START else CENTER
    }

    /** One frame of any chasing phase: chase the phase's target, then
        update the phase flags. */
    method ChasePhase(s: Pose.Sides) returns (ghost G: seq<int>)
      requires Ready() && InGrid(n, pose.pos)
      modifies this`pathTracedToCenter, this`realRun, this`walls, flooded, pose`pos, pose`direction
      ensures Ready() && G == flooded[..]
      ensures ChaseFrame(G, old(walls), walls, n, old(pose.State()), pose.State(), s, old(Target()))
      ensures FloodFill.PhaseAdvanced(old(pathTracedToCenter), old(realRun), pathTracedToCenter, realRun,
                                      pose.pos == CENTER, pose.pos == pose.START)
    {
      var target := if pathTracedToCenter && !realRun then pose.START else CENTER;
      CenterInGrid();
      var best;
      best, G := Chase(target, s);
      AdvancePhase();
    }

    /** CENTER is a board index. */
    lemma CenterInGrid()
      requires Constructed()
      ensures InGrid(n, CENTER)
    {
      FlatPose.DecodeGetPos(n, n / 2, n / 2);
      CoordsInRangeIsInGrid(n, CENTER);
    }

    /** loop: discover the heading first; then chase CENTER until the robot
        is on it, then START, then CENTER again, and keep shuttling; every
        frame that returns asks the runner to resume. A discovery frame
        whose loops do not end within the readings given has not returned:
        `None`. */
    method Loop(s: Pose.Sides, initial: Pose.Sides, corridor: seq<Pose.Sides>, back: seq<bool>)
      returns (status: Option<int>, ghost G: seq<int>, ghost sideOpen: bool, ghost steps: nat, ghost returned: nat)
      requires Ready()
      requires facingDirectionDiscovered ==> InGrid(n, pose.pos)
      modifies this`facingDirectionDiscovered, this`pathTracedToCenter, this`realRun, this`walls, flooded
      modifies pose`pos, pose`direction
      ensures Ready()
      ensures status.Some? ==> status.value == RESUME_SIMULATION && facingDirectionDiscovered
      ensures status.None? ==> !facingDirectionDiscovered
      ensures old(facingDirectionDiscovered) ==> status.Some?
      ensures !old(facingDirectionDiscovered) ==>
        (status.Some? <==> (exists j :: 0 <= j < |corridor| && !(corridor[j].right && corridor[j].left))
                           && (exists j :: 0 <= j < |back| && back[j]))
      ensures !old(facingDirectionDiscovered) ==>
        pathTracedToCenter == old(pathTracedToCenter) && realRun == old(realRun) && walls == old(walls)
        && (status.Some? ==> pose.direction == EAST || pose.direction == SOUTH)
      ensures !old(facingDirectionDiscovered) ==>
        FloodFill.CorridorRun(corridor, steps, sideOpen) && (sideOpen ==> FloodFill.BackRun(back, returned, status.Some?))
        && (!sideOpen ==> status.None? && returned == 0)
        && pose.State() == FlatPose.FlatState(old(pose.pos) + steps * n - returned * n,
                                              if !sideOpen then EAST
                                              else if status.None? then WEST
                                              else if corridor[steps].right then SOUTH else EAST)
      ensures old(facingDirectionDiscovered) ==> G == flooded[..]
      ensures old(facingDirectionDiscovered) ==>
        ChaseFrame(G, old(walls), walls, n, old(pose.State()), pose.State(), s, old(Target()))
      ensures old(facingDirectionDiscovered) ==>
        FloodFill.PhaseAdvanced(old(pathTracedToCenter), old(realRun), pathTracedToCenter, realRun,
                                pose.pos == CENTER, pose.pos == pose.START)
    {
      sideOpen, steps, returned := false, 0, 0;
      if !facingDirectionDiscovered {
        G := flooded[..];
        var done;
        done, sideOpen, steps, returned := DiscoverFacingDirection(initial, corridor, back);
        if !done {
          return None, G, sideOpen, steps, returned;
        }
      } else {
        G := ChasePhase(s);
      }
      status := Some(RESUME_SIMULATION);
    }
  }
}
