/** The flood-fill re-planner on tuple cells (scripts/flood_fill.py).  It
    keeps the walls it has sensed as a dictionary of sets, recomputes an
    N x N grid of distances from a target after every move, and steps to the
    open neighbour with the smallest distance, shuttling between the centre
    and the start. */
module FloodFill {
  import opened Wrappers
  import opened Datatypes
  import opened MazeGraph
  import opened SetLemmas
  import Pose

  /** Both coordinates lie in 0..n-1. */
  predicate InRange(n: int, c: Cell) {
    0 <= c.0 < n && 0 <= c.1 < n
  }

  /** The cells of an n x n grid. */
  function Square(n: int): (cells: set<Cell>)
    ensures forall c :: c in cells <==> InRange(n, c)
  {
    set i, j | 0 <= i < n && 0 <= j < n :: (i, j)
  }

  /** A wall from `a` toward `b` is recorded. */
  predicate Blocked(walls: Graph, a: Cell, b: Cell) {
    a in walls && b in walls[a]
  }

  /** The four cells flood_fill and go_to_best_cell look at, in their order:
      left, right, up, down. */
  function FourNeighbours(c: Cell): (ns: seq<Cell>)
    ensures |ns| == 4 && forall i :: 0 <= i < 4 ==> Adjacent(c, ns[i])
  {
    [(c.0 - 1, c.1), (c.0 + 1, c.1), (c.0, c.1 - 1), (c.0, c.1 + 1)]
  }

  /** The four cells are all the side-sharing cells there are. */
  lemma AdjacentIsOneOfFour(c: Cell, m: Cell)
    requires Adjacent(c, m)
    ensures m in FourNeighbours(c)
  {
    if c.0 == m.0 {
      assert m == (c.0, c.1 - 1) || m == (c.0, c.1 + 1);
    } else {
      assert m == (c.0 - 1, c.1) || m == (c.0 + 1, c.1);
    }
  }

  /** A distance grid, read as a map from in-range cells to values. */
  type Grid = map<Cell, int>

  /** Every open in-range neighbour of `c` carries a distance. */
  ghost predicate FloodClosed(G: Grid, walls: Graph, c: Cell) {
    forall m :: m in G && Adjacent(c, m) && !Blocked(walls, c, m) ==> G[m] >= 0
  }

  /** `c` was labelled from an open neighbour whose value is one less. */
  ghost predicate HasFloodParent(G: Grid, walls: Graph, c: Cell)
    requires c in G
  {
    exists p :: p in G && Adjacent(p, c) && !Blocked(walls, p, c) && G[p] + 1 == G[c]
  }

  /** What flood_fill leaves behind, with the seed written at `w` (the seed
      transposed) and read at `r` (the seed itself): `w` holds 0, every cell
      holds -1 or more, every labelled cell is closed except possibly `w`
      when `w` and `r` differ, each value of 1 or more is one more than an
      open neighbour's, and a 0 anywhere but `w` sits on an open neighbour of
      an unlabelled `r`. */
  ghost predicate FloodResult(G: Grid, walls: Graph, w: Cell, r: Cell) {
    w in G && r in G && G[w] == 0
    && (forall c :: c in G ==> G[c] >= -1)
    && (forall c :: c in G && G[c] >= 0 && (c != w || w == r) ==> FloodClosed(G, walls, c))
    && (forall c {:trigger HasFloodParent(G, walls, c)} :: c in G && G[c] >= 1 ==> HasFloodParent(G, walls, c))
    && (forall c :: c in G && G[c] == 0 && c != w ==> w != r && Adjacent(r, c) && !Blocked(walls, r, c))
  }

  /** The seed transposition: when the seed's coordinates differ, the cell
      the search starts from never holds 0. */
  lemma TransposedSeedIsNotZero(G: Grid, walls: Graph, seed: Cell)
    requires FloodResult(G, walls, (seed.1, seed.0), seed) && seed.0 != seed.1
    ensures G[seed] != 0
  {
    assert !Adjacent(seed, seed);
  }

  /** A walk through in-range cells that never crosses a recorded wall. */
  ghost predicate OpenWalk(G: Grid, walls: Graph, p: seq<Cell>) {
    (forall i :: 0 <= i < |p| ==> p[i] in G)
    && forall i :: 0 < i < |p| ==> Adjacent(p[i - 1], p[i]) && !Blocked(walls, p[i - 1], p[i])
  }

  /** With the seed on the diagonal every labelled cell is reached from it by
      an open walk of exactly its value in steps. */
  lemma {:induction false} LabelledCellsAreReached(G: Grid, walls: Graph, s: Cell, c: Cell)
    requires FloodResult(G, walls, s, s) && c in G && G[c] >= 0
    ensures exists p :: |p| == G[c] + 1 && p[0] == s && p[|p| - 1] == c && OpenWalk(G, walls, p)
    decreases G[c]
  {
    if G[c] == 0 {
      assert c == s;
      assert OpenWalk(G, walls, [s]);
    } else {
      assert HasFloodParent(G, walls, c);
      var p :| p in G && Adjacent(p, c) && !Blocked(walls, p, c) && G[p] + 1 == G[c];
      LabelledCellsAreReached(G, walls, s, p);
      var w :| |w| == G[p] + 1 && w[0] == s && w[|w| - 1] == p && OpenWalk(G, walls, w);
      var w' := w + [c];
      assert OpenWalk(G, walls, w') by {
        forall i | 0 < i < |w'| ensures Adjacent(w'[i - 1], w'[i]) && !Blocked(walls, w'[i - 1], w'[i]) {
          if i < |w| {
            assert w'[i - 1] == w[i - 1] && w'[i] == w[i];
          }
        }
      }
    }
  }

  /** With the seed on the diagonal every cell an open walk reaches from the
      seed is labelled. */
  lemma {:induction false} ReachedCellsAreLabelled(G: Grid, walls: Graph, s: Cell, p: seq<Cell>)
    requires FloodResult(G, walls, s, s) && |p| > 0 && p[0] == s && OpenWalk(G, walls, p)
    ensures G[p[|p| - 1]] >= 0
    decreases |p|
  {
    if |p| > 1 {
      var q := p[..|p| - 1];
      assert OpenWalk(G, walls, q);
      ReachedCellsAreLabelled(G, walls, s, q);
      assert FloodClosed(G, walls, q[|q| - 1]);
      assert Adjacent(p[|p| - 2], p[|p| - 1]) && !Blocked(walls, p[|p| - 2], p[|p| - 1]);
    }
  }

  /** The part of flood_fill's loop invariant about the grid alone: its
      cells, the 0 at `w`, values of -1 or more, `U` as the unlabelled cells,
      a parent for every value of 1 or more, and a 0 other than at `w` only
      on an open neighbour of `r` when `r` is not `w`. */
  ghost predicate GridInv(G: Grid, n: int, walls: Graph, w: Cell, r: Cell, U: set<Cell>) {
    (forall c :: c in G <==> InRange(n, c))
    && w in G && r in G && G[w] == 0
    && (forall c :: c in G ==> G[c] >= -1)
    && (forall c :: c in U <==> c in G && G[c] == -1)
    && (forall c {:trigger HasFloodParent(G, walls, c)} :: c in G && G[c] >= 1 ==> HasFloodParent(G, walls, c))
    && (forall c :: c in G && G[c] == 0 && c != w ==> w != r && Adjacent(r, c) && !Blocked(walls, r, c))
  }

  /** Queued cells lie in the grid and are labelled, except the seed `r`. */
  ghost predicate QueueInv(G: Grid, r: Cell, q: seq<Cell>) {
    forall i :: 0 <= i < |q| ==> q[i] in G && (G[q[i]] >= 0 || q[i] == r)
  }

  /** Every labelled cell, and `r`, is expanded, queued, `w` or in `extra`. */
  ghost predicate Covered(G: Grid, w: Cell, r: Cell, q: seq<Cell>, expanded: set<Cell>, extra: set<Cell>) {
    (forall c :: c in G && G[c] >= 0 ==> c in expanded || c in q || c == w || c in extra)
    && (r in expanded || r in q || r in extra)
  }

  /** Every expanded cell is closed. */
  ghost predicate AllClosed(G: Grid, walls: Graph, expanded: set<Cell>) {
    forall c :: c in expanded ==> FloodClosed(G, walls, c)
  }

  /** Each neighbour in `done` is out of range, labelled or walled off from
      `current`. */
  ghost predicate Visited(G: Grid, walls: Graph, current: Cell, done: seq<Cell>) {
    forall i :: 0 <= i < |done| ==> done[i] !in G || G[done[i]] >= 0 || Blocked(walls, current, done[i])
  }

  /** The invariant of flood_fill's queue loop between rounds. */
  ghost predicate FloodInv(G: Grid, n: int, walls: Graph, w: Cell, r: Cell, q: seq<Cell>,
                           expanded: set<Cell>, U: set<Cell>)
  {
    GridInv(G, n, walls, w, r, U) && QueueInv(G, r, q)
    && Covered(G, w, r, q, expanded, {}) && AllClosed(G, walls, expanded)
  }

  /** The invariant of flood_fill's queue loop while the popped cell
      `current` has had the neighbours in `done` visited. */
  ghost predicate PartialInv(G: Grid, n: int, walls: Graph, w: Cell, r: Cell, q: seq<Cell>,
                             expanded: set<Cell>, U: set<Cell>, current: Cell, done: seq<Cell>)
  {
    GridInv(G, n, walls, w, r, U) && QueueInv(G, r, q)
    && current in G && (G[current] >= 0 || current == r)
    && Covered(G, w, r, q, expanded, {current}) && AllClosed(G, walls, expanded)
    && Visited(G, walls, current, done)
  }

  /** The grid after reset and seeding satisfies the loop invariant with the
      seed queued. */
  lemma SeedInv(G: Grid, n: int, walls: Graph, w: Cell, r: Cell) returns (U: set<Cell>)
    requires (forall c :: c in G <==> InRange(n, c)) && (forall c :: c in G ==> G[c] == -1)
    requires InRange(n, w) && InRange(n, r)
    ensures FloodInv(G[w := 0], n, walls, w, r, [r], {}, U)
  {
    U := G.Keys - {w};
    var G' := G[w := 0];
    assert Covered(G', w, r, [r], {}, {}) by {
      assert r in [r];
    }
  }

  /** Popping the right end of the queue starts a round. */
  lemma PopStartsRound(G: Grid, n: int, walls: Graph, w: Cell, r: Cell, q: seq<Cell>,
                       expanded: set<Cell>, U: set<Cell>)
    requires FloodInv(G, n, walls, w, r, q, expanded, U) && |q| > 0
    ensures PartialInv(G, n, walls, w, r, q[..|q| - 1], expanded, U, q[|q| - 1], [])
  {
    var q' := q[..|q| - 1];
    var current := q[|q| - 1];
    assert QueueInv(G, r, q') by {
      forall i | 0 <= i < |q'| ensures q'[i] in G && (G[q'[i]] >= 0 || q'[i] == r) {
        assert q'[i] == q[i];
      }
    }
    assert Covered(G, w, r, q', expanded, {current}) by {
      forall c | c in q ensures c in q' || c == current {
        var i :| 0 <= i < |q| && q[i] == c;
        if i < |q| - 1 {
          assert q'[i] == c;
        }
      }
    }
  }

  /** Labelling an unlabelled open neighbour keeps the grid part. */
  lemma LabelKeepsGridInv(G: Grid, n: int, walls: Graph, w: Cell, r: Cell, U: set<Cell>, current: Cell, node: Cell)
    requires GridInv(G, n, walls, w, r, U) && current in G && (G[current] >= 0 || current == r)
    requires Adjacent(current, node) && node in G && G[node] == -1 && !Blocked(walls, current, node)
    ensures GridInv(G[node := G[current] + 1], n, walls, w, r, U - {node})
  {
    var G' := G[node := G[current] + 1];
    forall c | c in G' && G'[c] >= 1 ensures HasFloodParent(G', walls, c) {
      if c != node {
        assert HasFloodParent(G, walls, c);
        var p :| p in G && Adjacent(p, c) && !Blocked(walls, p, c) && G[p] + 1 == G[c];
        assert G'[p] == G[p];
      } else {
        assert G'[current] == G[current];
      }
    }
  }

  /** Pushing the newly labelled neighbour keeps the queue part. */
  lemma LabelKeepsQueueInv(G: Grid, r: Cell, q: seq<Cell>, node: Cell, v: int)
    requires QueueInv(G, r, q) && node in G && v >= 0
    ensures QueueInv(G[node := v], r, [node] + q)
  {
    var q' := [node] + q;
    forall i | 0 < i < |q'| ensures q'[i] in G[node := v] && (G[node := v][q'[i]] >= 0 || q'[i] == r) {
      assert q'[i] == q[i - 1];
    }
  }

  /** Labelling a neighbour and pushing it keeps every labelled cell covered. */
  lemma LabelKeepsCovered(G: Grid, w: Cell, r: Cell, q: seq<Cell>, expanded: set<Cell>, current: Cell, node: Cell, v: int)
    requires Covered(G, w, r, q, expanded, {current})
    ensures Covered(G[node := v], w, r, [node] + q, expanded, {current})
  {
  }

  /** Raising a -1 to a label keeps every expanded cell closed. */
  lemma LabelKeepsClosed(G: Grid, walls: Graph, expanded: set<Cell>, node: Cell, v: int)
    requires AllClosed(G, walls, expanded) && v >= 0
    ensures AllClosed(G[node := v], walls, expanded)
  {
    forall c | c in expanded ensures FloodClosed(G[node := v], walls, c) {
      assert FloodClosed(G, walls, c);
    }
  }

  /** A neighbour that ends labelled, out of range or walled off extends the
      visited prefix. */
  lemma VisitExtends(G: Grid, walls: Graph, current: Cell, done: seq<Cell>, node: Cell)
    requires Visited(G, walls, current, done)
    requires node !in G || G[node] >= 0 || Blocked(walls, current, node)
    ensures Visited(G, walls, current, done + [node])
  {
    var d' := done + [node];
    forall i | 0 <= i < |d'| ensures d'[i] !in G || G[d'[i]] >= 0 || Blocked(walls, current, d'[i]) {
      if i < |done| {
        assert d'[i] == done[i];
      }
    }
  }

  /** Labelling raises one -1 and keeps what was visited. */
  lemma LabelKeepsVisited(G: Grid, walls: Graph, current: Cell, done: seq<Cell>, node: Cell, v: int)
    requires Visited(G, walls, current, done) && v >= 0
    ensures Visited(G[node := v], walls, current, done + [node])
  {
    var G' := G[node := v];
    forall i | 0 <= i < |done| ensures done[i] !in G' || G'[done[i]] >= 0 || Blocked(walls, current, done[i]) {
    }
    VisitExtends(G', walls, current, done, node);
  }

  /** Visiting one neighbour keeps the round's invariant: an unlabelled,
      in-range neighbour with no wall toward it is labelled one more than the
      current cell and pushed on the left of the queue; any other neighbour
      changes nothing. */
  lemma VisitKeepsInv(G: Grid, n: int, walls: Graph, w: Cell, r: Cell, q: seq<Cell>,
                      expanded: set<Cell>, U: set<Cell>, current: Cell, done: seq<Cell>, node: Cell)
    requires PartialInv(G, n, walls, w, r, q, expanded, U, current, done) && Adjacent(current, node)
    ensures var pushed := node in G && G[node] == -1 && !Blocked(walls, current, node);
      pushed ==> PartialInv(G[node := G[current] + 1], n, walls, w, r, [node] + q, expanded, U - {node}, current, done + [node])
    ensures var pushed := node in G && G[node] == -1 && !Blocked(walls, current, node);
      !pushed ==> PartialInv(G, n, walls, w, r, q, expanded, U, current, done + [node])
  {
    if node in G && G[node] == -1 && !Blocked(walls, current, node) {
      var v := G[current] + 1;
      LabelKeepsGridInv(G, n, walls, w, r, U, current, node);
      LabelKeepsQueueInv(G, r, q, node, v);
      LabelKeepsCovered(G, w, r, q, expanded, current, node, v);
      LabelKeepsClosed(G, walls, expanded, node, v);
      LabelKeepsVisited(G, walls, current, done, node, v);
      assert current != node;
    } else {
      VisitExtends(G, walls, current, done, node);
    }
  }

  /** After all four neighbours are visited the current cell is closed, and
      the loop invariant holds with it expanded. */
  lemma RoundEnds(G: Grid, n: int, walls: Graph, w: Cell, r: Cell, q: seq<Cell>,
                  expanded: set<Cell>, U: set<Cell>, current: Cell)
    requires PartialInv(G, n, walls, w, r, q, expanded, U, current, FourNeighbours(current))
    ensures FloodInv(G, n, walls, w, r, q, expanded + {current}, U)
  {
    forall m | m in G && Adjacent(current, m) && !Blocked(walls, current, m) ensures G[m] >= 0 {
      AdjacentIsOneOfFour(current, m);
      var i :| 0 <= i < 4 && FourNeighbours(current)[i] == m;
    }
    assert FloodClosed(G, walls, current);
  }

  /** An empty queue leaves the flood result. */
  lemma FloodEnds(G: Grid, n: int, walls: Graph, w: Cell, r: Cell, expanded: set<Cell>, U: set<Cell>)
    requires FloodInv(G, n, walls, w, r, [], expanded, U)
    ensures FloodResult(G, walls, w, r)
  {
  }

  /** go_to_best_cell's move: go right if the best cell is the right one,
      forward if it is in front, left if it is the left one, and backward in
      every other case, including when the best cell is the robot's own. */
  function BestMove(p: Pose.PoseState, best: Cell): Pose.PoseState {
    var d := p.direction;
    if best == TileInDirection(p.x, p.y, RightOf(d)) then Pose.ToRight(p)
    else if best == TileInDirection(p.x, p.y, d) then Pose.Forward(p)
    else if best == TileInDirection(p.x, p.y, LeftOf(d)) then Pose.ToLeft(p)
    else Pose.Backward(p)
  }

  /** The move lands on the chosen cell when it is a neighbour, on the tile
      behind the robot when it is the robot's own cell, and keeps the heading
      valid. */
  lemma BestMoveLands(p: Pose.PoseState, best: Cell)
    requires IsDirection(p.direction)
    ensures Adjacent(Pose.Cell(p), best) ==> Pose.Cell(BestMove(p, best)) == best
    ensures best == Pose.Cell(p) ==> Pose.Cell(BestMove(p, best)) == TileInDirection(p.x, p.y, Behind(p.direction))
    ensures IsDirection(BestMove(p, best).direction)
  {
    FourRightTurns(p.direction);
    if Adjacent(Pose.Cell(p), best) {
      NeighbourIsOneOfFour(p.x, p.y, p.direction, best);
    }
  }

  /** A neighbour go_to_best_cell may choose: in range and not behind a side
      the sensors report walled. */
  predicate Eligible(p: Pose.PoseState, s: Pose.Sides, n: int, node: Cell) {
    var d := p.direction;
    InRange(n, node)
    && !(node == TileInDirection(p.x, p.y, RightOf(d)) && s.right)
    && !(node == TileInDirection(p.x, p.y, d) && s.front)
    && !(node == TileInDirection(p.x, p.y, LeftOf(d)) && s.left)
  }

  /** go_to_best_cell's scan: walking `nodes` in order, a node replaces the
      best so far when it is eligible and its value is strictly smaller; the
      scan starts from the robot's own cell and value. */
  function BestFrom(G: Grid, n: int, p: Pose.PoseState, s: Pose.Sides, nodes: seq<Cell>, val: int, pos: Cell): (best: Cell)
    requires forall c :: InRange(n, c) ==> c in G
    requires pos in G && G[pos] == val
    ensures best in G && G[best] <= val
    ensures best == pos || (best in nodes && Eligible(p, s, n, best) && G[best] < val)
    ensures forall i :: 0 <= i < |nodes| && Eligible(p, s, n, nodes[i]) ==> G[best] <= G[nodes[i]]
    decreases |nodes|
  {
    if nodes == [] then pos
    else if Eligible(p, s, n, nodes[0]) && G[nodes[0]] < val then BestFrom(G, n, p, s, nodes[1..], G[nodes[0]], nodes[0])
    else BestFrom(G, n, p, s, nodes[1..], val, pos)
  }

  /** The cell go_to_best_cell returns for the robot at `p`. */
  function BestCell(G: Grid, n: int, p: Pose.PoseState, s: Pose.Sides): (best: Cell)
    requires forall c :: InRange(n, c) ==> c in G
    requires InRange(n, Pose.Cell(p))
    ensures best in G && G[best] <= G[Pose.Cell(p)]
    ensures best == Pose.Cell(p) || (Adjacent(Pose.Cell(p), best) && Eligible(p, s, n, best))
  {
    var c := Pose.Cell(p);
    BestFrom(G, n, p, s, FourNeighbours(c), G[c], c)
  }

  /** Every side the sensors report walled is recorded, in both directions,
      whenever its tile lies in the grid. */
  ghost predicate SensedRecorded(walls: Graph, n: int, p: Pose.PoseState, s: Pose.Sides) {
    var here := Pose.Cell(p);
    var d := p.direction;
    (s.right && InRange(n, TileInDirection(p.x, p.y, RightOf(d))) ==> Blocked(walls, here, TileInDirection(p.x, p.y, RightOf(d))))
    && (s.left && InRange(n, TileInDirection(p.x, p.y, LeftOf(d))) ==> Blocked(walls, here, TileInDirection(p.x, p.y, LeftOf(d))))
    && (s.front && InRange(n, TileInDirection(p.x, p.y, d)) ==> Blocked(walls, here, TileInDirection(p.x, p.y, d)))
  }

  /** add_walls records every sensed wall around an in-range robot, keeps
      the record symmetric and adds nothing but walls from the robot's cell
      to an adjacent in-range tile. */
  lemma WallsAddedRecordsSensed(walls: Graph, n: int, p: Pose.PoseState, s: Pose.Sides)
    requires Symmetric(walls) && InRange(n, Pose.Cell(p))
    ensures SensedRecorded(WallsAdded(walls, n, p, s), n, p, s)
    ensures Symmetric(WallsAdded(walls, n, p, s))
    ensures forall u, v {:trigger v in WallsAdded(walls, n, p, s)[u]} :: u in WallsAdded(walls, n, p, s) && v in WallsAdded(walls, n, p, s)[u] ==>
      Blocked(walls, u, v) || (InRange(n, u) && InRange(n, v) && (u == Pose.Cell(p) || v == Pose.Cell(p)))
  {
    var here := Pose.Cell(p);
    var d := p.direction;
    var w1 := AddWallIfInRange(walls, n, s.right, here, TileInDirection(p.x, p.y, RightOf(d)));
    var w2 := AddWallIfInRange(w1, n, s.left, here, TileInDirection(p.x, p.y, LeftOf(d)));
    var w3 := AddWallIfInRange(w2, n, s.front, here, TileInDirection(p.x, p.y, d));
    GuardedWallKeepsShape(walls, n, s.right, here, TileInDirection(p.x, p.y, RightOf(d)));
    GuardedWallKeepsShape(w1, n, s.left, here, TileInDirection(p.x, p.y, LeftOf(d)));
    GuardedWallKeepsShape(w2, n, s.front, here, TileInDirection(p.x, p.y, d));
  }

  /** A distance reading shorter than a cell side, on any of the three
      sensors, ends up in add_walls' record as a wall in both directions
      between the robot's cell and the tile on that side, when that tile
      is on the board. */
  lemma ShortReadingRecordedAsWall(walls: Graph, n: int, p: Pose.PoseState, front: int, left: int, right: int, side: int)
    requires Symmetric(walls) && InRange(n, Pose.Cell(p))
    ensures var h := WallsAdded(walls, n, p, Pose.Sensed(front, left, right, side));
      var here, d := Pose.Cell(p), p.direction;
      (right < side && InRange(n, TileInDirection(p.x, p.y, RightOf(d))) ==>
         Blocked(h, here, TileInDirection(p.x, p.y, RightOf(d))) && Blocked(h, TileInDirection(p.x, p.y, RightOf(d)), here))
      && (left < side && InRange(n, TileInDirection(p.x, p.y, LeftOf(d))) ==>
         Blocked(h, here, TileInDirection(p.x, p.y, LeftOf(d))) && Blocked(h, TileInDirection(p.x, p.y, LeftOf(d)), here))
      && (front < side && InRange(n, TileInDirection(p.x, p.y, d)) ==>
         Blocked(h, here, TileInDirection(p.x, p.y, d)) && Blocked(h, TileInDirection(p.x, p.y, d), here))
  {
    WallsAddedRecordsSensed(walls, n, p, Pose.Sensed(front, left, right, side));
  }

  /** One guarded add_wall_between from an in-range cell keeps the record
      symmetric and adds only walls at that cell between in-range tiles. */
  lemma GuardedWallKeepsShape(walls: Graph, n: int, sensed: bool, here: Cell, b: Cell)
    requires Symmetric(walls) && InRange(n, here)
    ensures Symmetric(AddWallIfInRange(walls, n, sensed, here, b))
    ensures forall u, v {:trigger v in AddWallIfInRange(walls, n, sensed, here, b)[u]} ::
      u in AddWallIfInRange(walls, n, sensed, here, b) && v in AddWallIfInRange(walls, n, sensed, here, b)[u] ==>
      Blocked(walls, u, v) || (InRange(n, u) && InRange(n, v) && (u == here || v == here))
  {
    if sensed && InRange(n, b) {
      AddEdgePreservesSymmetry(walls, here, b);
    }
  }


  /** The progress go_to_best_cell makes on a grid flooded from a cell on the
      diagonal: from a cell labelled 1 or more, with every sensed wall
      recorded, the chosen cell is a neighbour with a strictly smaller label.
      The parent that labelled the robot's cell is never ruled out, because
      a sensed wall toward it would have stopped the labelling. */
  lemma BestCellDescends(G: Grid, walls: Graph, n: int, p: Pose.PoseState, s: Pose.Sides, target: Cell)
    requires FloodResult(G, walls, target, target) && (forall c :: c in G <==> InRange(n, c))
    requires Symmetric(walls) && SensedRecorded(walls, n, p, s) && IsDirection(p.direction)
    requires InRange(n, Pose.Cell(p)) && G[Pose.Cell(p)] >= 1
    ensures Adjacent(Pose.Cell(p), BestCell(G, n, p, s)) && G[BestCell(G, n, p, s)] < G[Pose.Cell(p)]
  {
    assert HasFloodParent(G, walls, Pose.Cell(p));
    BestCellBelowParent(G, walls, n, p, s);
  }

  /** From a cell whose label is one more than an open neighbour's, with
      every sensed wall recorded, the chosen cell is a neighbour labelled
      strictly less. */
  lemma BestCellBelowParent(G: Grid, walls: Graph, n: int, p: Pose.PoseState, s: Pose.Sides)
    requires forall c :: c in G <==> InRange(n, c)
    requires Symmetric(walls) && SensedRecorded(walls, n, p, s)
    requires InRange(n, Pose.Cell(p)) && HasFloodParent(G, walls, Pose.Cell(p))
    ensures Adjacent(Pose.Cell(p), BestCell(G, n, p, s)) && G[BestCell(G, n, p, s)] < G[Pose.Cell(p)]
  {
    var c := Pose.Cell(p);
    var par :| par in G && Adjacent(par, c) && !Blocked(walls, par, c) && G[par] + 1 == G[c];
    assert !Blocked(walls, c, par);
    UnrecordedIsEligible(walls, n, p, s, par);
    assert Adjacent(c, par);
    AdjacentIsOneOfFour(c, par);
    var i :| 0 <= i < 4 && FourNeighbours(c)[i] == par;
    var best := BestFrom(G, n, p, s, FourNeighbours(c), G[c], c);
    assert best == BestCell(G, n, p, s);
    assert G[best] <= G[par];
  }

  /** An in-range tile with no wall recorded toward it from the robot's
      cell is not one the sensors report walled. */
  lemma UnrecordedIsEligible(walls: Graph, n: int, p: Pose.PoseState, s: Pose.Sides, m: Cell)
    requires SensedRecorded(walls, n, p, s) && InRange(n, m) && !Blocked(walls, Pose.Cell(p), m)
    ensures Eligible(p, s, n, m)
  {
  }

  /** What one chasing frame achieves on a grid flooded from `target`: a
      robot on a cell labelled 0 stands on the target, and one on a cell
      labelled 1 or more ends, still in the grid, on a cell labelled
      strictly less. */
  ghost predicate ChaseProgress(G: Grid, n: int, p: Pose.PoseState, q: Pose.PoseState, target: Cell)
    requires forall c :: InRange(n, c) ==> c in G
    requires InRange(n, Pose.Cell(p))
  {
    (G[Pose.Cell(p)] == 0 ==> Pose.Cell(p) == target)
    && (G[Pose.Cell(p)] >= 1 ==> InRange(n, Pose.Cell(q)) && G[Pose.Cell(q)] < G[Pose.Cell(p)])
  }

  /** One chasing frame as a relation between the walls and pose before and
      after: the sensed walls are added, the grid is flooded from `target`,
      the robot makes go_to_best_cell's move, and it makes progress. */
  ghost predicate ChaseFrame(G: Grid, walls0: Graph, walls: Graph, n: int, p: Pose.PoseState, q: Pose.PoseState,
                             s: Pose.Sides, target: Cell)
  {
    (forall c :: InRange(n, c) ==> c in G) && InRange(n, Pose.Cell(p))
    && walls == WallsAdded(walls0, n, p, s)
    && FloodResult(G, walls, target, target)
    && q == BestMove(p, BestCell(G, n, p, s))
    && ChaseProgress(G, n, p, q, target)
  }

  /** A chasing frame makes progress and keeps the heading valid. */
  lemma ChaseStep(G: Grid, walls: Graph, n: int, p: Pose.PoseState, s: Pose.Sides, target: Cell)
    requires FloodResult(G, walls, target, target) && (forall c :: c in G <==> InRange(n, c))
    requires Symmetric(walls) && SensedRecorded(walls, n, p, s) && IsDirection(p.direction)
    requires InRange(n, Pose.Cell(p))
    ensures ChaseProgress(G, n, p, BestMove(p, BestCell(G, n, p, s)), target)
    ensures IsDirection(BestMove(p, BestCell(G, n, p, s)).direction)
  {
    BestMoveLands(p, BestCell(G, n, p, s));
    if G[Pose.Cell(p)] >= 1 {
      BestCellDescends(G, walls, n, p, s, target);
    }
  }

  /** A frame that adds the sensed walls, floods from `target` and makes
      go_to_best_cell's move is a chasing frame. */
  lemma ChaseFrameHolds(G: Grid, walls0: Graph, walls: Graph, n: int, p: Pose.PoseState, s: Pose.Sides, target: Cell)
    requires walls == WallsAdded(walls0, n, p, s)
    requires FloodResult(G, walls, target, target) && (forall c :: c in G <==> InRange(n, c))
    requires Symmetric(walls) && SensedRecorded(walls, n, p, s) && IsDirection(p.direction)
    requires InRange(n, Pose.Cell(p))
    ensures ChaseFrame(G, walls0, walls, n, p, BestMove(p, BestCell(G, n, p, s)), s, target)
    ensures IsDirection(BestMove(p, BestCell(G, n, p, s)).direction)
  {
    ChaseStep(G, walls, n, p, s, target);
  }

  /** How many quarter turns discover_facing_direction makes before it
      starts down the corridor: right if the right side is open, else left
      if the left is, none if only the front is, else two. */
  function InitialTurns(s: Pose.Sides): (turns: nat)
    ensures turns == 0 <==> s.right && s.left && !s.front
    ensures turns == 2 <==> s.right && s.left && s.front
  {
    if !s.right then 1 else if !s.left then 1 else if !s.front then 0 else 2
  }

  /** `k` is the first corridor reading with a side open. */
  ghost predicate FirstOpening(corridor: seq<Pose.Sides>, k: nat) {
    k < |corridor| && !(corridor[k].right && corridor[k].left)
    && forall j :: 0 <= j < k ==> corridor[j].right && corridor[j].left
  }

  /** `k` is the first backward-run reading with a wall in front. */
  ghost predicate FirstFrontWall(back: seq<bool>, k: nat) {
    k < |back| && back[k] && forall j :: 0 <= j < k ==> !back[j]
  }

  /** Where the corridor loop stands after the readings given: on the
      first reading with a side open, or, when no reading opens a side,
      past all of them and still driving. */
  ghost predicate CorridorRun(corridor: seq<Pose.Sides>, k: nat, sideOpen: bool) {
    if sideOpen then FirstOpening(corridor, k)
    else k == |corridor| && forall j :: 0 <= j < |corridor| ==> corridor[j].right && corridor[j].left
  }

  /** Where the backward loop stands after the readings given: on the
      first reading with a wall in front, or past all of them. */
  ghost predicate BackRun(back: seq<bool>, m: nat, walled: bool) {
    if walled then FirstFrontWall(back, m)
    else m == |back| && forall j :: 0 <= j < |back| ==> !back[j]
  }

  /** The phase flags after a chasing frame, given the flags before and
      whether the robot now stands on the centre or on the start: the path
      is traced once it reaches the centre, and after that the real run
      starts on reaching the start and ends on reaching the centre. */
  predicate PhaseAdvanced(traced0: bool, running0: bool, traced: bool, running: bool, atCenter: bool, atStart: bool) {
    (!traced0 ==> traced == atCenter && running == running0)
    && (traced0 && !running0 ==> traced && running == atStart)
    && (traced0 && running0 ==> traced && running == !atCenter)
  }

  class FloodFillScript {
    const pose: Pose.UserScript
    /** The number of cells along each side of the square maze. */
    const n: nat
    var facingDirectionDiscovered: bool
    var pathTracedToCenter: bool
    var realRun: bool
    var center: Cell
    /** flooded_grid, indexed [x][y]. */
    var flooded: array2<int>
    var walls: Graph

    ghost predicate Valid()
      reads this`flooded
    {
      flooded.Length0 == n && flooded.Length1 == n
    }

    /** What setup establishes and every frame keeps: a non-empty grid, the
        centre and the start on its diagonal, a symmetric wall record and a
        valid heading. */
    ghost predicate Ready()
      reads this, pose
    {
      Valid() && n > 0 && center == (n / 2, n / 2) && pose.start == (0, 0)
      && Symmetric(walls) && IsDirection(pose.direction)
    }

    /** The grid as a map from in-range cells to values. */
    ghost function GridMap(): (G: Grid)
      reads this`flooded, flooded
      requires Valid()
      ensures forall c :: c in G <==> InRange(n, c)
    {
      map c | c in Square(n) :: flooded[c.0, c.1]
    }

    constructor (pose: Pose.UserScript, n: nat)
      ensures this.pose == pose && this.n == n
    {
      this.pose := pose;
      this.n := n;
      flooded := new int[0, 0];
      walls := map[];
    }

    /** setup: the base pose, every phase flag off, the centre at (N/2, N/2),
        an N x N grid of -1 and no walls. */
    method Setup()
      modifies this, pose
      ensures pose.start == (0, 0) && pose.State() == Pose.PoseState(0, 0, NORTH)
      ensures !facingDirectionDiscovered && !pathTracedToCenter && !realRun
      ensures center == (n / 2, n / 2) && walls == map[]
      ensures Valid() && fresh(flooded) && (n > 0 ==> Ready())
      ensures forall i, j :: 0 <= i < n && 0 <= j < n ==> flooded[i, j] == -1
    {
      pose.Setup();
      facingDirectionDiscovered, pathTracedToCenter, realRun := false, false, false;
      center := (n / 2, n / 2);
      flooded := new int[n, n]((i, j) => -1);
      walls := map[];
    }

    /** add_wall_between: nothing happens unless both cells are in range;
        then the wall is recorded in both directions. */
    method AddWallBetween(a: Cell, b: Cell)
      modifies this`walls
      ensures walls == if InRange(n, a) && InRange(n, b) then AddEdge(old(walls), a, b) else old(walls)
    {
      if !InRange(n, a) || !InRange(n, b) {
        return;
      }
      walls := AddEdge(walls, a, b);
    }

    /** add_walls: a wall toward the right, left and front tile, each only
        when that sensor reports one. */
    method AddWalls(s: Pose.Sides)
      modifies this`walls
      ensures walls == WallsAdded(old(walls), n, pose.State(), s)
    {
      var here := (pose.x, pose.y);
      var d := pose.direction;
      if s.right {
        AddWallBetween(here, TileInDirection(pose.x, pose.y, RightOf(d)));
      }
      if s.left {
        AddWallBetween(here, TileInDirection(pose.x, pose.y, LeftOf(d)));
      }
      if s.front {
        AddWallBetween(here, TileInDirection(pose.x, pose.y, d));
      }
    }

    /** One neighbour visit of flood_fill's inner loop. */
    method Visit(current: Cell, node: Cell, ghost G: Grid) returns (pushed: bool)
      requires Valid() && InRange(n, current) && G == GridMap()
      modifies flooded
      ensures Valid()
      ensures pushed == (InRange(n, node) && G[node] == -1 && !Blocked(walls, current, node))
      ensures GridMap() == if pushed then G[node := G[current] + 1] else G
    {
      if !InRange(n, node) {
        return false;
      }
      if flooded[node.0, node.1] != -1 {
        return false;
      }
      if current in walls && node in walls[current] {
        return false;
      }
      flooded[node.0, node.1] := flooded[current.0, current.1] + 1;
      pushed := true;
      assert GridMap() == G[node := G[current] + 1];
    }

    /** flood_fill's reset of every cell to -1. */
    method ResetGrid()
      requires Valid()
      modifies flooded
      ensures Valid() && forall c :: c in GridMap() ==> GridMap()[c] == -1
    {
      for i := 0 to n
        invariant forall i', j :: 0 <= i' < i && 0 <= j < n ==> flooded[i', j] == -1
      {
        for j := 0 to n
          invariant forall i', j' :: 0 <= i' < i && 0 <= j' < n ==> flooded[i', j'] == -1
          invariant forall j' :: 0 <= j' < j ==> flooded[i, j'] == -1
        {
          flooded[i, j] := -1;
        }
      }
    }

    /** One pass of flood_fill's inner loop, for the neighbour `node`; `G`
        and `G'` are the grid before and after. */
    method VisitStep(w: Cell, r: Cell, q: seq<Cell>, ghost expanded: set<Cell>, ghost U: set<Cell>,
                     current: Cell, ghost done: seq<Cell>, node: Cell, ghost done': seq<Cell>, ghost G: Grid)
      returns (q': seq<Cell>, ghost U': set<Cell>, ghost G': Grid)
      requires Valid() && G == GridMap() && PartialInv(G, n, walls, w, r, q, expanded, U, current, done)
      requires Adjacent(current, node) && done' == done + [node]
      modifies flooded
      ensures Valid() && G' == GridMap() && PartialInv(G', n, walls, w, r, q', expanded, U', current, done')
      ensures U' <= U && (U' == U ==> q' == q)
    {
      VisitKeepsInv(G, n, walls, w, r, q, expanded, U, current, done, node);
      var pushed := Visit(current, node, G);
      q', U', G' := q, U, G;
      if pushed {
        q', U', G' := [node] + q, U - {node}, G[node := G[current] + 1];
      }
    }

    /** flood_fill's inner loop over the four neighbours of the popped cell. */
    method VisitNeighbours(w: Cell, r: Cell, q: seq<Cell>, ghost expanded: set<Cell>, ghost U: set<Cell>,
                           current: Cell, ghost G: Grid)
      returns (q': seq<Cell>, ghost U': set<Cell>, ghost G': Grid)
      requires Valid() && G == GridMap() && PartialInv(G, n, walls, w, r, q, expanded, U, current, [])
      modifies flooded
      ensures Valid() && G' == GridMap() && PartialInv(G', n, walls, w, r, q', expanded, U', current, FourNeighbours(current))
      ensures U' <= U && (U' == U ==> q' == q)
    {
      var nodes := FourNeighbours(current);
      q', U', G' := q, U, G;
      for k := 0 to 4
        invariant Valid() && G' == GridMap() && PartialInv(G', n, walls, w, r, q', expanded, U', current, nodes[..k])
        invariant U' <= U && (U' == U ==> q' == q)
      {
        assert nodes[..k + 1] == nodes[..k] + [nodes[k]];
        q', U', G' := VisitStep(w, r, q', expanded, U', current, nodes[..k], nodes[k], nodes[..k + 1], G');
      }
      assert nodes[..4] == nodes;
    }

    /** One round of flood_fill's queue loop: pop the right end and visit its
        four neighbours. */
    method FloodRound(w: Cell, r: Cell, q: seq<Cell>, ghost expanded: set<Cell>, ghost U: set<Cell>)
      returns (q': seq<Cell>, ghost expanded': set<Cell>, ghost U': set<Cell>)
      requires Valid() && FloodInv(GridMap(), n, walls, w, r, q, expanded, U) && |q| > 0
      modifies flooded
      ensures Valid() && FloodInv(GridMap(), n, walls, w, r, q', expanded', U')
      ensures |U'| < |U| || (U' == U && |q'| < |q|)
    {
      var current := q[|q| - 1];
      PopStartsRound(GridMap(), n, walls, w, r, q, expanded, U);
      ghost var G;
      q', U', G := VisitNeighbours(w, r, q[..|q| - 1], expanded, U, current, GridMap());
      RoundEnds(G, n, walls, w, r, q', expanded, U', current);
      expanded' := expanded + {current};
      if U' != U {
        var x :| x in U && x !in U';
        ProperSubsetSmaller(U', U, x);
      }
    }

    /** flood_fill: reset the grid, write 0 at [seed.1][seed.0], then label
        cells breadth-first from the seed (read at [seed.0][seed.1]), never
        across a recorded wall and never outside the grid. */
    method Flood(seed: Cell)
      requires Valid() && InRange(n, seed)
      modifies flooded
      ensures Valid() && FloodResult(GridMap(), walls, (seed.1, seed.0), seed)
    {
      ResetGrid();
      ghost var G0 := GridMap();
      var w := (seed.1, seed.0);
      flooded[seed.1, seed.0] := 0;
      assert GridMap() == G0[w := 0];
      var q := [seed];
      ghost var expanded: set<Cell> := {};
      ghost var U := SeedInv(G0, n, walls, w, seed);
      while q != []
        invariant Valid() && FloodInv(GridMap(), n, walls, w, seed, q, expanded, U)
        decreases |U|, |q|
      {
        q, expanded, U := FloodRound(w, seed, q, expanded, U);
      }
      FloodEnds(GridMap(), n, walls, w, seed, expanded, U);
    }

    /** go_to_best_cell's scan: the eligible neighbour with the strictly
        smallest value, ties keeping the earlier in the order left, right,
        up, down, or the robot's own cell when no neighbour is smaller. */
    method BestNeighbour(s: Pose.Sides) returns (minPos: Cell)
      requires Valid() && InRange(n, (pose.x, pose.y))
      ensures minPos == BestCell(GridMap(), n, pose.State(), s)
    {
      ghost var G, p := GridMap(), pose.State();
      var here := (pose.x, pose.y);
      var nodes := FourNeighbours(here);
      var d := pose.direction;
      var rightNode := TileInDirection(pose.x, pose.y, RightOf(d));
      var frontNode := TileInDirection(pose.x, pose.y, d);
      var leftNode := TileInDirection(pose.x, pose.y, LeftOf(d));
      var minVal := flooded[here.0, here.1];
      minPos := here;
      for k := 0 to 4
        invariant minPos in G && G[minPos] == minVal
        invariant BestFrom(G, n, p, s, nodes[k..], minVal, minPos) == BestCell(G, n, p, s)
      {
        var node := nodes[k];
        assert nodes[k..][1..] == nodes[k + 1..];
        if !InRange(n, node) {
          continue;
        }
        if node == rightNode && s.right {
          continue;
        } else if node == frontNode && s.front {
          continue;
        } else if node == leftNode && s.left {
          continue;
        }
        var val := flooded[node.0, node.1];
        assert val == G[node];
        if val < minVal {
          minVal := val;
          minPos := node;
        }
      }
    }

    /** go_to_best_cell's move toward the chosen cell. */
    method MoveToBest(best: Cell)
      modifies pose`x, pose`y, pose`direction, pose`refreshes
      ensures pose.State() == BestMove(old(pose.State()), best)
    {
      var d := pose.direction;
      if best == TileInDirection(pose.x, pose.y, RightOf(d)) {
        pose.GoToRight();
      } else if best == TileInDirection(pose.x, pose.y, d) {
        pose.GoForward();
      } else if best == TileInDirection(pose.x, pose.y, LeftOf(d)) {
        pose.GoToLeft();
      } else {
        pose.GoBackward();
      }
    }

    /** go_to_best_cell: choose the best cell, then move to it. */
    method GoToBestCell(s: Pose.Sides) returns (minPos: Cell)
      requires Valid() && InRange(n, (pose.x, pose.y))
      modifies pose`x, pose`y, pose`direction, pose`refreshes
      ensures minPos == BestCell(GridMap(), n, old(pose.State()), s)
      ensures pose.State() == BestMove(old(pose.State()), minPos)
    {
      minPos := BestNeighbour(s);
      MoveToBest(minPos);
    }

    /** The first half of a chasing frame: add_walls, then flood_fill from
        the target. */
    method RecordAndFlood(target: Cell, s: Pose.Sides) returns (ghost G: Grid)
      requires Ready() && InRange(n, target) && target.0 == target.1 && InRange(n, (pose.x, pose.y))
      modifies this`walls, flooded
      ensures Ready() && G == GridMap()
      ensures walls == WallsAdded(old(walls), n, pose.State(), s)
      ensures SensedRecorded(walls, n, pose.State(), s)
      ensures FloodResult(G, walls, target, target)
    {
      WallsAddedRecordsSensed(walls, n, pose.State(), s);
      AddWalls(s);
      Flood(target);
      assert (target.1, target.0) == target;
      G := GridMap();
    }

    /** One frame of a chasing phase: add_walls, flood_fill from the target,
        go_to_best_cell. */
    method Chase(target: Cell, s: Pose.Sides) returns (minPos: Cell, ghost G: Grid)
      requires Ready() && InRange(n, target) && target.0 == target.1 && InRange(n, (pose.x, pose.y))
      modifies this`walls, flooded, pose`x, pose`y, pose`direction, pose`refreshes
      ensures Ready() && G == GridMap()
      ensures ChaseFrame(G, old(walls), walls, n, old(pose.State()), pose.State(), s, target)
      ensures minPos == BestCell(G, n, old(pose.State()), s)
    {
      ghost var p, w0 := pose.State(), walls;
      G := RecordAndFlood(target, s);
      ghost var w1 := walls;
      minPos := GoToBestCell(s);
      assert walls == w1 && G == GridMap();
      ChaseFrameHolds(G, w0, walls, n, p, s, target);
    }

    /** discover_facing_direction's first loop: drive forward while both
        side sensors see walls; `corridor[k]` is the reading after k steps.
        The loop ends on the first reading with a side open; when none of
        the readings given opens a side, the robot has driven past all of
        them and is still in the loop. */
    method DriveAlongCorridor(corridor: seq<Pose.Sides>) returns (k: nat, sideOpen: bool)
      requires pose.direction == EAST
      modifies pose`x, pose`y, pose`refreshes
      ensures sideOpen <==> exists j :: 0 <= j < |corridor| && !(corridor[j].right && corridor[j].left)
      ensures CorridorRun(corridor, k, sideOpen)
      ensures pose.x == old(pose.x) + k && pose.y == old(pose.y)
      ensures pose.refreshes == old(pose.refreshes) + k
    {
      k := 0;
      while k < |corridor| && corridor[k].right && corridor[k].left
        invariant k <= |corridor|
        invariant forall j :: 0 <= j < k ==> corridor[j].right && corridor[j].left
        invariant pose.x == old(pose.x) + k && pose.y == old(pose.y) && pose.direction == old(pose.direction)
        invariant pose.refreshes == old(pose.refreshes) + k
        decreases |corridor| - k
      {
        pose.GoForward();
        k := k + 1;
      }
      sideOpen := k < |corridor|;
    }

    /** discover_facing_direction's second loop: drive until the front
        sensor sees a wall; `back[m]` is that sensor after m steps. When no
        reading given sees a wall, the robot is still in the loop. */
    method DriveBackToWall(back: seq<bool>) returns (m: nat, walled: bool)
      requires pose.direction == WEST
      modifies pose`x, pose`y, pose`refreshes
      ensures walled <==> exists j :: 0 <= j < |back| && back[j]
      ensures BackRun(back, m, walled)
      ensures pose.x == old(pose.x) - m && pose.y == old(pose.y)
      ensures pose.refreshes == old(pose.refreshes) + m
    {
      m := 0;
      while m < |back| && !back[m]
        invariant m <= |back|
        invariant forall j :: 0 <= j < m ==> !back[j]
        invariant pose.x == old(pose.x) - m && pose.y == old(pose.y) && pose.direction == old(pose.direction)
        invariant pose.refreshes == old(pose.refreshes) + m
        decreases |back| - m
      {
        pose.GoForward();
        m := m + 1;
      }
      walled := m < |back|;
    }

    /** discover_facing_direction's first turn: right if the right side is
        open, else left if the left is, none if only the front is, else
        around; the robot stays on its cell. */
    method FaceOpenSide(initial: Pose.Sides)
      modifies pose`direction, pose`refreshes
      ensures pose.State() == if !initial.right then Pose.TurnedRight(old(pose.State()))
                              else if !initial.left then Pose.TurnedLeft(old(pose.State()))
                              else if !initial.front then old(pose.State())
                              else Pose.TurnedRight(Pose.TurnedRight(old(pose.State())))
      ensures pose.refreshes == old(pose.refreshes) + InitialTurns(initial)
    {
      if !initial.right {
        pose.TurnRight();
      } else if !initial.left {
        pose.TurnLeft();
      } else if !initial.front {
      } else {
        pose.TurnRight();
        pose.TurnRight();
      }
    }

    /** discover_facing_direction: turn toward an open side, call the
        heading east, drive forward while both sides are walled, note which
        side opened, drive back until a wall is in front, turn around, and
        call the heading south if it was the left side that opened.
        `initial` is the first reading, `corridor[k]` the reading after k
        steps forward, `back[k]` the front sensor after k steps back. The
        call is `done` when both loops end within the readings given;
        otherwise the robot is still in one of them, where the readings
        leave it, and the heading is not yet discovered. */
    method DiscoverFacingDirection(initial: Pose.Sides, corridor: seq<Pose.Sides>, back: seq<bool>)
      returns (done: bool, ghost sideOpen: bool, ghost steps: nat, ghost returned: nat)
      requires Ready()
      modifies this`facingDirectionDiscovered, pose`x, pose`y, pose`direction, pose`refreshes
      ensures Ready()
      ensures done <==> (exists j :: 0 <= j < |corridor| && !(corridor[j].right && corridor[j].left))
                        && (exists j :: 0 <= j < |back| && back[j])
      ensures done ==> facingDirectionDiscovered
      ensures !done ==> facingDirectionDiscovered == old(facingDirectionDiscovered)
      ensures CorridorRun(corridor, steps, sideOpen)
      ensures sideOpen ==> BackRun(back, returned, done)
      ensures !sideOpen ==> !done && returned == 0
      ensures pose.State() == Pose.PoseState(old(pose.x) + steps - returned, old(pose.y),
                                             if !sideOpen then EAST
                                             else if !done then WEST
                                             else if corridor[steps].right then SOUTH else EAST)
      ensures pose.refreshes == old(pose.refreshes) + InitialTurns(initial) + steps
                                + (if sideOpen then 2 + returned + (if done then 2 else 0) else 0)
    {
      FaceOpenSide(initial);
      pose.direction := EAST;
      var k, o := DriveAlongCorridor(corridor);
      steps, sideOpen, returned := k, o, 0;
      if !o {
        return false, sideOpen, steps, returned;
      }
      done, returned := ReturnToWall(corridor[k].right, back);
    }

    /** The second half of the discovery: from the opening, facing EAST,
        turn round and drive back until the front sensor sees the wall;
        then turn round again, and face SOUTH when the right side at the
        opening was walled, so the heading assumed at the start was wrong. */
    method ReturnToWall(rightWalled: bool, back: seq<bool>) returns (done: bool, ghost returned: nat)
      requires Ready() && pose.direction == EAST
      modifies this`facingDirectionDiscovered, pose`x, pose`y, pose`direction, pose`refreshes
      ensures Ready()
      ensures done <==> exists j :: 0 <= j < |back| && back[j]
      ensures BackRun(back, returned, done)
      ensures done ==> facingDirectionDiscovered
      ensures !done ==> facingDirectionDiscovered == old(facingDirectionDiscovered)
      ensures pose.State() == Pose.PoseState(old(pose.x) - returned, old(pose.y),
                                             if !done then WEST else if rightWalled then SOUTH else EAST)
      ensures pose.refreshes == old(pose.refreshes) + 2 + returned + (if done then 2 else 0)
    {
      var assumptionCorrect := !rightWalled;
      pose.TurnRight();
      pose.TurnRight();
      var m, w := DriveBackToWall(back);
      returned := m;
      if !w {
        return false, returned;
      }
      pose.TurnRight();
      pose.TurnRight();
      if !assumptionCorrect {
        pose.direction := SOUTH;
      }
      facingDirectionDiscovered := true;
      done := true;
    }

    /** The flag updates at the end of a chasing frame: the path is traced
        once the robot reaches the centre, the real run starts once it is
        back at the start and ends at the centre. */
    method AdvancePhase()
      modifies this`pathTracedToCenter, this`realRun
      ensures PhaseAdvanced(old(pathTracedToCenter), old(realRun), pathTracedToCenter, realRun,
                            (pose.x, pose.y) == center, (pose.x, pose.y) == pose.start)
    {
      if !pathTracedToCenter {
        if (pose.x, pose.y) == center {
          pathTracedToCenter := true;
        }
      } else if !realRun {
        if (pose.x, pose.y) == pose.start {
          realRun := true;
        }
      } else if (pose.x, pose.y) == center {
        realRun := false;
      }
    }

    /** One frame of any chasing phase: chase the phase's target, then
        update the phase flags. */
    method ChasePhase(s: Pose.Sides) returns (ghost G: Grid)
      requires Ready() && InRange(n, (pose.x, pose.y))
      modifies this`pathTracedToCenter, this`realRun, this`walls, flooded
      modifies pose`x, pose`y, pose`direction, pose`refreshes
      ensures Ready() && G == GridMap()
      ensures ChaseFrame(G, old(walls), walls, n, old(pose.State()), pose.State(), s, old(Target()))
      ensures PhaseAdvanced(old(pathTracedToCenter), old(realRun), pathTracedToCenter, realRun,
                            (pose.x, pose.y) == center, (pose.x, pose.y) == pose.start)
    {
      var target := if pathTracedToCenter && !realRun then pose.start else center;
      var best;
      best, G := Chase(target, s);
      ghost var q, w := pose.State(), walls;
      AdvancePhase();
      assert pose.State() == q && walls == w && G == GridMap();
    }

    /** The cell the current chasing phase floods from: the start on the
        way back, the centre otherwise. */
    ghost function Target(): (t: Cell)
      reads this, pose
      ensures t == center || t == pose.start
    {
      if pathTracedToCenter && !realRun then pose.start else center
    }

    /** loop: discover the heading first; then chase the centre until the
        robot stands on it, then the start, then the centre again, and keep
        shuttling between the centre and the start; every frame that
        returns asks the runner to resume. A discovery frame whose loops do
        not end within the readings given has not returned: `None`. */
    method Loop(s: Pose.Sides, initial: Pose.Sides, corridor: seq<Pose.Sides>, back: seq<bool>)
      returns (status: Option<int>, ghost G: Grid, ghost sideOpen: bool, ghost steps: nat, ghost returned: nat)
      requires Ready()
      requires facingDirectionDiscovered ==> InRange(n, (pose.x, pose.y))
      modifies this`facingDirectionDiscovered, this`pathTracedToCenter, this`realRun, this`walls, flooded
      modifies pose`x, pose`y, pose`direction, pose`refreshes
      ensures Ready()
      ensures status.Some? ==> status.value == RESUME_SIMULATION && facingDirectionDiscovered
      ensures status.None? ==> !facingDirectionDiscovered
      ensures old(facingDirectionDiscovered) ==> status.Some?
      ensures !old(facingDirectionDiscovered) ==>
        (status.Some? <==> (exists j :: 0 <= j < |corridor| && !(corridor[j].right && corridor[j].left))
                           && (exists j :: 0 <= j < |back| && back[j]))
      ensures !old(facingDirectionDiscovered) ==>
        pathTracedToCenter == old(pathTracedToCenter) && realRun == old(realRun) && walls == old(walls)
        && pose.y == old(pose.y) && (status.Some? ==> pose.direction == EAST || pose.direction == SOUTH)
      ensures !old(facingDirectionDiscovered) ==>
        CorridorRun(corridor, steps, sideOpen) && (sideOpen ==> BackRun(back, returned, status.Some?))
        && (!sideOpen ==> status.None? && returned == 0)
        && pose.State() == Pose.PoseState(old(pose.x) + steps - returned, old(pose.y),
                                          if !sideOpen then EAST
                                          else if status.None? then WEST
                                          else if corridor[steps].right then SOUTH else EAST)
      ensures old(facingDirectionDiscovered) ==> G == GridMap()
      ensures old(facingDirectionDiscovered) ==>
        ChaseFrame(G, old(walls), walls, n, old(pose.State()), pose.State(), s, old(Target()))
      ensures old(facingDirectionDiscovered) ==>
        PhaseAdvanced(old(pathTracedToCenter), old(realRun), pathTracedToCenter, realRun,
                      (pose.x, pose.y) == center, (pose.x, pose.y) == pose.start)
    {
      sideOpen, steps, returned := false, 0, 0;
      if !facingDirectionDiscovered {
        G := GridMap();
        var done;
        done, sideOpen, steps, returned := DiscoverFacingDirection(initial, corridor, back);
        status := if done then Some(RESUME_SIMULATION) else None;
      } else {
        G := ChasePhase(s);
        status := Some(RESUME_SIMULATION);
      }
    }
  }

  /** add_walls as a function of the walls before, the pose and the sensor
      readings: right, then left, then front. */
  function WallsAdded(walls: Graph, n: int, p: Pose.PoseState, s: Pose.Sides): (h: Graph)
    ensures forall u :: u in walls ==> u in h && walls[u] <= h[u]
  {
    var here := Pose.Cell(p);
    var d := p.direction;
    var w1 := AddWallIfInRange(walls, n, s.right, here, TileInDirection(p.x, p.y, RightOf(d)));
    var w2 := AddWallIfInRange(w1, n, s.left, here, TileInDirection(p.x, p.y, LeftOf(d)));
    AddWallIfInRange(w2, n, s.front, here, TileInDirection(p.x, p.y, d))
  }

  /** One guarded add_wall_between. */
  function AddWallIfInRange(walls: Graph, n: int, sensed: bool, a: Cell, b: Cell): (h: Graph)
    ensures h == walls || (sensed && InRange(n, a) && InRange(n, b) && h == AddEdge(walls, a, b))
    ensures sensed && InRange(n, a) && InRange(n, b) ==> Blocked(h, a, b) && Blocked(h, b, a)
    ensures forall u :: u in walls ==> u in h && walls[u] <= h[u]
  {
    if sensed && InRange(n, a) && InRange(n, b) then AddEdge(walls, a, b) else walls
  }
}
