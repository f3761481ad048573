/** The planning half of the depth-first explorer: a breadth-first labelling
    of the explored graph by distance from the ground-marker cell, a greedy
    descent from the start along strictly smaller labels, and the replay of
    that descent as turns and steps (bfs, shortest_path and go_to_center). */
module Planner {
  import opened Wrappers
  import opened Datatypes
  import opened MazeGraph
  import Pose
  import SetLemmas

  /** Distance labels (distances_graph). */
  type Labels = map<Cell, nat>

  datatype PlanError =
    | KeyError    // a cell looked up in the graph or the labels is missing
    | EmptyQueue  // the queue ran dry before the searched cell was dequeued
    | NoDescent   // no neighbour has a smaller label: the source loops forever

  /** `p` follows graph edges from its first cell to its last. */
  ghost predicate IsPath(g: Graph, p: seq<Cell>) {
    forall i :: 0 <= i < |p| - 1 ==> p[i] in g && p[i + 1] in g[p[i]]
  }

  ghost predicate Reachable(g: Graph, a: Cell, b: Cell) {
    exists p :: |p| > 0 && p[0] == a && p[|p| - 1] == b && IsPath(g, p)
  }

  /** A set of cells that no edge leaves. */
  ghost predicate ClosedSet(g: Graph, s: set<Cell>) {
    forall u :: u in s ==> u in g && g[u] <= s
  }

  /** A path that starts in a closed set never leaves it. */
  lemma {:induction false} ClosedSetTrapsPaths(g: Graph, s: set<Cell>, p: seq<Cell>)
    requires ClosedSet(g, s) && IsPath(g, p) && |p| > 0 && p[0] in s
    ensures forall i :: 0 <= i < |p| ==> p[i] in s
  {
    if |p| > 1 {
      var q := p[..|p| - 1];
      assert IsPath(g, q);
      ClosedSetTrapsPaths(g, s, q);
      assert p[|p| - 2] == q[|q| - 1];
    }
  }

  /** No path leads from inside a closed set to a cell outside it. */
  lemma ClosedSetSeparates(g: Graph, s: set<Cell>, a: Cell, b: Cell)
    requires ClosedSet(g, s) && a in s && b !in s
    ensures !Reachable(g, a, b)
  {
    if p :| |p| > 0 && p[0] == a && p[|p| - 1] == b && IsPath(g, p) {
      ClosedSetTrapsPaths(g, s, p);
    }
  }

  /** `v` was labelled from a neighbour (its parent) whose label is one less. */
  ghost predicate HasParent(g: Graph, d: Labels, v: Cell)
    requires v in d
  {
    exists p :: p in d && p in g && v in g[p] && d[v] == d[p] + 1
  }

  /** Every labelled cell except the centre has a parent. */
  ghost predicate HasParents(g: Graph, d: Labels, c: Cell) {
    forall v {:trigger HasParent(g, d, v)} :: v in d && v != c ==> HasParent(g, d, v)
  }

  /** Every cell labelled below `bound` is a key whose neighbours are all
      labelled, each at most one more than the cell. */
  ghost predicate ClosedBelow(g: Graph, d: Labels, bound: nat) {
    forall u :: u in d && d[u] < bound ==>
      u in g && forall v :: v in g[u] ==> v in d && d[v] <= d[u] + 1
  }

  /** The inner loop of bfs: every neighbour of `node` that has no label yet
      is labelled one more than `node` and pushed on the left of the queue
      (`added` holds the pushed cells, most recent first). */
  method Expand(g: Graph, node: Cell, dist: Labels) returns (dist': Labels, added: seq<Cell>)
    requires node in g && node in dist
    ensures dist'.Keys == dist.Keys + g[node]
    ensures forall v :: v in dist ==> dist'[v] == dist[v]
    ensures forall v :: v in dist' <==> v in dist || v in added
    ensures forall i :: 0 <= i < |added| ==> added[i] in g[node] && added[i] !in dist && dist'[added[i]] == dist[node] + 1
    ensures dist'.Keys == dist.Keys ==> added == []
  {
    dist', added := dist, [];
    var remaining := g[node];
    while remaining != {}
      invariant remaining <= g[node]
      invariant dist.Keys <= dist'.Keys <= dist.Keys + g[node]
      invariant g[node] - remaining <= dist'.Keys
      invariant forall v :: v in dist ==> dist'[v] == dist[v]
      invariant forall v :: v in dist' <==> v in dist || v in added
      invariant forall i :: 0 <= i < |added| ==> added[i] in g[node] && added[i] !in dist && dist'[added[i]] == dist[node] + 1
      invariant dist'.Keys == dist.Keys ==> added == []
      decreases |remaining|
    {
      var nb :| nb in remaining;
      remaining := remaining - {nb};
      if nb !in dist' {
        added := [nb] + added;
        dist' := dist'[nb := dist[node] + 1];
      }
    }
  }

  /** The loop invariant of bfs.  `expanded` holds the dequeued cells whose
      neighbours have been labelled; the queue holds labels `level + 1` left
      of the ghost index `k` and labels `level` from `k` on. */
  ghost predicate BfsInv(g: Graph, c: Cell, search: Cell, dist: Labels, q: seq<Cell>, k: nat,
                         expanded: set<Cell>, parent: map<Cell, Cell>, level: nat)
  {
    QueueCovers(c, dist, q, expanded) && QueueLevels(dist, q, k, level)
    && TreeShape(g, c, search, dist, expanded, parent, level)
  }

  /** The centre is labelled 0, and every labelled cell is expanded or
      queued. */
  ghost predicate QueueCovers(c: Cell, dist: Labels, q: seq<Cell>, expanded: set<Cell>) {
    c in dist && dist[c] == 0
    && (forall v :: v in dist ==> v in expanded || v in q)
  }

  /** The queued cells are labelled: `level + 1` left of `k`, `level` from
      `k` on. */
  ghost predicate QueueLevels(dist: Labels, q: seq<Cell>, k: nat, level: nat) {
    k <= |q|
    && (forall i :: 0 <= i < |q| ==> q[i] in dist)
    && (forall i :: 0 <= i < k ==> dist[q[i]] == level + 1)
    && (forall i :: k <= i < |q| ==> dist[q[i]] == level)
  }

  /** The expanded cells are labelled at most `level`, exclude the searched
      cell and have all their neighbours labelled at most one more; every
      labelled cell but the centre has an expanded parent one less. */
  ghost predicate TreeShape(g: Graph, c: Cell, search: Cell, dist: Labels, expanded: set<Cell>,
                            parent: map<Cell, Cell>, level: nat)
  {
    expanded <= dist.Keys
    && (forall u :: u in expanded ==> dist[u] <= level)
    && search !in expanded
    && (forall u :: u in expanded ==> u in g && forall v :: v in g[u] ==> v in dist && dist[v] <= dist[u] + 1)
    && parent.Keys == dist.Keys - {c}
    && (forall v {:trigger parent[v]} :: v in parent ==>
          parent[v] in expanded && parent[v] in g && v in g[parent[v]] && dist[v] == dist[parent[v]] + 1)
  }

  /** Labels never exceed `level + 1` while the invariant holds. */
  lemma BfsInvBoundsLabels(g: Graph, c: Cell, search: Cell, dist: Labels, q: seq<Cell>, k: nat,
                           expanded: set<Cell>, parent: map<Cell, Cell>, level: nat)
    requires BfsInv(g, c, search, dist, q, k, expanded, parent, level)
    ensures forall v :: v in dist ==> dist[v] <= level + 1
  {
    forall v | v in dist ensures dist[v] <= level + 1 {
      if v !in expanded {
        var i :| 0 <= i < |q| && q[i] == v;
      }
    }
  }

  /** Once `node` is expanded, every expanded cell still has all its
      neighbours labelled at most one more than itself. */
  lemma ExpandedStaysClosed(g: Graph, dist: Labels, dist': Labels, expanded: set<Cell>, node: Cell)
    requires expanded <= dist.Keys
    requires forall u :: u in expanded ==> u in g && forall v :: v in g[u] ==> v in dist && dist[v] <= dist[u] + 1
    requires node in g && node in dist && forall v :: v in dist ==> dist[v] <= dist[node] + 1
    requires dist'.Keys == dist.Keys + g[node] && forall v :: v in dist ==> dist'[v] == dist[v]
    requires forall v :: v in dist' && v !in dist ==> dist'[v] == dist[node] + 1
    ensures forall u :: u in expanded + {node} ==>
      u in g && forall v :: v in g[u] ==> v in dist' && dist'[v] <= dist'[u] + 1
  {
    forall u, v | u in expanded + {node} && v in g[u] ensures v in dist' && dist'[v] <= dist'[u] + 1 {
      if u != node {
        assert v in dist && dist'[v] == dist[v];
      } else if v in dist {
        assert dist'[v] == dist[v];
      }
    }
  }

  /** Expanding the dequeued cell keeps every labelled cell expanded or
      queued. */
  lemma ExpandKeepsCovers(c: Cell, dist: Labels, q0: seq<Cell>, expanded: set<Cell>,
                          node: Cell, dist': Labels, added: seq<Cell>)
    requires QueueCovers(c, dist, q0, expanded) && |q0| > 0 && node == q0[|q0| - 1]
    requires forall v :: v in dist ==> v in dist' && dist'[v] == dist[v]
    requires forall v :: v in dist' ==> v in dist || v in added
    ensures QueueCovers(c, dist', added + q0[..|q0| - 1], expanded + {node})
  {
    var q' := added + q0[..|q0| - 1];
    forall v | v in dist' ensures v in expanded + {node} || v in q' {
      if v in dist && v !in expanded && v != node {
        var i :| 0 <= i < |q0| && q0[i] == v;
        assert q'[i + |added|] == v;
      } else if v !in dist {
        var i :| 0 <= i < |added| && added[i] == v;
        assert q'[i] == v;
      }
    }
  }

  /** The new cells enter the queue's left end with label `dist[node] + 1`,
      and the levels move on when the last cell of the lower level leaves. */
  lemma ExpandKeepsLevels(dist: Labels, q0: seq<Cell>, k: nat, level: nat,
                          node: Cell, dist': Labels, added: seq<Cell>)
    requires QueueLevels(dist, q0, k, level) && |q0| > 0 && node == q0[|q0| - 1]
    requires forall v :: v in dist ==> v in dist' && dist'[v] == dist[v]
    requires forall i :: 0 <= i < |added| ==> added[i] in dist' && dist'[added[i]] == dist[node] + 1
    ensures var q := q0[..|q0| - 1];
      QueueLevels(dist', added + q, |added| + (if k == |q| + 1 then 0 else k), dist[node])
  {
    var q := q0[..|q0| - 1];
    var k' := if k == |q| + 1 then 0 else k;
    var level' := dist[node];
    assert level' == level || (level' == level + 1 && k == |q| + 1);
    var q' := added + q;
    forall i | 0 <= i < |q'| ensures q'[i] in dist' {
      if i >= |added| {
        assert q'[i] == q0[i - |added|];
      }
    }
    forall i | 0 <= i < |added| + k' ensures dist'[q'[i]] == level' + 1 {
      if i >= |added| {
        assert q'[i] == q0[i - |added|];
      }
    }
    forall i | |added| + k' <= i < |q'| ensures dist'[q'[i]] == level' {
      assert q'[i] == q0[i - |added|];
    }
  }

  /** Expanding `node` keeps the expanded cells closed and gives each new
      cell `node` as its parent. */
  lemma ExpandKeepsTree(g: Graph, c: Cell, search: Cell, dist: Labels, expanded: set<Cell>,
                        parent: map<Cell, Cell>, level: nat,
                        node: Cell, dist': Labels, added: seq<Cell>, parent': map<Cell, Cell>)
    requires TreeShape(g, c, search, dist, expanded, parent, level) && c in dist
    requires node != search && node in g && node in dist && level <= dist[node]
    requires forall v :: v in dist ==> dist[v] <= dist[node] + 1
    requires dist'.Keys == dist.Keys + g[node]
    requires forall v :: v in dist ==> dist'[v] == dist[v]
    requires forall v :: v in dist' <==> v in dist || v in added
    requires forall i :: 0 <= i < |added| ==> added[i] in g[node] && added[i] !in dist && dist'[added[i]] == dist[node] + 1
    requires forall v :: v in parent' <==> v in parent || v in added
    requires forall v :: v in parent' ==> parent'[v] == if v in parent then parent[v] else node
    ensures TreeShape(g, c, search, dist', expanded + {node}, parent', dist[node])
  {
    forall v | v in dist' && v !in dist ensures dist'[v] == dist[node] + 1 {
      var i :| 0 <= i < |added| && added[i] == v;
    }
    ExpandedStaysClosed(g, dist, dist', expanded, node);
    assert parent'.Keys == dist'.Keys - {c};
    forall v | v in parent'
      ensures parent'[v] in expanded + {node} && parent'[v] in g && v in g[parent'[v]]
      ensures dist'[v] == dist'[parent'[v]] + 1
    {
      if v in added {
        var i :| 0 <= i < |added| && added[i] == v;
      } else {
        assert v in parent;
        assert parent'[v] == parent[v];
      }
    }
  }

  /** Expanding the dequeued cell of least label keeps the invariant. */
  lemma ExpandKeepsInv(g: Graph, c: Cell, search: Cell, dist: Labels, q0: seq<Cell>, k: nat,
                       expanded: set<Cell>, parent: map<Cell, Cell>, level: nat,
                       node: Cell, dist': Labels, added: seq<Cell>, parent': map<Cell, Cell>)
    requires BfsInv(g, c, search, dist, q0, k, expanded, parent, level)
    requires |q0| > 0 && node == q0[|q0| - 1]
    requires node != search && node in g
    requires dist'.Keys == dist.Keys + g[node]
    requires forall v :: v in dist ==> dist'[v] == dist[v]
    requires forall v :: v in dist' <==> v in dist || v in added
    requires forall i :: 0 <= i < |added| ==> added[i] in g[node] && added[i] !in dist && dist'[added[i]] == dist[node] + 1
    requires forall v :: v in parent' <==> v in parent || v in added
    requires forall v :: v in parent' ==> parent'[v] == if v in parent then parent[v] else node
    ensures node in dist
    ensures var q := q0[..|q0| - 1];
      BfsInv(g, c, search, dist', added + q, |added| + (if k == |q| + 1 then 0 else k),
             expanded + {node}, parent', dist[node])
  {
    BfsInvBoundsLabels(g, c, search, dist, q0, k, expanded, parent, level);
    assert node in dist && level <= dist[node];
    ExpandKeepsCovers(c, dist, q0, expanded, node, dist', added);
    ExpandKeepsLevels(dist, q0, k, level, node, dist', added);
    ExpandKeepsTree(g, c, search, dist, expanded, parent, level, node, dist', added, parent');
  }

  /** What bfs promises when it returns labels. */
  ghost predicate BfsResult(g: Graph, c: Cell, search: Cell, d: Labels) {
    c in d && d[c] == 0 && search in d && HasParents(g, d, c)
    && ClosedBelow(g, d, d[search])
    && (forall v :: v in d ==> d[v] <= d[search] + 1)
  }

  /** One round of the bfs loop: fail if the queue is empty, otherwise
      dequeue a cell, stop if it is the searched one, fail if it is not a key, otherwise label
      its neighbours.  When the loop goes on, the invariant holds again and
      either more cells are labelled or the queue is shorter. */
  method BfsRound(g: Graph, c: Cell, search: Cell, dist: Labels, q: seq<Cell>, ghost k: nat,
                  ghost expanded: set<Cell>, ghost parent: map<Cell, Cell>, ghost level: nat)
    returns (stop: Option<Result<Labels, PlanError>>, dist': Labels, q': seq<Cell>, ghost k': nat,
             ghost expanded': set<Cell>, ghost parent': map<Cell, Cell>, ghost level': nat)
    requires BfsInv(g, c, search, dist, q, k, expanded, parent, level)
    ensures stop.Some? && stop.value.Ok? ==> BfsResult(g, c, search, stop.value.value)
    ensures stop == Some(Err(EmptyQueue)) ==> !Reachable(g, c, search)
    ensures stop.Some? && stop.value.Err? && stop.value.error != EmptyQueue ==>
      stop.value.error == KeyError && (c !in g || !Closed(g))
    ensures stop.None? ==> BfsInv(g, c, search, dist', q', k', expanded', parent', level')
    ensures stop.None? ==>
      var u := AllNeighbours(g);
      |u - dist'.Keys| < |u - dist.Keys| || (|u - dist'.Keys| == |u - dist.Keys| && |q'| < |q|)
  {
    if q == [] {
      BfsExhausted(g, c, search, dist, q, k, expanded, parent, level);
      return Some(Err(EmptyQueue)), dist, q, k, expanded, parent, level;
    }
    var node := q[|q| - 1];
    var rest := q[..|q| - 1];
    if node == search {
      BfsFinish(g, c, search, dist, q, k, expanded, parent, level);
      return Some(Ok(dist)), dist, rest, k, expanded, parent, level;
    }
    if node !in g {
      BfsMissingKey(g, c, search, dist, q, k, expanded, parent, level);
      return Some(Err(KeyError)), dist, rest, k, expanded, parent, level;
    }
    stop := None;
    dist', q', k', expanded', parent', level' := LabelNeighbours(g, c, search, dist, q, k, expanded, parent, level);
  }

  /** The last branch of a bfs round: the dequeued cell `node` is a key
      other than the searched one, so its unlabelled neighbours are
      labelled one more than it and enter the queue. */
  method LabelNeighbours(g: Graph, c: Cell, search: Cell, dist: Labels, q: seq<Cell>, ghost k: nat,
                         ghost expanded: set<Cell>, ghost parent: map<Cell, Cell>, ghost level: nat)
    returns (dist': Labels, q': seq<Cell>, ghost k': nat,
             ghost expanded': set<Cell>, ghost parent': map<Cell, Cell>, ghost level': nat)
    requires BfsInv(g, c, search, dist, q, k, expanded, parent, level)
    requires |q| > 0 && q[|q| - 1] != search && q[|q| - 1] in g
    ensures BfsInv(g, c, search, dist', q', k', expanded', parent', level')
    ensures var u := AllNeighbours(g);
      |u - dist'.Keys| < |u - dist.Keys| || (|u - dist'.Keys| == |u - dist.Keys| && |q'| < |q|)
  {
    var node := q[|q| - 1];
    var rest := q[..|q| - 1];
    var labelled, added := Expand(g, node, dist);
    parent' := parent + (map v | v in added :: node);
    ExpandKeepsInv(g, c, search, dist, q, k, expanded, parent, level, node, labelled, added, parent');
    LabellingShrinks(g, node, dist, labelled, added, rest);
    dist', q' := labelled, added + rest;
    k' := |added| + (if k == |rest| + 1 then 0 else k);
    expanded', level' := expanded + {node}, dist[node];
  }

  /** Labelling the neighbours of `node` either labels a new cell, which
      leaves fewer neighbour cells unlabelled, or adds nothing to the queue,
      which is then one cell shorter. */
  lemma LabellingShrinks(g: Graph, node: Cell, dist: Labels, labelled: Labels, added: seq<Cell>, rest: seq<Cell>)
    requires node in g && labelled.Keys == dist.Keys + g[node]
    requires labelled.Keys == dist.Keys ==> added == []
    requires forall v :: v in labelled ==> v in dist || v in added
    requires forall i :: 0 <= i < |added| ==> added[i] in g[node] && added[i] !in dist
    ensures var u := AllNeighbours(g);
      |u - labelled.Keys| < |u - dist.Keys| || (|u - labelled.Keys| == |u - dist.Keys| && |added + rest| < |rest| + 1)
  {
    if labelled.Keys != dist.Keys {
      var v :| v in labelled.Keys - dist.Keys;
      assert v in added;
      NeighboursAreInUnion(g, node, added[0]);
      SetLemmas.RemainderShrinks(AllNeighbours(g), dist.Keys, labelled.Keys, added[0]);
    }
  }

  /** bfs: label cells by breadth-first distance from `center`, stopping as
      soon as `search` is dequeued.  The queue pops from its right end and
      receives new cells on its left end, so it is first-in first-out. */
  method Bfs(g: Graph, center: Option<Cell>, search: Cell) returns (r: Result<Labels, PlanError>)
    ensures r.Err? ==> r.error != NoDescent
    ensures r.Ok? ==> center.Some? && BfsResult(g, center.value, search, r.value)
    ensures r == Err(EmptyQueue) ==> center.Some? && !Reachable(g, center.value, search)
    ensures r == Err(KeyError) ==> center.None? || center.value !in g || !Closed(g)
  {
    if center.None? {
      // the centre was never found: graph[None] fails
      return Err(KeyError);
    }
    var c := center.value;
    var dist: Labels := map[c := 0];
    var q: seq<Cell> := [c];
    ghost var k: nat := 0;
    ghost var expanded: set<Cell> := {};
    ghost var parent: map<Cell, Cell> := map[];
    ghost var level: nat := 0;
    BfsInit(g, c, search);
    ghost var U := AllNeighbours(g);
    while true
      invariant BfsInv(g, c, search, dist, q, k, expanded, parent, level)
      decreases |U - dist.Keys|, |q|
    {
      var stop, dist', q', k', expanded', parent', level' := BfsRound(g, c, search, dist, q, k, expanded, parent, level);
      if stop.Some? {
        return stop.value;
      }
      dist, q, k, expanded, parent, level := dist', q', k', expanded', parent', level';
    }
  }

  /** Before the loop only the centre is labelled and queued. */
  lemma BfsInit(g: Graph, c: Cell, search: Cell)
    ensures BfsInv(g, c, search, map[c := 0], [c], 0, {}, map[], 0)
  {
  }

  /** When the queue runs dry the expanded cells form a closed set that
      holds the centre but not the searched cell. */
  lemma BfsExhausted(g: Graph, c: Cell, search: Cell, dist: Labels, q: seq<Cell>, k: nat,
                     expanded: set<Cell>, parent: map<Cell, Cell>, level: nat)
    requires BfsInv(g, c, search, dist, q, k, expanded, parent, level) && q == []
    ensures !Reachable(g, c, search)
  {
    assert ClosedSet(g, expanded);
    ClosedSetSeparates(g, expanded, c, search);
  }

  /** A dequeued cell that is not a key is either the centre or a neighbour
      of a key, so the centre is missing or the graph is not closed. */
  lemma BfsMissingKey(g: Graph, c: Cell, search: Cell, dist: Labels, q: seq<Cell>, k: nat,
                      expanded: set<Cell>, parent: map<Cell, Cell>, level: nat)
    requires BfsInv(g, c, search, dist, q, k, expanded, parent, level)
    requires q != [] && q[|q| - 1] !in g
    ensures c !in g || !Closed(g)
  {
    var node := q[|q| - 1];
    if node != c {
      assert node in parent;
      assert parent[node] in g && node in g[parent[node]];
    }
  }

  /** When the searched cell is dequeued the labels meet Bfs's promise. */
  lemma BfsFinish(g: Graph, c: Cell, search: Cell, dist: Labels, qn: seq<Cell>, k: nat,
                  expanded: set<Cell>, parent: map<Cell, Cell>, level: nat)
    requires BfsInv(g, c, search, dist, qn, k, expanded, parent, level)
    requires |qn| > 0 && qn[|qn| - 1] == search
    ensures BfsResult(g, c, search, dist)
  {
    BfsInvBoundsLabels(g, c, search, dist, qn, k, expanded, parent, level);
    forall v | v in dist && v != c ensures HasParent(g, dist, v) {
      var p := parent[v];
    }
  }

  /** Some neighbour of `u` has a label exactly one less. */
  ghost predicate HasLowerNeighbour(g: Graph, d: Labels, u: Cell)
    requires u in d
  {
    u in g && exists v :: v in g[u] && v in d && d[v] + 1 == d[u]
  }

  /** Every cell labelled up to `bound` is a key, its labelled neighbours have
      labels at most one less, and if its label is positive one of them has a
      label exactly one less: what breadth-first labels of a symmetric graph
      guarantee. */
  ghost predicate Descends(g: Graph, d: Labels, bound: nat) {
    (forall u :: u in d && d[u] <= bound ==>
       u in g && forall v :: v in g[u] && v in d ==> d[u] <= d[v] + 1)
    && (forall u {:trigger HasLowerNeighbour(g, d, u)} :: u in d && 0 < d[u] <= bound ==> HasLowerNeighbour(g, d, u))
  }

  /** What Bfs promises on success, for a symmetric graph in which the
      searched cell is a key, is enough for the descent to succeed. */
  lemma BfsLabelsDescend(g: Graph, d: Labels, c: Cell, search: Cell)
    requires Symmetric(g) && search in g
    requires c in d && d[c] == 0 && search in d
    requires HasParents(g, d, c) && ClosedBelow(g, d, d[search])
    ensures Descends(g, d, d[search])
  {
    var bound := d[search];
    forall u | u in d && d[u] <= bound
      ensures u in g && forall v :: v in g[u] && v in d ==> d[u] <= d[v] + 1
    {
      if u != c {
        assert HasParent(g, d, u);
      } else if search != c {
        assert HasParent(g, d, search);
      }
    }
    forall u | u in d && 0 < d[u] <= bound ensures HasLowerNeighbour(g, d, u) {
      assert u != c;
      assert HasParent(g, d, u);
      var p :| p in d && p in g && u in g[p] && d[u] == d[p] + 1;
      assert u in g && p in g[u];
    }
  }

  /** The cell a descent step starts from: `start` for the first step, the
      previous path cell after that. */
  function Prev(start: Cell, p: seq<Cell>, i: nat): Cell
    requires i < |p|
  {
    if i == 0 then start else p[i - 1]
  }

  /** Step i of `p` moves from its predecessor to a neighbour with a strictly
      smaller label, and no labelled neighbour of the predecessor has a
      smaller label than the one chosen. */
  ghost predicate GreedyStep(g: Graph, d: Labels, start: Cell, p: seq<Cell>, i: nat)
    requires i < |p|
  {
    var prev := Prev(start, p, i);
    prev in g && prev in d && p[i] in g[prev] && p[i] in d && d[p[i]] < d[prev]
    && forall v :: v in g[prev] && v in d ==> d[p[i]] <= d[v]
  }

  ghost predicate DescentPath(g: Graph, d: Labels, start: Cell, p: seq<Cell>) {
    |p| > 0 && p[|p| - 1] in d && d[p[|p| - 1]] == 0
    && forall i :: 0 <= i < |p| ==> GreedyStep(g, d, start, p, i)
  }

  /** shortest_path: from `start`, repeatedly move to the labelled neighbour
      with the least label until label 0 is reached.  The start itself is on
      the path only when its own label is 0. */
  method ShortestPath(g: Graph, d: Labels, start: Cell) returns (r: Result<seq<Cell>, PlanError>)
    ensures start !in d ==> r == Err(KeyError)
    ensures r.Ok? ==> start in d && start in g
    ensures r.Ok? && d[start] == 0 ==> r.value == [start]
    ensures r.Ok? && d[start] > 0 ==> DescentPath(g, d, start, r.value)
    ensures start in d && Descends(g, d, d[start]) ==>
      r.Ok? && |r.value| == if d[start] == 0 then 1 else d[start]
  {
    if start !in d {
      return Err(KeyError);
    }
    var path: seq<Cell> := [];
    var node := start;
    ghost var descends := Descends(g, d, d[start]);
    while true
      invariant node in d && d[node] <= d[start]
      invariant path == [] ==> node == start
      invariant path != [] ==> start in g
      invariant path != [] ==> node == path[|path| - 1] && d[node] > 0 && d[start] > 0
      invariant forall i :: 0 <= i < |path| ==> GreedyStep(g, d, start, path, i)
      invariant descends ==> d[node] + |path| == d[start]
      decreases d[node]
    {
      var minNode := node;
      var minVal := d[node];
      if node !in g {
        return Err(KeyError);
      }
      var remaining := g[node];
      while remaining != {}
        invariant remaining <= g[node]
        invariant minNode in d && minVal == d[minNode] && minVal <= d[node]
        invariant minNode == node || minNode in g[node]
        invariant minNode == node ==> minVal == d[node]
        invariant minNode != node ==> minVal < d[node]
        invariant forall v :: v in g[node] && v !in remaining && v in d ==> minVal <= d[v]
        decreases |remaining|
      {
        var nb :| nb in remaining;
        remaining := remaining - {nb};
        if nb in d && minVal > d[nb] {
          minVal := d[nb];
          minNode := nb;
        }
      }
      if descends && d[node] > 0 {
        LowerNeighbour(g, d, d[start], node);
      }
      if minVal == d[node] && minVal != 0 {
        if descends {
          assert false;
        }
        return Err(NoDescent);
      }
      if minNode == node {
        // minVal == d[node] == 0: only possible on the first round, at the start
        path := path + [node];
        return Ok(path);
      }
      GreedyStepsExtend(g, d, start, path, minNode);
      assert GreedyStep(g, d, start, path + [minNode], |path|) by {
        assert Prev(start, path + [minNode], |path|) == node;
      }
      node := minNode;
      path := path + [node];
      if minVal == 0 {
        return Ok(path);
      }
    }
  }

  /** Under Descends a positively labelled cell has a neighbour labelled one
      less, and none labelled lower still. */
  lemma LowerNeighbour(g: Graph, d: Labels, bound: nat, u: Cell)
    requires Descends(g, d, bound) && u in d && 0 < d[u] <= bound
    ensures u in g && exists v :: v in g[u] && v in d && d[v] + 1 == d[u]
    ensures forall v :: v in g[u] && v in d ==> d[u] <= d[v] + 1
  {
    assert HasLowerNeighbour(g, d, u);
  }

  /** Appending a cell keeps the earlier greedy steps greedy. */
  lemma GreedyStepsExtend(g: Graph, d: Labels, start: Cell, p: seq<Cell>, x: Cell)
    requires forall i :: 0 <= i < |p| ==> GreedyStep(g, d, start, p, i)
    ensures forall i :: 0 <= i < |p| ==> GreedyStep(g, d, start, p + [x], i)
  {
    forall i | 0 <= i < |p| ensures GreedyStep(g, d, start, p + [x], i) {
      assert GreedyStep(g, d, start, p, i);
      assert (p + [x])[i] == p[i];
      assert Prev(start, p + [x], i) == Prev(start, p, i);
    }
  }

  /** go_to_center, one path cell: turn toward the cell if it is to the
      right, to the left or behind, then step forward. */
  function StepToward(p: Pose.PoseState, node: Cell): (q: Pose.PoseState)
    ensures IsDirection(p.direction) && Adjacent(Pose.Cell(p), node) ==> Pose.Cell(q) == node
    ensures IsDirection(p.direction) ==> IsDirection(q.direction)
  {
    var back := TileInDirection(p.x, p.y, (p.direction + 2) % 4);
    var right := TileInDirection(p.x, p.y, (p.direction + 1) % 4);
    var left := TileInDirection(p.x, p.y, (p.direction - 1) % 4);
    var turned :=
      if node == right then Pose.TurnedRight(p)
      else if node == left then Pose.TurnedLeft(p)
      else if node == back then Pose.TurnedLeft(Pose.TurnedLeft(p))
      else p;
    if IsDirection(p.direction) && Adjacent(Pose.Cell(p), node) then
      NeighbourIsOneOfFour(p.x, p.y, p.direction, node);
      FourRightTurns(p.direction);
      Pose.Forward(turned)
    else
      Pose.Forward(turned)
  }

  /** The pose after following every cell of `path` in order. Replaying a
      walk of grid-adjacent cells ends on its last cell with a valid
      heading. */
  function Replay(p: Pose.PoseState, path: seq<Cell>): (r: Pose.PoseState)
    ensures IsDirection(p.direction) && |path| > 0 && AdjacentWalk(Pose.Cell(p), path) ==>
      Pose.Cell(r) == path[|path| - 1] && IsDirection(r.direction)
    decreases |path|
  {
    if path == [] then p
    else if IsDirection(p.direction) && AdjacentWalk(Pose.Cell(p), path) then
      AdjacentWalkTail(Pose.Cell(p), path);
      Replay(StepToward(p, path[0]), path[1..])
    else
      Replay(StepToward(p, path[0]), path[1..])
  }

  /** A walk along grid-adjacent cells, beginning next to `from`. */
  predicate AdjacentWalk(from: Cell, path: seq<Cell>) {
    (|path| > 0 ==> Adjacent(from, path[0]))
    && forall i :: 0 < i < |path| ==> Adjacent(path[i - 1], path[i])
  }

  /** A walk without its first cell is a walk from that cell. */
  lemma AdjacentWalkTail(from: Cell, path: seq<Cell>)
    requires |path| > 0 && AdjacentWalk(from, path)
    ensures AdjacentWalk(path[0], path[1..])
  {
    var rest := path[1..];
    forall i | 0 < i < |rest| ensures Adjacent(rest[i - 1], rest[i]) {
      assert rest[i] == path[i + 1] && rest[i - 1] == path[i];
    }
  }

  /** Over breadth-first labels of a graph whose edges are grid steps, a
      greedy descent from the searched cell is a walk of side-sharing cells
      that ends on the centre, the only cell labelled 0. */
  lemma DescentReachesCentre(g: Graph, d: Labels, c: Cell, search: Cell, path: seq<Cell>)
    requires BfsResult(g, c, search, d) && GridEdges(g) && DescentPath(g, d, search, path)
    ensures AdjacentWalk(search, path) && path[|path| - 1] == c
  {
    var last := path[|path| - 1];
    assert last != c ==> HasParent(g, d, last);
    assert GreedyStep(g, d, search, path, 0);
    forall i | 0 < i < |path| ensures Adjacent(path[i - 1], path[i]) {
      assert GreedyStep(g, d, search, path, i);
    }
  }

  /** go_to_center's arrival: the robot on the searched cell follows the
      route shortest_path builds over bfs labels.  It ends on the centre,
      except when it already stands there: then the route is that one cell
      and the robot steps off it. */
  lemma RouteArrives(g: Graph, d: Labels, c: Cell, search: Cell, p: Pose.PoseState, path: seq<Cell>)
    requires BfsResult(g, c, search, d) && GridEdges(g)
    requires IsDirection(p.direction) && Pose.Cell(p) == search
    requires d[search] == 0 ==> path == [search]
    requires d[search] > 0 ==> DescentPath(g, d, search, path)
    ensures c == search ==> path == [search] && Pose.Cell(Replay(p, path)) != search
    ensures c != search ==> Pose.Cell(Replay(p, path)) == c
  {
    if c == search {
      ReplayOfOwnCellStepsAway(p);
    } else {
      assert HasParent(g, d, search);
      DescentReachesCentre(g, d, c, search, path);
    }
  }

  /** When the start already is the centre the path is just [start], and the
      replay still steps forward once, off the centre. */
  lemma ReplayOfOwnCellStepsAway(p: Pose.PoseState)
    requires IsDirection(p.direction)
    ensures Pose.Cell(Replay(p, [Pose.Cell(p)])) == TileInDirection(p.x, p.y, p.direction)
    ensures Pose.Cell(Replay(p, [Pose.Cell(p)])) != Pose.Cell(p)
  {
    assert Replay(p, [Pose.Cell(p)]) == Replay(StepToward(p, Pose.Cell(p)), []);
  }

  /** go_to_center's movement loop on the script's pose. */
  method FollowPath(pose: Pose.UserScript, path: seq<Cell>)
    modifies pose`x, pose`y, pose`direction, pose`refreshes
    ensures pose.State() == Replay(old(pose.State()), path)
  {
    var i := 0;
    while i < |path|
      invariant 0 <= i <= |path|
      invariant Replay(old(pose.State()), path) == Replay(pose.State(), path[i..])
    {
      ghost var before := pose.State();
      assert path[i..] == [path[i]] + path[i + 1..];
      assert Replay(before, path[i..]) == Replay(StepToward(before, path[i]), path[i + 1..]);
      TurnAndStep(pose, path[i]);
      i := i + 1;
    }
  }

  /** One pass of go_to_center's loop: turn toward `node`, then step. */
  method TurnAndStep(pose: Pose.UserScript, node: Cell)
    modifies pose`x, pose`y, pose`direction, pose`refreshes
    ensures pose.State() == StepToward(old(pose.State()), node)
  {
    var back := TileInDirection(pose.x, pose.y, (pose.direction + 2) % 4);
    var right := TileInDirection(pose.x, pose.y, (pose.direction + 1) % 4);
    var left := TileInDirection(pose.x, pose.y, (pose.direction - 1) % 4);
    if node == right {
      pose.TurnRight();
    } else if node == left {
      pose.TurnLeft();
    } else if node == back {
      pose.TurnLeft();
      pose.TurnLeft();
    }
    pose.GoForward();
  }
}
