/** The explored maze as an adjacency dictionary from a cell to the set of
    cells reachable from it in one step (a dict of sets in the scripts). */
module MazeGraph {
  import opened Datatypes

  type Graph = map<Cell, set<Cell>>

  /** The neighbour set of `a`, or the empty set when `a` is not a key. */
  function Neighbours(g: Graph, a: Cell): set<Cell> {
    if a in g then g[a] else {}
  }

  /** Every neighbour is itself a key. */
  ghost predicate Closed(g: Graph) {
    forall u, v :: u in g && v in g[u] ==> v in g
  }

  /** Every edge is recorded in both directions (and so every neighbour is a
      key). */
  ghost predicate Symmetric(g: Graph) {
    forall u, v :: u in g && v in g[u] ==> v in g && u in g[v]
  }

  lemma SymmetricIsClosed(g: Graph)
    requires Symmetric(g)
    ensures Closed(g)
  {
  }

  /** add_edge_between: make sure both ends are keys, then record the edge in
      both directions. */
  function AddEdge(g: Graph, a: Cell, b: Cell): (h: Graph)
    ensures h.Keys == g.Keys + {a, b}
    ensures b in h[a] && a in h[b]
    ensures forall k :: k in g && k != a && k != b ==> h[k] == g[k]
    ensures forall k, v :: k in h && v in h[k] ==> (k in g && v in g[k]) || (k == a && v == b) || (k == b && v == a)
    ensures forall k :: k in g ==> g[k] <= h[k]
  {
    var g1 := g[a := Neighbours(g, a) + {b}];
    g1[b := Neighbours(g1, b) + {a}]
  }

  /** Recording the same edge twice has no further effect, and recording it
      in the other orientation gives the same graph. */
  lemma AddEdgeIdempotent(g: Graph, a: Cell, b: Cell)
    ensures AddEdge(AddEdge(g, a, b), a, b) == AddEdge(g, a, b)
    ensures AddEdge(g, a, b) == AddEdge(g, b, a)
  {
    var h := AddEdge(g, a, b);
    var h2 := AddEdge(h, a, b);
    var h3 := AddEdge(g, b, a);
    assert h2.Keys == h.Keys && h3.Keys == h.Keys;
    forall k | k in h
      ensures h2[k] == h[k] && h3[k] == h[k]
    {
      if k != a && k != b {
        assert k in g;
      } else if a == b {
        assert h[k] == Neighbours(g, a) + {a};
      } else if k == a {
        assert h[k] == Neighbours(g, a) + {b};
      } else {
        assert h[k] == Neighbours(g, b) + {a};
      }
    }
  }

  /** Adding an edge to a symmetric graph keeps it symmetric. */
  lemma AddEdgePreservesSymmetry(g: Graph, a: Cell, b: Cell)
    requires Symmetric(g)
    ensures Symmetric(AddEdge(g, a, b))
  {
    var h := AddEdge(g, a, b);
    forall u, v | u in h && v in h[u] ensures v in h && u in h[v] {
      if !(u == a && v == b) && !(u == b && v == a) {
        assert u in g && v in g[u];
      }
    }
  }

  /** Every recorded edge joins two cells that share a side. */
  ghost predicate GridEdges(g: Graph) {
    forall u, v :: u in g && v in g[u] ==> Adjacent(u, v)
  }

  /** Recording an edge between two side-sharing cells keeps every edge a
      grid step. */
  lemma AddEdgeKeepsGridEdges(g: Graph, a: Cell, b: Cell)
    requires GridEdges(g) && Adjacent(a, b)
    ensures GridEdges(AddEdge(g, a, b))
  {
    var h := AddEdge(g, a, b);
    forall u, v | u in h && v in h[u] ensures Adjacent(u, v) {
      if !(u == a && v == b) && !(u == b && v == a) {
        assert u in g && v in g[u];
      }
    }
  }

  /** The union of all neighbour sets. */
  ghost function AllNeighbours(g: Graph): set<Cell>
    decreases |g.Keys|
  {
    if g == map[] then {}
    else
      var k :| k in g;
      g[k] + AllNeighbours(g - {k})
  }

  lemma {:induction false} NeighboursAreInUnion(g: Graph, u: Cell, v: Cell)
    requires u in g && v in g[u]
    ensures v in AllNeighbours(g)
    decreases |g.Keys|
  {
    var k :| k in g && AllNeighbours(g) == g[k] + AllNeighbours(g - {k});
    if k != u {
      NeighboursAreInUnion(g - {k}, u, v);
    }
  }
}
