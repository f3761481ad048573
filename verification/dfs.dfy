/** The depth-first search demos of test.py and test/algo.py: a recursive
    search, an iterative one that pushes every unvisited neighbour, and an
    iterative one that keeps the current path on its stack, all over an
    adjacency-list graph and a shared `visited` set. */
module DfsDemos {
  import opened SetLemmas

  /** Node -> neighbours in list order. */
  type AdjList = map<int, seq<int>>

  /** Every listed neighbour is itself a node, so no lookup fails. */
  ghost predicate Closed(g: AdjList) {
    forall a, b :: a in g && b in g[a] ==> b in g
  }

  ghost predicate IsPath(g: AdjList, p: seq<int>) {
    forall i :: 0 <= i < |p| - 1 ==> p[i] in g && p[i + 1] in g[p[i]]
  }

  /** `b` can be reached from `a` in zero or more steps. */
  ghost predicate Reaches(g: AdjList, a: int, b: int) {
    exists p :: |p| > 0 && p[0] == a && p[|p| - 1] == b && IsPath(g, p)
  }

  /** `b` can be reached from `a` in one or more steps. */
  ghost predicate ReachesPlus(g: AdjList, a: int, b: int) {
    a in g && exists n :: n in g[a] && Reaches(g, n, b)
  }

  /** The nodes added to `visited` since `v0` have all their neighbours in
      `v`. */
  ghost predicate NewClosed(g: AdjList, v0: set<int>, v: set<int>) {
    forall a, n :: a in v && a !in v0 && a in g && n in g[a] ==> n in v
  }

  lemma ReachesSelf(g: AdjList, a: int)
    ensures Reaches(g, a, a)
  {
    assert IsPath(g, [a]);
  }

  /** Reaching a node and then taking one of its edges. */
  lemma ReachesExtend(g: AdjList, a: int, b: int, c: int)
    requires Reaches(g, a, b) && b in g && c in g[b]
    ensures Reaches(g, a, c)
  {
    var p :| |p| > 0 && p[0] == a && p[|p| - 1] == b && IsPath(g, p);
    var q := p + [c];
    assert q[|q| - 1] == c;
    assert IsPath(g, q) by {
      forall i | 0 <= i < |q| - 1
        ensures q[i] in g && q[i + 1] in g[q[i]]
      {
        if i < |p| - 1 {
          assert q[i] == p[i] && q[i + 1] == p[i + 1];
        } else {
          assert q[i] == b && q[i + 1] == c;
        }
      }
    }
  }

  /** Taking an edge and then reaching a node. */
  lemma ReachesPrepend(g: AdjList, a: int, b: int, c: int)
    requires a in g && b in g[a] && Reaches(g, b, c)
    ensures Reaches(g, a, c)
  {
    var p :| |p| > 0 && p[0] == b && p[|p| - 1] == c && IsPath(g, p);
    var q := [a] + p;
    assert q[|q| - 1] == c;
    assert IsPath(g, q) by {
      forall i | 0 <= i < |q| - 1
        ensures q[i] in g && q[i + 1] in g[q[i]]
      {
        if i > 0 {
          assert q[i] == p[i - 1] && q[i + 1] == p[i];
        }
      }
    }
  }

  /** No path leaves a set that is closed under the edges. */
  lemma {:induction false} ClosedSetTrapsPaths(g: AdjList, s: set<int>, p: seq<int>)
    requires forall a, n :: a in s && a in g && n in g[a] ==> n in s
    requires |p| > 0 && p[0] in s && IsPath(g, p)
    ensures p[|p| - 1] in s
    decreases |p|
  {
    if |p| > 1 {
      var q := p[..|p| - 1];
      assert IsPath(g, q) by {
        forall i | 0 <= i < |q| - 1
          ensures q[i] in g && q[i + 1] in g[q[i]]
        {
          assert q[i] == p[i] && q[i + 1] == p[i + 1];
        }
      }
      ClosedSetTrapsPaths(g, s, q);
      assert p[|p| - 2] in s && p[|p| - 2] in g && p[|p| - 1] in g[p[|p| - 2]];
    }
  }

  /** A search from an empty `visited` that ends with the start visited,
      every visited node reachable and every visited node's neighbours
      visited has visited exactly the nodes reachable from the start. */
  lemma SearchResultIsReachableSet(g: AdjList, s: int, v: set<int>)
    requires s in v && NewClosed(g, {}, v)
    requires forall x :: x in v ==> Reaches(g, s, x)
    ensures forall x :: x in v <==> Reaches(g, s, x)
  {
    forall x | Reaches(g, s, x)
      ensures x in v
    {
      var p :| |p| > 0 && p[0] == s && p[|p| - 1] == x && IsPath(g, p);
      ClosedSetTrapsPaths(g, v, p);
    }
  }

  /** The same for the recursive search, which marks only the nodes it
      reaches by at least one edge. */
  lemma RecursiveResultIsReachableSet(g: AdjList, s: int, v: set<int>)
    requires s in g && (forall n :: n in g[s] ==> n in v) && NewClosed(g, {}, v)
    requires forall x :: x in v ==> ReachesPlus(g, s, x)
    ensures forall x :: x in v <==> ReachesPlus(g, s, x)
  {
    forall x | ReachesPlus(g, s, x)
      ensures x in v
    {
      var n :| n in g[s] && Reaches(g, n, x);
      var p :| |p| > 0 && p[0] == n && p[|p| - 1] == x && IsPath(g, p);
      ClosedSetTrapsPaths(g, v, p);
    }
  }

  /** The entries of `s` that are in `v`. */
  function CountIn(s: seq<int>, v: set<int>): nat {
    if s == [] then 0 else CountIn(s[..|s| - 1], v) + (if s[|s| - 1] in v then 1 else 0)
  }

  lemma {:induction false} CountInAppendUnvisited(s: seq<int>, t: seq<int>, v: set<int>)
    requires forall i :: 0 <= i < |t| ==> t[i] !in v
    ensures CountIn(s + t, v) == CountIn(s, v)
    decreases |t|
  {
    if t != [] {
      var t' := t[..|t| - 1];
      assert (s + t)[..|s + t| - 1] == s + t';
      assert (s + t)[|s + t| - 1] == t[|t| - 1] && t[|t| - 1] !in v;
      CountInAppendUnvisited(s, t', v);
    } else {
      assert s + t == s;
    }
  }

  function Elems(s: seq<int>): set<int> {
    set x | x in s
  }

  lemma MultisetOfDisjointUnion(a: set<int>, b: set<int>)
    requires a !! b
    ensures multiset(a + b) == multiset(a) + multiset(b)
  {
    forall x
      ensures multiset(a + b)[x] == (multiset(a) + multiset(b))[x]
    {
      if x in a {
        assert x !in b;
      }
    }
  }

  /** The bookkeeping of one recursive call of `Dfs` on a new neighbour
      `n` of `node`: what held for the nodes visited before the call and
      what the call promises for the nodes it visited combine into the same
      facts for all of them. */
  lemma RecursionKeepsClosed(g: AdjList, v0: set<int>, v1: set<int>, n: int, v: set<int>)
    requires v0 <= v1 && v1 + {n} <= v
    requires NewClosed(g, v0, v1) && (n in g ==> forall m :: m in g[n] ==> m in v) && NewClosed(g, v1 + {n}, v)
    ensures NewClosed(g, v0, v)
  {
  }

  lemma RecursionKeepsReach(g: AdjList, node: int, v0: set<int>, v1: set<int>, n: int, v: set<int>)
    requires node in g && n in g && n in g[node] && v0 <= v1
    requires forall x :: x in v1 && x !in v0 ==> ReachesPlus(g, node, x)
    requires forall x :: x in v && x !in v1 + {n} ==> ReachesPlus(g, n, x)
    ensures forall x :: x in v && x !in v0 ==> ReachesPlus(g, node, x)
  {
    ReachesSelf(g, n);
    forall x | x in v && x !in v0
      ensures ReachesPlus(g, node, x)
    {
      if x !in v1 && x != n {
        var m :| m in g[n] && Reaches(g, m, x);
        ReachesPrepend(g, n, m, x);
      }
    }
  }

  lemma RecursionExtendsLog(c0: seq<int>, k1: seq<int>, cs: seq<int>, v0: set<int>, v1: set<int>, n: int, v: set<int>)
    requires v0 <= v1 && n !in v1 && v1 + {n} <= v
    requires |c0| < |k1| && multiset(k1[|c0| + 1..]) == multiset(v1 - v0)
    requires |k1| < |cs| && cs[..|k1|] == k1 && cs[|k1|] == n
    requires multiset(cs[|k1| + 1..]) == multiset(v - (v1 + {n}))
    ensures |c0| < |cs| && cs[..|c0|] == k1[..|c0|] && cs[|c0|] == k1[|c0|]
    ensures multiset(cs[|c0| + 1..]) == multiset(v - v0)
  {
    assert cs[|c0| + 1..] == k1[|c0| + 1..] + [n] + cs[|k1| + 1..];
    MultisetOfDisjointUnion(v1 - v0, {n});
    MultisetOfDisjointUnion((v1 - v0) + {n}, v - (v1 + {n}));
    assert v - v0 == (v1 - v0) + {n} + (v - (v1 + {n}));
  }

  /** The entries of `ns` not in `v`, in order. */
  function Fresh(ns: seq<int>, v: set<int>): seq<int> {
    if ns == [] then [] else Fresh(ns[..|ns| - 1], v) + (if ns[|ns| - 1] in v then [] else [ns[|ns| - 1]])
  }

  lemma {:induction false} FreshIsUnvisitedPart(ns: seq<int>, v: set<int>)
    ensures forall x :: x in Fresh(ns, v) <==> x in ns && x !in v
  {
    if ns != [] {
      FreshIsUnvisitedPart(ns[..|ns| - 1], v);
      assert ns == ns[..|ns| - 1] + [ns[|ns| - 1]];
    }
  }

  lemma FreshAvoids(ns: seq<int>, v: set<int>)
    ensures forall i :: 0 <= i < |Fresh(ns, v)| ==> Fresh(ns, v)[i] !in v
  {
    FreshIsUnvisitedPart(ns, v);
    forall i | 0 <= i < |Fresh(ns, v)|
      ensures Fresh(ns, v)[i] !in v
    {
      assert Fresh(ns, v)[i] in Fresh(ns, v);
    }
  }

  /** The loop invariant of `dfs_iter`: every stacked and every newly
      visited node is reachable from `node`, and every neighbour of a newly
      visited node is visited or still stacked. */
  ghost predicate IterInv(g: AdjList, node: int, v0: set<int>, v: set<int>, s: seq<int>) {
    v0 <= v
    && (forall i :: 0 <= i < |s| ==> s[i] in g && Reaches(g, node, s[i]))
    && (forall x :: x in v && x !in v0 ==> Reaches(g, node, x))
    && (node in v || node in s)
    && (forall a, n :: a in v && a !in v0 && a in g && n in g[a] ==> n in v || n in s)
  }

  /** After one pass of `dfs_iter` every stacked node is still reachable. */
  lemma IterStepReaches(g: AdjList, node: int, s: seq<int>, v': set<int>)
    requires Closed(g) && |s| > 0
    requires forall i :: 0 <= i < |s| ==> s[i] in g && Reaches(g, node, s[i])
    ensures var s' := s[..|s| - 1] + Fresh(g[s[|s| - 1]], v');
      forall i :: 0 <= i < |s'| ==> s'[i] in g && Reaches(g, node, s'[i])
  {
    var top := s[|s| - 1];
    var rest := s[..|s| - 1];
    var pushed := Fresh(g[top], v');
    var s' := rest + pushed;
    FreshIsUnvisitedPart(g[top], v');
    forall i | 0 <= i < |s'|
      ensures s'[i] in g && Reaches(g, node, s'[i])
    {
      if i < |rest| {
        assert s'[i] == s[i];
      } else {
        assert s'[i] in pushed;
        ReachesExtend(g, node, top, s'[i]);
      }
    }
  }

  /** After one pass of `dfs_iter` every neighbour of a newly visited node
      is visited or stacked. */
  lemma IterStepPending(g: AdjList, node: int, v0: set<int>, v: set<int>, s: seq<int>)
    requires |s| > 0 && s[|s| - 1] in g
    requires node in v || node in s
    requires forall a, n :: a in v && a !in v0 && a in g && n in g[a] ==> n in v || n in s
    ensures var top := s[|s| - 1]; var v' := v + {top};
      var s' := s[..|s| - 1] + Fresh(g[top], v');
      (node in v' || node in s')
      && forall a, n :: a in v' && a !in v0 && a in g && n in g[a] ==> n in v' || n in s'
  {
    var top := s[|s| - 1];
    var v' := v + {top};
    var rest := s[..|s| - 1];
    var pushed := Fresh(g[top], v');
    var s' := rest + pushed;
    FreshIsUnvisitedPart(g[top], v');
    if node !in v && node != top {
      var j :| 0 <= j < |s| && s[j] == node;
      assert s'[j] == node;
    }
    forall a, n | a in v' && a !in v0 && a in g && n in g[a]
      ensures n in v' || n in s'
    {
      if n !in v' {
        if a == top {
          assert n in pushed;
        } else {
          assert n in s;
          var j :| 0 <= j < |s| && s[j] == n;
          assert j < |rest| && s'[j] == n;
        }
      }
    }
  }

  /** One pass of `dfs_iter` either marks a new node or removes a marked
      entry from the stack, pushing only unmarked ones. */
  lemma IterStepDescends(g: AdjList, v: set<int>, s: seq<int>)
    requires |s| > 0 && s[|s| - 1] in g
    ensures var top := s[|s| - 1]; var v' := v + {top};
      var s' := s[..|s| - 1] + Fresh(g[top], v');
      (top in v ==> v' == v && CountIn(s', v') < CountIn(s, v))
      && (top !in v ==> |g.Keys - v'| < |g.Keys - v|)
  {
    var top := s[|s| - 1];
    var v' := v + {top};
    var rest := s[..|s| - 1];
    var pushed := Fresh(g[top], v');
    if top in v {
      assert v' == v;
      FreshAvoids(g[top], v);
      assert s == rest + [top];
      assert CountIn(s, v) == CountIn(rest, v) + 1;
      CountInAppendUnvisited(rest, pushed, v);
    } else {
      RemainderShrinks(g.Keys, v, v', top);
    }
  }

  /** One pass of `dfs_iter` keeps the invariant, and either marks a new
      node or removes a marked entry from the stack. */
  lemma IterStepKeepsInv(g: AdjList, node: int, v0: set<int>, v: set<int>, s: seq<int>)
    requires Closed(g) && IterInv(g, node, v0, v, s) && |s| > 0
    ensures var top := s[|s| - 1];
      var v' := v + {top};
      var s' := s[..|s| - 1] + Fresh(g[top], v');
      IterInv(g, node, v0, v', s')
      && (top in v ==> v' == v && CountIn(s', v') < CountIn(s, v))
      && (top !in v ==> |g.Keys - v'| < |g.Keys - v|)
  {
    var top := s[|s| - 1];
    IterStepReaches(g, node, s, v + {top});
    IterStepPending(g, node, v0, v, s);
    IterStepDescends(g, v, s);
  }

  /** The loop invariant of `dfs_iter_rec`: the stack is a path from
      `node` whose entries below the top are visited, every newly visited
      node is reachable, and a newly visited node whose neighbours are not
      all visited is still on the stack. */
  ghost predicate RecInv(g: AdjList, node: int, v0: set<int>, v: set<int>, s: seq<int>) {
    v0 <= v
    && (|s| > 0 ==> s[0] == node)
    && (forall i :: 0 <= i < |s| ==> s[i] in g && Reaches(g, node, s[i]))
    && (forall i :: 0 <= i < |s| - 1 ==> s[i + 1] in g[s[i]] && s[i] in v)
    && (forall x :: x in v && x !in v0 ==> Reaches(g, node, x))
    && (node in v || s == [node])
    && (forall a, n :: a in v && a !in v0 && a in g && n in g[a] ==> n in v || a in s)
  }

  /** Pushing a neighbour of the marked top keeps the stack a path from
      `node` of reachable nodes, visited below the top. */
  lemma RecPushKeepsPath(g: AdjList, node: int, v0: set<int>, v: set<int>, s: seq<int>, n: int)
    requires Closed(g) && RecInv(g, node, v0, v, s) && |s| > 0 && n in g[s[|s| - 1]]
    ensures var s' := s + [n]; var v' := v + {s[|s| - 1]};
      s'[0] == node && node in v'
      && (forall i :: 0 <= i < |s'| ==> s'[i] in g && Reaches(g, node, s'[i]))
      && (forall i :: 0 <= i < |s'| - 1 ==> s'[i + 1] in g[s'[i]] && s'[i] in v')
      && (forall x :: x in v' && x !in v0 ==> Reaches(g, node, x))
  {
    var top := s[|s| - 1];
    var s' := s + [n];
    var v' := v + {top};
    ReachesExtend(g, node, top, n);
    assert node in v' by {
      if node !in v {
        assert s == [node];
      }
    }
    forall i | 0 <= i < |s'|
      ensures s'[i] in g && Reaches(g, node, s'[i])
    {
      if i < |s| {
        assert s'[i] == s[i];
      }
    }
    forall i | 0 <= i < |s'| - 1
      ensures s'[i + 1] in g[s'[i]] && s'[i] in v'
    {
      if i < |s| - 1 {
        assert s'[i] == s[i] && s'[i + 1] == s[i + 1];
      }
    }
  }

  /** Pushing keeps every newly visited node with an unvisited neighbour on
      the stack. */
  lemma RecPushKeepsPending(g: AdjList, node: int, v0: set<int>, v: set<int>, s: seq<int>, n: int)
    requires RecInv(g, node, v0, v, s) && |s| > 0
    ensures var s' := s + [n]; var v' := v + {s[|s| - 1]};
      forall a, m :: a in v' && a !in v0 && a in g && m in g[a] ==> m in v' || a in s'
  {
    var top := s[|s| - 1];
    var s' := s + [n];
    var v' := v + {top};
    forall a, m | a in v' && a !in v0 && a in g && m in g[a]
      ensures m in v' || a in s'
    {
      if a != top && m !in v' {
        assert a in s;
        var j :| 0 <= j < |s| && s[j] == a;
        assert s'[j] == a;
      }
    }
  }

  /** Pushing a node neither visited nor stacked shrinks the set of graph
      nodes outside both. */
  lemma RecPushShrinks(g: AdjList, node: int, v0: set<int>, v: set<int>, s: seq<int>, n: int)
    requires Closed(g) && RecInv(g, node, v0, v, s) && |s| > 0
    requires n in g[s[|s| - 1]] && n !in v + {s[|s| - 1]}
    ensures |g.Keys - (v + {s[|s| - 1]} + Elems(s + [n]))| < |g.Keys - (v + Elems(s))|
  {
    var top := s[|s| - 1];
    var s' := s + [n];
    var v' := v + {top};
    assert n !in v + Elems(s);
    assert Elems(s') == Elems(s) + {n};
    RemainderShrinks(g.Keys, v + Elems(s), v' + Elems(s'), n);
  }

  /** Pushing an unvisited neighbour of the freshly marked top keeps the
      invariant and adds a node to the visited-or-stacked set. */
  lemma RecPushKeepsInv(g: AdjList, node: int, v0: set<int>, v: set<int>, s: seq<int>, n: int)
    requires Closed(g) && RecInv(g, node, v0, v, s) && |s| > 0
    requires n in g[s[|s| - 1]] && n !in v + {s[|s| - 1]}
    ensures RecInv(g, node, v0, v + {s[|s| - 1]}, s + [n])
    ensures |g.Keys - (v + {s[|s| - 1]} + Elems(s + [n]))| < |g.Keys - (v + Elems(s))|
  {
    RecPushKeepsPath(g, node, v0, v, s, n);
    RecPushKeepsPending(g, node, v0, v, s, n);
    RecPushShrinks(g, node, v0, v, s, n);
  }

  /** Popping a marked top whose neighbours are all visited keeps the
      invariant and the visited-or-stacked set. */
  lemma RecPopKeepsInv(g: AdjList, node: int, v0: set<int>, v: set<int>, s: seq<int>)
    requires RecInv(g, node, v0, v, s) && |s| > 0
    requires forall n :: n in g[s[|s| - 1]] ==> n in v || n == s[|s| - 1]
    ensures RecInv(g, node, v0, v + {s[|s| - 1]}, s[..|s| - 1])
    ensures v + {s[|s| - 1]} + Elems(s[..|s| - 1]) == v + Elems(s)
  {
    var top := s[|s| - 1];
    assert s == s[..|s| - 1] + [top];
    assert Elems(s) == Elems(s[..|s| - 1]) + {top};
    PopKeepsPath(g, node, v0, v, s);
    PopKeepsClosure(g, v0, v, s);
  }

  /** After the pop, the rest of the stack is still a path from `node` of
      reachable nodes, visited below the new top, and the popped top,
      now marked, is reachable. */
  lemma PopKeepsPath(g: AdjList, node: int, v0: set<int>, v: set<int>, s: seq<int>)
    requires RecInv(g, node, v0, v, s) && |s| > 0
    ensures var s', v' := s[..|s| - 1], v + {s[|s| - 1]};
      (|s'| > 0 ==> s'[0] == node)
      && (forall i :: 0 <= i < |s'| ==> s'[i] in g && Reaches(g, node, s'[i]))
      && (forall i :: 0 <= i < |s'| - 1 ==> s'[i + 1] in g[s'[i]] && s'[i] in v')
      && (forall x :: x in v' && x !in v0 ==> Reaches(g, node, x))
      && (node in v' || s' == [node])
  {
    var top, s', v' := s[|s| - 1], s[..|s| - 1], v + {s[|s| - 1]};
    assert forall i :: 0 <= i < |s'| ==> s'[i] == s[i];
    assert top in g && Reaches(g, node, top);
    if node !in v {
      assert top == node;
    }
  }

  /** After the pop, a marked node outside `v0` with an unmarked neighbour
      is still on the stack: the popped top has none. */
  lemma PopKeepsClosure(g: AdjList, v0: set<int>, v: set<int>, s: seq<int>)
    requires |s| > 0 && s[|s| - 1] in g
    requires forall a, n :: a in v && a !in v0 && a in g && n in g[a] ==> n in v || a in s
    requires forall n :: n in g[s[|s| - 1]] ==> n in v || n == s[|s| - 1]
    ensures forall a, m :: a in v + {s[|s| - 1]} && a !in v0 && a in g && m in g[a] ==>
      m in v + {s[|s| - 1]} || a in s[..|s| - 1]
  {
    var top, s', v' := s[|s| - 1], s[..|s| - 1], v + {s[|s| - 1]};
    forall a, m | a in v' && a !in v0 && a in g && m in g[a]
      ensures m in v' || a in s'
    {
      if a != top && m !in v' {
        assert a in s;
        var j :| 0 <= j < |s| && s[j] == a;
        assert s'[j] == a;
      }
    }
  }

  class DfsDemo {
    const graph: AdjList
    var visited: set<int>
    /** The argument of every call of `Dfs`, in call order. */
    ghost var calls: seq<int>

    /** A search over `graph` with the module-level `visited = set()`. */
    constructor (graph: AdjList)
      ensures this.graph == graph && visited == {} && calls == []
    {
      this.graph := graph;
      visited := {};
      calls := [];
    }

    /** `dfs`: for each neighbour in list order that is not yet visited,
        mark it and recurse on it. The node itself is not marked. The call
        log shows that after this call's own entry, exactly the newly
        visited nodes were recursed on, each once. */
    method Dfs(node: int)
      requires Closed(graph) && node in graph
      modifies this`visited, this`calls
      decreases |graph.Keys - visited|
      ensures old(visited) <= visited
      ensures forall n :: n in graph[node] ==> n in visited
      ensures NewClosed(graph, old(visited), visited)
      ensures forall x :: x in visited && x !in old(visited) ==> ReachesPlus(graph, node, x)
      ensures |old(calls)| < |calls| && calls[..|old(calls)|] == old(calls) && calls[|old(calls)|] == node
      ensures multiset(calls[|old(calls)| + 1..]) == multiset(visited - old(visited))
    {
      ghost var c0 := calls;
      calls := calls + [node];
      var nbrs := graph[node];
      for i := 0 to |nbrs|
        invariant old(visited) <= visited
        invariant forall j :: 0 <= j < i ==> nbrs[j] in visited
        invariant NewClosed(graph, old(visited), visited)
        invariant forall x :: x in visited && x !in old(visited) ==> ReachesPlus(graph, node, x)
        invariant |c0| < |calls| && calls[..|c0|] == c0 && calls[|c0|] == node
        invariant multiset(calls[|c0| + 1..]) == multiset(visited - old(visited))
      {
        var n := nbrs[i];
        if n !in visited {
          ghost var v1 := visited;
          ghost var k1 := calls;
          visited := visited + {n};
          RemainderShrinks(graph.Keys, old(visited), visited, n);
          Dfs(n);
          RecursionKeepsClosed(graph, old(visited), v1, n, visited);
          RecursionKeepsReach(graph, node, old(visited), v1, n, visited);
          RecursionExtendsLog(c0, k1, calls, old(visited), v1, n, visited);
        }
      }
    }

    /** One pass of `dfs_iter`'s loop: pop the top, mark it, and push, in
        list order, each of its neighbours that is not visited. */
    method PopAndPush(stack: seq<int>) returns (stack': seq<int>)
      requires Closed(graph) && |stack| > 0 && stack[|stack| - 1] in graph
      modifies this`visited
      ensures var top := stack[|stack| - 1];
        visited == old(visited) + {top}
        && stack' == stack[..|stack| - 1] + Fresh(graph[top], visited)
    {
      var next := stack[|stack| - 1];
      stack' := stack[..|stack| - 1];
      visited := visited + {next};
      var nbrs := graph[next];
      for i := 0 to |nbrs|
        invariant stack' == stack[..|stack| - 1] + Fresh(nbrs[..i], visited)
      {
        assert nbrs[..i + 1][..i] == nbrs[..i];
        if nbrs[i] !in visited {
          stack' := stack' + [nbrs[i]];
        }
      }
      assert nbrs[..|nbrs|] == nbrs;
    }

    /** `dfs_iter`: pop a node, mark it, push every neighbour not yet
        visited (a node may be pushed more than once). */
    method DfsIter(node: int)
      requires Closed(graph) && node in graph
      modifies this`visited
      ensures old(visited) <= visited && node in visited
      ensures NewClosed(graph, old(visited), visited)
      ensures forall x :: x in visited && x !in old(visited) ==> Reaches(graph, node, x)
    {
      var stack := [node];
      ReachesSelf(graph, node);
      while |stack| > 0
        invariant IterInv(graph, node, old(visited), visited, stack)
        decreases |graph.Keys - visited|, CountIn(stack, visited)
      {
        ghost var v0 := visited;
        ghost var s0 := stack;
        stack := PopAndPush(stack);
        IterStepKeepsInv(graph, node, old(visited), v0, s0);
      }
    }

    /** One pass of `dfs_iter_rec`'s loop: mark the top of the stack, then
        push its first neighbour (in list order) that is not yet visited, or
        pop the top when there is none. The stack grows or shrinks by
        exactly one. */
    method DeepenOrBacktrack(stack: seq<int>) returns (stack': seq<int>)
      requires Closed(graph) && |stack| > 0 && stack[|stack| - 1] in graph
      modifies this`visited
      ensures var top := stack[|stack| - 1];
        visited == old(visited) + {top}
        && ((|stack'| == |stack| + 1 && stack' == stack + [stack'[|stack|]]
             && stack'[|stack|] in graph[top] && stack'[|stack|] !in visited
             && exists i :: 0 <= i < |graph[top]| && graph[top][i] == stack'[|stack|]
                 && forall j :: 0 <= j < i ==> graph[top][j] in visited)
         || (stack' == stack[..|stack| - 1] && forall n :: n in graph[top] ==> n in visited))
    {
      var top := stack[|stack| - 1];
      visited := visited + {top};
      var nbrs := graph[top];
      var i := 0;
      while i < |nbrs|
        invariant 0 <= i <= |nbrs|
        invariant forall j :: 0 <= j < i ==> nbrs[j] in visited
      {
        if nbrs[i] !in visited {
          return stack + [nbrs[i]];
        }
        i := i + 1;
      }
      stack' := stack[..|stack| - 1];
    }

    /** `dfs_iter_rec`: the stack holds the current path from `node`;
        consecutive entries are adjacent and every entry below the top is
        visited. */
    method DfsIterRec(node: int)
      requires Closed(graph) && node in graph
      modifies this`visited
      ensures old(visited) <= visited && node in visited
      ensures NewClosed(graph, old(visited), visited)
      ensures forall x :: x in visited && x !in old(visited) ==> Reaches(graph, node, x)
    {
      var stack := [node];
      ReachesSelf(graph, node);
      while |stack| > 0
        invariant RecInv(graph, node, old(visited), visited, stack)
        decreases |graph.Keys - (visited + Elems(stack))|, |stack|
      {
        ghost var v0 := visited;
        ghost var s0 := stack;
        stack := DeepenOrBacktrack(stack);
        if |stack| == |s0| + 1 {
          RecPushKeepsInv(graph, node, old(visited), v0, s0, stack[|s0|]);
        } else {
          RecPopKeepsInv(graph, node, old(visited), v0, s0);
        }
      }
    }
  }

  /** The nodes of test.py's literal graph. */
  const TestNodes: set<int> := {0, 1, 2, 3, 4, 5, 6, 7, 8, 9, 10, 11, 12, 13, 14}

  /** The neighbour lists of test.py's literal graph. */
  function TestAdj(a: int): seq<int> {
    match a
    case 0 => [1]
    case 1 => [14, 2, 0]
    case 2 => [1, 3, 7, 8]
    case 3 => [2, 5, 4]
    case 4 => [3, 6, 13]
    case 5 => [3, 6]
    case 6 => [4, 5]
    case 7 => [2]
    case 8 => [2, 12, 9]
    case 9 => [11, 10, 8]
    case 10 => [9]
    case 11 => [9]
    case 12 => [8]
    case 13 => [4]
    case 14 => [1]
    case _ => []
  }

  /** The literal graph of test.py. */
  function TestGraph(): AdjList {
    map a | a in TestNodes :: TestAdj(a)
  }

  /** Every listed edge joins two nodes of the graph and is listed the
      other way round too. */
  lemma TestEdgeSymmetric(a: int, b: int)
    requires b in TestAdj(a)
    ensures a in TestNodes && b in TestNodes && a in TestAdj(b)
  {
  }

  /** The literal graph is undirected (every edge is listed both ways) and
      names only its own nodes 0..14. */
  lemma TestGraphSymmetric()
    ensures forall a, b :: a in TestGraph() && b in TestGraph()[a] ==> b in TestGraph() && a in TestGraph()[b]
  {
    forall a, b | a in TestGraph() && b in TestGraph()[a]
      ensures b in TestGraph() && a in TestGraph()[b]
    {
      assert TestGraph()[a] == TestAdj(a);
      TestEdgeSymmetric(a, b);
      assert TestGraph()[b] == TestAdj(b);
    }
  }

  lemma TestGraphClosed()
    ensures Closed(TestGraph())
  {
    TestGraphSymmetric();
  }

  /** A visited set closed under the edges of the literal graph. */
  lemma TestNeighboursVisited(v: set<int>, a: int)
    requires NewClosed(TestGraph(), {}, v) && a in v && a in TestNodes
    ensures forall n :: n in TestAdj(a) ==> n in v
  {
    assert TestGraph()[a] == TestAdj(a);
  }

  /** The literal graph is connected: a closed visited set holding node 0
      holds every node. */
  lemma {:induction false} TestGraphConnected(v: set<int>)
    requires NewClosed(TestGraph(), {}, v) && 0 in v
    ensures TestNodes <= v
  {
    TestNeighboursVisited(v, 0);
    TestNeighboursVisited(v, 1);
    TestNeighboursVisited(v, 2);
    TestNeighboursVisited(v, 3);
    TestNeighboursVisited(v, 4);
    TestNeighboursVisited(v, 8);
    TestNeighboursVisited(v, 9);
  }

  /** The script's run: `dfs_iter_rec(0)` on the literal graph visits every
      node 0..14 and nothing else. */
  method TestRun() returns (d: DfsDemo)
    ensures d.visited == TestNodes
  {
    TestGraphClosed();
    d := new DfsDemo(TestGraph());
    d.DfsIterRec(0);
    TestGraphConnected(d.visited);
    forall x | x in d.visited
      ensures x in TestNodes
    {
      var p :| |p| > 0 && p[0] == 0 && p[|p| - 1] == x && IsPath(TestGraph(), p);
      ClosedSetTrapsPaths(TestGraph(), TestNodes, p);
    }
  }
}
