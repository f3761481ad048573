/** Cardinality facts about finite sets used by the termination arguments. */
module SetLemmas {

  /** A subset is no larger than its superset. */
  lemma {:induction false} SubsetCard<T>(a: set<T>, b: set<T>)
    requires a <= b
    ensures |a| <= |b|
    decreases a
  {
    if a != {} {
      var y :| y in a;
      SubsetCard(a - {y}, b - {y});
      assert a == (a - {y}) + {y};
      assert b == (b - {y}) + {y};
    }
  }

  /** A subset missing some element of its superset is strictly smaller. */
  lemma ProperSubsetSmaller<T>(a: set<T>, b: set<T>, x: T)
    requires a <= b && x in b && x !in a
    ensures |a| < |b|
  {
    var b' := b - {x};
    assert b == b' + {x};
    SubsetCard(a, b');
  }

  /** Adding a new element of `u` to `k` shrinks what is left of `u`. */
  lemma RemainderShrinks<T>(u: set<T>, k: set<T>, k': set<T>, x: T)
    requires k <= k' && x in k' && x !in k && x in u
    ensures |u - k'| < |u - k|
  {
    ProperSubsetSmaller(u - k', u - k, x);
  }
}
