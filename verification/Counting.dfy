/** Distinct elements and sizes of sets. */
module Counting {
  ghost predicate Distinct(xs: seq<nat>) { forall i, j :: 0 <= i < j < |xs| ==> xs[i] != xs[j] }

  lemma SubsetCount(a: set<nat>, b: set<nat>)
    requires a <= b
    ensures |a| <= |b| && |b - a| == |b| - |a|
  {
    assert b == a + (b - a);
  }

  lemma UnionCount(a: set<nat>, b: set<nat>)
    ensures |a + b| <= |a| + |b|
  {
    assert a + b == a + (b - a);
    SubsetCount(b - a, b);
  }

  predicate Between(lo: nat, a: nat, hi: nat) { lo <= a < hi }

  ghost function Span(lo: nat, hi: nat): (s: set<nat>) { set a: nat | a < hi && Between(lo, a, hi) }

  lemma {:induction false} SpanCount(lo: nat, hi: nat)
    requires lo <= hi
    ensures |Span(lo, hi)| == hi - lo
    decreases hi
  {
    if lo == hi {
      assert Span(lo, hi) == {};
    } else {
      SpanCount(lo, hi - 1);
      assert Span(lo, hi) == Span(lo, hi - 1) + {hi - 1};
    }
  }
}
