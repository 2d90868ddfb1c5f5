/** Sequence vocabulary shared by the aggregations: duplicate-free lists,
    `[...new Set(xs)]`, and order-preserving subsequences. */
module Sequences {

  predicate NoDuplicates<T(==)>(s: seq<T>) {
    forall i, j :: 0 <= i < j < |s| ==> s[i] != s[j]
  }

  /** `[...new Set(xs)]`: the values of `xs` without repetition, each kept
      where it first appears. */
  function Distinct<T(==)>(xs: seq<T>): (d: seq<T>)
    ensures NoDuplicates(d)
    ensures forall i :: 0 <= i < |d| ==> d[i] in xs
    ensures forall i :: 0 <= i < |xs| ==> xs[i] in d
  {
    if |xs| == 0 then []
    else
      var d := Distinct(xs[..|xs| - 1]);
      var x := xs[|xs| - 1];
      if x in d then d else d + [x]
  }

  /** `d` lists values in the order of their first appearance in `xs`: no
      occurrence of a later value of `d` comes before an earlier one has
      appeared. */
  predicate InFirstAppearanceOrder<T(==)>(xs: seq<T>, d: seq<T>) {
    forall i, j, k :: 0 <= i < j < |d| && 0 <= k < |xs| && xs[k] == d[j] ==> d[i] in xs[..k]
  }

  lemma {:induction false} DistinctFirstAppearanceOrder<T>(xs: seq<T>)
    ensures InFirstAppearanceOrder(xs, Distinct(xs))
  {
    if |xs| > 0 {
      var n := |xs| - 1;
      DistinctFirstAppearanceOrder(xs[..n]);
      assert xs == xs[..n] + [xs[n]];
      FirstAppearanceOrderStep(xs[..n], xs[n], Distinct(xs[..n]));
    }
  }

  /** Appending `x` to `p` keeps the first-appearance order of `d`, with `x`
      added at the end if it is new. */
  lemma FirstAppearanceOrderStep<T>(p: seq<T>, x: T, dp: seq<T>)
    requires InFirstAppearanceOrder(p, dp)
    requires forall i :: 0 <= i < |dp| ==> dp[i] in p
    requires forall k :: 0 <= k < |p| ==> p[k] in dp
    ensures InFirstAppearanceOrder(p + [x], if x in dp then dp else dp + [x])
  {
    var xs := p + [x];
    var d := if x in dp then dp else dp + [x];
    forall i, j, k | 0 <= i < j < |d| && 0 <= k < |xs| && xs[k] == d[j]
      ensures d[i] in xs[..k]
    {
      assert d[i] == dp[i];
      assert d[i] in p;
      if k < |p| {
        assert p[k] == d[j];
        if j < |dp| {
          assert dp[i] in p[..k];
          assert p[..k] == xs[..k];
        }
      } else {
        assert xs[..k] == p;
      }
    }
  }

  /** `a` can be obtained from `b` by deleting elements, keeping the rest in
      order. */
  predicate IsSubsequence<T(==)>(a: seq<T>, b: seq<T>) {
    if |a| == 0 then true
    else if |b| == 0 then false
    else if a[0] == b[0] then IsSubsequence(a[1..], b[1..])
    else IsSubsequence(a, b[1..])
  }
}
