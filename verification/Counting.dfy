/** Counting facts about finite sets of numbers. */
module Counting {

  /** The numbers below n. */
  ghost function UpTo(n: nat): (s: set<nat>)
    ensures |s| == n && forall c: nat :: c in s <==> c < n
  {
    if n == 0 then {} else UpTo(n - 1) + {n - 1}
  }

  lemma {:induction false} DistinctCount(xs: seq<nat>, ys: set<nat>)
    requires forall j, k | 0 <= j < k < |xs| :: xs[j] != xs[k]
    requires ys == set c | c in xs
    ensures |ys| == |xs|
  {
    if xs != [] {
      var i := |xs| - 1;
      DistinctCount(xs[..i], set c | c in xs[..i]);
      assert xs == xs[..i] + [xs[i]];
      assert ys == (set c | c in xs[..i]) + {xs[i]};
    }
  }

  lemma SubsetCount<T>(a: set<T>, b: set<T>)
    requires a <= b
    ensures |a| <= |b|
    ensures |a| == |b| ==> a == b
  {
    assert |b - a| == |b| - |a|;
  }
}
