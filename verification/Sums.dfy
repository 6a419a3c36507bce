/** Sums of sequences of sizes. */
module Sums {

  ghost function Sum(s: seq<nat>): nat {
    if s == [] then 0 else Sum(s[..|s| - 1]) + s[|s| - 1]
  }

  lemma SumOfNone(sizes: seq<nat>)
    ensures Sum(sizes[..0]) == 0
  {
  }

  lemma SumOfPrefix(sizes: seq<nat>, n: nat)
    requires n < |sizes|
    ensures Sum(sizes[..n + 1]) == Sum(sizes[..n]) + sizes[n]
  {
    assert sizes[..n + 1][..n] == sizes[..n];
  }

  /** Pointwise no smaller, and at k larger by x: the sum grows by at least x. */
  lemma {:induction false} SumGrows(a: seq<nat>, b: seq<nat>, k: nat, x: nat)
    requires |a| <= |b|
    requires forall i :: 0 <= i < |a| ==> a[i] <= b[i]
    requires k < |b| && (if k < |a| then a[k] else 0) + x <= b[k]
    ensures Sum(a) + x <= Sum(b)
    decreases |b|
  {
    var n := |b| - 1;
    var a', b' := if |a| > n then a[..n] else a, b[..n];
    if k < n {
      SumGrows(a', b', k, x);
    } else {
      SumIsMonotone(a', b');
    }
  }

  lemma {:induction false} SumIsMonotone(a: seq<nat>, b: seq<nat>)
    requires |a| <= |b|
    requires forall i :: 0 <= i < |a| ==> a[i] <= b[i]
    ensures Sum(a) <= Sum(b)
    decreases |b|
  {
    if |b| > 0 {
      var n := |b| - 1;
      SumIsMonotone(if |a| > n then a[..n] else a, b[..n]);
    }
  }

  /** Larger only at k, and there by at most x: the sum grows by at most x. */
  lemma {:induction false} SumGrowsAtMost(a: seq<nat>, b: seq<nat>, k: nat, x: nat)
    requires |a| == |b|
    requires forall i :: 0 <= i < |a| && i != k ==> b[i] <= a[i]
    requires k < |a| ==> b[k] <= a[k] + x
    ensures Sum(b) <= Sum(a) + x
  {
    if |a| > 0 {
      var n := |a| - 1;
      if k == n {
        SumIsMonotone(b[..n], a[..n]);
      } else {
        SumGrowsAtMost(a[..n], b[..n], k, x);
      }
    }
  }

  /** Prefix sums are where consecutive blocks of these sizes start: block k ends
      before block j > k begins, and inside the total. */
  lemma {:induction false} PrefixSums(s: seq<nat>, k: nat, j: nat)
    requires k < j <= |s|
    ensures Sum(s[..k]) + s[k] <= Sum(s[..j])
    decreases j
  {
    assert s[..j][..j - 1] == s[..j - 1];
    if k < j - 1 {
      PrefixSums(s, k, j - 1);
    }
  }
}
