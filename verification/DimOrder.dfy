/** Dimension orders from strides and back. */
module DimOrder {
  import opened Wrappers
  import opened TensorSpecs
  import opened TensorLayout

  /** Dimension a comes before b: it has the larger stride, or the same and a smaller index. */
  ghost predicate Before(strides: seq<nat>, a: nat, b: nat) {
    Entry(strides, a) > Entry(strides, b) || (Entry(strides, a) == Entry(strides, b) && a < b)
  }

  ghost predicate IsDimOrder(strides: seq<nat>, order: seq<nat>) {
    && Permutation(order, |strides|)
    && forall i, j :: 0 <= i < j < |order| ==> Before(strides, order[i], order[j])
  }

  /** Stable insertion into a list sorted by decreasing stride. */
  function Insert(strides: seq<nat>, sorted: seq<nat>, d: nat): (r: seq<nat>) {
    if sorted == [] then [d]
    else
      var n := |sorted| - 1;
      if Entry(strides, sorted[n]) >= Entry(strides, d) then sorted + [d]
      else Insert(strides, sorted[..n], d) + [sorted[n]]
  }

  function SortDims(strides: seq<nat>, n: nat): seq<nat> {
    if n == 0 then [] else Insert(strides, SortDims(strides, n - 1), n - 1)
  }

  /** `dim_order_from_stride`; None stands for the error on a zero stride. */
  function DimOrderFromStride(strides: seq<nat>): Option<seq<nat>> {
    if 0 in strides then None else Some(SortDims(strides, |strides|))
  }

  ghost predicate Ascending(strides: seq<nat>, dims: seq<nat>) {
    forall i, j :: 0 <= i < j < |dims| ==> Before(strides, dims[i], dims[j])
  }

  lemma {:induction false} InsertKeepsOrder(strides: seq<nat>, sorted: seq<nat>, d: nat)
    requires Ascending(strides, sorted) && forall e: nat :: e in sorted ==> e < d
    ensures Ascending(strides, Insert(strides, sorted, d))
    ensures |Insert(strides, sorted, d)| == |sorted| + 1
    ensures forall e: nat :: e in Insert(strides, sorted, d) <==> e in sorted || e == d
  {
    if sorted != [] {
      var n := |sorted| - 1;
      if Entry(strides, sorted[n]) >= Entry(strides, d) {
        forall i | 0 <= i <= n
          ensures Before(strides, sorted[i], d)
        {
          assert sorted[i] in sorted;
          assert i < n ==> Before(strides, sorted[i], sorted[n]);
        }
      } else {
        var rest := Insert(strides, sorted[..n], d);
        assert forall e: nat :: e in sorted <==> e in sorted[..n] || e == sorted[n];
        InsertKeepsOrder(strides, sorted[..n], d);
        forall i | 0 <= i < |rest|
          ensures Before(strides, rest[i], sorted[n])
        {
          assert rest[i] in rest;
          if rest[i] != d {
            var k :| 0 <= k < n && sorted[..n][k] == rest[i];
          }
        }
      }
    }
  }

  lemma {:induction false} SortDimsSorts(strides: seq<nat>, n: nat)
    ensures Ascending(strides, SortDims(strides, n)) && |SortDims(strides, n)| == n
    ensures forall e: nat :: e in SortDims(strides, n) <==> e < n
  {
    if n > 0 {
      SortDimsSorts(strides, n - 1);
      InsertKeepsOrder(strides, SortDims(strides, n - 1), n - 1);
    }
  }

  /** The result is the permutation sorted by decreasing stride, ties in index order;
      it fails exactly on a zero stride. */
  lemma DimOrderIsSorted(strides: seq<nat>)
    ensures DimOrderFromStride(strides).None? <==> 0 in strides
    ensures DimOrderFromStride(strides).Some? ==> IsDimOrder(strides, DimOrderFromStride(strides).value)
  {
    SortDimsSorts(strides, |strides|);
    var order := SortDims(strides, |strides|);
    forall i, j | 0 <= i < j < |order|
      ensures order[i] != order[j]
    {
      assert Before(strides, order[i], order[j]);
    }
    assert forall i :: 0 <= i < |order| ==> order[i] in order;
  }

  /** There is only one such order. */
  lemma {:induction false} DimOrderIsUnique(strides: seq<nat>, p: seq<nat>, q: seq<nat>, n: nat)
    requires IsDimOrder(strides, p) && IsDimOrder(strides, q) && n <= |p|
    ensures p[..n] == q[..n]
  {
    if n > 0 {
      var k := n - 1;
      DimOrderIsUnique(strides, p, q, k);
      assert p[..n] == p[..k] + [p[k]] && q[..n] == q[..k] + [q[k]];
      Later(strides, p, q, k);
      Later(strides, q, p, k);
    }
  }

  /** With equal prefixes, the next entry of p is not before the next entry of q unless
      they are the same. */
  lemma Later(strides: seq<nat>, p: seq<nat>, q: seq<nat>, k: nat)
    requires IsDimOrder(strides, p) && IsDimOrder(strides, q) && k < |p| && p[..k] == q[..k]
    ensures p[k] == q[k] || Before(strides, q[k], p[k])
  {
    assert p[k] in q;
    var j :| 0 <= j < |q| && q[j] == p[k];
    assert j >= k by {
      assert forall i :: 0 <= i < k ==> p[i] == p[..k][i] == q[..k][i] == q[i];
    }
  }

  /** Strides do not grow inwards, and shrink by the extent of what they step over. */
  lemma StrideDominates(sizes: seq<nat>, p: seq<nat>, strides: seq<nat>, i: nat, j: nat)
    requires StridesOf(sizes, p, strides) && i < j < |p|
    ensures strides[p[i]] >= Extent(sizes[p[j]]) * strides[p[j]] >= strides[p[j]]
  {
    hide Volume;
    assert p[i + 1..] == p[i + 1..j] + p[j..];
    VolumeSplits(sizes, p[i + 1..j], p[j..]);
    VolumeSplits(sizes, [p[j]], p[j + 1..]);
    assert p[j..] == [p[j]] + p[j + 1..];
    VolumeOfOne(sizes, p[j]);
    var inner := Extent(sizes[p[j]]) * strides[p[j]];
    TimesAtLeast(Volume(sizes, p[i + 1..j]), inner);
    TimesAtLeast(Extent(sizes[p[j]]), strides[p[j]]);
  }

  lemma VolumeOfOne(sizes: seq<nat>, d: nat)
    ensures Volume(sizes, [d]) == Extent(Entry(sizes, d))
  {
    assert [d][1..] == [];
  }

  lemma TimesAtLeast(x: nat, y: nat)
    requires x > 0
    ensures x * y >= y
  {
    assert x * y == (x - 1) * y + y;
  }

  /** The dimensions among those listed that hold more than one element. */
  function Big(sizes: seq<nat>, dims: seq<nat>): (r: seq<nat>)
    ensures forall d :: d in r <==> d in dims && Entry(sizes, d) >= 2
    ensures Distinct(dims) ==> Distinct(r)
  {
    if dims == [] then []
    else
      var n := |dims| - 1;
      var rest := Big(sizes, dims[..n]);
      assert dims == dims[..n] + [dims[n]];
      if Entry(sizes, dims[n]) >= 2 then rest + [dims[n]] else rest
  }

  lemma BigStep(sizes: seq<nat>, dims: seq<nat>, d: nat)
    ensures Big(sizes, dims + [d]) == Big(sizes, dims) + if Entry(sizes, d) >= 2 then [d] else []
  {
    assert (dims + [d])[..|dims|] == dims;
  }

  lemma VolumeSnoc(sizes: seq<nat>, dims: seq<nat>, d: nat)
    ensures Volume(sizes, dims + [d]) == Volume(sizes, dims) * Extent(Entry(sizes, d))
    ensures Entry(sizes, d) < 2 ==> Volume(sizes, dims + [d]) == Volume(sizes, dims)
  {
    VolumeSplits(sizes, dims, [d]);
    VolumeOfOne(sizes, d);
  }

  lemma {:induction false} VolumeOfBig(sizes: seq<nat>, dims: seq<nat>)
    ensures Volume(sizes, dims) == Volume(sizes, Big(sizes, dims))
  {
    if dims != [] {
      hide Volume, Big, Distinct, Entry, Extent;
      var n := |dims| - 1;
      var rest, d := dims[..n], dims[n];
      VolumeOfBig(sizes, rest);
      assert dims == rest + [d];
      VolumeSnoc(sizes, rest, d);
      VolumeSnoc(sizes, Big(sizes, rest), d);
      BigStep(sizes, rest, d);
      assert Big(sizes, rest) + [] == Big(sizes, rest);
    }
  }

  lemma InSuffix(p: seq<nat>, i: nat, k: nat)
    requires Distinct(p) && i <= |p| && k < |p|
    ensures p[k] in p[i..] <==> i <= k
  {
    if p[k] in p[i..] {
      var j :| 0 <= j < |p| - i && p[i..][j] == p[k];
    }
    if i <= k {
      assert p[i..][k - i] == p[k];
    }
  }

  /** Among the big dimensions, those inside position i of the layout are those of smaller stride. */
  lemma InsideIsSmaller(sizes: seq<nat>, p: seq<nat>, strides: seq<nat>, i: nat, e: nat)
    requires StridesOf(sizes, p, strides) && i < |p| && e < |sizes| && sizes[e] >= 2
    ensures e in p[i + 1..] <==> strides[e] < strides[p[i]]
  {
    assert e in p;
    var k :| 0 <= k < |p| && p[k] == e;
    InSuffix(p, i + 1, k);
    if k > i {
      StrideDominates(sizes, p, strides, i, k);
      StrideIsPositive(sizes, p, strides, k);
      assert sizes[e] * strides[e] == (sizes[e] - 1) * strides[e] + strides[e];
      TimesAtLeast(sizes[e] - 1, strides[e]);
    } else if k < i {
      StrideDominates(sizes, p, strides, k, i);
    }
  }

  lemma StrideIsPositive(sizes: seq<nat>, p: seq<nat>, strides: seq<nat>, k: nat)
    requires StridesOf(sizes, p, strides) && k < |p|
    ensures strides[p[k]] > 0
  {
  }

  /** The same holds for the order recovered from the strides, seen from a big dimension. */
  lemma InsideRecoveredIsSmaller(sizes: seq<nat>, p: seq<nat>, strides: seq<nat>, q: seq<nat>, j: nat, e: nat)
    requires StridesOf(sizes, p, strides) && IsDimOrder(strides, q) && j < |q| && sizes[q[j]] >= 2
    requires e < |sizes| && sizes[e] >= 2
    ensures e in q[j + 1..] <==> strides[e] < strides[q[j]]
  {
    assert e in q && q[j] in p;
    var k :| 0 <= k < |q| && q[k] == e;
    InSuffix(q, j + 1, k);
    if k > j {
      assert Before(strides, q[j], e);
      BigStridesDiffer(sizes, p, strides, q[j], e);
    } else if k < j {
      assert Before(strides, e, q[j]);
    }
  }

  /** A tie between two big dimensions would put one inside the other. */
  lemma BigStridesDiffer(sizes: seq<nat>, p: seq<nat>, strides: seq<nat>, d: nat, e: nat)
    requires StridesOf(sizes, p, strides) && d < |sizes| && e < |sizes| && d != e && sizes[d] >= 2 && sizes[e] >= 2
    ensures strides[d] != strides[e]
  {
    assert d in p && e in p;
    var i :| 0 <= i < |p| && p[i] == d;
    var l :| 0 <= l < |p| && p[l] == e;
    hide StridesOf;
    InsideIsSmaller(sizes, p, strides, i, e);
    InsideIsSmaller(sizes, p, strides, l, d);
    OneInside(p, i, l);
  }

  lemma OneInside(p: seq<nat>, i: nat, l: nat)
    requires i < |p| && l < |p| && i != l
    ensures p[l] in p[i + 1..] || p[i] in p[l + 1..]
  {
    if i < l {
      assert p[i + 1..][l - i - 1] == p[l];
    } else {
      assert p[l + 1..][i - l - 1] == p[i];
    }
  }

  /** Going through the dimension order keeps the stride of every dimension that holds
      more than one element. */
  lemma BigStrideIsKept(sizes: seq<nat>, p: seq<nat>, strides: seq<nat>, q: seq<nat>, strides': seq<nat>, d: nat)
    requires StridesOf(sizes, p, strides) && IsDimOrder(strides, q) && StridesOf(sizes, q, strides')
    requires d < |sizes| && sizes[d] >= 2
    ensures strides'[d] == strides[d]
  {
    assert d in p && d in q;
    var i :| 0 <= i < |p| && p[i] == d;
    var j :| 0 <= j < |q| && q[j] == d;
    hide Volume, Big, Distinct;
    var a, b := Big(sizes, p[i + 1..]), Big(sizes, q[j + 1..]);
    SameBigInside(sizes, p, strides, q, i, j, a, b);
    VolumeOfBig(sizes, p[i + 1..]);
    VolumeOfBig(sizes, q[j + 1..]);
    VolumeReorders(sizes, a, b);
  }

  /** The same big dimensions are inside d in both orders. */
  lemma SameBigInside(sizes: seq<nat>, p: seq<nat>, strides: seq<nat>, q: seq<nat>, i: nat, j: nat,
                      a: seq<nat>, b: seq<nat>)
    requires StridesOf(sizes, p, strides) && IsDimOrder(strides, q) && |q| == |sizes|
    requires i < |p| && j < |q| && p[i] == q[j] && sizes[p[i]] >= 2
    requires a == Big(sizes, p[i + 1..]) && b == Big(sizes, q[j + 1..])
    ensures Distinct(a) && Distinct(b) && forall e: nat :: e in a <==> e in b
  {
    hide Volume, Big;
    forall e: nat
      ensures e in a <==> e in b
    {
      if e < |sizes| && sizes[e] >= 2 {
        InsideIsSmaller(sizes, p, strides, i, e);
        InsideRecoveredIsSmaller(sizes, p, strides, q, j, e);
      }
    }
  }

  /** Round trip: strides, to dimension order, to strides again, addresses every
      element as before. */
  lemma RoundTripAddresses(sizes: seq<nat>, p: seq<nat>, strides: seq<nat>, strides': seq<nat>, idx: seq<nat>)
    requires StridesOf(sizes, p, strides) && InRange(sizes, idx)
    requires DimOrderFromStride(strides).Some? ==> StridesOf(sizes, DimOrderFromStride(strides).value, strides')
    ensures DimOrderFromStride(strides).Some? && Address(idx, strides') == Address(idx, strides)
  {
    DimOrderIsSorted(strides);
    NoZeroStride(sizes, p, strides);
    var q := DimOrderFromStride(strides).value;
    forall d: nat | d < |sizes|
      ensures Terms(idx, strides)[d] == Terms(idx, strides')[d]
    {
      if sizes[d] >= 2 {
        BigStrideIsKept(sizes, p, strides, q, strides', d);
      }
    }
    assert Terms(idx, strides) == Terms(idx, strides');
  }

  /** No dimension steps over a single element into one of smaller index. */
  ghost predicate Unambiguous(sizes: seq<nat>, p: seq<nat>)
    requires Permutation(p, |sizes|)
  {
    forall i: nat :: i + 1 < |p| ==> sizes[p[i + 1]] >= 2 || p[i] < p[i + 1]
  }

  lemma NeighbourStrides(sizes: seq<nat>, p: seq<nat>, strides: seq<nat>, i: nat)
    requires StridesOf(sizes, p, strides) && i + 1 < |p|
    ensures strides[p[i]] == Extent(sizes[p[i + 1]]) * strides[p[i + 1]]
    ensures strides[p[i]] > strides[p[i + 1]] <==> sizes[p[i + 1]] >= 2
  {
    assert p[i + 1..][1..] == p[i + 2..];
    StrideIsPositive(sizes, p, strides, i + 1);
    if sizes[p[i + 1]] >= 2 {
      InsideIsSmaller(sizes, p, strides, i, p[i + 1]);
      assert p[i + 1..][0] == p[i + 1];
    }
  }

  lemma {:induction false} NeighboursSuffice(strides: seq<nat>, p: seq<nat>, i: nat, j: nat)
    requires forall k: nat :: k + 1 < |p| ==> Before(strides, p[k], p[k + 1])
    requires i < j < |p|
    ensures Before(strides, p[i], p[j])
    decreases j
  {
    if i + 1 < j {
      NeighboursSuffice(strides, p, i, j - 1);
    }
    assert Before(strides, p[j - 1], p[j - 1 + 1]);
  }

  /** The order itself comes back exactly when it is unambiguous; in particular whenever
      every dimension holds at least two elements. */
  lemma RoundTripOrderIff(sizes: seq<nat>, p: seq<nat>, strides: seq<nat>)
    requires StridesOf(sizes, p, strides)
    ensures DimOrderFromStride(strides) == Some(p) <==> Unambiguous(sizes, p)
    ensures (forall d :: 0 <= d < |sizes| ==> sizes[d] >= 2) ==> Unambiguous(sizes, p)
  {
    forall i: nat | i + 1 < |p|
      ensures Before(strides, p[i], p[i + 1]) <==> sizes[p[i + 1]] >= 2 || p[i] < p[i + 1]
    {
      NeighbourStrides(sizes, p, strides, i);
    }
    NoZeroStride(sizes, p, strides);
    DimOrderIsSorted(strides);
    if Unambiguous(sizes, p) {
      forall i, j | 0 <= i < j < |p|
        ensures Before(strides, p[i], p[j])
      {
        NeighboursSuffice(strides, p, i, j);
      }
      var q := DimOrderFromStride(strides).value;
      DimOrderIsUnique(strides, p, q, |p|);
      assert p[..|p|] == p && q[..|q|] == q;
    }
  }

  lemma NoZeroStride(sizes: seq<nat>, p: seq<nat>, strides: seq<nat>)
    requires StridesOf(sizes, p, strides)
    ensures 0 !in strides
  {
    forall d: nat | d < |strides|
      ensures strides[d] != 0
    {
      assert d in p;
      var i :| 0 <= i < |p| && p[i] == d;
      StrideIsPositive(sizes, p, strides, i);
    }
  }

  /** Contiguous strides, empty dimensions included, have the identity order. */
  lemma ContiguousIsIdentity(shape: seq<nat>, strides: seq<nat>)
    requires StridesOf(shape, Identity(|shape|), strides)
    ensures DimOrderFromStride(strides) == Some(Identity(|shape|))
  {
    var ids := Identity(|shape|);
    forall i, j | 0 <= i < j < |ids|
      ensures Before(strides, ids[i], ids[j])
    {
      StrideDominates(shape, ids, strides, i, j);
    }
    NoZeroStride(shape, ids, strides);
    DimOrderIsSorted(strides);
    var q := DimOrderFromStride(strides).value;
    DimOrderIsUnique(strides, ids, q, |ids|);
    assert ids[..|ids|] == ids && q[..|q|] == q;
  }

  /** Strides are determined by sizes and order, so contiguous strides are reproduced. */
  lemma StridesAreUnique(sizes: seq<nat>, order: seq<nat>, a: seq<nat>, b: seq<nat>)
    requires StridesOf(sizes, order, a) && StridesOf(sizes, order, b)
    ensures a == b
  {
    forall d: nat | d < |sizes|
      ensures a[d] == b[d]
    {
      assert d in order;
    }
  }
}
