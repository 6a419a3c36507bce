/** Strides and dimension orders of dense tensors. */
module TensorLayout {
  import opened TensorSpecs

  /** Entry d, or 0 past the end. */
  function Entry(s: seq<nat>, d: nat): nat {
    if d < |s| then s[d] else 0
  }

  /** A size as strides count it: an empty dimension counts as 1. */
  function Extent(size: nat): nat {
    if size == 0 then 1 else size
  }

  /** Product of the extents of the dimensions listed. */
  function Volume(sizes: seq<nat>, dims: seq<nat>): (v: nat)
    ensures v > 0
  {
    if dims == [] then 1
    else
      MulIsPositive(Extent(Entry(sizes, dims[0])), Volume(sizes, dims[1..]));
      Extent(Entry(sizes, dims[0])) * Volume(sizes, dims[1..])
  }

  /** Sum of the terms of the dimensions listed. */
  function Total(terms: seq<nat>, dims: seq<nat>): nat {
    if dims == [] then 0 else Entry(terms, dims[0]) + Total(terms, dims[1..])
  }

  lemma MulIsPositive(x: nat, y: nat)
    requires x > 0 && y > 0
    ensures x * y > 0
  {
  }

  lemma MulIsMonotone(a: nat, b: nat, c: nat)
    requires a <= b
    ensures a * c <= b * c
  {
  }

  lemma MulSplits(a: nat, c: nat)
    ensures (a + 1) * c == a * c + c
  {
  }

  lemma MulShuffles(x: nat, y: nat, z: nat)
    ensures x * (y * z) == x * y * z == y * (x * z)
  {
  }

  ghost predicate Permutation(order: seq<nat>, n: nat) {
    && |order| == n
    && (forall i :: 0 <= i < n ==> order[i] < n)
    && Distinct(order)
    && forall d: nat :: d < n ==> d in order
  }

  function Identity(n: nat): (dims: seq<nat>)
    ensures |dims| == n && forall i :: 0 <= i < n ==> dims[i] == i
  {
    seq(n, i requires 0 <= i => i)
  }

  lemma IdentityIsPermutation(n: nat)
    ensures Permutation(Identity(n), n)
  {
    forall d: nat | d < n
      ensures d in Identity(n)
    {
      assert Identity(n)[d] == d;
    }
  }

  ghost predicate SameElements(a: seq<nat>, b: seq<nat>) {
    Distinct(a) && Distinct(b) && (forall d :: d in a <==> d in b)
  }

  /** Remove position k. */
  function Without(s: seq<nat>, k: nat): seq<nat>
    requires k < |s|
  {
    s[..k] + s[k + 1..]
  }

  lemma WithoutKeeps(a: seq<nat>, b: seq<nat>, k: nat)
    requires SameElements(a, b) && a != [] && k < |b| && b[k] == a[0]
    ensures SameElements(a[1..], Without(b, k))
  {
    var c := Without(b, k);
    forall i | 0 <= i < |c|
      ensures c[i] == if i < k then b[i] else b[i + 1]
    {
    }
    forall d
      ensures d in a[1..] <==> d in c
    {
      if d in a[1..] {
        var i :| 0 <= i < |a| - 1 && a[1..][i] == d;
        assert d in a && d != a[0];
        var j :| 0 <= j < |b| && b[j] == d;
        assert c[if j < k then j else j - 1] == d;
      }
      if d in c {
        var i :| 0 <= i < |c| && c[i] == d;
        assert d in b && d != b[k];
        var j :| 0 <= j < |a| && a[j] == d;
        assert a[1..][j - 1] == d;
      }
    }
  }

  lemma {:induction false} VolumeSplits(sizes: seq<nat>, a: seq<nat>, b: seq<nat>)
    ensures Volume(sizes, a + b) == Volume(sizes, a) * Volume(sizes, b)
  {
    if a == [] {
      assert a + b == b;
    } else {
      assert (a + b)[1..] == a[1..] + b;
      VolumeSplits(sizes, a[1..], b);
      MulShuffles(Extent(Entry(sizes, a[0])), Volume(sizes, a[1..]), Volume(sizes, b));
    }
  }

  /** The product does not depend on the order of the dimensions. */
  lemma {:induction false} VolumeReorders(sizes: seq<nat>, a: seq<nat>, b: seq<nat>)
    requires SameElements(a, b)
    ensures Volume(sizes, a) == Volume(sizes, b)
    decreases a
  {
    if a == [] {
      assert forall i :: 0 <= i < |b| ==> b[i] in a;
    } else {
      assert a[0] in b;
      var k :| 0 <= k < |b| && b[k] == a[0];
      WithoutKeeps(a, b, k);
      VolumeReorders(sizes, a[1..], Without(b, k));
      VolumeSplits(sizes, b[..k], b[k + 1..]);
      assert b == b[..k] + b[k..] && b[k..][1..] == b[k + 1..];
      VolumeSplits(sizes, b[..k], b[k..]);
      MulShuffles(Extent(Entry(sizes, a[0])), Volume(sizes, b[..k]), Volume(sizes, b[k + 1..]));
    }
  }

  lemma {:induction false} TotalSplits(terms: seq<nat>, a: seq<nat>, b: seq<nat>)
    ensures Total(terms, a + b) == Total(terms, a) + Total(terms, b)
  {
    if a == [] {
      assert a + b == b;
    } else {
      assert (a + b)[1..] == a[1..] + b;
      TotalSplits(terms, a[1..], b);
    }
  }

  /** The sum does not depend on the order of the dimensions. */
  lemma {:induction false} TotalReorders(terms: seq<nat>, a: seq<nat>, b: seq<nat>)
    requires SameElements(a, b)
    ensures Total(terms, a) == Total(terms, b)
    decreases a
  {
    if a == [] {
      assert forall i :: 0 <= i < |b| ==> b[i] in a;
    } else {
      assert a[0] in b;
      var k :| 0 <= k < |b| && b[k] == a[0];
      WithoutKeeps(a, b, k);
      TotalReorders(terms, a[1..], Without(b, k));
      TotalSplits(terms, b[..k], b[k + 1..]);
      assert b == b[..k] + b[k..] && b[k..][1..] == b[k + 1..];
      TotalSplits(terms, b[..k], b[k..]);
    }
  }

  /** The strides of a layout: each dimension steps over the volume of those inside it. */
  ghost predicate StridesOf(sizes: seq<nat>, order: seq<nat>, strides: seq<nat>) {
    && |sizes| == |order| == |strides| && Permutation(order, |sizes|)
    && forall i :: 0 <= i < |order| ==> strides[order[i]] == Volume(sizes, order[i + 1..])
  }

  lemma VolumeOfNone(sizes: seq<nat>)
    ensures Volume(sizes, []) == 1
  {
  }

  lemma VolumeStep(sizes: seq<nat>, order: seq<nat>, k: nat)
    requires k < |order| && order[k] < |sizes|
    ensures Volume(sizes, order[k..]) ==
            if sizes[order[k]] == 0 then Volume(sizes, order[k + 1..]) else sizes[order[k]] * Volume(sizes, order[k + 1..])
  {
    assert order[k..][1..] == order[k + 1..];
  }

  /** `stride_from_dim_order`. */
  method StrideFromDimOrder(sizes: seq<nat>, dimOrder: seq<nat>) returns (strides: seq<nat>)
    requires Permutation(dimOrder, |sizes|)
    ensures StridesOf(sizes, dimOrder, strides)
  {
    hide Volume, Extent;
    if |sizes| == 0 {
      return [];
    }
    strides := sizes;
    var ndim := |sizes|;
    strides := strides[dimOrder[ndim - 1] := 1];
    assert dimOrder[ndim..] == [];
    VolumeOfNone(sizes);
    for i := ndim - 1 downto 0
      invariant |strides| == ndim
      invariant forall k :: i <= k < ndim ==> strides[dimOrder[k]] == Volume(sizes, dimOrder[k + 1..])
    {
      VolumeStep(sizes, dimOrder, i + 1);
      if sizes[dimOrder[i + 1]] == 0 {
        strides := strides[dimOrder[i] := strides[dimOrder[i + 1]]];
      } else {
        strides := strides[dimOrder[i] := sizes[dimOrder[i + 1]] * strides[dimOrder[i + 1]]];
      }
    }
  }

  /** `contiguous_stride_from_shape`: the strides of the identity order. */
  method ContiguousStrideFromShape(shape: seq<nat>) returns (strides: seq<nat>)
    ensures StridesOf(shape, Identity(|shape|), strides)
  {
    IdentityIsPermutation(|shape|);
    ghost var ids := Identity(|shape|);
    strides := [];
    var accum := 1;
    for i := |shape| downto 0
      invariant |strides| == |shape| - i
      invariant accum == Volume(shape, ids[i..])
      invariant forall k :: 0 <= k < |strides| ==> strides[k] == Volume(shape, ids[|shape| - k..])
    {
      assert ids[i..][1..] == ids[i + 1..];
      strides := strides + [accum];
      if shape[i] != 0 {
        accum := accum * shape[i];
      }
    }
    var reversed := strides;
    strides := seq(|shape|, k requires 0 <= k < |shape| => reversed[|shape| - 1 - k]);
  }

  ghost predicate InRange(sizes: seq<nat>, idx: seq<nat>) {
    |idx| == |sizes| && forall d :: 0 <= d < |sizes| ==> idx[d] < sizes[d]
  }

  function Terms(idx: seq<nat>, strides: seq<nat>): (terms: seq<nat>)
    requires |idx| == |strides|
    ensures |terms| == |idx| && forall d :: 0 <= d < |idx| ==> terms[d] == idx[d] * strides[d]
  {
    seq(|idx|, d requires 0 <= d < |idx| => idx[d] * strides[d])
  }

  /** Where the element with this index vector is stored, in elements. */
  function Address(idx: seq<nat>, strides: seq<nat>): nat
    requires |idx| == |strides|
  {
    Total(Terms(idx, strides), Identity(|idx|))
  }

  function NumElements(sizes: seq<nat>): nat {
    if sizes == [] then 1 else sizes[0] * NumElements(sizes[1..])
  }

  /** The address, summed from the outermost dimension of the layout inwards. */
  lemma AddressByOrder(sizes: seq<nat>, order: seq<nat>, strides: seq<nat>, idx: seq<nat>)
    requires StridesOf(sizes, order, strides) && |idx| == |sizes|
    ensures Address(idx, strides) == Total(Terms(idx, strides), order[0..])
  {
    IdentityIsPermutation(|sizes|);
    assert order[0..] == order;
    TotalReorders(Terms(idx, strides), Identity(|sizes|), order);
  }

  /** The part of the address below the k-th dimension of the layout. */
  lemma InnerStep(sizes: seq<nat>, order: seq<nat>, strides: seq<nat>, idx: seq<nat>, k: nat)
    requires StridesOf(sizes, order, strides) && |idx| == |sizes| && k < |order|
    ensures var v := Volume(sizes, order[k + 1..]);
            && Total(Terms(idx, strides), order[k..]) == idx[order[k]] * v + Total(Terms(idx, strides), order[k + 1..])
            && Volume(sizes, order[k..]) == Extent(sizes[order[k]]) * v
  {
    assert order[k..][1..] == order[k + 1..];
  }

  lemma DigitFits(digit: nat, size: nat, inner: nat, v: nat)
    requires digit < size && inner < v
    ensures digit * v + inner < size * v
  {
    MulIsMonotone(digit + 1, size, v);
    MulSplits(digit, v);
  }

  lemma {:induction false} InnerFits(sizes: seq<nat>, order: seq<nat>, strides: seq<nat>, idx: seq<nat>, k: nat)
    requires StridesOf(sizes, order, strides) && InRange(sizes, idx) && k <= |order|
    ensures Total(Terms(idx, strides), order[k..]) < Volume(sizes, order[k..])
    decreases |order| - k
  {
    if k < |order| {
      InnerFits(sizes, order, strides, idx, k + 1);
      InnerStep(sizes, order, strides, idx, k);
      DigitFits(idx[order[k]], sizes[order[k]], Total(Terms(idx, strides), order[k + 1..]), Volume(sizes, order[k + 1..]));
    }
  }

  /** Equal addresses have equal digits in every dimension of the layout. */
  lemma {:induction false} DigitsAgree(sizes: seq<nat>, order: seq<nat>, strides: seq<nat>,
                                       idx: seq<nat>, idx': seq<nat>, k: nat, i: nat)
    requires StridesOf(sizes, order, strides) && InRange(sizes, idx) && InRange(sizes, idx') && k <= i < |order|
    requires Total(Terms(idx, strides), order[k..]) == Total(Terms(idx', strides), order[k..])
    ensures idx[order[i]] == idx'[order[i]]
    decreases |order| - k
  {
    hide Total, Volume, Terms;
    InnerStep(sizes, order, strides, idx, k);
    InnerStep(sizes, order, strides, idx', k);
    InnerFits(sizes, order, strides, idx, k + 1);
    InnerFits(sizes, order, strides, idx', k + 1);
    QuotientIsUnique(idx[order[k]], Total(Terms(idx, strides), order[k + 1..]),
                     idx'[order[k]], Total(Terms(idx', strides), order[k + 1..]), Volume(sizes, order[k + 1..]));
    if k < i {
      DigitsAgree(sizes, order, strides, idx, idx', k + 1, i);
    }
  }

  lemma {:induction false} TotalDependsOnListed(a: seq<nat>, b: seq<nat>, dims: seq<nat>)
    requires forall d :: d in dims ==> Entry(a, d) == Entry(b, d)
    ensures Total(a, dims) == Total(b, dims)
  {
    if dims != [] {
      assert forall d :: d in dims[1..] ==> d in dims;
      assert dims[0] in dims;
      TotalDependsOnListed(a, b, dims[1..]);
    }
  }

  /** Every offset below the volume of the inner dimensions is reached. */
  lemma {:induction false} Decode(sizes: seq<nat>, order: seq<nat>, strides: seq<nat>, k: nat, v: nat)
    returns (idx: seq<nat>)
    requires StridesOf(sizes, order, strides) && (forall d :: 0 <= d < |sizes| ==> sizes[d] >= 1)
    requires k <= |order| && v < Volume(sizes, order[k..])
    ensures InRange(sizes, idx) && Total(Terms(idx, strides), order[k..]) == v
    decreases |order| - k
  {
    hide Total, Volume, Terms;
    if k == |order| {
      idx := seq(|sizes|, _ => 0);
      NothingBelow(sizes, Terms(idx, strides), order);
    } else {
      var w := Volume(sizes, order[k + 1..]);
      var q, r := v / w, v % w;
      var inner := Decode(sizes, order, strides, k + 1, r);
      InnerStep(sizes, order, strides, inner, k);
      QuotientFits(v, w, sizes[order[k]]);
      idx := inner[order[k] := q];
      SetDigit(sizes, order, strides, inner, k, q);
    }
  }

  lemma NothingBelow(sizes: seq<nat>, terms: seq<nat>, order: seq<nat>)
    ensures Total(terms, order[|order|..]) == 0 && Volume(sizes, order[|order|..]) == 1
  {
  }

  /** Setting the digit of the k-th dimension leaves the part below it alone. */
  lemma SetDigit(sizes: seq<nat>, order: seq<nat>, strides: seq<nat>, idx: seq<nat>, k: nat, digit: nat)
    requires StridesOf(sizes, order, strides) && |idx| == |sizes| && k < |order|
    ensures Total(Terms(idx[order[k] := digit], strides), order[k..]) ==
            digit * Volume(sizes, order[k + 1..]) + Total(Terms(idx, strides), order[k + 1..])
  {
    hide Total, Volume;
    var idx' := idx[order[k] := digit];
    InnerStep(sizes, order, strides, idx', k);
    forall d | d in order[k + 1..]
      ensures Entry(Terms(idx', strides), d) == Entry(Terms(idx, strides), d)
    {
      var i :| 0 <= i < |order| - k - 1 && order[k + 1..][i] == d;
      assert order[k + 1 + i] == d;
    }
    TotalDependsOnListed(Terms(idx', strides), Terms(idx, strides), order[k + 1..]);
  }

  lemma PositiveProduct(d: int, w: nat)
    requires w > 0 && d * w > 0
    ensures d > 0
  {
  }

  lemma QuotientFits(v: nat, w: nat, size: nat)
    requires w > 0 && v < size * w
    ensures v / w < size
  {
    var q := v / w;
    assert v == q * w + v % w;
    assert (size - q) * w == size * w - q * w;
    PositiveProduct(size - q, w);
  }

  lemma {:induction false} VolumeIsNumElements(sizes: seq<nat>, n: nat)
    requires n <= |sizes| && forall d :: 0 <= d < |sizes| ==> sizes[d] >= 1
    ensures Volume(sizes, Identity(|sizes|)[n..]) == NumElements(sizes[n..])
    decreases |sizes| - n
  {
    if n < |sizes| {
      VolumeIsNumElements(sizes, n + 1);
      assert Identity(|sizes|)[n..][1..] == Identity(|sizes|)[n + 1..];
      assert sizes[n..][1..] == sizes[n + 1..];
    }
  }

  ghost predicate Reached(sizes: seq<nat>, strides: seq<nat>, v: nat)
    requires |sizes| == |strides|
  {
    exists idx :: InRange(sizes, idx) && Address(idx, strides) == v
  }

  /** Dense: the strides of any dimension order map the index vectors one-to-one onto
      0 .. number of elements - 1. */
  lemma LayoutIsDense(sizes: seq<nat>, order: seq<nat>, strides: seq<nat>)
    requires StridesOf(sizes, order, strides) && forall d :: 0 <= d < |sizes| ==> sizes[d] >= 1
    ensures forall idx :: InRange(sizes, idx) ==> Address(idx, strides) < NumElements(sizes)
    ensures forall idx, idx' ::
              InRange(sizes, idx) && InRange(sizes, idx') && Address(idx, strides) == Address(idx', strides) ==> idx == idx'
    ensures forall v: nat :: v < NumElements(sizes) ==> Reached(sizes, strides, v)
  {
    hide Total, Volume, NumElements, Address;
    assert order[0..] == order && Identity(|sizes|)[0..] == Identity(|sizes|) && sizes[0..] == sizes;
    IdentityIsPermutation(|sizes|);
    VolumeReorders(sizes, Identity(|sizes|), order);
    VolumeIsNumElements(sizes, 0);
    forall idx | InRange(sizes, idx)
      ensures Address(idx, strides) < NumElements(sizes)
    {
      AddressByOrder(sizes, order, strides, idx);
      InnerFits(sizes, order, strides, idx, 0);
    }
    forall idx, idx' | InRange(sizes, idx) && InRange(sizes, idx') && Address(idx, strides) == Address(idx', strides)
      ensures idx == idx'
    {
      AddressByOrder(sizes, order, strides, idx);
      AddressByOrder(sizes, order, strides, idx');
      forall d: nat | d < |sizes|
        ensures idx[d] == idx'[d]
      {
        assert d in order;
        var i :| 0 <= i < |order| && order[i] == d;
        DigitsAgree(sizes, order, strides, idx, idx', 0, i);
      }
    }
    forall v: nat | v < NumElements(sizes)
      ensures Reached(sizes, strides, v)
    {
      var idx := Decode(sizes, order, strides, 0, v);
      AddressByOrder(sizes, order, strides, idx);
    }
  }

  /** Every element fits in the byte count computed from the shape. */
  lemma ElementsFitInBytes(sizes: seq<nat>, order: seq<nat>, strides: seq<nat>, idx: seq<nat>, elementSize: nat)
    requires StridesOf(sizes, order, strides) && InRange(sizes, idx)
    ensures (Address(idx, strides) + 1) * elementSize <= NumElements(sizes) * elementSize
  {
    hide Address, NumElements, Reached, Permutation, Volume;
    LayoutIsDense(sizes, order, strides);
    MulIsMonotone(Address(idx, strides) + 1, NumElements(sizes), elementSize);
  }
}
