/** Tensor metadata as the memory planner sees it. */
module TensorSpecs {
  import opened Wrappers

  datatype ShapeDynamism = Static | DynamicBound | DynamicUnbound

  /** The smallest multiple of the alignment that holds `num` bytes. */
  function CalculateAlignedNumBytes(num: nat, alignment: nat): (r: nat)
    requires alignment > 0
    ensures num <= r < num + alignment
    ensures r % alignment == 0
  {
    var blocks := (num + alignment - 1) / alignment;
    MultipleIsAligned(blocks, alignment);
    blocks * alignment
  }

  lemma QuotientIsUnique(q: int, r: int, q': int, r': int, a: int)
    requires a > 0 && 0 <= r < a && 0 <= r' < a
    requires q * a + r == q' * a + r'
    ensures q == q' && r == r'
  {
    var d := q' - q;
    assert d * a == r - r';
    assert d * a == (d - 1) * a + a == (d + 1) * a - a;
  }

  lemma MultipleIsAligned(k: nat, a: nat)
    requires a > 0
    ensures (k * a) % a == 0
  {
    QuotientIsUnique(k, 0, (k * a) / a, (k * a) % a, a);
  }

  lemma SumIsAligned(x: nat, y: nat, a: nat)
    requires a > 0 && x % a == 0 && y % a == 0
    ensures (x + y) % a == 0
  {
    assert x == (x / a) * a && y == (y / a) * a;
    assert x + y == (x / a + y / a) * a;
    MultipleIsAligned(x / a + y / a, a);
  }

  /** A tensor; `nbytes` is the product of its shape times its element size. */
  class TensorSpec {
    const nbytes: nat
    const constant: bool
    const dynamism: ShapeDynamism
    var alignment: nat
    var start: Option<int>
    var end: Option<int>
    var memId: Option<nat>
    var memObjId: Option<nat>
    var memOffset: Option<nat>

    constructor (nbytes: nat, constant: bool, dynamism: ShapeDynamism)
      ensures this.nbytes == nbytes && this.constant == constant && this.dynamism == dynamism
      ensures alignment == 16 && start == end == None
      ensures memId == memObjId == memOffset == None
    {
      this.nbytes := nbytes;
      this.constant := constant;
      this.dynamism := dynamism;
      alignment := 16;
      start, end := None, None;
      memId, memObjId, memOffset := None, None, None;
    }

    function AllocatedMemory(): nat
      requires alignment > 0
      reads this
    {
      CalculateAlignedNumBytes(nbytes, alignment)
    }
  }

  ghost predicate Distinct<T>(s: seq<T>) {
    forall i, j :: 0 <= i < j < |s| ==> s[i] != s[j]
  }
}
