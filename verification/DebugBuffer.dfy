/** Tensors logged into the debug buffer, and the reader that finds them again
    (`copy_tensor_to_debug_buffer`, `_parse_tensor_value`). */
module DebugBuffer {
  import opened Wrappers

  /** The next multiple of 64 (`alignPointer`). */
  function AlignPointer(addr: nat): (r: nat)
    ensures r % 64 == 0 && addr <= r < addr + 64
  {
    if addr % 64 == 0 then addr else addr - addr % 64 + 64
  }

  /** On machine words the bit operations of `alignPointer` compute that multiple. */
  lemma BitsAlign(addr: bv64)
    requires addr <= 0xFFFF_FFFF_FFFF_FFC0
    ensures addr & 63 == addr % 64
    ensures addr & 63 != 0 ==> (addr | 63) + 1 == addr - addr % 64 + 64
  {
  }

  function Product(sizes: seq<nat>): nat {
    if sizes == [] then 1 else Product(sizes[..|sizes| - 1]) * sizes[|sizes| - 1]
  }

  /** The number of elements: the sizes of all dimensions multiplied. */
  lemma {:induction false} ProductSplits(a: seq<nat>, b: seq<nat>)
    ensures Product(a + b) == Product(a) * Product(b)
    ensures Product([]) == 1 && forall n: nat :: Product([n]) == n
  {
    forall n: nat
      ensures Product([n]) == n
    {
      assert [n][..0] == [];
    }
    if b == [] {
      assert a + b == a;
    } else {
      var init, last := b[..|b| - 1], b[|b| - 1];
      assert (a + b)[..|a + b| - 1] == a + init;
      ProductSplits(a, init);
      Regroup(Product(a), Product(init), last);
    }
  }

  lemma Regroup(x: nat, y: nat, z: nat)
    ensures (x * y) * z == x * (y * z)
  {
  }

  /** A tensor to log: its sizes, the width of an element, its bytes. */
  datatype Tensor = Tensor(sizes: seq<nat>, width: nat, bytes: seq<bv8>) {
    ghost predicate Valid() {
      |bytes| == Product(sizes) * width
    }
  }

  /** What the dump says of a logged tensor; no offset when there was nothing to copy. */
  datatype Entry = Entry(sizes: seq<nat>, width: nat, offset: Option<nat>)

  /** A slice as Python takes it: cut off at the end of the buffer. */
  function Slice(buffer: seq<bv8>, from: nat, to: nat): seq<bv8> {
    var lo := if from < |buffer| then from else |buffer|;
    var hi := if to < |buffer| then to else |buffer|;
    if lo <= hi then buffer[lo..hi] else []
  }

  /** The bytes the reader takes for an entry. */
  function Parse(e: Entry, buffer: seq<bv8>): seq<bv8> {
    var size := Product(e.sizes) * e.width;
    if size == 0 || e.offset.None? then [] else Slice(buffer, e.offset.value, e.offset.value + size)
  }

  /** The entry names an aligned stretch of the buffer, below `end`, with the tensor's bytes in it. */
  ghost predicate Recorded(base: nat, buffer: seq<bv8>, end: nat, t: Tensor, e: Entry) {
    && t.Valid() && e.sizes == t.sizes && e.width == t.width
    && (t.bytes == [] ==> e.offset == None)
    && (t.bytes != [] ==> e.offset.Some? && InPlace(base, buffer, end, t.bytes, e.offset.value))
  }

  ghost predicate InPlace(base: nat, buffer: seq<bv8>, end: nat, bytes: seq<bv8>, at: nat) {
    && (base + at) % 64 == 0 && at + |bytes| <= end <= |buffer|
    && buffer[at..at + |bytes|] == bytes
  }

  /** Two stretches in the order they were written, without overlap. */
  ghost predicate Follows(e: Entry, f: Entry) {
    e.offset.Some? && f.offset.Some? ==> e.offset.value + Product(e.sizes) * e.width <= f.offset.value
  }

  /** Everything logged so far is recorded, at increasing offsets that never overlap. */
  ghost predicate Log(base: nat, buffer: seq<bv8>, end: nat, logged: seq<(Tensor, Entry)>) {
    && end <= |buffer|
    && (forall i :: 0 <= i < |logged| ==> Recorded(base, buffer, end, logged[i].0, logged[i].1))
    && (forall i, j :: 0 <= i < j < |logged| ==> Follows(logged[i].1, logged[j].1))
  }

  lemma StillRecorded(base: nat, buffer: seq<bv8>, buffer': seq<bv8>, end: nat, end': nat, t: Tensor, e: Entry)
    requires Recorded(base, buffer, end, t, e) && end <= end' <= |buffer'| && end <= |buffer|
    requires buffer'[..end] == buffer[..end]
    ensures Recorded(base, buffer', end', t, e)
  {
    hide Product;
    if t.bytes != [] {
      SameSlice(buffer, buffer', end, e.offset.value, e.offset.value + |t.bytes|);
    }
  }

  lemma SameSlice(a: seq<bv8>, b: seq<bv8>, end: nat, lo: nat, hi: nat)
    requires lo <= hi <= end <= |a| && end <= |b| && a[..end] == b[..end]
    ensures a[lo..hi] == b[lo..hi]
  {
    forall k | lo <= k < hi
      ensures a[k] == b[k]
    {
      assert a[..end][k] == b[..end][k];
    }
  }

  /** Logging one more tensor above the others disturbs none of them. */
  lemma LogGrows(base: nat, buffer: seq<bv8>, buffer': seq<bv8>, end: nat, end': nat,
                 logged: seq<(Tensor, Entry)>, t: Tensor, e: Entry)
    requires Log(base, buffer, end, logged) && end <= end' <= |buffer'| && buffer'[..end] == buffer[..end]
    requires Recorded(base, buffer', end', t, e) && (e.offset.Some? ==> end <= e.offset.value)
    ensures Log(base, buffer', end', logged + [(t, e)])
  {
    hide Recorded, Follows;
    var logged' := logged + [(t, e)];
    forall i | 0 <= i < |logged|
      ensures Recorded(base, buffer', end', logged[i].0, logged[i].1) && Follows(logged[i].1, e)
    {
      StillRecorded(base, buffer, buffer', end, end', logged[i].0, logged[i].1);
      EndsBelow(base, buffer, end, logged[i].0, logged[i].1, e);
    }
  }

  lemma EndsBelow(base: nat, buffer: seq<bv8>, end: nat, t: Tensor, e: Entry, f: Entry)
    requires Recorded(base, buffer, end, t, e) && (f.offset.Some? ==> end <= f.offset.value)
    ensures Follows(e, f)
  {
  }

  /** The reader gets back exactly the bytes that were logged, whatever was logged later. */
  lemma ParseRecovers(base: nat, buffer: seq<bv8>, end: nat, logged: seq<(Tensor, Entry)>, i: nat)
    requires Log(base, buffer, end, logged) && i < |logged|
    ensures Parse(logged[i].1, buffer) == logged[i].0.bytes
  {
    assert Recorded(base, buffer, end, logged[i].0, logged[i].1);
  }

  class DebugLog {
    /** The address of the buffer. */
    const base: nat
    const buffer: array<bv8>
    var offset: nat
    ghost var logged: seq<(Tensor, Entry)>

    constructor (base: nat, buffer: array<bv8>)
      ensures this.base == base && this.buffer == buffer && Valid() && logged == []
    {
      this.base, this.buffer, offset, logged := base, buffer, 0, [];
    }

    ghost predicate Valid()
      reads this, buffer
    {
      Log(base, buffer[..], offset, logged)
    }

    method WriteBytes(start: nat, bytes: seq<bv8>)
      requires start + |bytes| <= buffer.Length
      modifies buffer
      ensures buffer[..start] == old(buffer[..start]) && buffer[start..start + |bytes|] == bytes
    {
      for i := 0 to |bytes|
        invariant buffer[..start] == old(buffer[..start]) && buffer[start..start + i] == bytes[..i]
      {
        buffer[start + i] := bytes[i];
        assert buffer[start..start + i + 1] == buffer[start..start + i] + [bytes[i]];
      }
    }

    /** Log one tensor; None when the buffer is too small, which aborts the process. */
    method CopyTensor(t: Tensor) returns (r: Option<Entry>)
      requires Valid() && t.Valid()
      modifies this`offset, this`logged, buffer
      ensures r.Some? ==> Valid() && logged == old(logged) + [(t, r.value)]
      ensures r.None? <==> t.bytes != [] && AlignPointer(base + old(offset)) - base + |t.bytes| > buffer.Length
      ensures buffer[..old(offset)] == old(buffer[..offset])
    {
      hide Log, Product;
      EndIsInside(base, buffer[..], offset, logged);
      ghost var was, before := offset, buffer[..];
      var e;
      if |t.bytes| == 0 {
        e := Entry(t.sizes, t.width, None);
      } else {
        var start := AlignPointer(base + offset) - base;
        offset := start + |t.bytes|;
        if offset > buffer.Length {
          return None;
        }
        WriteBytes(start, t.bytes);
        assert buffer[..was] == buffer[..start][..was] == before[..start][..was] == before[..was];
        e := Entry(t.sizes, t.width, Some(start));
      }
      LogGrows(base, before, buffer[..], was, offset, logged, t, e);
      logged := logged + [(t, e)];
      r := Some(e);
    }

    /** Log any sequence of tensors: afterwards the reader recovers every one of them. */
    method LogAll(ts: seq<Tensor>) returns (r: Option<seq<Entry>>)
      requires Valid() && forall i :: 0 <= i < |ts| ==> ts[i].Valid()
      modifies this`offset, this`logged, buffer
      ensures r.Some? ==> Valid() && |r.value| == |ts|
      ensures r.Some? ==> forall i :: 0 <= i < |ts| ==> Parse(r.value[i], buffer[..]) == ts[i].bytes
      ensures r.Some? ==> forall i :: 0 <= i < |old(logged)| ==> Parse(old(logged)[i].1, buffer[..]) == old(logged)[i].0.bytes
    {
      hide Log, Parse;
      var es: seq<Entry> := [];
      for k := 0 to |ts|
        invariant Valid() && |es| == k && |logged| == |old(logged)| + k
        invariant forall i :: 0 <= i < |old(logged)| ==> logged[i] == old(logged)[i]
        invariant forall i :: 0 <= i < k ==> logged[|old(logged)| + i] == (ts[i], es[i])
      {
        var e := CopyTensor(ts[k]);
        if e.None? {
          return None;
        }
        es := es + [e.value];
      }
      forall i | 0 <= i < |logged|
        ensures Parse(logged[i].1, buffer[..]) == logged[i].0.bytes
      {
        ParseRecovers(base, buffer[..], offset, logged, i);
      }
      r := Some(es);
    }
  }

  lemma EndIsInside(base: nat, buffer: seq<bv8>, end: nat, logged: seq<(Tensor, Entry)>)
    requires Log(base, buffer, end, logged)
    ensures end <= |buffer|
  {
  }
}
