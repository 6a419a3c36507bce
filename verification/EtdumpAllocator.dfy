/** The bump allocator behind the ETDump builder (`allocator_fn`). */
module EtdumpAllocator {
  import opened Wrappers
  import opened Powers

  /** What the builder allocates for; it decides the smallest size handed out. */
  datatype Hint = DataStack | HashTable | FrameStack | UserStack | VTableData | OtherUse

  /** The smallest size for a hint; `frame` is the size of one builder frame. */
  ghost function StartSize(hint: Hint, request: nat, frame: nat): nat {
    match hint
    case DataStack => 256
    case HashTable => request
    case FrameStack => frame * 8
    case UserStack => 64
    case VTableData => 64
    case OtherUse => 32
  }

  lemma StartIsPositive(hint: Hint, request: nat, frame: nat)
    requires request > 0 && frame > 0
    ensures StartSize(hint, request, frame) > 0
  {
  }

  /** The switch over the hint. */
  method FirstSize(hint: Hint, request: nat, frame: nat) returns (n: nat)
    ensures n == StartSize(hint, request, frame)
  {
    match hint {
      case DataStack =>
        n := 256;
      case HashTable =>
        n := request;
      case FrameStack =>
        n := frame * 8;
      case UserStack =>
        n := 64;
      case VTableData =>
        n := 64;
      case OtherUse =>
        n := 32;
    }
  }

  /** n is the first of start, 2 start, 4 start, ... that holds the request. */
  ghost predicate IsChunk(start: nat, request: nat, n: nat) {
    n >= request && exists k: nat :: n == start * Pow2(k) && (k > 0 ==> start * Pow2(k - 1) < request)
  }

  /** The doubling loop: large enough, and less than twice the request when it doubled. */
  method ChunkSize(start: nat, request: nat) returns (n: nat)
    requires start > 0
    ensures IsChunk(start, request, n) && n >= start && n >= request
    ensures n == start || n < 2 * request
  {
    n := start;
    ghost var k := 0;
    while n < request
      invariant n == start * Pow2(k) && n >= start && (k > 0 ==> start * Pow2(k - 1) < request)
      invariant n == start || n < 2 * request
      decreases request - n
    {
      assert n * 2 == start * Pow2(k + 1);
      n, k := n * 2, k + 1;
    }
  }

  /** There is only one such size. */
  lemma ChunkIsUnique(start: nat, request: nat, m: nat, n: nat)
    requires start > 0 && IsChunk(start, request, m) && IsChunk(start, request, n)
    ensures m == n
  {
    var j: nat :| m == start * Pow2(j) && (j > 0 ==> start * Pow2(j - 1) < request);
    var k: nat :| n == start * Pow2(k) && (k > 0 ==> start * Pow2(k - 1) < request);
    if j < k {
      PowersGrow(start, j, k - 1);
    }
    if k < j {
      PowersGrow(start, k, j - 1);
    }
  }

  /** A buffer as its owner holds it: an offset into the data, and a length. */
  class IoVec {
    var base: Option<nat>
    var len: nat

    constructor ()
      ensures base == None && len == 0
    {
      base, len := None, 0;
    }
  }

  /** Two buffers share no byte. */
  ghost predicate Apart(a: nat, alen: nat, b: nat, blen: nat) {
    a + alen <= b || b + blen <= a
  }

  class StaticAllocator {
    const data: array<bv8>
    /** Everything below is handed out (`allocated`). */
    var top: nat
    ghost var live: set<IoVec>

    constructor (buffer: array<bv8>)
      ensures Valid() && data == buffer && live == {} && top == 0
    {
      data, top, live := buffer, 0, {};
    }

    /** Live buffers lie in the allocated part and share no byte. */
    ghost predicate Valid()
      reads this, live
    {
      && top <= data.Length
      && (forall b :: b in live ==> b.base.Some? && b.len > 0 && b.base.value + b.len <= top)
      && (forall a, b :: a in live && b in live && a != b ==> Apart(a.base.value, a.len, b.base.value, b.len))
    }

    /** No byte belongs to two live buffers, and every byte of one is handed out. */
    lemma LiveAreDisjoint(a: IoVec, b: IoVec, k: int)
      requires Valid() && a in live && b in live && a != b
      requires a.base.Some? && b.base.Some? && a.base.value <= k < a.base.value + a.len
      ensures 0 <= k < top <= data.Length && !(b.base.value <= k < b.base.value + b.len)
    {
      assert Apart(a.base.value, a.len, b.base.value, b.len);
    }

    /** The bytes of a live buffer. */
    ghost function Bytes(b: IoVec): seq<bv8>
      requires b.base.Some? && b.base.value + b.len <= data.Length
      reads this, b, data
    {
      data[b.base.value..b.base.value + b.len]
    }

    method CopyBytes(dst: nat, src: nat, count: nat)
      requires src + count <= dst && dst + count <= data.Length
      modifies data
      ensures forall k :: 0 <= k < dst || dst + count <= k < data.Length ==> data[k] == old(data[k])
      ensures data[dst..dst + count] == old(data[src..src + count])
    {
      for i := 0 to count
        invariant forall k :: 0 <= k < dst || dst + i <= k < data.Length ==> data[k] == old(data[k])
        invariant data[dst..dst + i] == old(data[src..src + i])
      {
        data[dst + i] := data[src + i];
        assert data[dst..dst + i + 1] == data[dst..dst + i] + [data[dst + i]];
        assert old(data[src..src + i + 1]) == old(data[src..src + i]) + [old(data[src + i])];
      }
    }

    method FillZero(at: nat, count: nat)
      requires at + count <= data.Length
      modifies data
      ensures forall k :: 0 <= k < data.Length ==> data[k] == if at <= k < at + count then 0 else old(data[k])
    {
      for i := 0 to count
        invariant forall k :: 0 <= k < data.Length ==> data[k] == if at <= k < at + i then 0 else old(data[k])
      {
        data[at + i] := 0;
      }
    }

    /** How far the top must move for b to have n bytes. */
    ghost function Needed(b: IoVec, n: nat): int
      reads this`top, b
    {
      if b.base.Some? && b.base.value + b.len == top then n - b.len else n
    }

    /** A buffer of n bytes at the top. */
    method Fresh(b: IoVec, n: nat, zeroFill: bool) returns (ret: int)
      requires Valid() && n > 0 && b.base.None? && b !in live
      modifies this`top, this`live, data, b
      ensures Valid() && ret == if old(top) + n > data.Length then -1 else 0
      ensures ret == -1 ==> top == old(top) && live == old(live) && b.base == old(b.base) && b.len == old(b.len)
      ensures ret == -1 ==> data[..] == old(data[..]) && top + Needed(b, n) > data.Length
      ensures ret == 0 ==> live == old(live) + {b} && b.base == Some(old(top)) && b.len == n && top == old(top) + n
      ensures forall k :: 0 <= k < old(top) ==> data[k] == old(data[k])
      ensures ret == 0 && zeroFill ==> forall k :: old(top) <= k < top ==> data[k] == 0
    {
      if top + n > data.Length {
        return -1;
      }
      var p := top;
      top := top + n;
      if zeroFill {
        FillZero(p, n);
      }
      b.base, b.len := Some(p), n;
      live := live + {b};
      return 0;
    }

    /** A larger size for the buffer that ends at the top: it grows in place. */
    method GrowInPlace(b: IoVec, n: nat, zeroFill: bool) returns (ret: int)
      requires Valid() && b in live && b.base.value + b.len == top && n > b.len
      modifies this`top, data, b`len
      ensures Valid() && ret == if old(top) + n - old(b.len) > data.Length then -1 else 0
      ensures ret == -1 ==> top == old(top) && b.len == old(b.len) && data[..] == old(data[..])
      ensures ret == -1 ==> top + Needed(b, n) > data.Length
      ensures data[b.base.value..b.base.value + old(b.len)] == old(Bytes(b))
      ensures ret == 0 ==> b.len == n && top == b.base.value + n
      ensures forall k :: 0 <= k < old(top) ==> data[k] == old(data[k])
      ensures ret == 0 && zeroFill ==> forall k :: old(top) <= k < top ==> data[k] == 0
    {
      if top + n - b.len > data.Length {
        return -1;
      }
      forall c | c in live && c != b
        ensures c.base.value + c.len <= b.base.value
      {
        assert Apart(c.base.value, c.len, b.base.value, b.len);
      }
      if zeroFill {
        FillZero(b.base.value + b.len, n - b.len);
      }
      assert data[b.base.value..b.base.value + b.len] == old(Bytes(b));
      top := top + n - b.len;
      b.len := n;
      return 0;
    }

    /** The bytes of b at the top, and zeros behind them where asked for. */
    method CopyToTop(b: IoVec, n: nat, zeroFill: bool)
      requires b.base.Some? && b.base.value + b.len <= top && n > b.len && top + n <= data.Length
      modifies data
      ensures forall k :: 0 <= k < top ==> data[k] == old(data[k])
      ensures data[top..top + b.len] == old(Bytes(b))
      ensures zeroFill ==> forall k :: top + b.len <= k < top + n ==> data[k] == 0
    {
      CopyBytes(top, b.base.value, b.len);
      ghost var moved := data[top..top + b.len];
      if zeroFill {
        FillZero(top + b.len, n - b.len);
      }
      assert data[top..top + b.len] == moved;
    }

    /** A larger size for any other buffer: it moves to the top. */
    method Move(b: IoVec, n: nat, zeroFill: bool) returns (ret: int)
      requires Valid() && b in live && n > b.len
      modifies this`top, data, b
      ensures Valid() && ret == if old(top) + n > data.Length then -1 else 0
      ensures ret == -1 ==> top == old(top) && b.base == old(b.base) && b.len == old(b.len) && data[..] == old(data[..])
      ensures ret == -1 && old(b.base.value + b.len) != top ==> top + Needed(b, n) > data.Length
      ensures ret == 0 ==> b.base == Some(old(top)) && b.len == n && top == old(top) + n
      ensures ret == 0 ==> data[b.base.value..b.base.value + old(b.len)] == old(Bytes(b))
      ensures forall k :: 0 <= k < old(top) ==> data[k] == old(data[k])
      ensures ret == 0 && zeroFill ==> forall k :: old(top) + old(b.len) <= k < top ==> data[k] == 0
    {
      if top + n > data.Length {
        return -1;
      }
      CopyToTop(b, n, zeroFill);
      b.base := Some(top);
      top := top + n;
      b.len := n;
      return 0;
    }

    /** A larger size for a live buffer, in place or at the top. */
    method Grow(b: IoVec, n: nat, zeroFill: bool) returns (ret: int)
      requires Valid() && b in live && n > b.len && b.base.Some?
      modifies this`top, data, b
      ensures Valid() && (ret == 0 || ret == -1) && b.base.Some? && old(top) <= top
      ensures ret == -1 ==> top == old(top) && b.base == old(b.base) && b.len == old(b.len) && data[..] == old(data[..])
      ensures ret == -1 ==> top + Needed(b, n) > data.Length
      ensures ret == 0 ==> b.len == n && top == b.base.value + n
      ensures ret == 0 ==> b.base == if old(b.base.value + b.len == top) then old(b.base) else Some(old(top))
      ensures ret == 0 ==> data[b.base.value..b.base.value + old(b.len)] == old(Bytes(b))
      ensures forall k :: 0 <= k < old(top) ==> data[k] == old(data[k])
      ensures ret == 0 && zeroFill ==> forall k :: b.base.value + old(b.len) <= k < top ==> data[k] == 0
    {
      hide Apart, Needed;
      if b.base.value + b.len == top {
        ret := GrowInPlace(b, n, zeroFill);
      } else {
        ret := Move(b, n, zeroFill);
      }
    }

    /** Nothing is freed: the owner only forgets its buffer. */
    method Release(b: IoVec)
      requires Valid() && (b.base.Some? <==> b in live)
      modifies this`live, b
      ensures Valid() && b.base == None && live == old(live) - {b}
      ensures b.len == if old(b.base).Some? then 0 else old(b.len)
    {
      if b.base.Some? {
        b.base, b.len := None, 0;
        live := live - {b};
      }
    }

    /** Allocate, grow or release a buffer. A failing request (-1) changes nothing. A grown
        buffer keeps its contents, and its place if it ends at the top; otherwise it moves to
        the top. No other live buffer changes in any way. */
    method Allocate(b: IoVec, request: nat, zeroFill: bool, hint: Hint, frame: nat) returns (ret: int)
      requires Valid() && frame > 0 && (b.base.Some? <==> b in live)
      modifies this`top, this`live, data, b
      ensures Valid() && (b.base.Some? <==> b in live) && old(top) <= top
      ensures ret == 0 || ret == -1
      ensures ret == -1 ==> top == old(top) && live == old(live) && b.base == old(b.base) && b.len == old(b.len)
      ensures ret == -1 ==> data[..] == old(data[..])
      ensures ret == -1 ==>
                exists n :: IsChunk(StartSize(hint, request, frame), request, n) && top + Needed(b, n) > data.Length
      ensures forall c :: c in live || c in old(live) ==> c == b || (c in live && c in old(live))
      ensures forall k :: 0 <= k < old(top) ==> data[k] == old(data[k])
      ensures request == 0 ==> ret == 0 && b.base == None && top == old(top) && live == old(live) - {b}
      ensures request == 0 ==> b.len == if old(b.base).Some? then 0 else old(b.len)
      ensures 0 < request <= old(b.len) && old(b.base).Some? ==>
                ret == 0 && b.base == old(b.base) && b.len == old(b.len) && top == old(top)
      ensures request > old(b.len) && ret == 0 && old(b.base).Some? && old(b.base.value + b.len) == old(top) ==>
                b.base == old(b.base) && top == b.base.value + b.len
      ensures request > old(b.len) && ret == 0 && old(b.base).Some? && old(b.base.value + b.len) != old(top) ==>
                b.base == Some(old(top)) && top == old(top) + b.len
      ensures request > 0 && ret == 0 && old(b.base).None? ==> b.base == Some(old(top)) && top == old(top) + b.len
      ensures request > 0 && ret == 0 ==> b in live && b.len >= request
      ensures request > 0 && ret == 0 && old(b.base).Some? ==>
                old(b.len) <= b.len && data[b.base.value..b.base.value + old(b.len)] == old(Bytes(b))
      ensures request > 0 && ret == 0 && zeroFill && b.len != old(b.len) ==>
                forall k :: b.base.value + (if old(b.base).Some? then old(b.len) else 0) <= k < b.base.value + b.len ==> data[k] == 0
      ensures request > 0 && ret == 0 && (old(b.base).None? || request > old(b.len)) ==>
                IsChunk(StartSize(hint, request, frame), request, b.len)
    {
      hide Valid, Apart, IsChunk, StartSize, Needed;
      if request == 0 {
        Release(b);
        return 0;
      }
      StartIsPositive(hint, request, frame);
      var start := FirstSize(hint, request, frame);
      var n := ChunkSize(start, request);
      if b.base.None? {
        ret := Fresh(b, n, zeroFill);
      } else if request > b.len {
        ret := Grow(b, n, zeroFill);
      } else {
        ret := 0;
      }
    }

    /** Every owner that holds an address is live. */
    ghost predicate Owned(owners: set<IoVec>)
      reads this, owners
    {
      forall b :: b in owners ==> (b.base.Some? <==> b in live)
    }

    /** A whole run of requests. Live buffers stay apart and inside the allocated part at
        every step, and a buffer no request names keeps its place and its bytes. */
    method Serve(calls: seq<Call>, frame: nat, ghost owners: set<IoVec>)
      requires Valid() && frame > 0 && Owned(owners) && forall i :: 0 <= i < |calls| ==> calls[i].b in owners
      modifies this`top, this`live, data, owners
      ensures Valid() && Owned(owners) && old(top) <= top
      ensures forall c :: c in old(live) && c !in owners ==> c in live && Bytes(c) == old(Bytes(c))
    {
      for i := 0 to |calls|
        invariant Valid() && Owned(owners) && old(top) <= top
        invariant forall c :: c in old(live) && c !in owners ==> c in live
        invariant forall k :: 0 <= k < old(top) ==> data[k] == old(data[k])
      {
        var call := calls[i];
        var _ := Allocate(call.b, call.request, call.zeroFill, call.hint, frame);
      }
    }
  }

  datatype Call = Call(b: IoVec, request: nat, zeroFill: bool, hint: Hint)
}
