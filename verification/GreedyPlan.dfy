/** The greedy plan as a value: the segments of every memory id after a list of
    requests has been served, and the segment each request was given. Requests may
    come in any order. */
module GreedyPlan {
  import opened SharedObjects
  import opened Sums

  datatype Plan = Plan(objs: map<nat, seq<Segment>>, slots: seq<nat>) {
    ghost function ObjsOf(m: nat): seq<Segment> {
      if m in objs then objs[m] else []
    }

    ghost function SlotFor(r: Request): nat {
      PickIndex(ObjsOf(r.mem), r)
    }

    /** The plan after serving one more request. */
    ghost function Serve(r: Request): Plan {
      Plan(objs[r.mem := Pick(ObjsOf(r.mem), r)], slots + [SlotFor(r)])
    }
  }

  /** The plan after serving the requests one by one. */
  ghost function Greedy(reqs: seq<Request>): (p: Plan)
    ensures |p.slots| == |reqs|
  {
    if reqs == [] then Plan(map[], [])
    else Greedy(reqs[..|reqs| - 1]).Serve(reqs[|reqs| - 1])
  }

  lemma GreedyStep(reqs: seq<Request>, n: nat)
    requires n < |reqs|
    ensures Greedy(reqs[..n + 1]) == Greedy(reqs[..n]).Serve(reqs[n])
    ensures Greedy(reqs[..n + 1]).slots == Greedy(reqs[..n]).slots + [Greedy(reqs[..n]).SlotFor(reqs[n])]
  {
    assert reqs[..n + 1][..n] == reqs[..n];
  }

  ghost predicate AllValid(reqs: seq<Request>) {
    forall i :: 0 <= i < |reqs| ==> reqs[i].Valid()
  }

  function At(sizes: seq<nat>, m: nat): nat {
    if m < |sizes| then sizes[m] else 0
  }

  ghost function SizesOf(objs: seq<Segment>): (s: seq<nat>)
    ensures |s| == |objs|
  {
    seq(|objs|, i requires 0 <= i < |objs| => objs[i].size)
  }

  /** What one pick promises: no segment shrinks or is released early, the one picked
      was free for the whole lifetime of the request, holds it, and is taken until its end. */
  lemma PickKeeps(objs: seq<Segment>, r: Request)
    requires r.Valid()
    ensures var objs', k := Pick(objs, r), PickIndex(objs, r);
            && k < |objs'| && |objs| <= |objs'|
            && objs'[k].size >= r.size && objs'[k].lastUsed == r.end
            && (k < |objs| ==> objs[k].lastUsed < r.start)
            && (forall j :: 0 <= j < |objs| ==>
                  objs[j].size <= objs'[j].size && objs[j].lastUsed <= objs'[j].lastUsed)
            && Sum(SizesOf(objs')) <= Sum(SizesOf(objs)) + r.size
  {
    var objs', k := Pick(objs, r), PickIndex(objs, r);
    if NoneAvailable(objs, r, |objs|) {
      assert SizesOf(objs')[..|objs|] == SizesOf(objs);
    } else {
      SumGrowsAtMost(SizesOf(objs), SizesOf(objs'), k, r.size);
    }
  }

  /** Request i sits in a segment of its memory that is large enough and taken at
      least until the request dies. */
  lemma {:induction false} SlotHolds(reqs: seq<Request>, i: nat)
    requires AllValid(reqs) && i < |reqs|
    ensures var p := Greedy(reqs);
            && reqs[i].mem in p.objs && p.slots[i] < |p.objs[reqs[i].mem]|
            && reqs[i].size <= p.objs[reqs[i].mem][p.slots[i]].size
            && reqs[i].end <= p.objs[reqs[i].mem][p.slots[i]].lastUsed
    decreases |reqs|
  {
    hide Pick, PickIndex, Sum, SizesOf;
    var n := |reqs| - 1;
    PickKeeps(Greedy(reqs[..n]).ObjsOf(reqs[n].mem), reqs[n]);
    if i < n {
      SlotHolds(reqs[..n], i);
    }
  }

  /** Two requests given the same segment do not live at the same time, whatever the
      order they came in. */
  lemma {:induction false} SharersAreDisjointInTime(reqs: seq<Request>, i: nat, j: nat)
    requires AllValid(reqs) && i < j < |reqs| && reqs[i].mem == reqs[j].mem
    ensures Greedy(reqs).slots[i] == Greedy(reqs).slots[j] ==> reqs[i].end < reqs[j].start
    decreases |reqs|
  {
    hide Pick, PickIndex, Sum, SizesOf;
    var n := |reqs| - 1;
    var p := Greedy(reqs[..n]);
    var objs := p.ObjsOf(reqs[n].mem);
    assert Greedy(reqs).slots == p.slots + [PickIndex(objs, reqs[n])];
    if j < n {
      SharersAreDisjointInTime(reqs[..n], i, j);
    } else {
      SlotHolds(reqs[..n], i);
      PickKeeps(objs, reqs[n]);
    }
  }

  /** The byte offset of request i: its memory starts at `input`, and the segments
      follow one another. */
  ghost function OffsetOf(reqs: seq<Request>, input: seq<nat>, i: nat): nat
    requires i < |reqs|
  {
    var p := Greedy(reqs);
    At(input, reqs[i].mem) + Sum(SizesOf(p.ObjsOf(reqs[i].mem))[..Min(p.slots[i], |p.ObjsOf(reqs[i].mem)|)])
  }

  function Min(a: nat, b: nat): nat {
    if a < b then a else b
  }

  function MaxMem(reqs: seq<Request>): (top: nat)
    ensures forall i :: 0 <= i < |reqs| ==> reqs[i].mem <= top
    ensures reqs != [] ==> exists i :: 0 <= i < |reqs| && reqs[i].mem == top
  {
    if reqs == [] then 0 else Max(MaxMem(reqs[..|reqs| - 1]), reqs[|reqs| - 1].mem)
  }

  /** The size greedy reports for memory m: 0 when no request names it, even if `input`
      already uses it. */
  ghost function ReportedSize(p: Plan, input: seq<nat>, m: nat): nat {
    if m in p.objs then At(input, m) + Sum(SizesOf(p.objs[m])) else 0
  }

  ghost function GreedySizes(reqs: seq<Request>, input: seq<nat>): (sizes: seq<nat>) {
    if reqs == [] then [0, 0]
    else
      var p := Greedy(reqs);
      seq(MaxMem(reqs) + 1, m requires 0 <= m => ReportedSize(p, input, m))
  }

  lemma ServedMemories(p: Plan, r: Request, m: nat)
    ensures m in p.Serve(r).objs <==> m in p.objs || m == r.mem
  {
  }

  lemma {:induction false} SeenMemories(reqs: seq<Request>, m: nat)
    ensures m in Greedy(reqs).objs <==> exists i :: 0 <= i < |reqs| && reqs[i].mem == m
  {
    hide Plan.Serve;
    if reqs != [] {
      var n := |reqs| - 1;
      SeenMemories(reqs[..n], m);
      ServedMemories(Greedy(reqs[..n]), reqs[n], m);
      if i :| 0 <= i < |reqs| && reqs[i].mem == m {
        assert i < n ==> reqs[..n][i].mem == m;
      }
      if i :| 0 <= i < n && reqs[..n][i].mem == m {
        assert reqs[i].mem == m;
      }
    }
  }

  /** The memories in use are those of the requests, up to the largest. */
  lemma SeenAll(reqs: seq<Request>)
    ensures reqs == [] <==> Greedy(reqs).objs == map[]
    ensures forall m :: m in Greedy(reqs).objs ==> m <= MaxMem(reqs)
    ensures reqs != [] ==> MaxMem(reqs) in Greedy(reqs).objs
  {
    forall m | m in Greedy(reqs).objs
      ensures m <= MaxMem(reqs)
    {
      SeenMemories(reqs, m);
    }
    if reqs != [] {
      SeenMemories(reqs, MaxMem(reqs));
    }
  }

  lemma SizeOfSeen(reqs: seq<Request>, input: seq<nat>, m: nat)
    ensures At(GreedySizes(reqs, input), m) == ReportedSize(Greedy(reqs), input, m)
  {
    SeenMemories(reqs, m);
  }

  datatype Range = Range(mem: nat, offset: nat, size: nat) {
    /** The two ranges share a byte. */
    predicate Overlaps(that: Range) {
      && mem == that.mem && size > 0 && that.size > 0
      && offset < that.offset + that.size && that.offset < offset + size
    }

    predicate Within(lo: seq<nat>, hi: seq<nat>) {
      At(lo, mem) <= offset && offset + size <= At(hi, mem)
    }
  }

  ghost function RangeOf(reqs: seq<Request>, input: seq<nat>, i: nat): Range
    requires i < |reqs|
  {
    Range(reqs[i].mem, OffsetOf(reqs, input, i), reqs[i].size)
  }

  /** Every range lies between the starting and the reported size of its memory. */
  lemma GreedyInBounds(reqs: seq<Request>, input: seq<nat>, i: nat)
    requires AllValid(reqs) && i < |reqs|
    ensures RangeOf(reqs, input, i).Within(input, GreedySizes(reqs, input))
  {
    SlotHolds(reqs, i);
    var p := Greedy(reqs);
    var sizes := SizesOf(p.objs[reqs[i].mem]);
    PrefixSums(sizes, p.slots[i], |sizes|);
    assert sizes[..|sizes|] == sizes;
    SizeOfSeen(reqs, input, reqs[i].mem);
  }

  /** Requests in different segments share no byte; so storage overlap implies the
      same segment. */
  lemma DifferentSlotsAreApart(reqs: seq<Request>, input: seq<nat>, i: nat, j: nat)
    requires AllValid(reqs) && i < |reqs| && j < |reqs|
    requires Greedy(reqs).slots[i] != Greedy(reqs).slots[j]
    ensures !RangeOf(reqs, input, i).Overlaps(RangeOf(reqs, input, j))
  {
    if reqs[i].mem == reqs[j].mem {
      SlotHolds(reqs, i);
      SlotHolds(reqs, j);
      var p := Greedy(reqs);
      var sizes := SizesOf(p.objs[reqs[i].mem]);
      if p.slots[i] < p.slots[j] {
        PrefixSums(sizes, p.slots[i], p.slots[j]);
      } else {
        PrefixSums(sizes, p.slots[j], p.slots[i]);
      }
    }
  }

  ghost predicate LiveTogether(a: Request, b: Request) {
    a.start <= b.end && b.start <= a.end
  }

  /** Safety: requests that live at the same time share no byte. */
  lemma GreedyIsSafe(reqs: seq<Request>, input: seq<nat>, i: nat, j: nat)
    requires AllValid(reqs) && i < |reqs| && j < |reqs| && i != j
    requires LiveTogether(reqs[i], reqs[j])
    ensures !RangeOf(reqs, input, i).Overlaps(RangeOf(reqs, input, j))
  {
    if reqs[i].mem == reqs[j].mem {
      SharersAreDisjointInTime(reqs, if i < j then i else j, if i < j then j else i);
      DifferentSlotsAreApart(reqs, input, i, j);
    }
  }

  /** Total size of the requests of memory m. */
  function Demand(reqs: seq<Request>, m: nat): nat {
    if reqs == [] then 0
    else Demand(reqs[..|reqs| - 1], m) + if reqs[|reqs| - 1].mem == m then reqs[|reqs| - 1].size else 0
  }

  /** Reuse never costs more than giving every request its own bytes. */
  lemma {:induction false} SegmentsWithinDemand(reqs: seq<Request>, m: nat)
    requires AllValid(reqs)
    ensures Sum(SizesOf(Greedy(reqs).ObjsOf(m))) <= Demand(reqs, m)
  {
    if reqs != [] {
      var n := |reqs| - 1;
      SegmentsWithinDemand(reqs[..n], m);
      PickKeeps(Greedy(reqs[..n]).ObjsOf(reqs[n].mem), reqs[n]);
    }
  }

  /** Total size of the requests of memory m that are live at node t. */
  function LiveDemand(reqs: seq<Request>, m: nat, t: int): nat {
    if reqs == [] then 0
    else
      var r := reqs[|reqs| - 1];
      LiveDemand(reqs[..|reqs| - 1], m, t) + if r.mem == m && r.LiveAt(t) then r.size else 0
  }

  /** The sizes of the segments still taken at node t. */
  ghost function BusySizes(objs: seq<Segment>, t: int): (s: seq<nat>)
    ensures |s| == |objs|
  {
    seq(|objs|, i requires 0 <= i < |objs| => if objs[i].lastUsed >= t then objs[i].size else 0)
  }

  lemma {:induction false} LiveWithinBusy(reqs: seq<Request>, m: nat, t: int)
    requires AllValid(reqs)
    ensures LiveDemand(reqs, m, t) <= Sum(BusySizes(Greedy(reqs).ObjsOf(m), t))
  {
    if reqs != [] {
      var n := |reqs| - 1;
      var r, objs := reqs[n], Greedy(reqs[..n]).ObjsOf(reqs[n].mem);
      LiveWithinBusy(reqs[..n], m, t);
      PickKeeps(objs, r);
      if r.mem == m {
        var a, b := BusySizes(objs, t), BusySizes(Pick(objs, r), t);
        if r.LiveAt(t) {
          SumGrows(a, b, PickIndex(objs, r), r.size);
        } else {
          SumIsMonotone(a, b);
        }
      }
    }
  }

  /** Peak bound: the bytes live at any one node are at most what greedy adds to the
      memory, because requests live together sit in different segments. */
  lemma PeakWithinSegments(reqs: seq<Request>, input: seq<nat>, m: nat, t: int)
    requires AllValid(reqs)
    ensures LiveDemand(reqs, m, t) <= Sum(SizesOf(Greedy(reqs).ObjsOf(m)))
    ensures LiveDemand(reqs, m, t) > 0 ==>
              At(input, m) + LiveDemand(reqs, m, t) <= At(GreedySizes(reqs, input), m)
  {
    LiveWithinBusy(reqs, m, t);
    SumIsMonotone(BusySizes(Greedy(reqs).ObjsOf(m), t), SizesOf(Greedy(reqs).ObjsOf(m)));
    SizeOfSeen(reqs, input, m);
  }

  /** A segment is exactly as large as some request sitting in it. */
  lemma {:induction false} SegmentSizeIsAsked(reqs: seq<Request>, m: nat, k: nat) returns (i: nat)
    requires AllValid(reqs) && k < |Greedy(reqs).ObjsOf(m)|
    ensures i < |reqs| && reqs[i].mem == m && Greedy(reqs).slots[i] == k
    ensures reqs[i].size == Greedy(reqs).ObjsOf(m)[k].size
  {
    var n := |reqs| - 1;
    var p, r := Greedy(reqs[..n]), reqs[n];
    PickKeeps(p.ObjsOf(r.mem), r);
    if r.mem == m && p.SlotFor(r) == k && (k >= |p.ObjsOf(m)| || p.ObjsOf(m)[k].size <= r.size) {
      i := n;
    } else {
      i := SegmentSizeIsAsked(reqs[..n], m, k);
    }
  }

  /** If anything is asked of memory m, some non-empty request sits at its very start. */
  lemma SomethingAtTheStart(reqs: seq<Request>, input: seq<nat>, m: nat) returns (i: nat)
    requires AllValid(reqs) && Demand(reqs, m) > 0
    ensures i < |reqs| && reqs[i].mem == m && reqs[i].size > 0
    ensures OffsetOf(reqs, input, i) == At(input, m)
  {
    var j := SomeDemand(reqs, m);
    SlotHolds(reqs, j);
    var objs := Greedy(reqs).ObjsOf(m);
    var k := FirstNonEmpty(objs, Greedy(reqs).slots[j]);
    i := SegmentSizeIsAsked(reqs, m, k);
  }

  lemma {:induction false} SomeDemand(reqs: seq<Request>, m: nat) returns (j: nat)
    requires Demand(reqs, m) > 0
    ensures j < |reqs| && reqs[j].mem == m && reqs[j].size > 0
  {
    var n := |reqs| - 1;
    if reqs[n].mem == m && reqs[n].size > 0 {
      j := n;
    } else {
      j := SomeDemand(reqs[..n], m);
    }
  }

  /** The first non-empty segment has only empty ones before it. */
  lemma FirstNonEmpty(objs: seq<Segment>, j: nat) returns (k: nat)
    requires j < |objs| && objs[j].size > 0
    ensures k <= j && objs[k].size > 0
    ensures Sum(SizesOf(objs)[..k]) == 0
  {
    k := 0;
    while objs[k].size == 0
      invariant k <= j && Sum(SizesOf(objs)[..k]) == 0
      decreases j - k
    {
      assert SizesOf(objs)[..k + 1][..k] == SizesOf(objs)[..k];
      k := k + 1;
    }
  }
}
