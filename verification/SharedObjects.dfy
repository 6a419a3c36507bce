/** The reusable buffer segments of the greedy memory planner and the linear scan
    that hands one of them to a tensor (`pick_shared_obj`).

    `Segment` and `Request` are the values the scan looks at; `SharedObject` is the
    mutable object it updates. The choice the scan makes is specified without the
    scan: see `Records` and `Settled`. */
module SharedObjects {
  import opened Wrappers

  /** What a tensor asks for: its memory id, its aligned size and its lifetime,
      both ends inclusive. */
  datatype Request = Request(mem: nat, size: nat, start: int, end: int) {
    predicate Valid() {
      start <= end
    }

    predicate LiveAt(t: int) {
      start <= t <= end
    }
  }

  /** The size of a shared object and the index of the last node using it. */
  datatype Segment = Segment(size: nat, lastUsed: int)

  function Max(a: int, b: int): (m: int)
    ensures a <= m && b <= m && m in {a, b}
  {
    if a < b then b else a
  }

  function AbsDiff(a: nat, b: nat): nat {
    if a < b then b - a else a - b
  }

  /** Size a is strictly closer to `wanted` than size b: `wanted` lies on a's side of the middle
      between the two. */
  ghost predicate Closer(a: nat, b: nat, wanted: nat) {
    (b < a && a + b < 2 * wanted) || (a < b && a + b > 2 * wanted)
  }

  /** The distances the scan compares. */
  lemma CloserIsLess(a: nat, b: nat, wanted: nat)
    ensures AbsDiff(a, wanted) < AbsDiff(b, wanted) <==> Closer(a, b, wanted)
  {
  }

  predicate Available(s: Segment, r: Request) {
    r.start > s.lastUsed
  }

  ghost predicate NoneAvailable(objs: seq<Segment>, r: Request, n: nat)
    requires n <= |objs|
  {
    forall j :: 0 <= j < n ==> !Available(objs[j], r)
  }

  /** Segment j is strictly closer in size than every available segment before it. */
  ghost predicate Records(objs: seq<Segment>, r: Request, j: nat) {
    && j < |objs|
    && Available(objs[j], r)
    && forall i :: 0 <= i < j && Available(objs[i], r) ==> Closer(objs[j].size, objs[i].size, r.size)
  }

  /** The segment a scan of the first n segments settles on: a record such that every
      earlier record is larger than the tensor, and which is either no larger than the
      tensor (the scan then grows it to a gap of zero, which nothing can beat) or at
      least as close as all that follow. */
  ghost predicate Settled(objs: seq<Segment>, r: Request, n: nat, k: nat) {
    && k < n <= |objs|
    && Records(objs, r, k)
    && (forall j: nat :: j < k && Records(objs, r, j) ==> objs[j].size > r.size)
    && (objs[k].size > r.size ==>
          forall i :: k < i < n && Available(objs[i], r) ==> !Closer(objs[i].size, objs[k].size, r.size))
  }

  /** Segment j after a scan that settled on k: records up to k are marked as used
      until the tensor dies, and only k may grow. */
  ghost function Touched(objs: seq<Segment>, r: Request, k: nat, j: nat): Segment
    requires j < |objs|
  {
    Segment(
      if j == k then Max(objs[j].size, r.size) else objs[j].size,
      if j <= k && Records(objs, r, j) then r.end else objs[j].lastUsed)
  }

  /** `objs'` and `k` are the outcome of picking a segment for r. */
  ghost predicate IsPick(objs: seq<Segment>, r: Request, objs': seq<Segment>, k: nat) {
    if NoneAvailable(objs, r, |objs|) then
      k == |objs| && objs' == objs + [Segment(r.size, r.end)]
    else
      && Settled(objs, r, |objs|, k)
      && |objs'| == |objs|
      && forall j: nat :: j < |objs| ==> objs'[j] == Touched(objs, r, k, j)
  }

  lemma SettledIsUnique(objs: seq<Segment>, r: Request, n: nat, k1: nat, k2: nat)
    requires Settled(objs, r, n, k1) && Settled(objs, r, n, k2)
    ensures k1 >= k2
  {
    // A later settled segment would be a strictly closer one behind k1.
    assert Available(objs[k1], r);
  }

  /** One step of the scan, on values: the provisional choice p survives segment n or
      gives way to it, as the comparison with the (grown) size of p says; a choice
      that gives way was larger than the tensor, so it never grew. */
  lemma SettledStep(objs: seq<Segment>, r: Request, n: nat, p: nat)
    requires n < |objs| && Settled(objs, r, n, p)
    ensures var beats := Available(objs[n], r) && Closer(objs[n].size, Max(objs[p].size, r.size), r.size);
            && Settled(objs, r, n + 1, if beats then n else p)
            && (beats ==> objs[p].size > r.size)
            && (!beats && objs[p].size > r.size ==> !Records(objs, r, n))
  {
    if Available(objs[n], r) && Closer(objs[n].size, Max(objs[p].size, r.size), r.size) {
      forall i | 0 <= i < n && Available(objs[i], r)
        ensures Closer(objs[n].size, objs[i].size, r.size)
      {
        assert i < p ==> Closer(objs[p].size, objs[i].size, r.size);
      }
      forall j: nat | j < n && Records(objs, r, j)
        ensures objs[j].size > r.size
      {
        assert Available(objs[p], r);
      }
    }
  }

  /** Every scan that meets an available segment settles on one. */
  lemma {:induction false} SettledExists(objs: seq<Segment>, r: Request, n: nat) returns (k: nat)
    requires n <= |objs|
    requires !NoneAvailable(objs, r, n)
    ensures Settled(objs, r, n, k)
  {
    var m := n - 1;
    if NoneAvailable(objs, r, m) {
      k := m;
    } else {
      k := SettledExists(objs, r, m);
      SettledStep(objs, r, m, k);
      if Available(objs[m], r) && Closer(objs[m].size, Max(objs[k].size, r.size), r.size) {
        k := m;
      }
    }
  }

  /** The pick, as a function of the segments and the request. */
  ghost function PickIndex(objs: seq<Segment>, r: Request): (k: nat)
    ensures NoneAvailable(objs, r, |objs|) ==> k == |objs|
    ensures !NoneAvailable(objs, r, |objs|) ==> Settled(objs, r, |objs|, k)
  {
    if NoneAvailable(objs, r, |objs|) then |objs|
    else
      assert exists k: nat :: Settled(objs, r, |objs|, k) by {
        var k := SettledExists(objs, r, |objs|);
      }
      var k: nat :| Settled(objs, r, |objs|, k);
      k
  }

  ghost function Pick(objs: seq<Segment>, r: Request): (objs': seq<Segment>)
    ensures IsPick(objs, r, objs', PickIndex(objs, r))
  {
    var k := PickIndex(objs, r);
    if NoneAvailable(objs, r, |objs|) then objs + [Segment(r.size, r.end)]
    else seq(|objs|, j requires 0 <= j < |objs| => Touched(objs, r, k, j))
  }

  /** Anything meeting the specification is the pick. */
  lemma PickIsUnique(objs: seq<Segment>, r: Request, objs': seq<Segment>, k: nat)
    requires IsPick(objs, r, objs', k)
    ensures k == PickIndex(objs, r) && objs' == Pick(objs, r)
  {
    if !NoneAvailable(objs, r, |objs|) {
      SettledIsUnique(objs, r, |objs|, k, PickIndex(objs, r));
      SettledIsUnique(objs, r, |objs|, PickIndex(objs, r), k);
    }
  }

  /** The pick in sizes alone. It is free, and every free segment before it is farther from the
      wanted size; if it is larger than wanted, no free segment at all is closer. Otherwise it is
      the first free segment, no larger than wanted, that none before it matches. */
  lemma PickInSizes(objs: seq<Segment>, r: Request)
    requires exists j: nat :: j < |objs| && objs[j].lastUsed < r.start
    ensures var k := PickIndex(objs, r);
            && k < |objs| && objs[k].lastUsed < r.start
            && (forall i: nat :: i < k && objs[i].lastUsed < r.start ==>
                  || (objs[i].size > objs[k].size && objs[i].size > 2 * r.size - objs[k].size)
                  || (objs[i].size < objs[k].size && objs[i].size < 2 * r.size - objs[k].size))
            && (objs[k].size > r.size ==> forall j: nat :: j < |objs| && objs[j].lastUsed < r.start ==>
                  objs[j].size >= objs[k].size || objs[j].size + objs[k].size <= 2 * r.size)
            && (forall j: nat :: j < k && objs[j].lastUsed < r.start && objs[j].size <= r.size ==>
                  exists i: nat :: i < j && objs[i].lastUsed < r.start &&
                    objs[j].size <= objs[i].size <= 2 * r.size - objs[j].size)
  {
    var k := PickIndex(objs, r);
    assert Available(objs[k], r);
    forall j: nat | j < k && objs[j].lastUsed < r.start && objs[j].size <= r.size
      ensures exists i: nat :: i < j && objs[i].lastUsed < r.start &&
                objs[j].size <= objs[i].size <= 2 * r.size - objs[j].size
    {
      assert !Records(objs, r, j);
      var i := MatchedBefore(objs, r, j);
    }
  }

  /** A free segment that is no record has one before it that is at least as close. */
  lemma MatchedBefore(objs: seq<Segment>, r: Request, j: nat) returns (i: nat)
    requires j < |objs| && objs[j].lastUsed < r.start && objs[j].size <= r.size && !Records(objs, r, j)
    ensures i < j && objs[i].lastUsed < r.start && objs[j].size <= objs[i].size <= 2 * r.size - objs[j].size
  {
    var h :| 0 <= h < j && Available(objs[h], r) && !Closer(objs[j].size, objs[h].size, r.size);
    i := h;
  }

  /** What a scan that finds a free segment does to all of them, in sizes and last uses: only
      the pick grows, to the wanted size if it was smaller; it and the free segments before it
      that were closer than all free ones before them are in use until the tensor dies. */
  lemma PickMarks(objs: seq<Segment>, r: Request, j: nat)
    requires j < |objs| && exists i: nat :: i < |objs| && objs[i].lastUsed < r.start
    ensures |Pick(objs, r)| == |objs|
    ensures Pick(objs, r)[j].size == if j == PickIndex(objs, r) && objs[j].size < r.size then r.size else objs[j].size
    ensures Pick(objs, r)[j].lastUsed ==
            if j <= PickIndex(objs, r) && objs[j].lastUsed < r.start &&
               forall i: nat :: i < j && objs[i].lastUsed < r.start ==>
                 || (objs[i].size > objs[j].size && objs[i].size + objs[j].size > 2 * r.size)
                 || (objs[i].size < objs[j].size && objs[i].size + objs[j].size < 2 * r.size)
            then r.end else objs[j].lastUsed
  {
    var i: nat :| i < |objs| && objs[i].lastUsed < r.start;
    assert Available(objs[i], r);
    assert Pick(objs, r)[j] == Touched(objs, r, PickIndex(objs, r), j);
  }

  /** Some available segment is strictly closer in size than segment k. */
  ghost predicate Beaten(objs: seq<Segment>, r: Request, k: nat)
    requires k < |objs|
  {
    exists j :: 0 <= j < |objs| && Available(objs[j], r) && Closer(objs[j].size, objs[k].size, r.size)
  }

  /** Segment i stops the scan: it is a record no larger than the tensor and so is
      none before it. */
  ghost predicate Stops(objs: seq<Segment>, r: Request, i: nat) {
    && Records(objs, r, i)
    && objs[i].size <= r.size
    && forall j: nat :: j < i && Records(objs, r, j) ==> objs[j].size > r.size
  }

  /** The documentation of the scan promises the available segment of closest size.
      That holds exactly when no segment behind the one that stops the scan is
      strictly closer. */
  lemma PickIsClosestIff(objs: seq<Segment>, r: Request)
    requires !NoneAvailable(objs, r, |objs|)
    ensures !Beaten(objs, r, PickIndex(objs, r)) <==>
            !exists i: nat, j: nat :: Stops(objs, r, i) && i < j < |objs| && Available(objs[j], r) &&
                                      Closer(objs[j].size, objs[i].size, r.size)
  {
    var k := PickIndex(objs, r);
    if Beaten(objs, r, k) {
      var j :| 0 <= j < |objs| && Available(objs[j], r) && Closer(objs[j].size, objs[k].size, r.size);
      assert Stops(objs, r, k) && k < j;
    }
    forall i: nat, j: nat | Stops(objs, r, i) && i < j < |objs| && Available(objs[j], r) &&
                            Closer(objs[j].size, objs[i].size, r.size)
      ensures Beaten(objs, r, k)
    {
      assert Settled(objs, r, |objs|, i);
      SettledIsUnique(objs, r, |objs|, k, i);
      SettledIsUnique(objs, r, |objs|, i, k);
    }
  }

  /** The closest segment is not always picked: a 10 byte tensor takes the free 4 byte
      segment although a free 10 byte one follows. */
  lemma PickNeedNotBeClosest()
    ensures var objs, r := [Segment(4, 0), Segment(10, 0)], Request(1, 10, 5, 6);
            PickIndex(objs, r) == 0 && Beaten(objs, r, 0)
  {
    var objs, r := [Segment(4, 0), Segment(10, 0)], Request(1, 10, 5, 6);
    assert Available(objs[0], r) && Available(objs[1], r);
    assert Settled(objs, r, |objs|, 0);
    SettledIsUnique(objs, r, |objs|, 0, PickIndex(objs, r));
  }

  /** `SharedObject` of the planner: a segment whose size, last use and offset are
      updated in place. */
  class SharedObject {
    /** The memory id whose list the object belongs to. */
    ghost const mem: nat
    const idx: nat
    var offset: int
    var size: nat
    var lastUsedIndex: int

    constructor (ghost mem: nat, idx: nat, offset: int, size: nat, lastUsedIndex: int)
      ensures this.mem == mem && this.idx == idx
      ensures this.offset == offset && this.size == size && this.lastUsedIndex == lastUsedIndex
    {
      this.mem := mem;
      this.idx := idx;
      this.offset := offset;
      this.size := size;
      this.lastUsedIndex := lastUsedIndex;
    }

    ghost function Value(): Segment
      reads this`size, this`lastUsedIndex
    {
      Segment(size, lastUsedIndex)
    }
  }

  /** The list of shared objects of memory m: the k-th object has index k. */
  ghost predicate Indexed(objs: seq<SharedObject>, m: nat) {
    forall k: nat :: k < |objs| ==> objs[k].idx == k && objs[k].mem == m
  }

  ghost function Values(objs: seq<SharedObject>): (v: seq<Segment>)
    reads objs`size, objs`lastUsedIndex
    ensures |v| == |objs| && forall k :: 0 <= k < |v| ==> v[k] == objs[k].Value()
  {
    if objs == [] then [] else Values(objs[..|objs| - 1]) + [objs[|objs| - 1].Value()]
  }

  /** The scan after n objects, on values: the provisional choice, and the segments as they
      are by then. */
  ghost predicate Scanned(objs: seq<Segment>, r: Request, n: nat, choice: Option<nat>, now: seq<Segment>) {
    && n <= |objs| == |now|
    && (choice.None? <==> NoneAvailable(objs, r, n))
    && (choice.Some? ==> Settled(objs, r, n, choice.value))
    && forall j: nat :: j < |objs| ==>
         now[j] == if j < n && choice.Some? then Touched(objs, r, choice.value, j) else objs[j]
  }

  /** Object n takes over from the provisional choice. */
  ghost predicate TakesOver(r: Request, n: nat, choice: Option<nat>, now: seq<Segment>)
    requires n < |now| && (choice.Some? ==> choice.value < |now|)
  {
    Available(now[n], r) && (choice.Some? ==> Closer(now[n].size, now[choice.value].size, r.size))
  }

  lemma ScanStart(objs: seq<Segment>, r: Request)
    ensures Scanned(objs, r, 0, None, objs)
  {
  }

  lemma ScanStep(objs: seq<Segment>, r: Request, n: nat, choice: Option<nat>, now: seq<Segment>)
    requires n < |objs| && Scanned(objs, r, n, choice, now)
    ensures |now| == |objs| && (choice.Some? ==> choice.value < |now|)
    ensures if TakesOver(r, n, choice, now)
            then Scanned(objs, r, n + 1, Some(n), now[n := Segment(Max(now[n].size, r.size), r.end)])
            else Scanned(objs, r, n + 1, choice, now)
  {
    if choice.Some? {
      SettledStep(objs, r, n, choice.value);
    }
  }

  lemma ScanEnd(objs: seq<Segment>, r: Request, choice: Option<nat>, now: seq<Segment>)
    requires Scanned(objs, r, |objs|, choice, now)
    ensures choice.Some? ==> IsPick(objs, r, now, choice.value)
    ensures choice.None? ==> IsPick(objs, r, now + [Segment(r.size, r.end)], |objs|)
  {
    assert choice.None? ==> now == objs;
  }

  ghost function ChoiceIndex(choice: SharedObject?): Option<nat> {
    if choice == null then None else Some(choice.idx)
  }

  lemma ValuesAre(objs: seq<SharedObject>, now: seq<Segment>)
    requires |now| == |objs| && forall j: nat :: j < |objs| ==> objs[j].Value() == now[j]
    ensures Values(objs) == now
  {
  }

  /** `pick_shared_obj`: one pass over the objects. Each provisional pick is marked and
      grown at once, and only its grown size is compared against later objects. */
  method PickSharedObj(sharedObjects: seq<SharedObject>, r: Request)
    returns (objs: seq<SharedObject>, picked: SharedObject)
    requires Indexed(sharedObjects, r.mem)
    modifies sharedObjects`size, sharedObjects`lastUsedIndex
    ensures Indexed(objs, r.mem)
    ensures picked.idx == PickIndex(old(Values(sharedObjects)), r) < |objs| && objs[picked.idx] == picked
    ensures Values(objs) == Pick(old(Values(sharedObjects)), r)
    ensures sharedObjects <= objs && |objs| <= |sharedObjects| + 1
    ensures |objs| > |sharedObjects| ==> fresh(picked) && picked.offset == -1
  {
    hide Values, Scanned, IsPick, Pick, PickIndex;
    ghost var before := Values(sharedObjects);
    ghost var now := before;
    var choice: SharedObject? := null;
    ScanStart(before, r);
    for n := 0 to |sharedObjects|
      invariant |now| == |sharedObjects| && Scanned(before, r, n, ChoiceIndex(choice), now)
      invariant choice != null ==> choice.idx < n && sharedObjects[choice.idx] == choice
      invariant forall j: nat :: j < |sharedObjects| ==> sharedObjects[j].Value() == now[j]
    {
      var sobj := sharedObjects[n];
      ScanStep(before, r, n, ChoiceIndex(choice), now);
      if choice != null {
        CloserIsLess(sobj.size, choice.size, r.size);
      }
      if r.start > sobj.lastUsedIndex {
        if choice == null || AbsDiff(sobj.size, r.size) < AbsDiff(choice.size, r.size) {
          choice := sobj;
          sobj.lastUsedIndex := r.end;
          sobj.size := Max(sobj.size, r.size);
          now := now[n := sobj.Value()];
        }
      }
    }
    ScanEnd(before, r, ChoiceIndex(choice), now);
    if choice == null {
      picked := new SharedObject(r.mem, |sharedObjects|, -1, r.size, r.end);
      objs := sharedObjects + [picked];
      now := now + [picked.Value()];
    } else {
      picked := choice;
      objs := sharedObjects;
    }
    ValuesAre(objs, now);
    PickIsUnique(before, r, now, picked.idx);
  }
}
