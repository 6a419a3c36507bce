/** The independent check of a finished plan (`Verifier.verify_storage_reuse`), and the
    proof that it accepts every greedy and every naive plan. */
module PlanVerifier {
  import opened Wrappers
  import opened TensorSpecs
  import opened SharedObjects
  import opened GreedyPlan
  import opened NaivePlan

  /** The fields of a spec the check looks at. */
  datatype Placement = Placement(memId: Option<nat>, memObjId: Option<nat>, memOffset: Option<nat>, size: nat,
                                 start: Option<int>, end: Option<int>)

  function PlacementOf(spec: TensorSpec): Placement
    requires spec.alignment > 0
    reads spec
  {
    Placement(spec.memId, spec.memObjId, spec.memOffset, spec.AllocatedMemory(), spec.start, spec.end)
  }

  ghost predicate Between(lo: int, x: int, hi: int) {
    lo <= x <= hi
  }

  /** Inclusive intervals overlap when they have a point in common; reversed ones are empty. */
  predicate HasOverlap(lhs0: int, lhs1: int, rhs0: int, rhs1: int): (b: bool)
    ensures b <==> exists x :: Between(lhs0, x, lhs1) && Between(rhs0, x, rhs1)
  {
    assert Between(lhs0, Max(lhs0, rhs0), lhs1) && Between(rhs0, Max(lhs0, rhs0), rhs1) <==>
           exists x :: Between(lhs0, x, lhs1) && Between(rhs0, x, rhs1);
    if lhs0 > lhs1 || rhs0 > rhs1 then false
    else (lhs0 >= rhs0 && lhs0 <= rhs1) || (rhs0 >= lhs0 && rhs0 <= lhs1)
  }

  predicate MemObjIdMatch(lhs: Placement, rhs: Placement, acceptBothNone: bool) {
    if lhs.memId != rhs.memId then false
    else if lhs.memObjId == None && rhs.memObjId == None then acceptBothNone
    else lhs.memObjId == rhs.memObjId
  }

  datatype Verdict = Apart | Reuses | Raises

  function StorageOverlap(lhs: Placement, rhs: Placement): Verdict {
    if lhs.memId != rhs.memId then Apart
    else if lhs.memOffset == None || rhs.memOffset == None then Raises
    else if HasOverlap(lhs.memOffset.value, lhs.memOffset.value + lhs.size - 1,
                       rhs.memOffset.value, rhs.memOffset.value + rhs.size - 1) then Reuses
    else Apart
  }

  function LifetimeOverlap(lhs: Placement, rhs: Placement): Verdict {
    if lhs.start == None || lhs.end == None || rhs.start == None || rhs.end == None then Raises
    else if HasOverlap(lhs.start.value, lhs.end.value, rhs.start.value, rhs.end.value) then Reuses
    else Apart
  }

  /** The check of one pair of specs. */
  function CheckPair(lhs: Placement, rhs: Placement, allowBoth: bool): Verdict {
    if (lhs.memObjId == None) != (rhs.memObjId == None) then Raises
    else if StorageOverlap(lhs, rhs) != Reuses then StorageOverlap(lhs, rhs)
    else if !allowBoth && LifetimeOverlap(lhs, rhs) != Apart then Raises
    else if !MemObjIdMatch(lhs, rhs, true) then Raises
    else Reuses
  }

  ghost predicate HasByte(p: Placement, x: int) {
    p.memOffset.Some? && p.memOffset.value <= x < p.memOffset.value + p.size
  }

  /** Both have byte x of one memory. */
  ghost predicate ShareByte(a: Placement, b: Placement) {
    a.memId == b.memId && exists x :: HasByte(a, x) && HasByte(b, x)
  }

  ghost predicate LivesAt(p: Placement, t: int) {
    p.start.Some? && p.end.Some? && p.start.value <= t <= p.end.value
  }

  /** Some node is in both lifetimes. */
  ghost predicate LiveAtOnce(a: Placement, b: Placement) {
    exists t :: LivesAt(a, t) && LivesAt(b, t)
  }

  ghost predicate HasLifetime(p: Placement) {
    p.start.Some? && p.end.Some?
  }

  /** What the check objects to: only one of the two has an object; they are in the same memory
      and one has no offset; or they share a byte while being live at once (or without a
      lifetime), unless that is allowed, or in different objects. */
  ghost predicate Objectionable(a: Placement, b: Placement, allowBoth: bool) {
    || a.memObjId.Some? != b.memObjId.Some?
    || (a.memId == b.memId && (a.memOffset.None? || b.memOffset.None?))
    || (ShareByte(a, b) && !allowBoth && !(HasLifetime(a) && HasLifetime(b)))
    || (ShareByte(a, b) && !allowBoth && LiveAtOnce(a, b))
    || (ShareByte(a, b) && a.memObjId != b.memObjId)
  }

  /** The verdict on a pair, from the fields alone. */
  lemma CheckPairIs(a: Placement, b: Placement, allowBoth: bool)
    ensures CheckPair(a, b, allowBoth) == Raises <==> Objectionable(a, b, allowBoth)
    ensures CheckPair(a, b, allowBoth) == Reuses <==> ShareByte(a, b) && !Objectionable(a, b, allowBoth)
  {
    hide HasOverlap;
    if a.memOffset.Some? && b.memOffset.Some? {
      BytesOverlap(a, b);
    }
    if HasLifetime(a) && HasLifetime(b) {
      LivesOverlap(a, b);
    }
  }

  lemma BytesOverlap(a: Placement, b: Placement)
    requires a.memOffset.Some? && b.memOffset.Some?
    ensures (exists x :: HasByte(a, x) && HasByte(b, x)) <==>
            HasOverlap(a.memOffset.value, a.memOffset.value + a.size - 1, b.memOffset.value, b.memOffset.value + b.size - 1)
  {
    hide HasOverlap;
    var lo, hi, lo', hi' := a.memOffset.value, a.memOffset.value + a.size - 1, b.memOffset.value, b.memOffset.value + b.size - 1;
    if x :| HasByte(a, x) && HasByte(b, x) {
      assert Between(lo, x, hi) && Between(lo', x, hi');
    }
    if x :| Between(lo, x, hi) && Between(lo', x, hi') {
      assert HasByte(a, x) && HasByte(b, x);
    }
  }

  lemma LivesOverlap(a: Placement, b: Placement)
    requires HasLifetime(a) && HasLifetime(b)
    ensures LiveAtOnce(a, b) <==> HasOverlap(a.start.value, a.end.value, b.start.value, b.end.value)
  {
    hide HasOverlap;
    if t :| LivesAt(a, t) && LivesAt(b, t) {
      assert Between(a.start.value, t, a.end.value) && Between(b.start.value, t, b.end.value);
    }
    if t :| Between(a.start.value, t, a.end.value) && Between(b.start.value, t, b.end.value) {
      assert LivesAt(a, t) && LivesAt(b, t);
    }
  }

  /** Two specs of one memory and object that share bytes while both are live: refused. */
  lemma UnsafePairIsRefused()
    ensures var a := Placement(Some(1), Some(0), Some(0), 16, Some(0), Some(2));
            var b := Placement(Some(1), Some(0), Some(0), 16, Some(1), Some(3));
            CheckPair(a, b, false) == Raises && CheckPair(a, b, true) == Reuses
  {
    var a := Placement(Some(1), Some(0), Some(0), 16, Some(0), Some(2));
    var b := Placement(Some(1), Some(0), Some(0), 16, Some(1), Some(3));
    CheckPairIs(a, b, false);
    CheckPairIs(a, b, true);
    assert HasByte(a, 0) && HasByte(b, 0) && LivesAt(a, 1) && LivesAt(b, 1);
  }

  ghost predicate Pairwise(ps: seq<Placement>, allowBoth: bool, i: nat, j: nat, v: Verdict) {
    i < j < |ps| && CheckPair(ps[i], ps[j], allowBoth) == v
  }

  /** No pair is objectionable. */
  ghost predicate Accepted(ps: seq<Placement>, allowBoth: bool) {
    forall i: nat, j: nat :: i < j < |ps| ==> !Objectionable(ps[i], ps[j], allowBoth)
  }

  lemma AcceptedIs(ps: seq<Placement>, allowBoth: bool)
    ensures Accepted(ps, allowBoth) <==> forall i: nat, j: nat :: !Pairwise(ps, allowBoth, i, j, Raises)
  {
    hide CheckPair, Objectionable;
    forall i: nat, j: nat | i < j < |ps|
      ensures Pairwise(ps, allowBoth, i, j, Raises) <==> Objectionable(ps[i], ps[j], allowBoth)
    {
      CheckPairIs(ps[i], ps[j], allowBoth);
    }
  }

  /** The pairs that share storage. */
  ghost function SharingPairs(ps: seq<Placement>): set<(nat, nat)> {
    set i: nat, j: nat | i < j < |ps| && ShareByte(ps[i], ps[j]) :: (i, j)
  }

  lemma ReuseIs(ps: seq<Placement>, allowBoth: bool, i: nat, j: nat)
    requires Accepted(ps, allowBoth)
    ensures Pairwise(ps, allowBoth, i, j, Reuses) <==> i < j < |ps| && ShareByte(ps[i], ps[j])
  {
    hide CheckPair, Objectionable, ShareByte;
    if i < j < |ps| {
      CheckPairIs(ps[i], ps[j], allowBoth);
    }
  }

  ghost function Placements(specs: seq<TensorSpec>): (ps: seq<Placement>)
    requires forall s :: s in specs ==> s.alignment > 0
    reads specs
    ensures |ps| == |specs| && forall i :: 0 <= i < |specs| ==> ps[i] == PlacementOf(specs[i])
  {
    seq(|specs|, i requires 0 <= i < |specs| && (forall s :: s in specs ==> s.alignment > 0) reads specs =>
      PlacementOf(specs[i]))
  }

  /** `verify_storage_reuse`: None stands for the exception, otherwise the number of
      pairs sharing storage. */
  method VerifyStorageReuse(specs: seq<TensorSpec>, allowBoth: bool) returns (pairs: Option<nat>)
    requires forall s :: s in specs ==> s.alignment > 0
    ensures pairs.Some? <==> Accepted(Placements(specs), allowBoth)
    ensures pairs.Some? ==> pairs.value == |SharingPairs(Placements(specs))|
  {
    hide CheckPair, Objectionable, ShareByte, Accepted;
    ghost var ps := Placements(specs);
    AcceptedIs(ps, allowBoth);
    ghost var found: set<(nat, nat)> := {};
    var numReusePairs := 0;
    for i := 0 to |specs|
      invariant forall a: nat, b: nat :: a < i ==> !Pairwise(ps, allowBoth, a, b, Raises)
      invariant forall a: nat, b: nat :: (a, b) in found <==> a < i && Pairwise(ps, allowBoth, a, b, Reuses)
      invariant numReusePairs == |found|
    {
      for j := i + 1 to |specs|
        invariant forall a: nat, b: nat :: a < i || (a == i && b < j) ==> !Pairwise(ps, allowBoth, a, b, Raises)
        invariant forall a: nat, b: nat :: (a, b) in found <==>
                    (a < i || (a == i && b < j)) && Pairwise(ps, allowBoth, a, b, Reuses)
        invariant numReusePairs == |found|
      {
        var v := CheckPair(PlacementOf(specs[i]), PlacementOf(specs[j]), allowBoth);
        assert Pairwise(ps, allowBoth, i, j, v);
        if v == Raises {
          return None;
        }
        if v == Reuses {
          found := found + {(i, j)};
          numReusePairs := numReusePairs + 1;
        }
      }
    }
    forall q: (nat, nat)
      ensures q in found <==> q in SharingPairs(ps)
    {
      assert q == (q.0, q.1);
      ReuseIs(ps, allowBoth, q.0, q.1);
    }
    assert found == SharingPairs(ps);
    return Some(numReusePairs);
  }

  /** A placement of request r at a range of its memory. */
  ghost predicate Places(p: Placement, r: Request, objId: Option<nat>, offset: nat) {
    p == Placement(Some(r.mem), objId, Some(offset), r.size, Some(r.start), Some(r.end))
  }

  lemma SharingIsOverlap(p: Placement, q: Placement, a: Range, b: Range)
    requires p.memId == Some(a.mem) && p.memOffset == Some(a.offset) && p.size == a.size
    requires q.memId == Some(b.mem) && q.memOffset == Some(b.offset) && q.size == b.size
    ensures ShareByte(p, q) <==> a.Overlaps(b)
  {
    if a.Overlaps(b) {
      var x := Max(a.offset, b.offset);
      assert HasByte(p, x) && HasByte(q, x);
    }
  }

  /** The check raises on no greedy plan, and the pairs it counts are pairs in the same
      shared object. */
  lemma GreedyIsAccepted(reqs: seq<Request>, input: seq<nat>, ps: seq<Placement>)
    requires AllValid(reqs) && |ps| == |reqs|
    requires forall i: nat :: i < |reqs| ==>
               Places(ps[i], reqs[i], Some(Greedy(reqs).slots[i]), OffsetOf(reqs, input, i))
    ensures Accepted(ps, false)
    ensures forall i: nat, j: nat :: i < j < |ps| && ShareByte(ps[i], ps[j]) ==>
              reqs[i].mem == reqs[j].mem && Greedy(reqs).slots[i] == Greedy(reqs).slots[j]
  {
    hide Greedy, OffsetOf, AllValid, HasOverlap;
    forall i: nat, j: nat | i < j < |ps|
      ensures !Objectionable(ps[i], ps[j], false)
      ensures ShareByte(ps[i], ps[j]) ==>
                reqs[i].mem == reqs[j].mem && Greedy(reqs).slots[i] == Greedy(reqs).slots[j]
    {
      SharingIsOverlap(ps[i], ps[j], RangeOf(reqs, input, i), RangeOf(reqs, input, j));
      if LiveTogether(reqs[i], reqs[j]) {
        GreedyIsSafe(reqs, input, i, j);
      }
      if Greedy(reqs).slots[i] != Greedy(reqs).slots[j] {
        DifferentSlotsAreApart(reqs, input, i, j);
      }
    }
  }

  /** The check raises on no naive plan and finds no reuse at all. */
  lemma NaiveIsAccepted(reqs: seq<Request>, input: seq<nat>, ps: seq<Placement>)
    requires |ps| == |reqs|
    requires forall i: nat :: i < |reqs| ==> Places(ps[i], reqs[i], None, NaiveOffset(reqs, input, i))
    ensures Accepted(ps, false)
    ensures SharingPairs(ps) == {}
  {
    hide NaiveOffset, ShareByte;
    forall i: nat, j: nat | i < j < |ps|
      ensures !ShareByte(ps[i], ps[j])
    {
      SharingIsOverlap(ps[i], ps[j], NaiveRange(reqs, input, i), NaiveRange(reqs, input, j));
      NaiveIsSafe(reqs, input, i, j);
    }
  }
}
