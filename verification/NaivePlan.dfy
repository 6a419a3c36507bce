/** The naive plan, in which every request gets bytes of its own, and its comparison
    with the greedy plan. */
module NaivePlan {
  import opened SharedObjects
  import opened GreedyPlan

  function NaiveOffset(reqs: seq<Request>, input: seq<nat>, i: nat): nat
    requires i < |reqs|
  {
    At(input, reqs[i].mem) + Demand(reqs[..i], reqs[i].mem)
  }

  function NaiveRange(reqs: seq<Request>, input: seq<nat>, i: nat): Range
    requires i < |reqs|
  {
    Range(reqs[i].mem, NaiveOffset(reqs, input, i), reqs[i].size)
  }

  function NaiveSizes(reqs: seq<Request>, input: seq<nat>): seq<nat> {
    seq(Max(|input|, if reqs == [] then 0 else MaxMem(reqs) + 1),
        m requires 0 <= m => At(input, m) + Demand(reqs, m))
  }

  lemma {:induction false} UnseenHasNoDemand(reqs: seq<Request>, m: nat)
    requires forall i :: 0 <= i < |reqs| ==> reqs[i].mem != m
    ensures Demand(reqs, m) == 0
  {
    if reqs != [] {
      UnseenHasNoDemand(reqs[..|reqs| - 1], m);
    }
  }

  lemma NaiveSizeAt(reqs: seq<Request>, input: seq<nat>, m: nat)
    ensures At(NaiveSizes(reqs, input), m) == At(input, m) + Demand(reqs, m)
  {
    if m >= |NaiveSizes(reqs, input)| {
      UnseenHasNoDemand(reqs, m);
    }
  }

  lemma {:induction false} DemandGrows(reqs: seq<Request>, i: nat, j: nat)
    requires i < j <= |reqs|
    ensures Demand(reqs[..i], reqs[i].mem) + reqs[i].size <= Demand(reqs[..j], reqs[i].mem)
    decreases j
  {
    assert reqs[..j][..j - 1] == reqs[..j - 1];
    if i < j - 1 {
      DemandGrows(reqs, i, j - 1);
    }
  }

  /** Ranges of the naive plan lie between the starting and the reported sizes, and
      no two of them share a byte. */
  lemma NaiveIsSafe(reqs: seq<Request>, input: seq<nat>, i: nat, j: nat)
    requires i < |reqs| && j < |reqs|
    ensures NaiveRange(reqs, input, i).Within(input, NaiveSizes(reqs, input))
    ensures i != j ==> !NaiveRange(reqs, input, i).Overlaps(NaiveRange(reqs, input, j))
  {
    DemandGrows(reqs, i, |reqs|);
    assert reqs[..|reqs|] == reqs;
    NaiveSizeAt(reqs, input, reqs[i].mem);
    if i < j {
      DemandGrows(reqs, i, j);
    } else if j < i {
      DemandGrows(reqs, j, i);
    }
  }

  /** From the same requests and starting sizes, greedy never reports a larger buffer
      than naive. */
  lemma GreedyAtMostNaive(reqs: seq<Request>, input: seq<nat>, m: nat)
    requires AllValid(reqs)
    ensures At(GreedySizes(reqs, input), m) <= At(NaiveSizes(reqs, input), m)
  {
    NaiveSizeAt(reqs, input, m);
    SizeOfSeen(reqs, input, m);
    SegmentsWithinDemand(reqs, m);
  }

  /** What serving one more request adds to the naive plan. */
  lemma NaiveStep(reqs: seq<Request>, input: seq<nat>, n: nat, sizes: seq<nat>)
    requires n < |reqs|
    requires var before, r := NaiveSizes(reqs[..n], input), reqs[n];
             && |sizes| == Max(|before|, r.mem + 1)
             && forall m: nat :: At(sizes, m) == At(before, m) + if m == r.mem then r.size else 0
    ensures sizes == NaiveSizes(reqs[..n + 1], input)
    ensures NaiveOffset(reqs, input, n) == At(NaiveSizes(reqs[..n], input), reqs[n].mem)
  {
    assert reqs[..n + 1][..n] == reqs[..n];
    var after := NaiveSizes(reqs[..n + 1], input);
    forall m: nat | m < |sizes|
      ensures sizes[m] == after[m]
    {
      NaiveSizeAt(reqs[..n], input, m);
      assert sizes[m] == At(sizes, m);
    }
    NaiveSizeAt(reqs[..n], input, reqs[n].mem);
  }
}
