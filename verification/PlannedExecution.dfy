/** Planning one graph from end to end: lifetimes, the specs to place, `greedy` or `naive`, and
    what running the graph on the buffers then reads. */
module PlannedExecution {
  import opened Wrappers
  import opened TensorSpecs
  import opened SharedObjects
  import opened GreedyPlan
  import opened NaivePlan
  import opened MemoryPlanning
  import opened ModulePlan
  import opened Execution
  import L = Lifetimes

  ghost predicate Fresh(nodes: seq<L.Node>)
    reads L.AllSpecs(nodes)
  {
    forall s :: s in L.AllSpecs(nodes) ==> s.start == None && s.end == None
  }

  /** Every spec lives exactly from the first to the last node referring to it. */
  ghost predicate HaveHulls(nodes: seq<L.Node>)
    requires L.WellFormed(nodes)
    reads L.AllSpecs(nodes)`start, L.AllSpecs(nodes)`end
  {
    forall s :: s in L.AllSpecs(nodes) ==> L.Hull(nodes, |nodes|, s, (None, None))
  }

  /** The specs served, with the ranges the algorithm gave them; only `greedy` names objects. */
  ghost predicate Served(algo: Algo, specs: seq<TensorSpec>, alignment: nat, input: seq<nat>, totals: seq<nat>)
    requires alignment > 0
    reads specs
  {
    && Distinct(specs) && HaveLifetimes(specs)
    && totals == OwnSizes(algo, Requests(specs, alignment), input)
    && forall k: nat :: k < |specs| ==>
         && specs[k].alignment == alignment
         && specs[k].memId == Some(OwnRange(algo, Requests(specs, alignment), input, k).mem)
         && specs[k].memOffset == Some(OwnRange(algo, Requests(specs, alignment), input, k).offset)
         && (algo == GreedyPlanner ==> specs[k].memObjId == Some(Greedy(Requests(specs, alignment)).slots[k]))
  }

  function AllNodes(n: nat): (idxs: seq<nat>)
    ensures |idxs| == n && forall k :: 0 <= k < n ==> idxs[k] == k
  {
    seq(n, k requires 0 <= k < n => k)
  }

  /** Some node contributes the spec to the list. */
  ghost predicate Collected(nodes: seq<L.Node>, f: L.Filter, s: TensorSpec)
    requires L.WellFormed(nodes)
  {
    exists k: nat :: L.Contributes(nodes, AllNodes(|nodes|), f, k, s)
  }

  ghost predicate AnyUnexpected(nodes: seq<L.Node>, f: L.Filter)
    requires L.WellFormed(nodes)
  {
    exists k: nat :: L.Unexpected(nodes, AllNodes(|nodes|), f, k)
  }

  /** A spec the planner places: of bounded shape, carried by a node that is not a get_attr, an
      out-variant or an in-place node; not an input or output the caller provides, and not a
      constant, unless the node that carries it is a weight to be trained. */
  ghost predicate ToPlace(nodes: seq<L.Node>, allocInput: bool, allocOutput: bool, s: TensorSpec)
    requires L.WellFormed(nodes)
  {
    && s.dynamism != DynamicUnbound
    && (allocInput || !exists j: nat :: L.Carries(nodes, j, s) && nodes[j].op == L.Placeholder(false))
    && (allocOutput || !exists j: nat :: L.Carries(nodes, j, s) && nodes[j].op == L.Output)
    && exists k: nat ::
         && L.Carries(nodes, k, s) && (s.constant ==> nodes[k].weightHasGradient)
         && nodes[k].op !in {L.GetAttr, L.Call(L.OutVariant), L.Call(L.InPlace)}
  }

  lemma CollectedIsToPlace(nodes: seq<L.Node>, allocInput: bool, allocOutput: bool, doAssertion: bool, s: TensorSpec)
    requires L.WellFormed(nodes)
    ensures Collected(nodes, L.PlanningFilter(allocInput, allocOutput, doAssertion), s) <==>
            ToPlace(nodes, allocInput, allocOutput, s)
  {
    hide L.Carries;
    var f, idxs := L.PlanningFilter(allocInput, allocOutput, doAssertion), AllNodes(|nodes|);
    CarriedInside(nodes, s);
    assert L.IsGraphInput(nodes, idxs, s) <==> exists j: nat :: L.Carries(nodes, j, s) && nodes[j].op == L.Placeholder(false) by {
      if j: nat :| L.Carries(nodes, j, s) && nodes[j].op == L.Placeholder(false) {
        assert idxs[j] == j;
      }
    }
    assert L.IsGraphOutput(nodes, idxs, s) <==> exists j: nat :: L.Carries(nodes, j, s) && nodes[j].op == L.Output by {
      if j: nat :| L.Carries(nodes, j, s) && nodes[j].op == L.Output {
        assert idxs[j] == j;
      }
    }
    if ToPlace(nodes, allocInput, allocOutput, s) {
      var k: nat :| L.Carries(nodes, k, s) && (s.constant ==> nodes[k].weightHasGradient) &&
                    nodes[k].op !in {L.GetAttr, L.Call(L.OutVariant), L.Call(L.InPlace)};
      assert L.Contributes(nodes, idxs, f, k, s);
    }
    if k: nat :| L.Contributes(nodes, idxs, f, k, s) {
      assert L.Carries(nodes, k, s);
    }
  }

  lemma CarriedInside(nodes: seq<L.Node>, s: TensorSpec)
    requires L.WellFormed(nodes)
    ensures forall j: nat :: L.Carries(nodes, j, s) ==> j < |nodes|
  {
  }

  /** Some node calls an operator the planner does not know, and has specs. */
  ghost predicate HasOtherOp(nodes: seq<L.Node>) {
    exists k: nat :: k < |nodes| && nodes[k].op == L.Call(L.OtherOp) && nodes[k].specs != []
  }

  /** `specs` are exactly those to place. */
  ghost predicate PlacesExactly(nodes: seq<L.Node>, allocInput: bool, allocOutput: bool, specs: seq<TensorSpec>)
    requires L.WellFormed(nodes)
  {
    && (forall s :: s in specs ==> s in L.AllSpecs(nodes))
    && forall s :: s in L.AllSpecs(nodes) ==> (s in specs <==> ToPlace(nodes, allocInput, allocOutput, s))
  }

  lemma CollectedIsExact(nodes: seq<L.Node>, allocInput: bool, allocOutput: bool, doAssertion: bool, specs: seq<TensorSpec>)
    requires L.WellFormed(nodes) && forall s :: s in specs ==> s in L.AllSpecs(nodes)
    requires forall s :: s in specs <==> Collected(nodes, L.PlanningFilter(allocInput, allocOutput, doAssertion), s)
    ensures PlacesExactly(nodes, allocInput, allocOutput, specs)
  {
    hide Collected, ToPlace, L.AllSpecs;
    SpecsAreAllocated(nodes);
    forall s | s in L.AllSpecs(nodes)
      ensures s in specs <==> ToPlace(nodes, allocInput, allocOutput, s)
    {
      CollectedIsToPlace(nodes, allocInput, allocOutput, doAssertion, s);
    }
  }

  /** Assertions fail exactly at operators the planner does not know. */
  lemma UnexpectedIsOther(nodes: seq<L.Node>, allocInput: bool, allocOutput: bool, doAssertion: bool)
    requires L.WellFormed(nodes)
    ensures AnyUnexpected(nodes, L.PlanningFilter(allocInput, allocOutput, doAssertion)) <==>
            doAssertion && HasOtherOp(nodes)
  {
    var f, idxs := L.PlanningFilter(allocInput, allocOutput, doAssertion), AllNodes(|nodes|);
    if doAssertion {
      if k: nat :| k < |nodes| && nodes[k].op == L.Call(L.OtherOp) && nodes[k].specs != [] {
        var n := nodes[k];
        var s := n.specs[0];
        assert n in nodes && s in n.specs;
        assert s in L.AllSpecs(nodes) && L.Carries(nodes, k, s);
        assert L.Unexpected(nodes, idxs, f, k);
      }
      if k: nat :| L.Unexpected(nodes, idxs, f, k) {
        match nodes[k].op {
          case Call(target) => assert target.OutVariant? || target.InPlace? || target.OtherOp? || target.Alloc? || target.View? ||
                                      target.GetItem? || target.ControlFlow? || target.CallDelegate?;
          case _ =>
        }
      }
    }
  }

  /** The specs to place. */
  method Collect(nodes: seq<L.Node>, f: L.Filter) returns (r: Option<seq<TensorSpec>>)
    requires L.WellFormed(nodes) && f.dedup
    ensures r.None? <==> AnyUnexpected(nodes, f)
    ensures r.Some? ==> Distinct(r.value) && forall s :: s in r.value <==> Collected(nodes, f, s)
  {
    hide L.Contributes, L.Unexpected;
    r := L.CollectSpecsFromNodes(nodes, AllNodes(|nodes|), f);
  }

  lemma PlannedHaveLifetimes(nodes: seq<L.Node>, f: L.Filter, specs: seq<TensorSpec>)
    requires L.WellFormed(nodes) && HaveHulls(nodes)
    requires forall s :: s in specs ==> Collected(nodes, f, s)
    ensures HaveLifetimes(specs) && forall s :: s in specs ==> s in L.AllSpecs(nodes)
  {
    hide L.Refers, L.Contributes, L.AllSpecs;
    forall s | s in specs
      ensures s in L.AllSpecs(nodes) && s.start.Some? && s.end.Some? && s.start.value <= s.end.value
    {
      var k: nat :| L.Contributes(nodes, AllNodes(|nodes|), f, k, s);
      ContributedIsInGraph(nodes, f, k, s);
      assert L.Hull(nodes, |nodes|, s, (None, None));
      L.PlannedSpecsAreCovered(nodes, AllNodes(|nodes|), f, k, s);
    }
  }

  lemma ContributedIsInGraph(nodes: seq<L.Node>, f: L.Filter, k: nat, s: TensorSpec)
    requires L.WellFormed(nodes) && L.Contributes(nodes, AllNodes(|nodes|), f, k, s)
    ensures s in L.AllSpecs(nodes)
  {
  }

  /** Lifetimes of specs that had none. */
  method SetLifetimes(nodes: seq<L.Node>)
    requires L.WellFormed(nodes) && Fresh(nodes)
    modifies L.AllSpecs(nodes)`start, L.AllSpecs(nodes)`end
    ensures HaveHulls(nodes)
  {
    hide L.AllSpecs, L.Hull;
    ghost var was := L.LifetimesNow(nodes);
    assert forall s :: s in L.AllSpecs(nodes) ==> was[s] == (None, None);
    var _ := L.UpdateAllTensorsLifetime(nodes);
  }

  lemma GreedyServes(specs: seq<TensorSpec>, alignment: nat, input: seq<nat>, totals: seq<nat>)
    requires alignment > 0 && Distinct(specs) && HaveLifetimes(specs)
    requires totals == GreedySizes(Requests(specs, alignment), input)
    requires Realigned(specs, alignment, Requests(specs, alignment), |specs|)
    requires forall i: nat :: i < |specs| ==>
               && specs[i].memObjId == Some(Greedy(Requests(specs, alignment)).slots[i])
               && specs[i].memOffset == Some(OffsetOf(Requests(specs, alignment), input, i))
    ensures Served(GreedyPlanner, specs, alignment, input, totals)
  {
    hide GreedySizes, OffsetOf, Greedy;
  }

  lemma NaiveServes(specs: seq<TensorSpec>, alignment: nat, input: seq<nat>, totals: seq<nat>)
    requires alignment > 0 && Distinct(specs) && HaveLifetimes(specs)
    requires totals == NaiveSizes(Requests(specs, alignment), input)
    requires Realigned(specs, alignment, Requests(specs, alignment), |specs|)
    requires HaveNaiveOffsets(specs, Requests(specs, alignment), input, |specs|)
    ensures Served(NaivePlanner, specs, alignment, input, totals)
  {
    hide NaiveSizes, NaiveOffset;
  }

  /** A planned spec keeps the memory id it had, or goes to memory 1. */
  function IdAfter(memId: Option<nat>, planned: bool): Option<nat> {
    if planned && memId.None? then Some(1) else memId
  }

  lemma IdsAskedFor(specs: seq<TensorSpec>, alignment: nat, reqs: seq<Request>)
    requires alignment > 0 && HaveLifetimes(specs) && reqs == Requests(specs, alignment)
    ensures |reqs| == |specs| && forall i: nat :: i < |specs| ==> IdAfter(specs[i].memId, true) == Some(reqs[i].mem)
  {
    hide CalculateAlignedNumBytes;
    assert forall i: nat :: i < |specs| ==> reqs[i] == RequestFor(specs[i], alignment);
  }

  lemma IdsGiven(specs: seq<TensorSpec>, alignment: nat, reqs: seq<Request>)
    requires alignment > 0 && |reqs| == |specs| && Realigned(specs, alignment, reqs, |specs|)
    ensures forall i: nat :: i < |specs| ==> specs[i].memId == Some(reqs[i].mem)
  {
  }

  /** One of the two algorithms on the specs to place. */
  method PlanSpecs(algo: Algo, specs: seq<TensorSpec>, alignment: nat, input: Option<seq<nat>>) returns (totals: seq<nat>)
    requires alignment > 0 && Distinct(specs) && HaveLifetimes(specs)
    modifies specs`memId, specs`alignment, specs`memObjId, specs`memOffset
    ensures Served(algo, specs, alignment, StartSizes(input), totals)
    ensures algo == NaivePlanner ==> forall s :: s in specs ==> s.memObjId == old(s.memObjId)
    ensures forall s :: s in specs ==> s.memId == IdAfter(old(s.memId), true)
  {
    hide *;
    ghost var reqs := Requests(specs, alignment);
    IdsAskedFor(specs, alignment, reqs);
    if algo == GreedyPlanner {
      totals := GreedyAlgo(specs, alignment, input);
      GreedyServes(specs, alignment, StartSizes(input), totals);
    } else {
      totals := NaiveAlgo(specs, alignment, input);
      NaiveServes(specs, alignment, StartSizes(input), totals);
    }
    IdsGiven(specs, alignment, reqs);
  }

  lemma PlanningDedups(allocInput: bool, allocOutput: bool, doAssertion: bool)
    ensures L.PlanningFilter(allocInput, allocOutput, doAssertion).dedup
  {
  }

  lemma SpecsAreAllocated(nodes: seq<L.Node>)
    ensures forall s :: s in L.AllSpecs(nodes) ==> allocated(s)
  {
  }

  /** Lifetimes, then the specs to place, then the algorithm; None when a node is unexpected. */
  method PlanGraph(algo: Algo, nodes: seq<L.Node>, alignment: nat, input: Option<seq<nat>>,
                   allocInput: bool, allocOutput: bool, doAssertion: bool)
    returns (r: Option<(seq<TensorSpec>, seq<nat>)>)
    requires L.WellFormed(nodes) && alignment > 0 && Fresh(nodes)
    modifies L.AllSpecs(nodes)
    ensures HaveHulls(nodes)
    ensures var f := L.PlanningFilter(allocInput, allocOutput, doAssertion);
            r.None? <==> AnyUnexpected(nodes, f)
    ensures r.None? <==> doAssertion && HasOtherOp(nodes)
    ensures r.Some? ==> Served(algo, r.value.0, alignment, StartSizes(input), r.value.1)
    ensures r.Some? ==> PlacesExactly(nodes, allocInput, allocOutput, r.value.0)
    ensures r.Some? ==> forall s :: s in r.value.0 ==> s in L.AllSpecs(nodes)
    ensures r.Some? ==>
              var f := L.PlanningFilter(allocInput, allocOutput, doAssertion);
              forall s :: s in L.AllSpecs(nodes) ==> (s in r.value.0 <==> Collected(nodes, f, s))
    ensures forall s :: s in L.AllSpecs(nodes) && (r.Some? ==> s !in r.value.0) ==>
              && s.memId == old(s.memId) && s.memObjId == old(s.memObjId)
              && s.memOffset == old(s.memOffset) && s.alignment == old(s.alignment)
    ensures r.Some? ==> forall s :: s in r.value.0 ==> s.memId == IdAfter(old(s.memId), true)
    ensures algo == NaivePlanner ==> forall s :: s in L.AllSpecs(nodes) ==> s.memObjId == old(s.memObjId)
  {
    hide *;
    var f := L.PlanningFilter(allocInput, allocOutput, doAssertion);
    PlanningDedups(allocInput, allocOutput, doAssertion);
    SpecsAreAllocated(nodes);
    SetLifetimes(nodes);
    SpecsAreAllocated(nodes);
    UnexpectedIsOther(nodes, allocInput, allocOutput, doAssertion);
    var specs := Collect(nodes, f);
    if specs.None? {
      return None;
    }
    PlannedHaveLifetimes(nodes, f, specs.value);
    CollectedIsExact(nodes, allocInput, allocOutput, doAssertion, specs.value);
    SpecsAreAllocated(nodes);
    var totals := PlanSpecs(algo, specs.value, alignment, input);
    r := Some((specs.value, totals));
  }

  /** Node i reads and writes tensors it refers to; tensors are numbered, the placed ones first. */
  ghost predicate Runs(nodes: seq<L.Node>, tensors: seq<TensorSpec>, steps: seq<Step<nat>>)
    requires L.WellFormed(nodes)
  {
    && |steps| == |nodes|
    && forall i: nat, t: nat :: i < |steps| && (t in steps[i].inputs || t in steps[i].outputs) ==>
         t < |tensors| && L.Refers(nodes, i, tensors[t])
  }

  /** The run of the graph with the first tensors at the ranges of the plan. */
  ghost function SetupOf(algo: Algo, tensors: seq<TensorSpec>, reqs: seq<Request>, input: seq<nat>, steps: seq<Step<nat>>): Setup<nat>
    requires |reqs| <= |tensors|
  {
    Setup(steps, (t: nat) => if t < |tensors| then tensors[t].nbytes else 0,
          map t: nat | t < |reqs| :: OwnRange(algo, reqs, input, t), map t: nat | t < |reqs| :: reqs[t])
  }

  lemma SetupIsCovered(algo: Algo, nodes: seq<L.Node>, specs: seq<TensorSpec>, others: seq<TensorSpec>, alignment: nat,
                       input: seq<nat>, steps: seq<Step<nat>>)
    requires L.WellFormed(nodes) && HaveHulls(nodes) && alignment > 0 && HaveLifetimes(specs)
    requires (forall s :: s in specs ==> s in L.AllSpecs(nodes)) && Runs(nodes, specs + others, steps)
    ensures Covered(SetupOf(algo, specs + others, Requests(specs, alignment), input, steps))
  {
    hide L.Refers, L.AllSpecs, OwnRange;
    var reqs := Requests(specs, alignment);
    forall i: nat, t: nat | i < |steps| && (t in steps[i].inputs || t in steps[i].outputs) && t < |reqs|
      ensures reqs[t].LiveAt(i)
    {
      assert (specs + others)[t] == specs[t] && specs[t] in specs;
      assert L.Hull(nodes, |nodes|, specs[t], (None, None));
      assert i in L.References(nodes, |nodes|, specs[t]);
    }
  }

  /** The refinement for a planned graph: on buffers of the reported sizes, with lifetimes and
      offsets as `PlanGraph` leaves them, every node reads what it reads with private storage. */
  lemma PlannedGraphRefines(algo: Algo, nodes: seq<L.Node>, specs: seq<TensorSpec>, others: seq<TensorSpec>, alignment: nat,
                            input: seq<nat>, totals: seq<nat>, steps: seq<Step<nat>>, kernel: Kernel, init: Memory<nat>, i: nat)
    requires L.WellFormed(nodes) && HaveHulls(nodes) && alignment > 0 && Served(algo, specs, alignment, input, totals)
    requires (forall s :: s in specs ==> s in L.AllSpecs(nodes)) && Runs(nodes, specs + others, steps)
    requires Sized(init.buffers, totals) && i < |steps|
    requires var s := SetupOf(algo, specs + others, Requests(specs, alignment), input, steps);
             WrittenBeforeRead(s) && WellTyped(s, kernel)
    ensures var s := SetupOf(algo, specs + others, Requests(specs, alignment), input, steps);
            && AllFit(s, init.buffers)
            && ReadAllFlat(s, RunFlat(s, kernel, init, i), steps[i].inputs) ==
               ReadAllOwn(RunOwn(s, kernel, i), steps[i].inputs)
  {
    hide *;
    ServedFacts(algo, specs, alignment, input, totals);
    SetupIsCovered(algo, nodes, specs, others, alignment, input, steps);
    var reqs := Requests(specs, alignment);
    var s := SetupOf(algo, specs + others, reqs, input, steps);
    SetupIsPlaced(algo, specs, others, alignment, input, steps);
    if algo == GreedyPlanner {
      GreedyRunRefines(s, kernel, init, AllNodes(|reqs|), reqs, input, i);
    } else {
      NaiveRunRefines(s, kernel, init, AllNodes(|reqs|), reqs, input, i);
    }
  }

  lemma ServedFacts(algo: Algo, specs: seq<TensorSpec>, alignment: nat, input: seq<nat>, totals: seq<nat>)
    requires alignment > 0 && Served(algo, specs, alignment, input, totals)
    ensures HaveLifetimes(specs)
    ensures var reqs := Requests(specs, alignment);
            totals == if algo == GreedyPlanner then GreedySizes(reqs, input) else NaiveSizes(reqs, input)
  {
  }

  /** The ranges of a plan, in the order served. */
  ghost function Ranges(algo: Algo, reqs: seq<Request>, input: seq<nat>): seq<Range> {
    if algo == GreedyPlanner then GreedyRanges(reqs, input) else NaiveRanges(reqs, input)
  }

  lemma SetupIsPlaced(algo: Algo, specs: seq<TensorSpec>, others: seq<TensorSpec>, alignment: nat, input: seq<nat>,
                      steps: seq<Step<nat>>)
    requires alignment > 0 && HaveLifetimes(specs)
    ensures var reqs := Requests(specs, alignment);
            && AllValid(reqs) && SetupOf(algo, specs + others, reqs, input, steps).steps == steps
            && PlacedInOrder(SetupOf(algo, specs + others, reqs, input, steps), AllNodes(|reqs|), reqs,
                             if algo == GreedyPlanner then GreedyRanges(reqs, input) else NaiveRanges(reqs, input))
  {
    hide OwnRange, CalculateAlignedNumBytes, GreedyRanges, NaiveRanges, Requests;
    var reqs := Requests(specs, alignment);
    forall k: nat | k < |reqs|
      ensures (specs + others)[k].nbytes <= reqs[k].size
    {
      assert (specs + others)[k] == specs[k] && reqs[k] == RequestFor(specs[k], alignment);
    }
    RangesAre(algo, reqs, input);
    PlacedByIndex(SetupOf(algo, specs + others, reqs, input, steps), reqs, Ranges(algo, reqs, input));
  }

  lemma RangesAre(algo: Algo, reqs: seq<Request>, input: seq<nat>)
    ensures |Ranges(algo, reqs, input)| == |reqs|
    ensures forall k: nat :: k < |reqs| ==> Ranges(algo, reqs, input)[k] == OwnRange(algo, reqs, input, k)
  {
  }

  lemma IndicesAre(n: nat)
    ensures forall t: nat :: t in AllNodes(n) <==> t < n
  {
    forall t: nat | t < n
      ensures t in AllNodes(n)
    {
      assert AllNodes(n)[t] == t;
    }
  }

  lemma PlacedByIndex(s: Setup<nat>, reqs: seq<Request>, ranges: seq<Range>)
    requires |reqs| == |ranges| && forall t: nat :: (t in s.lives <==> t < |reqs|) && (t in s.places <==> t < |reqs|)
    requires forall k: nat :: k < |reqs| ==> s.lives[k] == reqs[k] && s.places[k] == ranges[k] && s.nbytes(k) <= reqs[k].size
    ensures PlacedInOrder(s, AllNodes(|reqs|), reqs, ranges)
  {
    IndicesAre(|reqs|);
    assert s.lives.Keys == s.places.Keys == (set t | t in AllNodes(|reqs|));
  }
}
