/** Planning a graph and then checking the plan with `Verifier.verify_storage_reuse`, as the
    memory planning pass does. The check collects its specs anew, under a filter of its own. */
module PlanCheck {
  import opened Wrappers
  import opened TensorSpecs
  import opened GreedyPlan
  import opened NaivePlan
  import opened MemoryPlanning
  import opened ModulePlan
  import opened PlannedExecution
  import V = PlanVerifier
  import L = Lifetimes

  /** The filter of the check: out-variant nodes count and nothing is asserted. */
  function CheckFilter(allocInput: bool, allocOutput: bool): L.Filter {
    L.Filter(!allocInput, !allocOutput, true, false, true, false, true)
  }

  ghost predicate AddsAsOutVariant(nodes: seq<L.Node>, f: L.Filter, k: nat, s: TensorSpec)
    requires L.WellFormed(nodes) && k < |nodes|
  {
    nodes[k].op == L.Call(L.OutVariant) && L.Contributes(nodes, AllNodes(|nodes|), f, k, s)
  }

  /** What an out-variant node would add to the check, some other node adds to the plan. */
  ghost predicate OutVariantsAreListed(nodes: seq<L.Node>, plan: L.Filter, check: L.Filter)
    requires L.WellFormed(nodes)
  {
    forall k: nat, s :: k < |nodes| && s in L.AllSpecs(nodes) && AddsAsOutVariant(nodes, check, k, s) ==>
      Collected(nodes, plan, s)
  }

  lemma OnlyOutVariantsDiffer(nodes: seq<L.Node>, allocInput: bool, allocOutput: bool, doAssertion: bool, k: nat, s: TensorSpec)
    requires L.WellFormed(nodes)
    ensures var plan, check := L.PlanningFilter(allocInput, allocOutput, doAssertion), CheckFilter(allocInput, allocOutput);
            L.Contributes(nodes, AllNodes(|nodes|), plan, k, s) <==>
            L.Contributes(nodes, AllNodes(|nodes|), check, k, s) && nodes[k].op != L.Call(L.OutVariant)
  {
  }

  /** The two collections: everything planned is checked, and the converse holds exactly when
      the specs of out-variant nodes are listed elsewhere. */
  lemma CollectionsAgreeIff(nodes: seq<L.Node>, allocInput: bool, allocOutput: bool, doAssertion: bool)
    requires L.WellFormed(nodes)
    ensures var plan, check := L.PlanningFilter(allocInput, allocOutput, doAssertion), CheckFilter(allocInput, allocOutput);
            && (forall s :: Collected(nodes, plan, s) ==> Collected(nodes, check, s))
            && ((forall s :: Collected(nodes, check, s) ==> Collected(nodes, plan, s)) <==>
                OutVariantsAreListed(nodes, plan, check))
  {
    hide L.Contributes, L.PlanningFilter, CheckFilter, L.AllSpecs;
    var plan, check := L.PlanningFilter(allocInput, allocOutput, doAssertion), CheckFilter(allocInput, allocOutput);
    forall s | Collected(nodes, plan, s)
      ensures Collected(nodes, check, s)
    {
      var k: nat :| L.Contributes(nodes, AllNodes(|nodes|), plan, k, s);
      OnlyOutVariantsDiffer(nodes, allocInput, allocOutput, doAssertion, k, s);
    }
    if OutVariantsAreListed(nodes, plan, check) {
      forall s | Collected(nodes, check, s)
        ensures Collected(nodes, plan, s)
      {
        var k: nat :| L.Contributes(nodes, AllNodes(|nodes|), check, k, s);
        OnlyOutVariantsDiffer(nodes, allocInput, allocOutput, doAssertion, k, s);
        ContributedIsOwn(nodes, check, k, s);
        assert AddsAsOutVariant(nodes, check, k, s) || L.Contributes(nodes, AllNodes(|nodes|), plan, k, s);
      }
    }
    SpecsAreAllocated(nodes);
    if forall s :: Collected(nodes, check, s) ==> Collected(nodes, plan, s) {
      forall k: nat, s | k < |nodes| && s in L.AllSpecs(nodes) && AddsAsOutVariant(nodes, check, k, s)
        ensures Collected(nodes, plan, s)
      {
        assert Collected(nodes, check, s);
      }
    }
  }

  lemma ContributedIsOwn(nodes: seq<L.Node>, f: L.Filter, k: nat, s: TensorSpec)
    requires L.WellFormed(nodes)
    ensures L.Contributes(nodes, AllNodes(|nodes|), f, k, s) ==> k < |nodes| && s in L.AllSpecs(nodes)
  {
  }

  ghost function CheckedSpecs(nodes: seq<L.Node>, check: L.Filter): set<TensorSpec>
    requires L.WellFormed(nodes)
  {
    set s | s in L.AllSpecs(nodes) && Collected(nodes, check, s)
  }

  /** The memory ids specs have before planning. */
  ghost function Ids(nodes: seq<L.Node>): (ids: map<TensorSpec, Option<nat>>)
    reads L.AllSpecs(nodes)`memId
    ensures ids.Keys == L.AllSpecs(nodes)
  {
    map s | s in L.AllSpecs(nodes) :: s.memId
  }

  /** A spec that is checked without having been planned has a memory to itself, and greedy has
      planned nothing at all. */
  ghost predicate Verifiable(algo: Algo, nodes: seq<L.Node>, plan: L.Filter, check: L.Filter, ids: map<TensorSpec, Option<nat>>)
    requires L.WellFormed(nodes) && ids.Keys == L.AllSpecs(nodes)
  {
    forall s, t :: s in CheckedSpecs(nodes, check) && t in CheckedSpecs(nodes, check) && s != t && !Collected(nodes, plan, s) ==>
      && (algo == GreedyPlanner ==> !Collected(nodes, plan, t))
      && ids[s] != IdAfter(ids[t], Collected(nodes, plan, t))
  }

  /** Specs as they are before planning. */
  ghost predicate Unplaced(nodes: seq<L.Node>)
    reads L.AllSpecs(nodes)
  {
    forall s :: s in L.AllSpecs(nodes) ==> s.memObjId == None && s.memOffset == None && s.alignment > 0
  }

  lemma SymmetricRaise(a: V.Placement, b: V.Placement, allowBoth: bool)
    ensures V.Objectionable(a, b, allowBoth) <==> V.Objectionable(b, a, allowBoth)
    ensures V.Objectionable(a, b, true) ==> V.Objectionable(a, b, false)
  {
  }

  /** A spec without a place is tolerated beside another only in a memory of its own. */
  lemma UnplacedPair(a: V.Placement, b: V.Placement, allowBoth: bool)
    requires a.memObjId == None && a.memOffset == None
    ensures V.Objectionable(a, b, allowBoth) <==> b.memObjId.Some? || a.memId == b.memId
  {
  }

  lemma AllowingMoreAccepts(ps: seq<V.Placement>, allowBoth: bool)
    requires V.Accepted(ps, false)
    ensures V.Accepted(ps, allowBoth)
  {
    hide V.Objectionable;
    forall i: nat, j: nat | i < j < |ps|
      ensures !V.Objectionable(ps[i], ps[j], allowBoth)
    {
      assert !V.Objectionable(ps[i], ps[j], false);
      SymmetricRaise(ps[i], ps[j], allowBoth);
    }
  }

  /** What the algorithm served is accepted. */
  lemma ServedIsAccepted(algo: Algo, specs: seq<TensorSpec>, alignment: nat, input: seq<nat>, totals: seq<nat>, allowBoth: bool)
    requires alignment > 0 && Served(algo, specs, alignment, input, totals)
    requires algo == NaivePlanner ==> forall s :: s in specs ==> s.memObjId == None
    ensures forall s :: s in specs ==> s.alignment > 0 && s.memOffset.Some? && (s.memObjId.Some? <==> algo == GreedyPlanner)
    ensures Distinct(specs) && V.Accepted(V.Placements(specs), allowBoth)
  {
    hide OwnSizes, OffsetOf, NaiveOffset, Greedy, V.Accepted, CalculateAlignedNumBytes;
    var reqs := Requests(specs, alignment);
    var ps := V.Placements(specs);
    if algo == GreedyPlanner {
      forall i: nat | i < |reqs|
        ensures V.Places(ps[i], reqs[i], Some(Greedy(reqs).slots[i]), OffsetOf(reqs, input, i))
      {
      }
      V.GreedyIsAccepted(reqs, input, ps);
    } else {
      forall i: nat | i < |reqs|
        ensures V.Places(ps[i], reqs[i], None, NaiveOffset(reqs, input, i))
      {
        assert specs[i] in specs;
      }
      V.NaiveIsAccepted(reqs, input, ps);
    }
    AllowingMoreAccepts(ps, allowBoth);
  }

  /** No pair of the list makes the check raise. */
  ghost predicate PairsPass(all: seq<TensorSpec>, allowBoth: bool)
    requires forall s :: s in all ==> s.alignment > 0
    reads all
  {
    forall s, t :: s in all && t in all && s != t ==> !V.Objectionable(V.PlacementOf(s), V.PlacementOf(t), allowBoth)
  }

  lemma AcceptedIsPairwise(all: seq<TensorSpec>, allowBoth: bool)
    requires Distinct(all) && forall s :: s in all ==> s.alignment > 0
    ensures V.Accepted(V.Placements(all), allowBoth) <==> PairsPass(all, allowBoth)
  {
    hide V.Objectionable, V.PlacementOf;
    var ps := V.Placements(all);
    if V.Accepted(ps, allowBoth) {
      forall s, t | s in all && t in all && s != t
        ensures !V.Objectionable(V.PlacementOf(s), V.PlacementOf(t), allowBoth)
      {
        var i: nat :| i < |all| && all[i] == s;
        var j: nat :| j < |all| && all[j] == t;
        assert !V.Objectionable(ps[i], ps[j], allowBoth) || !V.Objectionable(ps[j], ps[i], allowBoth);
        SymmetricRaise(ps[i], ps[j], allowBoth);
      }
    }
    if PairsPass(all, allowBoth) {
      forall i: nat, j: nat | i < j < |ps|
        ensures !V.Objectionable(ps[i], ps[j], allowBoth)
      {
        assert all[i] in all && all[j] in all && all[i] != all[j];
      }
    }
  }

  /** The verdict on a list that holds the served specs and perhaps others without a place. */
  lemma VerdictIff(algo: Algo, specs: seq<TensorSpec>, all: seq<TensorSpec>, allowBoth: bool)
    requires Distinct(specs) && Distinct(all) && forall s :: s in specs ==> s in all
    requires forall s :: s in all ==> s.alignment > 0
    requires forall s :: s in specs ==> (s.memObjId.Some? <==> algo == GreedyPlanner)
    requires forall s :: s in all && s !in specs ==> s.memObjId == None && s.memOffset == None
    requires V.Accepted(V.Placements(specs), allowBoth)
    ensures V.Accepted(V.Placements(all), allowBoth) <==>
            forall s, t :: s in all && t in all && s != t && s !in specs ==>
              (algo == GreedyPlanner ==> t !in specs) && s.memId != t.memId
  {
    hide V.Objectionable, V.Accepted, V.Placements, Distinct;
    AcceptedIsPairwise(specs, allowBoth);
    AcceptedIsPairwise(all, allowBoth);
    forall s, t | s in all && t in all && s != t && s !in specs
      ensures V.Objectionable(V.PlacementOf(s), V.PlacementOf(t), allowBoth) <==>
              (algo == GreedyPlanner && t in specs) || s.memId == t.memId
      ensures V.Objectionable(V.PlacementOf(s), V.PlacementOf(t), allowBoth) <==>
              V.Objectionable(V.PlacementOf(t), V.PlacementOf(s), allowBoth)
    {
      UnplacedPair(V.PlacementOf(s), V.PlacementOf(t), allowBoth);
      SymmetricRaise(V.PlacementOf(s), V.PlacementOf(t), allowBoth);
    }
  }

  datatype Outcome = PlanFails | Rejected | Verified(pairs: nat)

  lemma NothingIsAsserted(nodes: seq<L.Node>, allocInput: bool, allocOutput: bool)
    requires L.WellFormed(nodes)
    ensures !AnyUnexpected(nodes, CheckFilter(allocInput, allocOutput))
  {
  }

  /** The specs the check looks at. */
  method CollectForCheck(nodes: seq<L.Node>, allocInput: bool, allocOutput: bool) returns (all: seq<TensorSpec>)
    requires L.WellFormed(nodes)
    ensures Distinct(all) && (set s | s in all) == CheckedSpecs(nodes, CheckFilter(allocInput, allocOutput))
  {
    hide Collected, L.AllSpecs;
    NothingIsAsserted(nodes, allocInput, allocOutput);
    var c := Collect(nodes, CheckFilter(allocInput, allocOutput));
    all := c.value;
    forall s | s in all
      ensures s in L.AllSpecs(nodes)
    {
      CollectedIsInGraph(nodes, CheckFilter(allocInput, allocOutput), s);
    }
    SpecsAreAllocated(nodes);
    assert forall s :: s in CheckedSpecs(nodes, CheckFilter(allocInput, allocOutput)) ==> s in all;
  }

  lemma CollectedIsInGraph(nodes: seq<L.Node>, f: L.Filter, s: TensorSpec)
    requires L.WellFormed(nodes) && Collected(nodes, f, s)
    ensures s in L.AllSpecs(nodes)
  {
    hide L.Contributes, L.AllSpecs;
    var k: nat :| L.Contributes(nodes, AllNodes(|nodes|), f, k, s);
    ContributedIsInGraph(nodes, f, k, s);
  }

  lemma AgreeingIsVerifiable(algo: Algo, nodes: seq<L.Node>, allocInput: bool, allocOutput: bool, doAssertion: bool,
                             ids: map<TensorSpec, Option<nat>>)
    requires L.WellFormed(nodes) && ids.Keys == L.AllSpecs(nodes)
    ensures var plan, check := L.PlanningFilter(allocInput, allocOutput, doAssertion), CheckFilter(allocInput, allocOutput);
            OutVariantsAreListed(nodes, plan, check) ==> Verifiable(algo, nodes, plan, check, ids)
  {
    hide Collected, OutVariantsAreListed;
    CollectionsAgreeIff(nodes, allocInput, allocOutput, doAssertion);
  }

  /** An allocation and an out-variant node whose spec no other node carries: after greedy the
      check meets a spec without an object. */
  lemma UnlistedOutVariantFails(a: TensorSpec, b: TensorSpec, allocInput: bool, allocOutput: bool, doAssertion: bool,
                                ids: map<TensorSpec, Option<nat>>)
    requires a != b && !a.constant && !b.constant && a.dynamism == b.dynamism == Static
    requires ids.Keys == {a, b}
    ensures var nodes := [L.Node(L.Call(L.Alloc), [a], [], false), L.Node(L.Call(L.OutVariant), [b], [0], false)];
            && L.WellFormed(nodes) && L.AllSpecs(nodes) == {a, b}
            && !Verifiable(GreedyPlanner, nodes, L.PlanningFilter(allocInput, allocOutput, doAssertion),
                           CheckFilter(allocInput, allocOutput), ids)
  {
    var nodes := [L.Node(L.Call(L.Alloc), [a], [], false), L.Node(L.Call(L.OutVariant), [b], [0], false)];
    var plan, check := L.PlanningFilter(allocInput, allocOutput, doAssertion), CheckFilter(allocInput, allocOutput);
    assert L.AllSpecs(nodes) == {a, b} by {
      assert nodes[0] in nodes && nodes[1] in nodes && a in nodes[0].specs && b in nodes[1].specs;
    }
    assert L.Contributes(nodes, AllNodes(2), plan, 0, a);
    assert L.Contributes(nodes, AllNodes(2), check, 0, a) && L.Contributes(nodes, AllNodes(2), check, 1, b);
    assert b in CheckedSpecs(nodes, check) && a in CheckedSpecs(nodes, check);
    assert !Collected(nodes, plan, b);
  }

  /** What planning leaves for the check to look at: the specs served, and others as they were. */
  ghost predicate Leaves(algo: Algo, nodes: seq<L.Node>, plan: L.Filter, specs: seq<TensorSpec>,
                         ids: map<TensorSpec, Option<nat>>)
    requires L.WellFormed(nodes)
    reads L.AllSpecs(nodes)
  {
    && ids.Keys == L.AllSpecs(nodes)
    && (forall s :: s in specs ==> s in ids)
    && (forall s :: s in ids ==>
         && (s in specs <==> Collected(nodes, plan, s))
         && s.alignment > 0 && s.memId == IdAfter(ids[s], s in specs)
         && (s.memObjId == None || (s in specs && algo == GreedyPlanner))
         && (s in specs || s.memOffset == None))
  }

  lemma VerdictAfter(algo: Algo, nodes: seq<L.Node>, plan: L.Filter, check: L.Filter, specs: seq<TensorSpec>,
                     all: seq<TensorSpec>, ids: map<TensorSpec, Option<nat>>, allowBoth: bool)
    requires L.WellFormed(nodes) && Leaves(algo, nodes, plan, specs, ids)
    requires (forall s :: s in specs ==> s in all) && (set s | s in all) == CheckedSpecs(nodes, check)
    requires Distinct(specs) && Distinct(all)
    requires forall s :: s in specs ==> s.alignment > 0 && (s.memObjId.Some? <==> algo == GreedyPlanner)
    requires V.Accepted(V.Placements(specs), allowBoth)
    ensures forall s :: s in all ==> s.alignment > 0
    ensures V.Accepted(V.Placements(all), allowBoth) <==>
            Verifiable(algo, nodes, plan, check, ids)
  {
    hide V.Accepted, V.Placements, Distinct, Collected, L.AllSpecs;
    assert forall s :: s in all <==> s in CheckedSpecs(nodes, check);
    VerdictIff(algo, specs, all, allowBoth);
  }

  lemma BeforePlanning(nodes: seq<L.Node>, ids: map<TensorSpec, Option<nat>>)
    requires Unplaced(nodes) && ids == Ids(nodes)
    ensures ids.Keys == L.AllSpecs(nodes)
    ensures forall s :: s in ids ==> s.memId == ids[s] && s.memObjId == None && s.memOffset == None && s.alignment > 0
  {
  }

  lemma LeftByPlanning(algo: Algo, nodes: seq<L.Node>, plan: L.Filter, specs: seq<TensorSpec>, ids: map<TensorSpec, Option<nat>>)
    requires L.WellFormed(nodes) && ids.Keys == L.AllSpecs(nodes)
    requires forall s :: s in specs ==> s in ids && s.alignment > 0 && s.memId == IdAfter(ids[s], true)
    requires forall s :: s in ids && s !in specs ==>
               s.memId == ids[s] && s.memObjId == None && s.memOffset == None && s.alignment > 0
    requires algo == NaivePlanner ==> forall s :: s in ids ==> s.memObjId == None
    requires forall s :: s in ids ==> (s in specs <==> Collected(nodes, plan, s))
    ensures Leaves(algo, nodes, plan, specs, ids)
  {
    hide L.Contributes, L.AllSpecs;
  }

  lemma PlannedAreChecked(nodes: seq<L.Node>, allocInput: bool, allocOutput: bool, doAssertion: bool,
                          specs: seq<TensorSpec>, all: seq<TensorSpec>)
    requires L.WellFormed(nodes) && (set s | s in all) == CheckedSpecs(nodes, CheckFilter(allocInput, allocOutput))
    requires forall s :: s in specs ==>
               s in L.AllSpecs(nodes) && Collected(nodes, L.PlanningFilter(allocInput, allocOutput, doAssertion), s)
    ensures forall s :: s in specs ==> s in all
  {
    hide L.Contributes, L.AllSpecs;
    CollectionsAgreeIff(nodes, allocInput, allocOutput, doAssertion);
    assert forall s :: s in specs ==> s in CheckedSpecs(nodes, CheckFilter(allocInput, allocOutput));
  }

  /** Plan a graph, then check the plan. With every out-variant spec listed elsewhere the check
      passes; in general it passes exactly on `Verifiable` graphs. */
  method PlanAndVerify(algo: Algo, nodes: seq<L.Node>, alignment: nat, input: Option<seq<nat>>,
                       allocInput: bool, allocOutput: bool, doAssertion: bool, allowBoth: bool)
    returns (r: Outcome, checked: seq<TensorSpec>)
    requires L.WellFormed(nodes) && alignment > 0 && Fresh(nodes) && Unplaced(nodes)
    modifies L.AllSpecs(nodes)
    ensures var plan := L.PlanningFilter(allocInput, allocOutput, doAssertion);
            r.PlanFails? <==> AnyUnexpected(nodes, plan)
    ensures !r.PlanFails? ==>
              var plan, check := L.PlanningFilter(allocInput, allocOutput, doAssertion), CheckFilter(allocInput, allocOutput);
              && (r.Verified? <==> Verifiable(algo, nodes, plan, check, old(Ids(nodes))))
              && (OutVariantsAreListed(nodes, plan, check) ==> r.Verified?)
              && Distinct(checked) && (set s | s in checked) == CheckedSpecs(nodes, check)
              && forall s :: s in checked ==> s.alignment > 0
    ensures r.Verified? ==> r.pairs == |V.SharingPairs(V.Placements(checked))|
  {
    hide *;
    ghost var plan, check := L.PlanningFilter(allocInput, allocOutput, doAssertion), CheckFilter(allocInput, allocOutput);
    ghost var ids := Ids(nodes);
    AgreeingIsVerifiable(algo, nodes, allocInput, allocOutput, doAssertion, ids);
    BeforePlanning(nodes, ids);
    checked := [];
    var p := PlanGraph(algo, nodes, alignment, input, allocInput, allocOutput, doAssertion);
    if p.None? {
      return PlanFails, checked;
    }
    ghost var specs := p.value.0;
    SpecsAreAllocated(nodes);
    checked := CollectForCheck(nodes, allocInput, allocOutput);
    ServedIsAccepted(algo, specs, alignment, StartSizes(input), p.value.1, allowBoth);
    LeftByPlanning(algo, nodes, plan, specs, ids);
    PlannedAreChecked(nodes, allocInput, allocOutput, doAssertion, specs, checked);
    VerdictAfter(algo, nodes, plan, check, specs, checked, ids, allowBoth);
    var v := V.VerifyStorageReuse(checked, allowBoth);
    r := if v.None? then Rejected else Verified(v.value);
  }
}
