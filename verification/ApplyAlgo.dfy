/** `apply_algo` as it runs: plan the specs of a graph in place, then hand the sizes
    reached so far to each control-flow submodule in turn. */
module ApplyAlgo {
  import opened Wrappers
  import opened TensorSpecs
  import opened SharedObjects
  import opened GreedyPlan
  import opened NaivePlan
  import opened MemoryPlanning
  import opened ModulePlan

  /** The specs a graph plans, and its submodules in the order they are handled: the
      branches of conditionals, then the parts of while loops, then the bodies of maps. */
  datatype GraphModule = GraphModule(specs: seq<TensorSpec>, subs: seq<GraphModule>)

  ghost function SpecsIn(g: GraphModule): set<TensorSpec>
    decreases g, 1
  {
    (set s | s in g.specs) + SpecsInSubs(g, |g.subs|)
  }

  ghost function SpecsInSubs(g: GraphModule, n: nat): set<TensorSpec>
    requires n <= |g.subs|
    decreases g, 0, n
  {
    if n == 0 then {} else SpecsInSubs(g, n - 1) + SpecsIn(g.subs[n - 1])
  }

  /** No spec belongs to two modules, and every spec has a lifetime. */
  ghost predicate Ready(g: GraphModule)
    reads SpecsIn(g)`start, SpecsIn(g)`end
    decreases g, 1
  {
    Distinct(g.specs) && HaveLifetimes(g.specs) && ReadySubs(g, |g.subs|)
  }

  ghost predicate ReadySubs(g: GraphModule, n: nat)
    requires n <= |g.subs|
    reads SpecsInSubs(g, n)`start, SpecsInSubs(g, n)`end
    decreases g, 0, n
  {
    n == 0 ||
    (&& ReadySubs(g, n - 1) && Ready(g.subs[n - 1])
     && SpecsIn(g.subs[n - 1]) !! SpecsInSubs(g, n - 1)
     && SpecsIn(g.subs[n - 1]) !! (set s | s in g.specs))
  }

  ghost function ModuleOf(g: GraphModule, alignment: nat): Module
    requires alignment > 0 && Ready(g)
    reads SpecsIn(g)`start, SpecsIn(g)`end, SpecsIn(g)`memId
    decreases g, 1
  {
    Module(Requests(g.specs, alignment), ModulesOf(g, alignment, |g.subs|))
  }

  ghost function ModulesOf(g: GraphModule, alignment: nat, n: nat): (ms: seq<Module>)
    requires alignment > 0 && n <= |g.subs| && ReadySubs(g, n)
    reads SpecsInSubs(g, n)`start, SpecsInSubs(g, n)`end, SpecsInSubs(g, n)`memId
    ensures |ms| == n
    decreases g, 0, n
  {
    if n == 0 then [] else ModulesOf(g, alignment, n - 1) + [ModuleOf(g.subs[n - 1], alignment)]
  }

  /** The specs carry the ranges the algorithm gives the requests. */
  ghost predicate HaveRanges(algo: Algo, specs: seq<TensorSpec>, reqs: seq<Request>, input: seq<nat>)
    requires |specs| == |reqs|
    reads specs`memId, specs`alignment, specs`memOffset
  {
    forall i: nat :: i < |specs| ==>
      && specs[i].memId == Some(OwnRange(algo, reqs, input, i).mem)
      && specs[i].memOffset == Some(OwnRange(algo, reqs, input, i).offset)
      && specs[i].alignment > 0 && CalculateAlignedNumBytes(specs[i].nbytes, specs[i].alignment) == reqs[i].size
  }

  /** Every spec of the tree has the range that planning from `input` on gives it. */
  ghost predicate Placed(algo: Algo, g: GraphModule, m: Module, input: seq<nat>)
    reads SpecsIn(g)`memId, SpecsIn(g)`alignment, SpecsIn(g)`memOffset
    decreases g, 1
  {
    && |g.specs| == |m.reqs| && |g.subs| == |m.subs|
    && HaveRanges(algo, g.specs, m.reqs, input)
    && PlacedSubs(algo, g, m, |g.subs|, OwnSizes(algo, m.reqs, input))
  }

  ghost predicate PlacedSubs(algo: Algo, g: GraphModule, m: Module, n: nat, sizes: seq<nat>)
    requires n <= |g.subs| == |m.subs|
    reads SpecsInSubs(g, n)`memId, SpecsInSubs(g, n)`alignment, SpecsInSubs(g, n)`memOffset
    decreases g, 0, n
  {
    n == 0 ||
    (&& PlacedSubs(algo, g, m, n - 1, sizes)
     && Placed(algo, g.subs[n - 1], m.subs[n - 1], SizesAfterSubs(algo, m, n - 1, sizes)))
  }

  /** Run the algorithm on the specs of one module. */
  method PlanOwn(algo: Algo, specs: seq<TensorSpec>, alignment: nat, input: Option<seq<nat>>, ghost reqs: seq<Request>)
    returns (sizes: seq<nat>)
    requires alignment > 0 && Distinct(specs) && HaveLifetimes(specs) && reqs == Requests(specs, alignment)
    modifies specs`memId, specs`alignment, specs`memObjId, specs`memOffset
    ensures sizes == OwnSizes(algo, reqs, StartSizes(input))
    ensures HaveRanges(algo, specs, reqs, StartSizes(input))
  {
    hide Greedy, GreedySizes, OffsetOf, NaiveSizes, NaiveOffset, Distinct, CalculateAlignedNumBytes;
    if algo == GreedyPlanner {
      sizes := GreedyAlgo(specs, alignment, input);
    } else {
      sizes := NaiveAlgo(specs, alignment, input);
    }
  }

  /** Submodule n is ready, and shares no spec with the graph or with earlier submodules. */
  lemma {:induction false} SubIsReady(g: GraphModule, n: nat, bound: nat)
    requires n < bound <= |g.subs| && ReadySubs(g, bound)
    ensures Ready(g.subs[n])
    ensures SpecsIn(g.subs[n]) !! SpecsInSubs(g, n) && SpecsIn(g.subs[n]) !! (set s | s in g.specs)
    ensures SpecsIn(g.subs[n]) <= SpecsInSubs(g, bound)
    decreases bound
  {
    if n < bound - 1 {
      SubIsReady(g, n, bound - 1);
    }
  }

  lemma {:induction false} ModuleAt(g: GraphModule, alignment: nat, n: nat, bound: nat)
    requires alignment > 0 && n < bound <= |g.subs| && ReadySubs(g, bound)
    ensures Ready(g.subs[n]) && ModulesOf(g, alignment, bound)[n] == ModuleOf(g.subs[n], alignment)
    decreases bound
  {
    if n < bound - 1 {
      ModuleAt(g, alignment, n, bound - 1);
    }
  }

  lemma {:induction false} SubIsWithin(g: GraphModule, i: nat, n: nat)
    requires i < n <= |g.subs|
    ensures SpecsIn(g.subs[i]) <= SpecsInSubs(g, n)
    decreases n
  {
    if i < n - 1 {
      SubIsWithin(g, i, n - 1);
    }
  }

  /** The specs of the graph and of each of its submodules are separate. */
  ghost predicate Separate(g: GraphModule) {
    && (forall j: nat :: j < |g.subs| ==>
          && SpecsIn(g.subs[j]) <= SpecsIn(g) && SpecsIn(g.subs[j]) !! SpecsInSubs(g, j)
          && forall s :: s in g.specs ==> s !in SpecsIn(g.subs[j]))
    && (forall i: nat, j: nat :: i < j < |g.subs| ==> SpecsIn(g.subs[i]) !! SpecsIn(g.subs[j]))
  }

  /** What a ready graph gives: its own specs and those of each submodule are separate,
      and the submodules are ready. */
  lemma ReadyGraph(g: GraphModule, alignment: nat)
    requires alignment > 0 && Ready(g)
    ensures Distinct(g.specs) && HaveLifetimes(g.specs)
    ensures var m := ModuleOf(g, alignment);
            && m.reqs == Requests(g.specs, alignment) && |m.subs| == |g.subs|
            && forall j: nat :: j < |g.subs| ==> Ready(g.subs[j]) && ModuleOf(g.subs[j], alignment) == m.subs[j]
    ensures forall s :: s in g.specs ==> s in SpecsIn(g)
    ensures Separate(g)
  {
    forall j: nat | j < |g.subs|
      ensures Ready(g.subs[j]) && ModuleOf(g.subs[j], alignment) == ModuleOf(g, alignment).subs[j]
      ensures SpecsIn(g.subs[j]) <= SpecsIn(g) && SpecsIn(g.subs[j]) !! SpecsInSubs(g, j)
      ensures forall s :: s in g.specs ==> s !in SpecsIn(g.subs[j])
    {
      SubIsReady(g, j, |g.subs|);
      ModuleAt(g, alignment, j, |g.subs|);
    }
    forall i: nat, j: nat | i < j < |g.subs|
      ensures SpecsIn(g.subs[i]) !! SpecsIn(g.subs[j])
    {
      SubIsReady(g, j, |g.subs|);
      SubIsWithin(g, i, j);
    }
  }

  lemma PlacedStart(algo: Algo, g: GraphModule, m: Module, sizes: seq<nat>)
    requires |g.subs| == |m.subs|
    ensures PlacedSubs(algo, g, m, 0, sizes) && SizesAfterSubs(algo, m, 0, sizes) == sizes
  {
  }

  lemma PlacedStep(algo: Algo, g: GraphModule, m: Module, n: nat, sizes: seq<nat>)
    requires n < |g.subs| == |m.subs| && PlacedSubs(algo, g, m, n, sizes)
    requires Placed(algo, g.subs[n], m.subs[n], SizesAfterSubs(algo, m, n, sizes))
    ensures PlacedSubs(algo, g, m, n + 1, sizes)
    ensures SizesAfterSubs(algo, m, n + 1, sizes) == SizesAfter(algo, m.subs[n], SizesAfterSubs(algo, m, n, sizes))
  {
  }

  lemma PlacedWhole(algo: Algo, g: GraphModule, m: Module, input: seq<nat>)
    requires |g.subs| == |m.subs| && |g.specs| == |m.reqs| && HaveRanges(algo, g.specs, m.reqs, input)
    requires PlacedSubs(algo, g, m, |g.subs|, OwnSizes(algo, m.reqs, input))
    ensures Placed(algo, g, m, input)
    ensures SizesAfter(algo, m, input) == SizesAfterSubs(algo, m, |g.subs|, OwnSizes(algo, m.reqs, input))
  {
  }

  lemma {:induction false} AllAllocated(g: GraphModule)
    ensures forall s :: s in SpecsIn(g) ==> allocated(s)
    decreases g, 1
  {
    AllAllocatedSubs(g, |g.subs|);
  }

  lemma {:induction false} AllAllocatedSubs(g: GraphModule, n: nat)
    requires n <= |g.subs|
    ensures forall s :: s in SpecsInSubs(g, n) ==> allocated(s)
    decreases g, 0, n
  {
    if n > 0 {
      AllAllocatedSubs(g, n - 1);
      AllAllocated(g.subs[n - 1]);
    }
  }

  /** Starting sizes handed to a submodule are the ones reached so far. */
  lemma StartIsGiven(sizes: seq<nat>)
    ensures StartSizes(Some(sizes)) == sizes
  {
  }

  /** `apply_algo`: the sizes threaded through the recursion, and the range of every spec. */
  method Apply(algo: Algo, g: GraphModule, alignment: nat, input: Option<seq<nat>>) returns (bufsizes: seq<nat>)
    requires alignment > 0 && Ready(g)
    modifies SpecsIn(g)`memId, SpecsIn(g)`alignment, SpecsIn(g)`memObjId, SpecsIn(g)`memOffset
    ensures bufsizes == SizesAfter(algo, old(ModuleOf(g, alignment)), StartSizes(input))
    ensures Placed(algo, g, old(ModuleOf(g, alignment)), StartSizes(input))
    decreases g, 1
  {
    hide *;
    AllAllocated(g);
    ghost var m := ModuleOf(g, alignment);
    ReadyGraph(g, alignment);
    bufsizes := PlanOwn(algo, g.specs, alignment, input, m.reqs);
    forall j: nat | j < |g.subs|
      ensures ModuleOf(g.subs[j], alignment) == m.subs[j]
    {
      SubIsSeparate(g, j);
      assert old(ModuleOf(g.subs[j], alignment)) == m.subs[j];
    }
    bufsizes := ApplySubs(algo, g, alignment, bufsizes, m, StartSizes(input));
    PlacedWhole(algo, g, m, StartSizes(input));
  }

  lemma SubIsSeparate(g: GraphModule, j: nat)
    requires Separate(g) && j < |g.subs|
    ensures SpecsIn(g.subs[j]) <= SpecsIn(g) && SpecsIn(g.subs[j]) !! SpecsInSubs(g, j)
    ensures forall s :: s in g.specs ==> s !in SpecsIn(g.subs[j])
    ensures forall i: nat :: i < j ==> SpecsIn(g.subs[i]) !! SpecsIn(g.subs[j])
  {
  }

  /** The submodules of a graph, one after the other. */
  method ApplySubs(algo: Algo, g: GraphModule, alignment: nat, start: seq<nat>, ghost m: Module, ghost input: seq<nat>)
    returns (bufsizes: seq<nat>)
    requires alignment > 0 && |m.subs| == |g.subs| && |g.specs| == |m.reqs| && Separate(g)
    requires forall j: nat :: j < |g.subs| ==> Ready(g.subs[j]) && ModuleOf(g.subs[j], alignment) == m.subs[j]
    requires HaveRanges(algo, g.specs, m.reqs, input)
    modifies SpecsIn(g)`memId, SpecsIn(g)`alignment, SpecsIn(g)`memObjId, SpecsIn(g)`memOffset
    ensures HaveRanges(algo, g.specs, m.reqs, input)
    ensures PlacedSubs(algo, g, m, |g.subs|, start) && bufsizes == SizesAfterSubs(algo, m, |g.subs|, start)
    decreases g, 0
  {
    hide *;
    AllAllocated(g);
    bufsizes := start;
    PlacedStart(algo, g, m, start);
    for n := 0 to |g.subs|
      invariant forall j: nat :: j < |g.subs| ==> Ready(g.subs[j])
      invariant forall j: nat :: n <= j < |g.subs| ==> ModuleOf(g.subs[j], alignment) == m.subs[j]
      invariant HaveRanges(algo, g.specs, m.reqs, input)
      invariant PlacedSubs(algo, g, m, n, start) && bufsizes == SizesAfterSubs(algo, m, n, start)
    {
      StartIsGiven(bufsizes);
      SubIsSeparate(g, n);
      AllAllocatedSubs(g, n);
      forall j: nat | j < |g.subs|
        ensures forall s :: s in SpecsIn(g.subs[j]) ==> allocated(s)
      {
        AllAllocated(g.subs[j]);
      }
      label L:
      bufsizes := Apply(algo, g.subs[n], alignment, Some(bufsizes));
      forall j: nat | n < j < |g.subs|
        ensures ModuleOf(g.subs[j], alignment) == m.subs[j]
      {
        SubIsSeparate(g, j);
        assert old@L(ModuleOf(g.subs[j], alignment)) == m.subs[j];
      }
      PlacedStep(algo, g, m, n, start);
    }
  }
}
