/** Planning a graph together with its control-flow submodules (`apply_algo`), on values:
    each module starts where the sizes reported so far end. */
module ModulePlan {
  import opened TensorSpecs
  import opened SharedObjects
  import opened Sums
  import opened GreedyPlan
  import opened NaivePlan

  datatype Algo = GreedyPlanner | NaivePlanner

  /** The requests of a graph and its submodules in the order they are handled. */
  datatype Module = Module(reqs: seq<Request>, subs: seq<Module>)

  /** The sizes one module's own planning reports. */
  ghost function OwnSizes(algo: Algo, reqs: seq<Request>, input: seq<nat>): seq<nat> {
    if algo == GreedyPlanner then GreedySizes(reqs, input) else NaiveSizes(reqs, input)
  }

  ghost function OwnRange(algo: Algo, reqs: seq<Request>, input: seq<nat>, i: nat): Range
    requires i < |reqs|
  {
    if algo == GreedyPlanner then RangeOf(reqs, input, i) else NaiveRange(reqs, input, i)
  }

  /** The sizes `apply_algo` reports for a graph: its own, threaded through its submodules. */
  ghost function SizesAfter(algo: Algo, m: Module, input: seq<nat>): seq<nat>
    decreases m, 1
  {
    SizesAfterSubs(algo, m, |m.subs|, OwnSizes(algo, m.reqs, input))
  }

  ghost function SizesAfterSubs(algo: Algo, m: Module, n: nat, sizes: seq<nat>): seq<nat>
    requires n <= |m.subs|
    decreases m, 0, n
  {
    if n == 0 then sizes else SizesAfter(algo, m.subs[n - 1], SizesAfterSubs(algo, m, n - 1, sizes))
  }

  /** The modules of a tree in the order they are planned. */
  function Preorder(m: Module): seq<seq<Request>>
    decreases m, 1
  {
    [m.reqs] + PreorderSubs(m, |m.subs|)
  }

  function PreorderSubs(m: Module, n: nat): seq<seq<Request>>
    requires n <= |m.subs|
    decreases m, 0, n
  {
    if n == 0 then [] else PreorderSubs(m, n - 1) + Preorder(m.subs[n - 1])
  }

  /** The sizes after planning the modules of a list one after another. */
  ghost function Fold(algo: Algo, mods: seq<seq<Request>>, input: seq<nat>): seq<nat> {
    if mods == [] then input
    else OwnSizes(algo, mods[|mods| - 1], Fold(algo, mods[..|mods| - 1], input))
  }

  lemma {:induction false} FoldConcat(algo: Algo, a: seq<seq<Request>>, b: seq<seq<Request>>, input: seq<nat>)
    ensures Fold(algo, a + b, input) == Fold(algo, b, Fold(algo, a, input))
  {
    hide OwnSizes;
    if b == [] {
      assert a + b == a;
    } else {
      var n := |b| - 1;
      assert (a + b)[..|a + b| - 1] == a + b[..n];
      FoldConcat(algo, a, b[..n], input);
    }
  }

  /** The recursion over submodules is one pass over the modules of the tree. */
  lemma {:induction false} ApplyIsFold(algo: Algo, m: Module, input: seq<nat>)
    ensures SizesAfter(algo, m, input) == Fold(algo, Preorder(m), input)
    decreases m, 1
  {
    hide OwnSizes;
    var own := OwnSizes(algo, m.reqs, input);
    ApplySubsIsFold(algo, m, |m.subs|, own);
    assert Fold(algo, [m.reqs], input) == own by {
      assert [m.reqs][..0] == [];
    }
    FoldConcat(algo, [m.reqs], PreorderSubs(m, |m.subs|), input);
  }

  lemma {:induction false} ApplySubsIsFold(algo: Algo, m: Module, n: nat, sizes: seq<nat>)
    requires n <= |m.subs|
    ensures SizesAfterSubs(algo, m, n, sizes) == Fold(algo, PreorderSubs(m, n), sizes)
    decreases m, 0, n
  {
    hide OwnSizes;
    if n > 0 {
      ApplySubsIsFold(algo, m, n - 1, sizes);
      ApplyIsFold(algo, m.subs[n - 1], SizesAfterSubs(algo, m, n - 1, sizes));
      FoldConcat(algo, PreorderSubs(m, n - 1), Preorder(m.subs[n - 1]), sizes);
    }
  }

  ghost predicate ValidModules(mods: seq<seq<Request>>) {
    forall k :: 0 <= k < |mods| ==> AllValid(mods[k])
  }

  /** Where module k starts. */
  ghost function Base(algo: Algo, mods: seq<seq<Request>>, k: nat): seq<nat>
    requires k <= |mods|
  {
    Fold(algo, mods[..k], [0, 0])
  }

  /** The range of request i of module k. */
  ghost function ModuleRange(algo: Algo, mods: seq<seq<Request>>, k: nat, i: nat): Range
    requires k < |mods| && i < |mods[k]|
  {
    OwnRange(algo, mods[k], Base(algo, mods, k), i)
  }

  lemma BaseStep(algo: Algo, mods: seq<seq<Request>>, k: nat)
    requires k < |mods|
    ensures Base(algo, mods, k + 1) == OwnSizes(algo, mods[k], Base(algo, mods, k))
  {
    hide OwnSizes;
    assert mods[..k + 1][..k] == mods[..k];
  }

  /** No two modules share a byte, and every byte in use is inside the sizes reported at
      the end. */
  ghost predicate Apart(algo: Algo, mods: seq<seq<Request>>) {
    forall k: nat, l: nat, i: nat, j: nat :: k < l < |mods| && i < |mods[k]| && j < |mods[l]| ==>
      !ModuleRange(algo, mods, k, i).Overlaps(ModuleRange(algo, mods, l, j))
  }

  ghost predicate Contained(algo: Algo, mods: seq<seq<Request>>) {
    forall k: nat, i: nat :: k < |mods| && i < |mods[k]| && mods[k][i].size > 0 ==>
      ModuleRange(algo, mods, k, i).Within([], Base(algo, mods, |mods|))
  }

  ghost predicate Sees(reqs: seq<Request>, m: nat) {
    exists i :: 0 <= i < |reqs| && reqs[i].mem == m
  }

  /** Once a module has put bytes into a memory, every later module plans something there. */
  ghost predicate Persistent(mods: seq<seq<Request>>) {
    forall i: nat, k: nat, m: nat :: i < k < |mods| && Demand(mods[i], m) > 0 ==> Sees(mods[k], m)
  }

  lemma OwnRangeWithin(algo: Algo, reqs: seq<Request>, input: seq<nat>, i: nat)
    requires AllValid(reqs) && i < |reqs|
    ensures OwnRange(algo, reqs, input, i).Within(input, OwnSizes(algo, reqs, input))
    ensures OwnRange(algo, reqs, input, i).mem == reqs[i].mem && OwnRange(algo, reqs, input, i).size == reqs[i].size
    ensures reqs[i].size <= Demand(reqs, reqs[i].mem)
  {
    GreedyInBounds(reqs, input, i);
    NaiveIsSafe(reqs, input, i, i);
    DemandGrows(reqs, i, |reqs|);
    assert reqs[..|reqs|] == reqs;
  }

  /** What one module reports for memory m. */
  lemma OwnSizeAt(algo: Algo, reqs: seq<Request>, input: seq<nat>, m: nat)
    requires AllValid(reqs)
    ensures algo == NaivePlanner ==> At(OwnSizes(algo, reqs, input), m) == At(input, m) + Demand(reqs, m)
    ensures Sees(reqs, m) ==>
              At(input, m) <= At(OwnSizes(algo, reqs, input), m) <= At(input, m) + Demand(reqs, m)
    ensures algo == GreedyPlanner && !Sees(reqs, m) ==> At(OwnSizes(algo, reqs, input), m) == 0
  {
    NaiveSizeAt(reqs, input, m);
    SizeOfSeen(reqs, input, m);
    SeenMemories(reqs, m);
    SegmentsWithinDemand(reqs, m);
  }

  /** Memory m does not shrink from module a to module b. */
  lemma {:induction false} BaseGrows(algo: Algo, mods: seq<seq<Request>>, a: nat, b: nat, m: nat)
    requires ValidModules(mods) && a <= b <= |mods|
    requires algo == NaivePlanner || forall c: nat :: a <= c < b ==> Sees(mods[c], m)
    ensures At(Base(algo, mods, a), m) <= At(Base(algo, mods, b), m)
    decreases b
  {
    hide OwnSizes, Base, Sees, Demand, At;
    if a < b {
      BaseGrows(algo, mods, a, b - 1, m);
      BaseStep(algo, mods, b - 1);
      OwnSizeAt(algo, mods[b - 1], Base(algo, mods, b - 1), m);
    }
  }

  /** The sufficient half: disjoint and contained, for naive always, for greedy when
      memories in use stay in use. */
  lemma SizesProtect(algo: Algo, mods: seq<seq<Request>>)
    requires ValidModules(mods)
    requires algo == NaivePlanner || Persistent(mods)
    ensures Apart(algo, mods) && Contained(algo, mods)
  {
    hide OwnRange, OwnSizes, Base, Demand, Sees;
    forall k: nat, i: nat, b: nat | k < b <= |mods| && i < |mods[k]| && mods[k][i].size > 0
      ensures var r := ModuleRange(algo, mods, k, i);
              r.mem == mods[k][i].mem && r.size == mods[k][i].size && r.offset + r.size <= At(Base(algo, mods, b), r.mem)
    {
      OwnRangeWithin(algo, mods[k], Base(algo, mods, k), i);
      BaseStep(algo, mods, k);
      BaseGrows(algo, mods, k + 1, b, mods[k][i].mem);
    }
    forall k: nat, l: nat, i: nat, j: nat | k < l < |mods| && i < |mods[k]| && j < |mods[l]|
      ensures !ModuleRange(algo, mods, k, i).Overlaps(ModuleRange(algo, mods, l, j))
    {
      OwnRangeWithin(algo, mods[k], Base(algo, mods, k), i);
      OwnRangeWithin(algo, mods[l], Base(algo, mods, l), j);
    }
  }

  /** A memory that is empty stays so while no module asks anything of it. */
  lemma {:induction false} EmptyStaysEmpty(mods: seq<seq<Request>>, a: nat, b: nat, m: nat)
    requires ValidModules(mods) && a <= b <= |mods| && At(Base(GreedyPlanner, mods, a), m) == 0
    requires forall c: nat :: a <= c < b ==> Demand(mods[c], m) == 0
    ensures At(Base(GreedyPlanner, mods, b), m) == 0
    decreases b
  {
    hide OwnSizes, Base, Sees, Demand, At;
    if a < b {
      EmptyStaysEmpty(mods, a, b - 1, m);
      BaseStep(GreedyPlanner, mods, b - 1);
      OwnSizeAt(GreedyPlanner, mods[b - 1], Base(GreedyPlanner, mods, b - 1), m);
    }
  }

  /** The first module from a on that asks for memory m. */
  lemma FirstAsking(mods: seq<seq<Request>>, a: nat, b: nat, m: nat) returns (k: nat)
    requires a <= b < |mods| && Demand(mods[b], m) > 0
    ensures a <= k <= b && Demand(mods[k], m) > 0
    ensures forall c: nat :: a <= c < k ==> Demand(mods[c], m) == 0
  {
    hide Demand;
    k := a;
    while Demand(mods[k], m) == 0
      invariant a <= k <= b
      invariant forall c: nat :: a <= c < k ==> Demand(mods[c], m) == 0
      decreases b - k
    {
      k := k + 1;
    }
  }

  /** If memory m is empty at module a, the first module asking for it starts at byte 0. */
  lemma StartsAtZero(mods: seq<seq<Request>>, a: nat, b: nat, m: nat) returns (k: nat, i: nat)
    requires ValidModules(mods) && a <= b < |mods| && Demand(mods[b], m) > 0
    requires At(Base(GreedyPlanner, mods, a), m) == 0
    ensures a <= k <= b && i < |mods[k]| && Demand(mods[k], m) > 0
    ensures var r := ModuleRange(GreedyPlanner, mods, k, i); r.mem == m && r.offset == 0 && r.size == mods[k][i].size > 0
  {
    hide Base, Demand, OffsetOf;
    k := FirstAsking(mods, a, b, m);
    EmptyStaysEmpty(mods, a, k, m);
    i := SomethingAtTheStart(mods[k], Base(GreedyPlanner, mods, k), m);
  }

  /** The necessary half: a module that plans nothing in a memory already in use makes
      greedy either overlap two modules or report too small a buffer. */
  lemma ForgottenMemoryIsReused(mods: seq<seq<Request>>, i: nat, k: nat, m: nat)
    requires ValidModules(mods) && i < k < |mods| && Demand(mods[i], m) > 0 && !Sees(mods[k], m)
    ensures !(Apart(GreedyPlanner, mods) && Contained(GreedyPlanner, mods))
  {
    hide ModuleRange, Demand, Sees, Base, OwnSizes;
    assert At(Base(GreedyPlanner, mods, 0), m) == 0 by {
      NothingAtFirst(mods, m);
    }
    var a, x := StartsAtZero(mods, 0, i, m);
    BaseStep(GreedyPlanner, mods, k);
    OwnSizeAt(GreedyPlanner, mods[k], Base(GreedyPlanner, mods, k), m);
    if j: nat :| k < j < |mods| && Demand(mods[j], m) > 0 {
      var b, y := StartsAtZero(mods, k + 1, j, m);
      assert ModuleRange(GreedyPlanner, mods, a, x).Overlaps(ModuleRange(GreedyPlanner, mods, b, y));
    } else {
      EmptyStaysEmpty(mods, k + 1, |mods|, m);
      assert !ModuleRange(GreedyPlanner, mods, a, x).Within([], Base(GreedyPlanner, mods, |mods|));
    }
  }

  lemma NothingAtFirst(mods: seq<seq<Request>>, m: nat)
    ensures At(Base(GreedyPlanner, mods, 0), m) == 0
  {
    assert mods[..0] == [];
  }

  /** Naive planning of a whole tree keeps all modules apart and reports enough. */
  lemma NaiveTreeIsSound(tree: Module)
    requires ValidModules(Preorder(tree))
    ensures Apart(NaivePlanner, Preorder(tree)) && Contained(NaivePlanner, Preorder(tree))
    ensures SizesAfter(NaivePlanner, tree, [0, 0]) == Base(NaivePlanner, Preorder(tree), |Preorder(tree)|)
  {
    SizesProtect(NaivePlanner, Preorder(tree));
    ApplyIsFold(NaivePlanner, tree, [0, 0]);
    assert Preorder(tree)[..|Preorder(tree)|] == Preorder(tree);
  }

  /** Greedy planning of a whole tree does so exactly when every module plans something
      in each memory that an earlier module put bytes into. */
  lemma GreedyTreeIsSoundIff(tree: Module)
    requires ValidModules(Preorder(tree))
    ensures Apart(GreedyPlanner, Preorder(tree)) && Contained(GreedyPlanner, Preorder(tree)) <==>
            Persistent(Preorder(tree))
    ensures SizesAfter(GreedyPlanner, tree, [0, 0]) == Base(GreedyPlanner, Preorder(tree), |Preorder(tree)|)
  {
    hide Apart, Contained, Preorder, Demand, Sees;
    var mods := Preorder(tree);
    ApplyIsFold(GreedyPlanner, tree, [0, 0]);
    assert mods[..|mods|] == mods;
    if Persistent(mods) {
      SizesProtect(GreedyPlanner, mods);
    } else {
      var i: nat, k: nat, m: nat :| i < k < |mods| && Demand(mods[i], m) > 0 && !Sees(mods[k], m);
      ForgottenMemoryIsReused(mods, i, k, m);
    }
  }

  /** A conditional whose first branch plans nothing: the second branch is laid over the
      tensor of the enclosing graph. */
  lemma EmptyBranchOverlapsParent()
    ensures var r := Request(1, 16, 0, 9);
            var mods := Preorder(Module([r], [Module([], []), Module([r], [])]));
            !(Apart(GreedyPlanner, mods) && Contained(GreedyPlanner, mods))
  {
    var r := Request(1, 16, 0, 9);
    var tree := Module([r], [Module([], []), Module([r], [])]);
    var mods := Preorder(tree);
    assert Preorder(Module([], [])) == [[]] && Preorder(Module([r], [])) == [[r]];
    assert PreorderSubs(tree, 1) == [[]];
    assert PreorderSubs(tree, 2) == [[], [r]];
    assert mods == [[r], [], [r]];
    assert Demand(mods[0], 1) == 16 by {
      assert [r][..0] == [];
    }
    ForgottenMemoryIsReused(mods, 0, 1, 1);
  }

  ghost predicate AlignedRequests(reqs: seq<Request>, alignment: nat)
    requires alignment > 0
  {
    forall i :: 0 <= i < |reqs| ==> reqs[i].size % alignment == 0
  }

  ghost predicate AlignedSizes(sizes: seq<nat>, alignment: nat)
    requires alignment > 0
  {
    forall m: nat :: At(sizes, m) % alignment == 0
  }

  lemma {:induction false} SumsAreAligned(s: seq<nat>, alignment: nat)
    requires alignment > 0 && forall i :: 0 <= i < |s| ==> s[i] % alignment == 0
    ensures Sum(s) % alignment == 0
  {
    if s != [] {
      SumsAreAligned(s[..|s| - 1], alignment);
      SumIsAligned(Sum(s[..|s| - 1]), s[|s| - 1], alignment);
    }
  }

  lemma {:induction false} DemandIsAligned(reqs: seq<Request>, m: nat, alignment: nat)
    requires alignment > 0 && AlignedRequests(reqs, alignment)
    ensures Demand(reqs, m) % alignment == 0
  {
    if reqs != [] {
      var n := |reqs| - 1;
      DemandIsAligned(reqs[..n], m, alignment);
      SumIsAligned(Demand(reqs[..n], m), if reqs[n].mem == m then reqs[n].size else 0, alignment);
    }
  }

  lemma SegmentsAreAligned(reqs: seq<Request>, m: nat, alignment: nat)
    requires alignment > 0 && AllValid(reqs) && AlignedRequests(reqs, alignment)
    ensures forall k :: 0 <= k < |Greedy(reqs).ObjsOf(m)| ==> SizesOf(Greedy(reqs).ObjsOf(m))[k] % alignment == 0
  {
    hide Greedy;
    forall k: nat | k < |Greedy(reqs).ObjsOf(m)|
      ensures SizesOf(Greedy(reqs).ObjsOf(m))[k] % alignment == 0
    {
      var i := SegmentSizeIsAsked(reqs, m, k);
    }
  }

  /** Aligned requests over aligned starting sizes get aligned offsets and sizes. */
  lemma OwnPlanIsAligned(algo: Algo, reqs: seq<Request>, input: seq<nat>, alignment: nat)
    requires alignment > 0 && AllValid(reqs) && AlignedRequests(reqs, alignment) && AlignedSizes(input, alignment)
    ensures AlignedSizes(OwnSizes(algo, reqs, input), alignment)
    ensures forall i: nat :: i < |reqs| ==> OwnRange(algo, reqs, input, i).offset % alignment == 0
  {
    hide Greedy, Demand;
    forall m: nat
      ensures At(OwnSizes(algo, reqs, input), m) % alignment == 0
    {
      DemandIsAligned(reqs, m, alignment);
      SumIsAligned(At(input, m), Demand(reqs, m), alignment);
      NaiveSizeAt(reqs, input, m);
      SegmentsAreAligned(reqs, m, alignment);
      SumsAreAligned(SizesOf(Greedy(reqs).ObjsOf(m)), alignment);
      SumIsAligned(At(input, m), Sum(SizesOf(Greedy(reqs).ObjsOf(m))), alignment);
      SizeOfSeen(reqs, input, m);
    }
    forall i: nat | i < |reqs|
      ensures OwnRange(algo, reqs, input, i).offset % alignment == 0
    {
      var m := reqs[i].mem;
      DemandIsAligned(reqs[..i], m, alignment);
      SumIsAligned(At(input, m), Demand(reqs[..i], m), alignment);
      var sizes := SizesOf(Greedy(reqs).ObjsOf(m));
      var k := Min(Greedy(reqs).slots[i], |sizes|);
      SegmentsAreAligned(reqs, m, alignment);
      SumsAreAligned(sizes[..k], alignment);
      SumIsAligned(At(input, m), Sum(sizes[..k]), alignment);
    }
  }

  /** Throughout the tree, every offset is a multiple of the alignment. */
  lemma {:induction false} TreeIsAligned(algo: Algo, mods: seq<seq<Request>>, k: nat, alignment: nat)
    requires alignment > 0 && ValidModules(mods) && k <= |mods|
    requires forall c :: 0 <= c < |mods| ==> AlignedRequests(mods[c], alignment)
    ensures AlignedSizes(Base(algo, mods, k), alignment)
    ensures k < |mods| ==> forall i: nat :: i < |mods[k]| ==> ModuleRange(algo, mods, k, i).offset % alignment == 0
  {
    hide OwnSizes, OwnRange, AlignedRequests;
    if k == 0 {
      assert mods[..0] == [];
    } else {
      TreeIsAligned(algo, mods, k - 1, alignment);
      BaseStep(algo, mods, k - 1);
      OwnPlanIsAligned(algo, mods[k - 1], Base(algo, mods, k - 1), alignment);
    }
    if k < |mods| {
      OwnPlanIsAligned(algo, mods[k], Base(algo, mods, k), alignment);
    }
  }
}
