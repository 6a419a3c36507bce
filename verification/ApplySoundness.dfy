/** What `apply_algo` leaves on the specs of a whole tree of modules: where each spec is, and
    when specs of different modules share no byte. */
module ApplySoundness {
  import opened Wrappers
  import opened TensorSpecs
  import opened SharedObjects
  import opened GreedyPlan
  import opened NaivePlan
  import opened MemoryPlanning
  import opened ModulePlan
  import opened ApplyAlgo

  /** The specs of the modules of a tree, in the order the modules are planned. */
  ghost function SpecLists(g: GraphModule): seq<seq<TensorSpec>>
    decreases g, 1
  {
    [g.specs] + SpecListsOfSubs(g, |g.subs|)
  }

  ghost function SpecListsOfSubs(g: GraphModule, n: nat): seq<seq<TensorSpec>>
    requires n <= |g.subs|
    decreases g, 0, n
  {
    if n == 0 then [] else SpecListsOfSubs(g, n - 1) + SpecLists(g.subs[n - 1])
  }

  ghost function AllListed(lists: seq<seq<TensorSpec>>): set<TensorSpec> {
    set k: nat, i: nat | k < |lists| && i < |lists[k]| :: lists[k][i]
  }

  lemma {:induction false} ListedAreIn(g: GraphModule)
    ensures forall l, s :: l in SpecLists(g) && s in l ==> s in SpecsIn(g)
    decreases g, 1
  {
    ListedAreInSubs(g, |g.subs|);
  }

  lemma {:induction false} ListedAreInSubs(g: GraphModule, n: nat)
    requires n <= |g.subs|
    ensures forall l, s :: l in SpecListsOfSubs(g, n) && s in l ==> s in SpecsInSubs(g, n)
    decreases g, 0, n
  {
    if n > 0 {
      ListedAreInSubs(g, n - 1);
      ListedAreIn(g.subs[n - 1]);
    }
  }

  /** The modules of `lists` carry the ranges of modules k, k + 1, ... of `mods`. */
  ghost predicate CarryRanges(algo: Algo, lists: seq<seq<TensorSpec>>, mods: seq<seq<Request>>, k: nat)
    reads AllListed(lists)`memId, AllListed(lists)`alignment, AllListed(lists)`memOffset
  {
    k + |lists| <= |mods| &&
    forall j: nat :: j < |lists| ==> CarriesRanges(algo, lists[j], mods, k + j)
  }

  ghost predicate CarriesRanges(algo: Algo, specs: seq<TensorSpec>, mods: seq<seq<Request>>, k: nat)
    reads specs`memId, specs`alignment, specs`memOffset
  {
    k < |mods| && |specs| == |mods[k]| && HaveRanges(algo, specs, mods[k], Base(algo, mods, k))
  }

  lemma CarryConcat(algo: Algo, a: seq<seq<TensorSpec>>, b: seq<seq<TensorSpec>>, mods: seq<seq<Request>>, k: nat)
    requires CarryRanges(algo, a, mods, k) && CarryRanges(algo, b, mods, k + |a|)
    ensures CarryRanges(algo, a + b, mods, k)
  {
    hide CarriesRanges;
    forall j: nat | j < |a + b|
      ensures CarriesRanges(algo, (a + b)[j], mods, k + j)
    {
      if j >= |a| {
        assert (a + b)[j] == b[j - |a|] && CarriesRanges(algo, b[j - |a|], mods, k + |a| + (j - |a|));
      }
    }
  }

  /** The modules of a tree take up a stretch of the list of modules. */
  ghost predicate Stretch(part: seq<seq<Request>>, mods: seq<seq<Request>>, k: nat) {
    k + |part| <= |mods| && mods[k..k + |part|] == part
  }

  lemma StretchSplits(a: seq<seq<Request>>, b: seq<seq<Request>>, mods: seq<seq<Request>>, k: nat)
    requires Stretch(a + b, mods, k)
    ensures Stretch(a, mods, k) && Stretch(b, mods, k + |a|)
  {
    assert mods[k..k + |a|] == mods[k..k + |a + b|][..|a|];
    assert mods[k + |a|..k + |a| + |b|] == mods[k..k + |a + b|][|a|..];
  }

  lemma BaseAfter(algo: Algo, part: seq<seq<Request>>, mods: seq<seq<Request>>, k: nat)
    requires Stretch(part, mods, k)
    ensures Base(algo, mods, k + |part|) == Fold(algo, part, Base(algo, mods, k))
  {
    hide OwnSizes;
    assert mods[..k + |part|] == mods[..k] + part;
    FoldConcat(algo, mods[..k], part, [0, 0]);
  }

  /** Placed as a tree from where module k starts: every module of the tree has the ranges of
      its place in the list. */
  lemma {:induction false} PlacedCarries(algo: Algo, g: GraphModule, m: Module, mods: seq<seq<Request>>, k: nat)
    requires k <= |mods| && Placed(algo, g, m, Base(algo, mods, k)) && Stretch(Preorder(m), mods, k)
    ensures |SpecLists(g)| == |Preorder(m)| && CarryRanges(algo, SpecLists(g), mods, k)
    decreases g, 1
  {
    hide OwnSizes, Base, HaveRanges;
    var n := |g.subs|;
    StretchSplits([m.reqs], PreorderSubs(m, n), mods, k);
    assert mods[k] == mods[k..k + 1][0] == m.reqs;
    BaseStep(algo, mods, k);
    PlacedSubsCarry(algo, g, m, n, mods, k + 1);
    assert CarriesRanges(algo, g.specs, mods, k);
    CarryConcat(algo, [g.specs], SpecListsOfSubs(g, n), mods, k);
  }

  lemma {:induction false} PlacedSubsCarry(algo: Algo, g: GraphModule, m: Module, n: nat, mods: seq<seq<Request>>, k: nat)
    requires k <= |mods| && n <= |g.subs| == |m.subs|
    requires PlacedSubs(algo, g, m, n, Base(algo, mods, k)) && Stretch(PreorderSubs(m, n), mods, k)
    ensures |SpecListsOfSubs(g, n)| == |PreorderSubs(m, n)| && CarryRanges(algo, SpecListsOfSubs(g, n), mods, k)
    decreases g, 0, n
  {
    hide OwnSizes, Base, HaveRanges, Placed;
    if n > 0 {
      var before := PreorderSubs(m, n - 1);
      StretchSplits(before, Preorder(m.subs[n - 1]), mods, k);
      PlacedSubsCarry(algo, g, m, n - 1, mods, k);
      BaseAfter(algo, before, mods, k);
      ApplySubsIsFold(algo, m, n - 1, Base(algo, mods, k));
      PlacedCarries(algo, g.subs[n - 1], m.subs[n - 1], mods, k + |before|);
      CarryConcat(algo, SpecListsOfSubs(g, n - 1), SpecLists(g.subs[n - 1]), mods, k);
    }
  }

  /** Where a placed spec is. */
  ghost function RangeOfSpec(s: TensorSpec): Range
    requires s.memId.Some? && s.memOffset.Some? && s.alignment > 0
    reads s`memId, s`memOffset, s`alignment
  {
    Range(s.memId.value, s.memOffset.value, CalculateAlignedNumBytes(s.nbytes, s.alignment))
  }

  ghost predicate AllPlaced(lists: seq<seq<TensorSpec>>)
    reads AllListed(lists)`memId, AllListed(lists)`alignment, AllListed(lists)`memOffset
  {
    forall s :: s in AllListed(lists) ==> s.memId.Some? && s.memOffset.Some? && s.alignment > 0
  }

  ghost function SpecAt(lists: seq<seq<TensorSpec>>, k: nat, i: nat): (s: TensorSpec)
    requires k < |lists| && i < |lists[k]|
    ensures s in AllListed(lists)
  {
    lists[k][i]
  }

  /** Specs of different modules share no byte. */
  ghost predicate ModulesApart(lists: seq<seq<TensorSpec>>)
    requires AllPlaced(lists)
    reads AllListed(lists)`memId, AllListed(lists)`alignment, AllListed(lists)`memOffset
  {
    forall k: nat, l: nat, i: nat, j: nat :: k < l < |lists| && i < |lists[k]| && j < |lists[l]| ==>
      !RangeOfSpec(SpecAt(lists, k, i)).Overlaps(RangeOfSpec(SpecAt(lists, l, j)))
  }

  /** Every spec with bytes lies inside the sizes reported. */
  ghost predicate AllInside(lists: seq<seq<TensorSpec>>, sizes: seq<nat>)
    requires AllPlaced(lists)
    reads AllListed(lists)`memId, AllListed(lists)`alignment, AllListed(lists)`memOffset
  {
    forall k: nat, i: nat :: k < |lists| && i < |lists[k]| && RangeOfSpec(SpecAt(lists, k, i)).size > 0 ==>
      RangeOfSpec(SpecAt(lists, k, i)).Within([], sizes)
  }

  ghost predicate AllAligned(lists: seq<seq<TensorSpec>>, alignment: nat)
    requires AllPlaced(lists) && alignment > 0
    reads AllListed(lists)`memId, AllListed(lists)`alignment, AllListed(lists)`memOffset
  {
    forall k: nat, i: nat :: k < |lists| && i < |lists[k]| ==> RangeOfSpec(SpecAt(lists, k, i)).offset % alignment == 0
  }

  lemma SpecAtRange(algo: Algo, lists: seq<seq<TensorSpec>>, mods: seq<seq<Request>>, k: nat, i: nat)
    requires CarryRanges(algo, lists, mods, 0) && |lists| == |mods| && k < |lists| && i < |lists[k]|
    ensures |lists[k]| == |mods[k]| && SpecAt(lists, k, i).memId.Some? && SpecAt(lists, k, i).memOffset.Some?
    ensures SpecAt(lists, k, i).alignment > 0 && RangeOfSpec(SpecAt(lists, k, i)) == ModuleRange(algo, mods, k, i)
  {
    hide Base, CalculateAlignedNumBytes, OffsetOf, Greedy;
    assert CarriesRanges(algo, lists[k], mods, 0 + k);
    OwnRangeSize(algo, mods[k], Base(algo, mods, k), i);
  }

  lemma OwnRangeSize(algo: Algo, reqs: seq<Request>, input: seq<nat>, i: nat)
    requires i < |reqs|
    ensures OwnRange(algo, reqs, input, i).size == reqs[i].size
  {
  }

  lemma SpecsArePlaced(algo: Algo, lists: seq<seq<TensorSpec>>, mods: seq<seq<Request>>)
    requires CarryRanges(algo, lists, mods, 0) && |lists| == |mods|
    ensures AllPlaced(lists) && forall k: nat :: k < |lists| ==> |lists[k]| == |mods[k]|
    ensures forall k: nat, i: nat :: k < |lists| && i < |lists[k]| ==>
              RangeOfSpec(SpecAt(lists, k, i)) == ModuleRange(algo, mods, k, i)
  {
    hide CarryRanges, RangeOfSpec, ModuleRange;
    SameLengths(algo, lists, mods);
    forall k: nat, i: nat | k < |lists| && i < |lists[k]|
      ensures SpecAt(lists, k, i).memId.Some? && SpecAt(lists, k, i).memOffset.Some? && SpecAt(lists, k, i).alignment > 0
      ensures RangeOfSpec(SpecAt(lists, k, i)) == ModuleRange(algo, mods, k, i)
    {
      SpecAtRange(algo, lists, mods, k, i);
    }
    forall s | s in AllListed(lists)
      ensures s.memId.Some? && s.memOffset.Some? && s.alignment > 0
    {
      var k: nat, i: nat :| k < |lists| && i < |lists[k]| && lists[k][i] == s;
      assert SpecAt(lists, k, i) == s;
    }
  }

  lemma SameLengths(algo: Algo, lists: seq<seq<TensorSpec>>, mods: seq<seq<Request>>)
    requires CarryRanges(algo, lists, mods, 0) && |lists| == |mods|
    ensures forall k: nat :: k < |lists| ==> |lists[k]| == |mods[k]|
  {
    forall k: nat | k < |lists|
      ensures |lists[k]| == |mods[k]|
    {
      assert CarriesRanges(algo, lists[k], mods, 0 + k);
    }
  }

  /** The plan's properties are the specs' properties. */
  lemma SpecsShowThePlan(algo: Algo, lists: seq<seq<TensorSpec>>, mods: seq<seq<Request>>)
    requires CarryRanges(algo, lists, mods, 0) && |lists| == |mods| && ValidModules(mods)
    ensures AllPlaced(lists)
    ensures ModulesApart(lists) <==> Apart(algo, mods)
    ensures AllInside(lists, Base(algo, mods, |mods|)) <==> Contained(algo, mods)
  {
    hide CarryRanges, RangeOfSpec, ModuleRange, Range.Overlaps, Range.Within, Base;
    SpecsArePlaced(algo, lists, mods);
    forall k: nat, i: nat | k < |mods| && i < |mods[k]|
      ensures ModuleRange(algo, mods, k, i).size == mods[k][i].size
    {
      RangeHasSize(algo, mods, k, i);
    }
    if ModulesApart(lists) {
      forall k: nat, l: nat, i: nat, j: nat | k < l < |mods| && i < |mods[k]| && j < |mods[l]|
        ensures !ModuleRange(algo, mods, k, i).Overlaps(ModuleRange(algo, mods, l, j))
      {
        assert !RangeOfSpec(SpecAt(lists, k, i)).Overlaps(RangeOfSpec(SpecAt(lists, l, j)));
      }
    }
    if AllInside(lists, Base(algo, mods, |mods|)) {
      forall k: nat, i: nat | k < |mods| && i < |mods[k]| && mods[k][i].size > 0
        ensures ModuleRange(algo, mods, k, i).Within([], Base(algo, mods, |mods|))
      {
        assert RangeOfSpec(SpecAt(lists, k, i)) == ModuleRange(algo, mods, k, i);
      }
    }
  }

  lemma RangeHasSize(algo: Algo, mods: seq<seq<Request>>, k: nat, i: nat)
    requires k < |mods| && i < |mods[k]|
    ensures ModuleRange(algo, mods, k, i).size == mods[k][i].size
  {
    OwnRangeSize(algo, mods[k], Base(algo, mods, k), i);
  }

  lemma SpecsAreAligned(algo: Algo, lists: seq<seq<TensorSpec>>, mods: seq<seq<Request>>, alignment: nat)
    requires CarryRanges(algo, lists, mods, 0) && |lists| == |mods| && ValidModules(mods) && alignment > 0
    requires forall c :: 0 <= c < |mods| ==> AlignedRequests(mods[c], alignment)
    ensures AllPlaced(lists) && AllAligned(lists, alignment)
  {
    hide CarryRanges, RangeOfSpec, ModuleRange, AlignedRequests, AlignedSizes, ValidModules;
    SpecsArePlaced(algo, lists, mods);
    forall k: nat, i: nat | k < |lists| && i < |lists[k]|
      ensures RangeOfSpec(SpecAt(lists, k, i)).offset % alignment == 0
    {
      TreeIsAligned(algo, mods, k, alignment);
    }
  }

  /** Specs of one module whose requests are live together share no byte. */
  ghost predicate LiveApart(lists: seq<seq<TensorSpec>>, mods: seq<seq<Request>>)
    requires AllPlaced(lists) && |lists| == |mods| && forall k: nat :: k < |lists| ==> |lists[k]| == |mods[k]|
    reads AllListed(lists)`memId, AllListed(lists)`alignment, AllListed(lists)`memOffset
  {
    forall k: nat, i: nat, j: nat ::
      k < |lists| && i < |mods[k]| && j < |mods[k]| && i != j && LiveTogether(mods[k][i], mods[k][j]) ==>
        !RangeOfSpec(SpecAt(lists, k, i)).Overlaps(RangeOfSpec(SpecAt(lists, k, j)))
  }

  lemma SpecsAreLiveApart(algo: Algo, lists: seq<seq<TensorSpec>>, mods: seq<seq<Request>>)
    requires CarryRanges(algo, lists, mods, 0) && |lists| == |mods| && ValidModules(mods)
    ensures AllPlaced(lists) && (forall k: nat :: k < |lists| ==> |lists[k]| == |mods[k]|) && LiveApart(lists, mods)
  {
    hide CarryRanges, RangeOfSpec, Base, Range.Overlaps, LiveTogether;
    SpecsArePlaced(algo, lists, mods);
    forall k: nat, i: nat, j: nat |
      k < |lists| && i < |mods[k]| && j < |mods[k]| && i != j && LiveTogether(mods[k][i], mods[k][j])
      ensures !RangeOfSpec(SpecAt(lists, k, i)).Overlaps(RangeOfSpec(SpecAt(lists, k, j)))
    {
      GreedyIsSafe(mods[k], Base(algo, mods, k), i, j);
      NaiveIsSafe(mods[k], Base(algo, mods, k), i, j);
    }
  }

  /** Valid requests of aligned sizes, in every module of a list. */
  ghost predicate WellAsked(mods: seq<seq<Request>>, alignment: nat)
    requires alignment > 0
  {
    ValidModules(mods) && forall c :: 0 <= c < |mods| ==> AlignedRequests(mods[c], alignment)
  }

  lemma WellAskedConcat(a: seq<seq<Request>>, b: seq<seq<Request>>, alignment: nat)
    requires alignment > 0 && WellAsked(a, alignment) && WellAsked(b, alignment)
    ensures WellAsked(a + b, alignment)
  {
    hide AlignedRequests, AllValid;
  }

  /** What a tree of specs asks for is valid, and a multiple of the alignment throughout. */
  lemma {:induction false} TreeIsWellAsked(g: GraphModule, alignment: nat)
    requires alignment > 0 && Ready(g)
    ensures WellAsked(Preorder(ModuleOf(g, alignment)), alignment)
    decreases g, 1
  {
    hide WellAsked, CalculateAlignedNumBytes;
    var m := ModuleOf(g, alignment);
    ReadyGraph(g, alignment);
    OwnIsWellAsked(g.specs, alignment);
    SubsAreWellAsked(g, m, |g.subs|, alignment);
    WellAskedConcat([m.reqs], PreorderSubs(m, |g.subs|), alignment);
  }

  lemma OwnIsWellAsked(specs: seq<TensorSpec>, alignment: nat)
    requires alignment > 0 && HaveLifetimes(specs)
    ensures WellAsked([Requests(specs, alignment)], alignment)
  {
  }

  lemma {:induction false} SubsAreWellAsked(g: GraphModule, m: Module, n: nat, alignment: nat)
    requires alignment > 0 && n <= |g.subs| == |m.subs|
    requires forall j: nat :: j < |g.subs| ==> Ready(g.subs[j]) && ModuleOf(g.subs[j], alignment) == m.subs[j]
    ensures WellAsked(PreorderSubs(m, n), alignment)
    decreases g, 0, n
  {
    hide Ready, ModuleOf, AlignedRequests, AllValid;
    if n > 0 {
      hide WellAsked;
      SubsAreWellAsked(g, m, n - 1, alignment);
      TreeIsWellAsked(g.subs[n - 1], alignment);
      WellAskedConcat(PreorderSubs(m, n - 1), Preorder(m.subs[n - 1]), alignment);
    }
  }

  lemma StartIsBase(algo: Algo, mods: seq<seq<Request>>)
    ensures Base(algo, mods, 0) == StartSizes(None) && Stretch(mods, mods, 0)
  {
    assert mods[..0] == [] && mods[0..|mods|] == mods;
  }

  /** The whole plan of a tree as its specs and the reported sizes show it. */
  ghost predicate TreeIsPlanned(algo: Algo, lists: seq<seq<TensorSpec>>, mods: seq<seq<Request>>, bufsizes: seq<nat>,
                                alignment: nat)
    requires alignment > 0
    reads AllListed(lists)`memId, AllListed(lists)`alignment, AllListed(lists)`memOffset
  {
    && AllPlaced(lists) && AllAligned(lists, alignment)
    && |lists| == |mods| && (forall k: nat :: k < |lists| ==> |lists[k]| == |mods[k]|) && LiveApart(lists, mods)
    && (ModulesApart(lists) && AllInside(lists, bufsizes) <==> algo == NaivePlanner || Persistent(mods))
  }

  lemma PlacedIsPlanned(algo: Algo, g: GraphModule, m: Module, bufsizes: seq<nat>, alignment: nat)
    requires alignment > 0 && WellAsked(Preorder(m), alignment)
    requires bufsizes == SizesAfter(algo, m, StartSizes(None)) && Placed(algo, g, m, StartSizes(None))
    ensures TreeIsPlanned(algo, SpecLists(g), Preorder(m), bufsizes, alignment)
  {
    hide *;
    var mods := Preorder(m);
    StartIsBase(algo, mods);
    PlacedCarries(algo, g, m, mods, 0);
    PlanIsSeen(algo, SpecLists(g), m, bufsizes, alignment);
  }

  lemma PlanIsSeen(algo: Algo, lists: seq<seq<TensorSpec>>, m: Module, bufsizes: seq<nat>, alignment: nat)
    requires alignment > 0 && WellAsked(Preorder(m), alignment)
    requires bufsizes == SizesAfter(algo, m, StartSizes(None))
    requires |lists| == |Preorder(m)| && CarryRanges(algo, lists, Preorder(m), 0)
    ensures TreeIsPlanned(algo, lists, Preorder(m), bufsizes, alignment)
  {
    hide ModulesApart, AllInside, Apart, Contained, Persistent, Preorder, SizesAfter, Base, CarryRanges, AllPlaced, AllAligned,
      LiveApart, AllListed, AlignedRequests, ValidModules;
    var mods := Preorder(m);
    SpecsShowThePlan(algo, lists, mods);
    SpecsAreAligned(algo, lists, mods, alignment);
    SpecsAreLiveApart(algo, lists, mods);
    if algo == NaivePlanner {
      NaiveTreeIsSound(m);
    } else {
      GreedyTreeIsSoundIff(m);
    }
  }

  /** `apply_algo` on a whole program: every spec is placed at a multiple of the alignment, and
      specs of one module that live together share no byte. Specs of different modules share no
      byte and the reported sizes hold all of them: always for naive, and for greedy exactly
      when every module plans something in each memory that an earlier one put bytes into. */
  method ApplyToTree(algo: Algo, g: GraphModule, alignment: nat) returns (bufsizes: seq<nat>)
    requires alignment > 0 && Ready(g)
    modifies SpecsIn(g)`memId, SpecsIn(g)`alignment, SpecsIn(g)`memObjId, SpecsIn(g)`memOffset
    ensures TreeIsPlanned(algo, SpecLists(g), old(Preorder(ModuleOf(g, alignment))), bufsizes, alignment)
  {
    hide *;
    ghost var m := ModuleOf(g, alignment);
    TreeIsWellAsked(g, alignment);
    bufsizes := Apply(algo, g, alignment, None);
    PlacedIsPlanned(algo, g, m, bufsizes, alignment);
  }
}
