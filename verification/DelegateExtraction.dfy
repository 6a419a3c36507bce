/** Taking a delegate out of an exported program: what the delegate consumes leaves the
    program's signature, tables, outputs and getitem nodes (`_unsafe_adjust_original_program`). */
module DelegateExtraction {
  import opened Wrappers
  import opened DelegateInputs
  import opened DelegateOutputs

  // ---- tables ----

  /** Targets the remaining input specs still name. */
  ghost function UsedTargets(specs: seq<InputSpec>): set<string> {
    set s | s in specs && s.target.Some? :: s.target.value
  }

  ghost predicate FromState(s: InputSpec) {
    s.kind == Parameter || (s.kind == Buffer && s.persistent)
  }

  ghost predicate FromConstants(s: InputSpec) {
    s.kind == ConstantTensor || (s.kind == Buffer && !s.persistent)
  }

  ghost predicate Dropped(s: InputSpec, used: set<string>) {
    s.target.Some? && s.target.value !in used
  }

  ghost function StateDrops(consumed: seq<InputSpec>, used: set<string>): set<string> {
    set s | s in consumed && Dropped(s, used) && FromState(s) :: s.target.value
  }

  ghost function ConstantDrops(consumed: seq<InputSpec>, used: set<string>): set<string> {
    set s | s in consumed && Dropped(s, used) && FromConstants(s) :: s.target.value
  }

  /** The program's tables afterwards. */
  ghost function Remaining(t: Tables, consumed: seq<InputSpec>, used: set<string>): Tables {
    Tables(t.state - StateDrops(consumed, used), t.constants - ConstantDrops(consumed, used))
  }

  /** Every consumed spec can be deleted: it is still used, or its own entry is there. */
  ghost predicate Removable(t: Tables, consumed: seq<InputSpec>, used: set<string>) {
    && (forall k :: 0 <= k < |consumed| ==>
          consumed[k].target.Some? && (Dropped(consumed[k], used) ==> InItsTable(t, consumed[k])))
    && (forall j, k :: 0 <= j < k < |consumed| ==> !SameEntry(consumed[j], consumed[k], used))
  }

  ghost predicate InItsTable(t: Tables, s: InputSpec)
    requires s.target.Some?
  {
    (FromState(s) && s.target.value in t.state) || (FromConstants(s) && s.target.value in t.constants)
  }

  /** Two specs that delete the same entry of the same table. */
  ghost predicate SameEntry(a: InputSpec, b: InputSpec, used: set<string>) {
    && Dropped(a, used) && Dropped(b, used) && a.target == b.target
    && ((FromState(a) && FromState(b)) || (FromConstants(a) && FromConstants(b)))
  }

  /** Deleting the consumed entries one by one; None stands for the error raised. */
  method DropConsumed(t: Tables, consumed: seq<InputSpec>, used: set<string>) returns (r: Option<Tables>)
    ensures r.Some? <==> Removable(t, consumed, used)
    ensures r.Some? ==> r.value == Remaining(t, consumed, used)
  {
    hide StateDrops, ConstantDrops;
    var state, constants := t.state, t.constants;
    NothingDropped(t, used);
    for k := 0 to |consumed|
      invariant Removable(t, consumed[..k], used)
      invariant Tables(state, constants) == Remaining(t, consumed[..k], used)
    {
      var s := consumed[k];
      assert consumed[..k + 1] == consumed[..k] + [s];
      DropStep(t, consumed[..k], used, s);
      CannotDrop(t, consumed, k, used);
      if s.target.None? {
        return None;
      }
      if s.target.value in used {
        continue;
      }
      if s.kind == Parameter || (s.kind == Buffer && s.persistent) {
        if s.target.value !in state {
          return None;
        }
        state := state - {s.target.value};
      } else if s.kind == Buffer || s.kind == ConstantTensor {
        if s.target.value !in constants {
          return None;
        }
        constants := constants - {s.target.value};
      } else {
        return None;
      }
    }
    assert consumed[..|consumed|] == consumed;
    r := Some(Tables(state, constants));
  }

  lemma NothingDropped(t: Tables, used: set<string>)
    ensures Remaining(t, [], used) == t
  {
    assert StateDrops([], used) == {} && ConstantDrops([], used) == {};
  }

  /** Whether one more entry can be deleted, and what is left then. */
  lemma DropStep(t: Tables, done: seq<InputSpec>, used: set<string>, s: InputSpec)
    requires Removable(t, done, used)
    ensures var left, next := Remaining(t, done, used), Remaining(t, done + [s], used);
            && (Removable(t, done + [s], used) <==>
                  s.target.Some? && (Dropped(s, used) ==> InItsTable(left, s)))
            && next.state == left.state - (if Dropped(s, used) && FromState(s) then {s.target.value} else {})
            && next.constants == left.constants - (if Dropped(s, used) && FromConstants(s) then {s.target.value} else {})
  {
    DropsGrow(done, used, s);
    RemovableGrows(t, done, used, s);
  }

  lemma DropsGrow(done: seq<InputSpec>, used: set<string>, s: InputSpec)
    ensures StateDrops(done + [s], used) ==
            StateDrops(done, used) + if Dropped(s, used) && FromState(s) then {s.target.value} else {}
    ensures ConstantDrops(done + [s], used) ==
            ConstantDrops(done, used) + if Dropped(s, used) && FromConstants(s) then {s.target.value} else {}
  {
    assert forall x :: x in done + [s] <==> x in done || x == s;
  }

  lemma RemovableGrows(t: Tables, done: seq<InputSpec>, used: set<string>, s: InputSpec)
    requires Removable(t, done, used)
    ensures Removable(t, done + [s], used) <==>
            s.target.Some? && (Dropped(s, used) ==> InItsTable(Remaining(t, done, used), s))
  {
    var all := done + [s];
    if s.target.Some? && Dropped(s, used) && FromState(s) && s.target.value in StateDrops(done, used) {
      var x :| x in done && Dropped(x, used) && FromState(x) && x.target.value == s.target.value;
      var j :| 0 <= j < |done| && done[j] == x;
      assert SameEntry(all[j], all[|done|], used);
    }
    if s.target.Some? && Dropped(s, used) && FromConstants(s) && s.target.value in ConstantDrops(done, used) {
      var x :| x in done && Dropped(x, used) && FromConstants(x) && x.target.value == s.target.value;
      var j :| 0 <= j < |done| && done[j] == x;
      assert SameEntry(all[j], all[|done|], used);
    }
    assert all[|done|] == s;
    forall j | 0 <= j < |done|
      ensures all[j] == done[j] && done[j] in done
      ensures SameEntry(done[j], s, used) ==> !InItsTable(Remaining(t, done, used), s)
    {
      if SameEntry(done[j], s, used) {
        assert FromState(s) ==> s.target.value in StateDrops(done, used);
        assert FromConstants(s) ==> s.target.value in ConstantDrops(done, used);
      }
    }
  }

  /** What cannot be deleted early cannot be deleted at all. */
  lemma CannotDrop(t: Tables, consumed: seq<InputSpec>, k: nat, used: set<string>)
    requires k < |consumed|
    ensures Removable(t, consumed, used) ==> Removable(t, consumed[..k + 1], used)
  {
  }

  /** Every entry of a table is, with its value, in one of two others. */
  ghost predicate Covered(table: map<string, Tensor>, a: map<string, Tensor>, b: map<string, Tensor>) {
    forall n :: n in table ==> (n in a && a[n] == table[n]) || (n in b && b[n] == table[n])
  }

  /** Every parameter, buffer and constant is held by the delegate or by the program. */
  ghost predicate Conserved(t: Tables, delegate: Tables, program: Tables) {
    Covered(t.state, delegate.state, program.state) && Covered(t.constants, delegate.constants, program.constants)
  }

  /** A buffer marked non-persistent, deleted from the constants although the delegate found
      an entry of that name among the parameters. */
  ghost predicate Misfiled(s: InputSpec, t: Tables, used: set<string>) {
    Dropped(s, used) && s.kind == Buffer && !s.persistent && s.target.value in t.state
  }

  /** Extraction loses nothing exactly when no consumed buffer is misfiled. */
  lemma ExtractionConservesIff(sig: map<string, InputSpec>, phs: seq<Placeholder>, t: Tables, r: Extracted,
                               used: set<string>)
    requires AllFit(sig, phs, t) && Extracts(sig, phs, t, r) && Removable(t, r.consumed, used)
    ensures Conserved(t, r.tables, Remaining(t, r.consumed, used)) <==>
            forall s :: s in r.consumed ==> !Misfiled(s, t, used)
  {
    hide *;
    if s :| s in r.consumed && Misfiled(s, t, used) {
      ExtractsHolds(sig, phs, t, r);
      MisfiledIsLost(t, r, used, s);
    } else {
      NothingIsLost(sig, phs, t, r, used);
    }
  }

  lemma ExtractsHolds(sig: map<string, InputSpec>, phs: seq<Placeholder>, t: Tables, r: Extracted)
    requires Extracts(sig, phs, t, r)
    ensures Holds(t, r.consumed, r.tables)
  {
  }

  lemma NothingIsLost(sig: map<string, InputSpec>, phs: seq<Placeholder>, t: Tables, r: Extracted, used: set<string>)
    requires AllFit(sig, phs, t) && Extracts(sig, phs, t, r)
    requires forall s :: s in r.consumed ==> !Misfiled(s, t, used)
    ensures Conserved(t, r.tables, Remaining(t, r.consumed, used))
  {
    hide AllFit, Extracts;
    ExtractsHolds(sig, phs, t, r);
    var left := Remaining(t, r.consumed, used);
    forall n | n in t.state && n !in left.state
      ensures n in r.tables.state
    {
      var s :| s in r.consumed && Dropped(s, used) && FromState(s) && s.target.value == n;
      assert Brought(r.consumed, n);
    }
    forall n | n in t.constants && n !in left.constants
      ensures n in r.tables.constants
    {
      var s :| s in r.consumed && Dropped(s, used) && FromConstants(s) && s.target.value == n;
      assert Brought(r.consumed, n);
      ConsumedFits(sig, phs, t, r, s);
      assert !Misfiled(s, t, used);
    }
  }

  lemma ConsumedFits(sig: map<string, InputSpec>, phs: seq<Placeholder>, t: Tables, r: Extracted, s: InputSpec)
    requires AllFit(sig, phs, t) && Extracts(sig, phs, t, r) && s in r.consumed
    ensures FitsTables(s, t)
  {
  }

  lemma MisfiledIsLost(t: Tables, r: Extracted, used: set<string>, s: InputSpec)
    requires Holds(t, r.consumed, r.tables) && Removable(t, r.consumed, used)
    requires s in r.consumed && Misfiled(s, t, used)
    ensures !Conserved(t, r.tables, Remaining(t, r.consumed, used))
  {
    var n, left := s.target.value, Remaining(t, r.consumed, used);
    var k :| 0 <= k < |r.consumed| && r.consumed[k] == s;
    assert InItsTable(t, s);
    assert n in ConstantDrops(r.consumed, used);
    assert n in t.constants && n !in left.constants && n !in r.tables.constants;
  }

  /** It does happen: a name in both tables, and the constant is in neither program afterwards. */
  lemma MisfiledBufferExample()
    ensures var s := InputSpec(Buffer, "input", true, Some("mask"), false);
            var t := Tables(map["mask" := 1], map["mask" := 2]);
            var e := Extracted([s], [s], Tables(map["mask" := 1], map[]));
            && AllFit(map["input" := s], [Placeholder("input", true)], t)
            && Extracts(map["input" := s], [Placeholder("input", true)], t, e)
            && Removable(t, [s], {}) && !Conserved(t, e.tables, Remaining(t, [s], {}))
  {
    var s := InputSpec(Buffer, "input", true, Some("mask"), false);
    var t := Tables(map["mask" := 1], map["mask" := 2]);
    var e := Extracted([s], [s], Tables(map["mask" := 1], map[]));
    assert Placeholder("input", true) in [Placeholder("input", true)] && s in [s];
    assert Brought([s], "mask");
    MisfiledIsLost(t, e, {}, s);
  }

  /** The input specs that stay find their entries where they were. */
  lemma RemainingSpecsResolve(t: Tables, consumed: seq<InputSpec>, specs: seq<InputSpec>, s: InputSpec, n: string)
    requires s in specs && s.target == Some(n)
    ensures var left := Remaining(t, consumed, UsedTargets(specs));
            && (n in left.state <==> n in t.state) && (n in t.state ==> left.state[n] == t.state[n])
            && (n in left.constants <==> n in t.constants) && (n in t.constants ==> left.constants[n] == t.constants[n])
  {
    assert n in UsedTargets(specs);
  }

  /** The specs the delegate took over find their entries in its own tables. */
  lemma ConsumedSpecsResolve(sig: map<string, InputSpec>, phs: seq<Placeholder>, t: Tables, r: Extracted, s: InputSpec)
    requires AllFit(sig, phs, t) && Extracts(sig, phs, t, r) && s in r.consumed
    ensures s.target.Some?
    ensures var n := s.target.value;
            if n in t.state then n in r.tables.state && r.tables.state[n] == t.state[n]
            else n in t.constants && n in r.tables.constants && r.tables.constants[n] == t.constants[n]
  {
    var p :| p in phs && Consumes(sig, p) && s == sig[p.name];
    assert FitsTables(s, t);
    assert Brought(r.consumed, s.target.value);
  }

  // ---- lists that lose the same entries stay one-to-one ----

  ghost function KeepInputs(specs: seq<InputSpec>, names: set<string>): seq<InputSpec> {
    if specs == [] then [] else
      var last := specs[|specs| - 1];
      KeepInputs(specs[..|specs| - 1], names) + if last.name in names then [] else [last]
  }

  /** A placeholder of the program; `used` when something still reads it. */
  datatype ProgramInput = ProgramInput(name: string, used: bool)

  ghost function KeepPlaceholders(phs: seq<ProgramInput>, names: set<string>): seq<ProgramInput> {
    if phs == [] then [] else
      var last := phs[|phs| - 1];
      KeepPlaceholders(phs[..|phs| - 1], names) + if last.name in names then [] else [last]
  }

  ghost function KeepOutputs(specs: seq<OutputSpec>, names: set<string>): seq<OutputSpec> {
    if specs == [] then [] else
      var last := specs[|specs| - 1];
      KeepOutputs(specs[..|specs| - 1], names) + if last.arg.name in names then [] else [last]
  }

  ghost function KeepArgs(args: seq<OutputArg>, names: set<string>): seq<OutputArg> {
    if args == [] then [] else
      var last := args[|args| - 1];
      KeepArgs(args[..|args| - 1], names) + if last.NodeRef? && last.name in names then [] else [last]
  }

  method FilterInputs(specs: seq<InputSpec>, names: set<string>) returns (kept: seq<InputSpec>)
    ensures kept == KeepInputs(specs, names)
  {
    kept := [];
    for k := 0 to |specs|
      invariant kept == KeepInputs(specs[..k], names)
    {
      assert specs[..k + 1][..k] == specs[..k];
      if specs[k].name !in names {
        kept := kept + [specs[k]];
      }
    }
    assert specs[..|specs|] == specs;
  }

  method FilterOutputs(specs: seq<OutputSpec>, names: set<string>) returns (kept: seq<OutputSpec>)
    ensures kept == KeepOutputs(specs, names)
  {
    kept := [];
    for k := 0 to |specs|
      invariant kept == KeepOutputs(specs[..k], names)
    {
      assert specs[..k + 1][..k] == specs[..k];
      if specs[k].arg.name !in names {
        kept := kept + [specs[k]];
      }
    }
    assert specs[..|specs|] == specs;
  }

  method FilterArgs(args: seq<OutputArg>, names: set<string>) returns (kept: seq<OutputArg>)
    ensures kept == KeepArgs(args, names)
  {
    kept := [];
    for k := 0 to |args|
      invariant kept == KeepArgs(args[..k], names)
    {
      assert args[..k + 1][..k] == args[..k];
      if args[k].ConstantValue? || args[k].name !in names {
        kept := kept + [args[k]];
      }
    }
    assert args[..|args|] == args;
  }

  lemma {:induction false} KeptOutput(specs: seq<OutputSpec>, names: set<string>, s: OutputSpec)
    ensures s in KeepOutputs(specs, names) <==> s in specs && s.arg.name !in names
  {
    if specs != [] {
      var n := |specs| - 1;
      assert specs == specs[..n] + [specs[n]];
      KeptOutput(specs[..n], names, s);
    }
  }

  // ---- mutations go with their buffers ----

  lemma {:induction false} NamedIsListed(specs: seq<OutputSpec>, s: OutputSpec)
    requires s in specs
    ensures s in SpecsNamed(specs, s.arg.name)
  {
    var n := |specs| - 1;
    assert specs == specs[..n] + [specs[n]];
    if s in specs[..n] {
      NamedIsListed(specs[..n], s);
    }
  }

  lemma {:induction false} NamedIsAtItem(users: seq<DelegateUser>, top: seq<OutputSpec>, u: DelegateUser, i: nat, s: OutputSpec)
    requires u in users && u.index == Some(i) && s in top && s.arg.name == u.name
    ensures s in SpecsAt(users, top, i)
  {
    var n := |users| - 1;
    assert users == users[..n] + [users[n]];
    if u in users[..n] {
      NamedIsAtItem(users[..n], top, u, i, s);
    } else {
      NamedIsListed(top, s);
    }
  }

  /** A mutation of a buffer in `state`. */
  ghost predicate Mutates(s: OutputSpec, state: map<string, Tensor>) {
    s.kind == BufferMutation && s.target.Some? && s.target.value in state
  }

  /** u is a getitem node called x on one of n items. */
  ghost predicate IsItemFor(u: DelegateUser, n: nat, x: string) {
    u.name == x && u.index.Some? && 0 <= u.index.value < n
  }

  /** Outputs and buffers move together: the program keeps every output that does not mutate a
      buffer the delegate took, the delegate mutates only what it took, and the program no longer
      mutates those through an item of the delegate. */
  ghost predicate MutationsFollow(outs: seq<OutputSpec>, outs': seq<OutputSpec>, users: seq<DelegateUser>, n: nat,
                                  delegate: seq<OutputSpec>, state: map<string, Tensor>, isSubmodule: bool) {
    && (forall s :: s in outs' ==> s in outs)
    && (forall s :: s in outs && (isSubmodule || !Mutates(s, state)) ==> s in outs')
    && (forall s :: s in delegate ==> s.kind == UserOutput || Mutates(s, state))
    && (!isSubmodule ==>
          forall s, u :: s in outs && Mutates(s, state) && u in users && IsItemFor(u, n, s.arg.name) ==> s !in outs')
  }

  lemma DeletionIsMutation(outputs: seq<OutputArg>, users: seq<DelegateUser>, top: seq<OutputSpec>, state: map<string, Tensor>,
                           o: NewOutputs, s: OutputSpec)
    requires Describes(outputs, users, top, state.Keys, o) && s in top && s.arg.name in o.deleted
    ensures Mutates(s, state)
  {
    hide SpecsAt, SpecsNamed;
    var d := o.deleted[s.arg.name];
    assert FromItem(users, top, state.Keys, |outputs|, s.arg.name, d);
    var i: nat :| i < |outputs| && SpecsAt(users, top, i) == [d];
    assert d in SpecsAt(users, top, i);
    var u :| u in users && u.index == Some(i) && u.name == d.arg.name;
    NamedIsAtItem(users, top, u, i, s);
  }

  lemma MutationIsDeleted(outputs: seq<OutputArg>, users: seq<DelegateUser>, top: seq<OutputSpec>, state: map<string, Tensor>,
                          o: NewOutputs, s: OutputSpec, u: DelegateUser, i: nat)
    requires Describes(outputs, users, top, state.Keys, o) && s in top && Mutates(s, state)
    requires u in users && u.name == s.arg.name && u.index == Some(i) && i < |outputs|
    ensures s.arg.name in o.deleted
  {
    hide SpecsAt, SpecsNamed;
    NamedIsAtItem(users, top, u, i, s);
    assert ConsumedAt(users, top, state.Keys, i);
  }

  lemma DelegateMutates(outputs: seq<OutputArg>, users: seq<DelegateUser>, top: seq<OutputSpec>, state: map<string, Tensor>,
                        o: NewOutputs, s: OutputSpec)
    requires Describes(outputs, users, top, state.Keys, o) && s in o.specs
    ensures s.kind == UserOutput || Mutates(s, state)
  {
    hide SpecsAt, SpecsNamed;
    var i: nat :| i < |o.specs| && o.specs[i] == s;
    assert SpecFor(outputs[i], users, top, state.Keys, i, s);
  }

  lemma MutationsDoFollow(outputs: seq<OutputArg>, users: seq<DelegateUser>, outs: seq<OutputSpec>, outs': seq<OutputSpec>,
                          state: map<string, Tensor>, o: NewOutputs, isSubmodule: bool)
    requires Describes(outputs, users, TopSpecs(outs, isSubmodule), state.Keys, o) && outs' == KeepOutputs(outs, o.deleted.Keys)
    ensures MutationsFollow(outs, outs', users, |outputs|, o.specs, state, isSubmodule)
  {
    hide Describes, KeepOutputs, Mutates;
    forall s
      ensures s in outs' <==> s in outs && s.arg.name !in o.deleted.Keys
      ensures s in outs && s.arg.name in o.deleted ==> !isSubmodule && Mutates(s, state)
    {
      KeptOutput(outs, o.deleted.Keys, s);
      if s in outs && s.arg.name in o.deleted {
        NothingFromNowhere(outputs, users, outs, state, o, s.arg.name, isSubmodule);
        DeletionIsMutation(outputs, users, outs, state, o, s);
      }
    }
    forall s | s in o.specs
      ensures s.kind == UserOutput || Mutates(s, state)
    {
      DelegateMutates(outputs, users, TopSpecs(outs, isSubmodule), state, o, s);
    }
    forall s, u | !isSubmodule && s in outs && Mutates(s, state) && u in users && IsItemFor(u, |outputs|, s.arg.name)
      ensures s !in outs'
    {
      MutationIsDeleted(outputs, users, outs, state, o, s, u, u.index.value);
    }
  }

  /** In a control-flow submodule nothing is deleted. */
  lemma NothingFromNowhere(outputs: seq<OutputArg>, users: seq<DelegateUser>, outs: seq<OutputSpec>, state: map<string, Tensor>,
                           o: NewOutputs, x: string, isSubmodule: bool)
    requires Describes(outputs, users, TopSpecs(outs, isSubmodule), state.Keys, o) && x in o.deleted
    ensures !isSubmodule
  {
    if isSubmodule {
      assert FromItem(users, [], state.Keys, |outputs|, x, o.deleted[x]);
      var i: nat :| i < |outputs| && SpecsAt(users, [], i) == [o.deleted[x]];
      NoTopSpecs(users, i);
    }
  }

  lemma {:induction false} NoTopSpecs(users: seq<DelegateUser>, i: nat)
    ensures SpecsAt(users, [], i) == []
  {
    if users != [] {
      NoTopSpecs(users[..|users| - 1], i);
    }
  }

  /** Placeholders and input specs name the same nodes, in the same order. */
  ghost predicate InputsAligned(phs: seq<ProgramInput>, specs: seq<InputSpec>) {
    |phs| == |specs| && forall i :: 0 <= i < |phs| ==> phs[i].name == specs[i].name
  }

  /** Output arguments and output specs describe the same values, in the same order; the name
      of a constant is not the name of a node in `names`. */
  ghost predicate OutputsAligned(args: seq<OutputArg>, specs: seq<OutputSpec>, names: set<string>) {
    |args| == |specs| && forall i :: 0 <= i < |args| ==>
      match args[i]
      case NodeRef(n) => specs[i].arg == TensorArgument(n)
      case ConstantValue(v) => specs[i].arg.ConstantArgument? && specs[i].arg.value == v && specs[i].arg.name !in names
  }

  lemma {:induction false} InputsStayAligned(phs: seq<ProgramInput>, specs: seq<InputSpec>, names: set<string>)
    requires InputsAligned(phs, specs)
    ensures InputsAligned(KeepPlaceholders(phs, names), KeepInputs(specs, names))
  {
    if phs != [] {
      InputsStayAligned(phs[..|phs| - 1], specs[..|specs| - 1], names);
    }
  }

  lemma {:induction false} OutputsStayAligned(args: seq<OutputArg>, specs: seq<OutputSpec>, names: set<string>)
    requires OutputsAligned(args, specs, names)
    ensures OutputsAligned(KeepArgs(args, names), KeepOutputs(specs, names), names)
  {
    if args != [] {
      OutputsStayAligned(args[..|args| - 1], specs[..|specs| - 1], names);
    }
  }

  // ---- the program ----

  ghost function ConsumedNames(consumed: seq<InputSpec>): set<string> {
    set s | s in consumed :: s.name
  }

  /** No placeholder to be deleted is still read. */
  ghost predicate Unread(phs: seq<ProgramInput>, names: set<string>) {
    forall p :: p in phs && p.name in names ==> !p.used
  }

  /** All users are getitem nodes, and those to be deleted are read by nothing but the output. */
  ghost predicate ItemsFine(users: seq<DelegateUser>, names: set<string>) {
    forall u :: u in users ==> u.index.Some? && (u.name in names ==> !u.usedElsewhere)
  }

  /** The getitem nodes to delete give their indices, the others stay. */
  method SplitUsers(users: seq<DelegateUser>, names: set<string>)
    returns (ok: bool, idxs: seq<int>, stay: seq<DelegateUser>)
    ensures ok <==> forall u :: u in users && u.name in names ==> u.index.Some? && !u.usedElsewhere
    ensures ok ==> idxs == DeletedIndices(users, names) && stay == Survivors(users, names)
  {
    hide DeletedIndices, Survivors;
    idxs, stay := [], [];
    NoUsers(names);
    for k := 0 to |users|
      invariant idxs == DeletedIndices(users[..k], names) && stay == Survivors(users[..k], names)
      invariant forall j :: 0 <= j < k && users[j].name in names ==> users[j].index.Some? && !users[j].usedElsewhere
    {
      var u := users[k];
      assert users[..k + 1] == users[..k] + [u];
      SurvivorStep(users[..k], u, names);
      if u.name in names {
        if u.index.None? || u.usedElsewhere {
          assert u in users;
          return false, idxs, stay;
        }
        idxs := idxs + [u.index.value];
      } else {
        stay := stay + [u];
      }
    }
    assert users[..|users|] == users;
    ok := true;
  }

  method ShiftAll(stay: seq<DelegateUser>, idxs: seq<int>) returns (ok: bool, shifted: seq<DelegateUser>)
    ensures ok <==> forall u :: u in stay ==> u.index.Some?
    ensures ok ==> |shifted| == |stay| && forall k :: 0 <= k < |stay| ==> shifted[k] == Shift(stay[k], idxs)
  {
    hide CountBelow;
    var sorted := SortDescending(idxs);
    shifted := [];
    for k := 0 to |stay|
      invariant |shifted| == k && forall j :: 0 <= j < k ==> stay[j].index.Some? && shifted[j] == Shift(stay[j], idxs)
    {
      var u := stay[k];
      if u.index.None? {
        assert u in stay;
        return false, shifted;
      }
      var v := Renumber(u.index.value, sorted);
      shifted := shifted + [u.(index := Some(v))];
    }
    ok := true;
  }

  /** There is something to remove that cannot be removed. */
  ghost predicate CannotAdjust(specs: seq<InputSpec>, inputs: seq<ProgramInput>, t: Tables, users: seq<DelegateUser>,
                               consumed: seq<InputSpec>, names: set<string>) {
    var gone := ConsumedNames(consumed);
    && (consumed != [] || names != {})
    && !(Unread(inputs, gone) && Removable(t, consumed, UsedTargets(KeepInputs(specs, gone))) && ItemsFine(users, names))
  }

  /** The reasons for an extraction to fail. */
  ghost predicate Fails(specs: seq<InputSpec>, outs: seq<OutputSpec>, inputs: seq<ProgramInput>, t: Tables,
                        users: seq<DelegateUser>, phs: seq<Placeholder>, outputs: seq<OutputArg>, isSubmodule: bool) {
    var sig, top := SignatureOf(specs, isSubmodule), TopSpecs(outs, isSubmodule);
    || !AllFit(sig, phs, t)
    || (exists e :: Extracts(sig, phs, t, e) && !Accepted(outputs, users, top, e.tables.state.Keys))
    || (exists e, o :: Extracts(sig, phs, t, e) && Describes(outputs, users, top, e.tables.state.Keys, o) &&
                       CannotAdjust(specs, inputs, t, users, e.consumed, o.deleted.Keys))
  }

  lemma FailsToAdjust(specs: seq<InputSpec>, outs: seq<OutputSpec>, inputs: seq<ProgramInput>, t: Tables,
                      users: seq<DelegateUser>, phs: seq<Placeholder>, outputs: seq<OutputArg>, isSubmodule: bool,
                      e: Extracted, o: NewOutputs)
    requires Extracts(SignatureOf(specs, isSubmodule), phs, t, e)
    requires Describes(outputs, users, TopSpecs(outs, isSubmodule), e.tables.state.Keys, o)
    requires CannotAdjust(specs, inputs, t, users, e.consumed, o.deleted.Keys)
    ensures Fails(specs, outs, inputs, t, users, phs, outputs, isSubmodule)
  {
    hide Extracts, Describes, CannotAdjust, SignatureOf, TopSpecs;
  }

  lemma FailsToRead(specs: seq<InputSpec>, outs: seq<OutputSpec>, inputs: seq<ProgramInput>, t: Tables,
                    users: seq<DelegateUser>, phs: seq<Placeholder>, outputs: seq<OutputArg>, isSubmodule: bool, e: Extracted)
    requires !AllFit(SignatureOf(specs, isSubmodule), phs, t) ||
             (Extracts(SignatureOf(specs, isSubmodule), phs, t, e) &&
              !Accepted(outputs, users, TopSpecs(outs, isSubmodule), e.tables.state.Keys))
    ensures Fails(specs, outs, inputs, t, users, phs, outputs, isSubmodule)
  {
    hide Extracts, Accepted, AllFit, SignatureOf, TopSpecs;
  }

  lemma IsBlocked(specs: seq<InputSpec>, inputs: seq<ProgramInput>, t: Tables, users: seq<DelegateUser>,
                  consumed: seq<InputSpec>, names: set<string>)
    requires consumed != [] || names != {}
    requires !(Unread(inputs, ConsumedNames(consumed)) &&
               Removable(t, consumed, UsedTargets(KeepInputs(specs, ConsumedNames(consumed))))) || !ItemsFine(users, names)
    ensures CannotAdjust(specs, inputs, t, users, consumed, names)
  {
  }

  // ---- the delegate's half determines the reasons to fail ----

  lemma SameConsumed(sig: map<string, InputSpec>, phs: seq<Placeholder>, t: Tables, e: Extracted, e': Extracted)
    requires Extracts(sig, phs, t, e) && Extracts(sig, phs, t, e')
    ensures (forall s :: s in e.consumed <==> s in e'.consumed) && e.tables.state.Keys == e'.tables.state.Keys
    ensures NamedOnce(e.consumed) && NamedOnce(e'.consumed)
  {
    forall s | s in e.consumed
      ensures s in e'.consumed
    {
      var p :| p in phs && Consumes(sig, p) && s == sig[p.name];
    }
    forall s | s in e'.consumed
      ensures s in e.consumed
    {
      var p :| p in phs && Consumes(sig, p) && s == sig[p.name];
    }
    assert forall n :: Brought(e.consumed, n) <==> Brought(e'.consumed, n);
  }

  ghost predicate NamedOnce(consumed: seq<InputSpec>) {
    forall j, k :: 0 <= j < k < |consumed| ==> consumed[j].name != consumed[k].name
  }

  lemma RemovableByMembers(t: Tables, consumed: seq<InputSpec>, used: set<string>)
    requires NamedOnce(consumed)
    ensures Removable(t, consumed, used) <==>
            && (forall s :: s in consumed ==> s.target.Some? && (Dropped(s, used) ==> InItsTable(t, s)))
            && (forall a, b :: a in consumed && b in consumed && a.name != b.name ==> !SameEntry(a, b, used))
  {
    hide InItsTable, Dropped;
    if Removable(t, consumed, used) {
      forall a, b | a in consumed && b in consumed && a.name != b.name
        ensures !SameEntry(a, b, used)
      {
        var j :| 0 <= j < |consumed| && consumed[j] == a;
        var k :| 0 <= k < |consumed| && consumed[k] == b;
        assert j < k ==> !SameEntry(consumed[j], consumed[k], used);
        assert k < j ==> !SameEntry(consumed[k], consumed[j], used);
      }
    }
  }

  lemma SameDeleted(outputs: seq<OutputArg>, users: seq<DelegateUser>, top: seq<OutputSpec>, buffers: set<string>,
                    o: NewOutputs, o': NewOutputs)
    requires Describes(outputs, users, top, buffers, o) && Describes(outputs, users, top, buffers, o')
    ensures o.deleted.Keys == o'.deleted.Keys
  {
    forall x | x in o.deleted
      ensures x in o'.deleted
    {
      DeletedByBoth(outputs, users, top, buffers, o, o', x);
    }
    forall x | x in o'.deleted
      ensures x in o.deleted
    {
      DeletedByBoth(outputs, users, top, buffers, o', o, x);
    }
  }

  lemma DeletedByBoth(outputs: seq<OutputArg>, users: seq<DelegateUser>, top: seq<OutputSpec>, buffers: set<string>,
                      o: NewOutputs, o': NewOutputs, x: string)
    requires Describes(outputs, users, top, buffers, o) && Describes(outputs, users, top, buffers, o') && x in o.deleted
    ensures x in o'.deleted
  {
    hide SpecsAt, IsConsumed;
    assert FromItem(users, top, buffers, |outputs|, x, o.deleted[x]);
    var i: nat :| i < |outputs| && SpecsAt(users, top, i) == [o.deleted[x]];
    assert o.deleted[x] in SpecsAt(users, top, i);
    assert ConsumedAt(users, top, buffers, i);
  }

  lemma SameObstacles(specs: seq<InputSpec>, inputs: seq<ProgramInput>, t: Tables, users: seq<DelegateUser>,
                      a: seq<InputSpec>, b: seq<InputSpec>, names: set<string>)
    requires NamedOnce(a) && NamedOnce(b) && forall s :: s in a <==> s in b
    ensures CannotAdjust(specs, inputs, t, users, a, names) <==> CannotAdjust(specs, inputs, t, users, b, names)
  {
    hide Removable, KeepInputs, UsedTargets, NamedOnce, InItsTable, Dropped, SameEntry;
    assert ConsumedNames(a) == ConsumedNames(b);
    assert a == [] <==> b == [] by {
      if a != [] {
        assert a[0] in a;
      }
      if b != [] {
        assert b[0] in b;
      }
    }
    var used := UsedTargets(KeepInputs(specs, ConsumedNames(a)));
    RemovableByMembers(t, a, used);
    RemovableByMembers(t, b, used);
  }

  /** A delegate that could be read and a program that could be adjusted: no reason to fail. */
  lemma NoReasonToFail(specs: seq<InputSpec>, outs: seq<OutputSpec>, inputs: seq<ProgramInput>, t: Tables,
                       users: seq<DelegateUser>, phs: seq<Placeholder>, outputs: seq<OutputArg>, isSubmodule: bool,
                       e: Extracted, o: NewOutputs)
    requires AllFit(SignatureOf(specs, isSubmodule), phs, t) && Extracts(SignatureOf(specs, isSubmodule), phs, t, e)
    requires Accepted(outputs, users, TopSpecs(outs, isSubmodule), e.tables.state.Keys)
    requires Describes(outputs, users, TopSpecs(outs, isSubmodule), e.tables.state.Keys, o)
    requires !CannotAdjust(specs, inputs, t, users, e.consumed, o.deleted.Keys)
    ensures !Fails(specs, outs, inputs, t, users, phs, outputs, isSubmodule)
  {
    hide AllFit, Extracts, Accepted, Describes, CannotAdjust, SignatureOf, TopSpecs;
    var sig, top := SignatureOf(specs, isSubmodule), TopSpecs(outs, isSubmodule);
    forall e' | Extracts(sig, phs, t, e')
      ensures Accepted(outputs, users, top, e'.tables.state.Keys)
    {
      SameConsumed(sig, phs, t, e, e');
    }
    forall e', o' | Extracts(sig, phs, t, e') && Describes(outputs, users, top, e'.tables.state.Keys, o')
      ensures !CannotAdjust(specs, inputs, t, users, e'.consumed, o'.deleted.Keys)
    {
      SameConsumed(sig, phs, t, e, e');
      SameDeleted(outputs, users, top, e.tables.state.Keys, o, o');
      SameObstacles(specs, inputs, t, users, e.consumed, e'.consumed, o.deleted.Keys);
    }
  }

  lemma IsClear(specs: seq<InputSpec>, inputs: seq<ProgramInput>, t: Tables, users: seq<DelegateUser>,
                consumed: seq<InputSpec>, names: set<string>)
    requires consumed != [] || names != {} ==>
               && Unread(inputs, ConsumedNames(consumed)) && ItemsFine(users, names)
               && Removable(t, consumed, UsedTargets(KeepInputs(specs, ConsumedNames(consumed))))
    ensures !CannotAdjust(specs, inputs, t, users, consumed, names)
  {
  }

  class ExportedProgram {
    var inputSpecs: seq<InputSpec>
    var outputSpecs: seq<OutputSpec>
    var tables: Tables
    var placeholders: seq<ProgramInput>
    var outputArgs: seq<OutputArg>
    var delegateUsers: seq<DelegateUser>

    /** Signature, placeholders and tables lose what the delegate consumed. */
    method RemoveInputs(consumed: seq<InputSpec>) returns (ok: bool)
      modifies this`inputSpecs, this`placeholders, this`tables
      ensures ok <==>
              && Unread(old(placeholders), ConsumedNames(consumed))
              && Removable(old(tables), consumed, UsedTargets(KeepInputs(old(inputSpecs), ConsumedNames(consumed))))
      ensures ok ==> inputSpecs == KeepInputs(old(inputSpecs), ConsumedNames(consumed))
      ensures ok ==> placeholders == KeepPlaceholders(old(placeholders), ConsumedNames(consumed))
      ensures ok ==> tables == Remaining(old(tables), consumed, UsedTargets(inputSpecs))
    {
      hide Removable, Remaining, KeepInputs;
      var names := set s | s in consumed :: s.name;
      inputSpecs := FilterInputs(inputSpecs, names);
      var kinds := inputSpecs;
      var used := set s | s in kinds && s.target.Some? :: s.target.value;
      var phs, kept := placeholders, [];
      for k := 0 to |phs|
        invariant kept == KeepPlaceholders(phs[..k], names) && forall j :: 0 <= j < k && phs[j].name in names ==> !phs[j].used
        invariant inputSpecs == KeepInputs(old(inputSpecs), names) && tables == old(tables)
      {
        assert phs[..k + 1][..k] == phs[..k];
        if phs[k].name in names {
          if phs[k].used {
            assert phs[k] in phs;
            return false;
          }
        } else {
          kept := kept + [phs[k]];
        }
      }
      assert phs[..|phs|] == phs;
      placeholders := kept;
      var left := DropConsumed(tables, consumed, used);
      if left.None? {
        return false;
      }
      tables := left.value;
      return true;
    }

    /** Outputs and getitem nodes of consumed mutations go; the other getitem nodes are renumbered. */
    method RemoveOutputs(names: set<string>) returns (ok: bool)
      modifies this`outputSpecs, this`outputArgs, this`delegateUsers
      ensures ok <==> ItemsFine(old(delegateUsers), names)
      ensures ok ==> outputSpecs == KeepOutputs(old(outputSpecs), names) && outputArgs == KeepArgs(old(outputArgs), names)
      ensures ok ==> delegateUsers == Renumbered(old(delegateUsers), names)
    {
      hide DeletedIndices;
      outputSpecs := FilterOutputs(outputSpecs, names);
      outputArgs := FilterArgs(outputArgs, names);
      var idxs, stay, shifted;
      ok, idxs, stay := SplitUsers(delegateUsers, names);
      if !ok {
        return;
      }
      ok, shifted := ShiftAll(stay, idxs);
      if !ok {
        return;
      }
      delegateUsers := shifted;
      return true;
    }
  
    /** One extraction: the delegate's signature and tables, and the program adjusted to them.
        None stands for an error; the program may then be half adjusted. */
    method Extract(phs: seq<Placeholder>, outputs: seq<OutputArg>, isSubmodule: bool)
      returns (r: Option<(Extracted, NewOutputs)>)
      requires DistinctPlaceholders(phs) && DistinctNames(delegateUsers)
      modifies this
      ensures r.None? <==>
              old(Fails(inputSpecs, outputSpecs, placeholders, tables, delegateUsers, Arranged(phs, inputSpecs), outputs, isSubmodule))
      ensures r.Some? ==>
                var (e, o) := r.value;
                && AllFit(SignatureOf(old(inputSpecs), isSubmodule), phs, old(tables))
                && Extracts(SignatureOf(old(inputSpecs), isSubmodule), Arranged(phs, old(inputSpecs)), old(tables), e)
                && Describes(outputs, old(delegateUsers), TopSpecs(old(outputSpecs), isSubmodule), e.tables.state.Keys, o)
      ensures r.Some? ==>
                var (e, o) := r.value;
                && inputSpecs == KeepInputs(old(inputSpecs), ConsumedNames(e.consumed))
                && placeholders == KeepPlaceholders(old(placeholders), ConsumedNames(e.consumed))
                && tables == Remaining(old(tables), e.consumed, UsedTargets(inputSpecs))
                && outputSpecs == KeepOutputs(old(outputSpecs), o.deleted.Keys)
                && outputArgs == KeepArgs(old(outputArgs), o.deleted.Keys)
                && delegateUsers == Renumbered(old(delegateUsers), o.deleted.Keys)
      ensures r.Some? ==>
                var (e, o) := r.value;
                (Conserved(old(tables), e.tables, tables) <==>
                   forall s :: s in e.consumed ==> !Misfiled(s, old(tables), UsedTargets(inputSpecs)))
      ensures r.Some? ==>
                var (e, o) := r.value;
                MutationsFollow(old(outputSpecs), outputSpecs, old(delegateUsers), |outputs|, o.specs, e.tables.state, isSubmodule)
      ensures r.Some? && InputsAligned(old(placeholders), old(inputSpecs)) ==> InputsAligned(placeholders, inputSpecs)
      ensures r.Some? ==>
                var (e, o) := r.value;
                OutputsAligned(old(outputArgs), old(outputSpecs), o.deleted.Keys) ==>
                  OutputsAligned(outputArgs, outputSpecs, o.deleted.Keys)
    {
      hide *;
      r := None;
      var arranged := ArrangePlaceholders(phs, inputSpecs);
      ArrangedIsStable(phs, inputSpecs);
      ArrangedFits(SignatureOf(inputSpecs, isSubmodule), phs, arranged, tables);
      ghost var specs, outs, inputs, t, users := inputSpecs, outputSpecs, placeholders, tables, delegateUsers;
      var e := GetNewInputs(inputSpecs, arranged, tables, isSubmodule);
      if e.None? {
        FailsToRead(specs, outs, inputs, t, users, arranged, outputs, isSubmodule, Extracted([], [], tables));
        return;
      }
      var o := GetNewOutputs(outputs, delegateUsers, outputSpecs, e.value.tables.state.Keys, isSubmodule);
      if o.None? {
        FailsToRead(specs, outs, inputs, t, users, arranged, outputs, isSubmodule, e.value);
        return;
      }
      var consumed, names := e.value.consumed, o.value.deleted.Keys;
      NothingToRemove(inputSpecs, placeholders, tables, outputArgs, outputSpecs, delegateUsers);
      if consumed != [] || names != {} {
        var ok := RemoveInputs(consumed);
        if ok {
          ok := RemoveOutputs(names);
        }
        if !ok {
          IsBlocked(specs, inputs, t, users, consumed, names);
          FailsToAdjust(specs, outs, inputs, t, users, arranged, outputs, isSubmodule, e.value, o.value);
          return;
        }
      }
      IsClear(specs, inputs, t, users, consumed, names);
      NoReasonToFail(specs, outs, inputs, t, users, arranged, outputs, isSubmodule, e.value, o.value);
      Adjusted(SignatureOf(specs, isSubmodule), arranged, t, e.value, specs, inputSpecs, inputs, placeholders,
               old(outputArgs), outs, names);
      MutationsDoFollow(outputs, users, outs, outputSpecs, e.value.tables.state, o.value, isSubmodule);
      r := Some((e.value, o.value));
    }
  }

  /** What fits does not depend on the order of the placeholders. */
  lemma ArrangedFits(sig: map<string, InputSpec>, phs: seq<Placeholder>, arranged: seq<Placeholder>, t: Tables)
    requires forall p :: p in arranged <==> p in phs
    ensures AllFit(sig, arranged, t) <==> AllFit(sig, phs, t)
  {
  }

  /** Without anything consumed, adjusting the program would change nothing. */
  lemma {:induction false} NothingToRemove(specs: seq<InputSpec>, phs: seq<ProgramInput>, t: Tables,
                                           args: seq<OutputArg>, outs: seq<OutputSpec>, users: seq<DelegateUser>)
    ensures KeepInputs(specs, ConsumedNames([])) == specs && KeepPlaceholders(phs, ConsumedNames([])) == phs
    ensures Removable(t, [], UsedTargets(specs)) && Remaining(t, [], UsedTargets(specs)) == t
    ensures KeepArgs(args, {}) == args && KeepOutputs(outs, {}) == outs && Renumbered(users, {}) == users
  {
    NothingDropped(t, UsedTargets(specs));
    assert ConsumedNames([]) == {};
    KeepNoInput(specs);
    KeepNoPlaceholder(phs);
    KeepNoArg(args);
    KeepNoOutput(outs);
    KeepNoUser(users);
  }

  lemma KeepNoInput(specs: seq<InputSpec>)
    ensures KeepInputs(specs, {}) == specs
  {
  }

  lemma KeepNoPlaceholder(phs: seq<ProgramInput>)
    ensures KeepPlaceholders(phs, {}) == phs
  {
  }

  lemma KeepNoArg(args: seq<OutputArg>)
    ensures KeepArgs(args, {}) == args
  {
  }

  lemma KeepNoOutput(outs: seq<OutputSpec>)
    ensures KeepOutputs(outs, {}) == outs
  {
  }

  lemma KeepNoUser(users: seq<DelegateUser>)
    ensures Renumbered(users, {}) == users
  {
    NoSurvivorLost(users);
  }

  lemma {:induction false} NoSurvivorLost(users: seq<DelegateUser>)
    ensures Survivors(users, {}) == users && DeletedIndices(users, {}) == []
  {
    hide Survivors, DeletedIndices;
    if users == [] {
      NoUsers({});
    } else {
      var init, last := users[..|users| - 1], users[|users| - 1];
      assert users == init + [last];
      NoSurvivorLost(init);
      SurvivorStep(init, last, {});
    }
  }

  /** The promises of one extraction, from what its steps computed. */
  lemma Adjusted(sig: map<string, InputSpec>, phs: seq<Placeholder>, t: Tables, e: Extracted,
                 specs: seq<InputSpec>, specs': seq<InputSpec>, inputs: seq<ProgramInput>, inputs': seq<ProgramInput>,
                 args: seq<OutputArg>, outs: seq<OutputSpec>, names: set<string>)
    requires AllFit(sig, phs, t) && Extracts(sig, phs, t, e) && Removable(t, e.consumed, UsedTargets(specs'))
    requires specs' == KeepInputs(specs, ConsumedNames(e.consumed))
    requires inputs' == KeepPlaceholders(inputs, ConsumedNames(e.consumed))
    ensures Conserved(t, e.tables, Remaining(t, e.consumed, UsedTargets(specs'))) <==>
            forall s :: s in e.consumed ==> !Misfiled(s, t, UsedTargets(specs'))
    ensures InputsAligned(inputs, specs) ==> InputsAligned(inputs', specs')
    ensures OutputsAligned(args, outs, names) ==> OutputsAligned(KeepArgs(args, names), KeepOutputs(outs, names), names)
  {
    hide *;
    ExtractionConservesIff(sig, phs, t, e, UsedTargets(specs'));
    if InputsAligned(inputs, specs) {
      InputsStayAligned(inputs, specs, ConsumedNames(e.consumed));
    }
    if OutputsAligned(args, outs, names) {
      OutputsStayAligned(args, outs, names);
    }
  }
}
