/** Outputs of a partition that becomes a delegate: buffer mutations the delegate consumes
    leave the original program, and the getitem nodes on the delegate are renumbered
    (`_get_new_signature`, `_unsafe_adjust_original_program`). */
module DelegateOutputs {
  import opened Wrappers

  datatype OutputKind = UserOutput | BufferMutation | OtherOutput

  /** What an output node returns: a node, by name, or a constant. */
  datatype OutputArg = NodeRef(name: string) | ConstantValue(value: int)

  datatype SpecArg = TensorArgument(name: string) | ConstantArgument(name: string, value: int)

  datatype OutputSpec = OutputSpec(kind: OutputKind, arg: SpecArg, target: Option<string>)

  /** A node that uses the delegate's result. Its index is None unless it is a getitem node
      with an integer index. */
  datatype DelegateUser = DelegateUser(name: string, index: Option<int>, usedElsewhere: bool)

  datatype NewOutputs = NewOutputs(specs: seq<OutputSpec>, deleted: map<string, OutputSpec>)

  /** The top-level output specs about the node called n. */
  ghost function SpecsNamed(specs: seq<OutputSpec>, n: string): (r: seq<OutputSpec>)
    ensures forall s :: s in r ==> s in specs && s.arg.name == n
  {
    if specs == [] then [] else
      SpecsNamed(specs[..|specs| - 1], n) +
      if specs[|specs| - 1].arg.name == n then [specs[|specs| - 1]] else []
  }

  /** The top-level output specs reached through item i of the delegate's result. */
  ghost function SpecsAt(users: seq<DelegateUser>, top: seq<OutputSpec>, i: nat): (r: seq<OutputSpec>)
    ensures forall s :: s in r ==> exists u :: u in users && u.index == Some(i) && u.name == s.arg.name
  {
    if users == [] then [] else
      var u := users[|users| - 1];
      SpecsAt(users[..|users| - 1], top, i) +
      if u.index == Some(i) then SpecsNamed(top, u.name) else []
  }

  ghost predicate IsConsumed(s: OutputSpec, buffers: set<string>) {
    s.kind == BufferMutation && s.target.Some? && s.target.value in buffers
  }

  /** Item i is the mutation of a buffer the delegate takes over. */
  ghost predicate ConsumedAt(users: seq<DelegateUser>, top: seq<OutputSpec>, buffers: set<string>, i: nat) {
    exists s :: s in SpecsAt(users, top, i) && IsConsumed(s, buffers)
  }

  /** Users reached from the top-level outputs are getitem nodes. */
  ghost predicate ListedAreItems(users: seq<DelegateUser>, top: seq<OutputSpec>) {
    forall u :: u in users && SpecsNamed(top, u.name) != [] ==> u.index.Some?
  }

  /** Item i of the delegate's output list passes the assertions of the signature code. */
  ghost predicate FineAt(outputs: seq<OutputArg>, users: seq<DelegateUser>, top: seq<OutputSpec>, buffers: set<string>, i: nat)
    requires i < |outputs|
  {
    && (SpecsAt(users, top, i) != [] ==> outputs[i].NodeRef?)
    && (ConsumedAt(users, top, buffers, i) ==> |SpecsAt(users, top, i)| == 1)
  }

  /** The delegate's own output specs: consumed mutations stay mutations, the rest is
      returned to the user. */
  ghost predicate SpecFor(out: OutputArg, users: seq<DelegateUser>, top: seq<OutputSpec>, buffers: set<string>, i: nat,
                          s: OutputSpec) {
    && (s.arg.TensorArgument? <==> out.NodeRef?)
    && (out.NodeRef? ==> s.arg.name == out.name)
    && (out.ConstantValue? ==> s.arg == ConstantArgument("", out.value))
    && (ConsumedAt(users, top, buffers, i) ==>
          s.kind == BufferMutation && exists t :: t in SpecsAt(users, top, i) && IsConsumed(t, buffers) && s.target == t.target)
    && (!ConsumedAt(users, top, buffers, i) ==> s.kind == UserOutput && s.target == None)
  }

  /** Exactly the consumed mutations among the first n items are to be deleted. */
  ghost predicate DeletesUpTo(users: seq<DelegateUser>, top: seq<OutputSpec>, buffers: set<string>, n: nat,
                              deleted: map<string, OutputSpec>) {
    && (forall x :: x in deleted ==> FromItem(users, top, buffers, n, x, deleted[x]))
    && (forall i: nat :: i < n && ConsumedAt(users, top, buffers, i) ==>
          |SpecsAt(users, top, i)| == 1 && SpecsAt(users, top, i)[0].arg.name in deleted)
  }

  ghost predicate FromItem(users: seq<DelegateUser>, top: seq<OutputSpec>, buffers: set<string>, n: nat,
                           x: string, s: OutputSpec) {
    s.arg.name == x && IsConsumed(s, buffers) && exists i: nat :: i < n && SpecsAt(users, top, i) == [s]
  }

  /** The output specs by the name of their node. */
  method GroupByName(top: seq<OutputSpec>) returns (byName: map<string, seq<OutputSpec>>)
    ensures forall n :: n in byName <==> SpecsNamed(top, n) != []
    ensures forall n :: n in byName ==> byName[n] == SpecsNamed(top, n)
  {
    hide SpecsNamed;
    byName := map[];
    assert forall n :: SpecsNamed(top[..0], n) == [] by {
      forall n {
        NoneNamed(n);
      }
    }
    for k := 0 to |top|
      invariant forall n :: n in byName <==> SpecsNamed(top[..k], n) != []
      invariant forall n :: n in byName ==> byName[n] == SpecsNamed(top[..k], n)
    {
      var s := top[k];
      assert top[..k + 1] == top[..k] + [s];
      forall n
        ensures SpecsNamed(top[..k + 1], n) == SpecsNamed(top[..k], n) + if s.arg.name == n then [s] else []
      {
        NamedStep(top[..k], s, n);
      }
      byName := byName[s.arg.name := (if s.arg.name in byName then byName[s.arg.name] else []) + [s]];
    }
    assert top[..|top|] == top;
  }

  lemma NamedStep(top: seq<OutputSpec>, s: OutputSpec, n: string)
    ensures SpecsNamed(top + [s], n) == SpecsNamed(top, n) + if s.arg.name == n then [s] else []
  {
    assert (top + [s])[..|top|] == top;
  }

  lemma ItemStep(users: seq<DelegateUser>, u: DelegateUser, top: seq<OutputSpec>, i: nat)
    ensures SpecsAt(users + [u], top, i) == SpecsAt(users, top, i) + if u.index == Some(i) then SpecsNamed(top, u.name) else []
  {
    assert (users + [u])[..|users|] == users;
  }

  lemma NoItems(top: seq<OutputSpec>, i: nat)
    ensures SpecsAt([], top, i) == []
  {
  }

  /** The table of output specs by item, for some of the users. */
  ghost predicate Grouped(users: seq<DelegateUser>, top: seq<OutputSpec>, m: map<int, seq<OutputSpec>>) {
    forall i: nat :: (i in m <==> SpecsAt(users, top, i) != []) && (i in m ==> m[i] == SpecsAt(users, top, i))
  }

  lemma GroupOne(users: seq<DelegateUser>, u: DelegateUser, top: seq<OutputSpec>, m: map<int, seq<OutputSpec>>,
                 m': map<int, seq<OutputSpec>>)
    requires Grouped(users, top, m) && (SpecsNamed(top, u.name) != [] ==> u.index.Some?)
    requires m' == if SpecsNamed(top, u.name) == [] then m else
                     var i := u.index.value; m[i := (if i in m then m[i] else []) + SpecsNamed(top, u.name)]
    ensures Grouped(users + [u], top, m')
  {
    hide SpecsAt, SpecsNamed;
    forall i: nat
      ensures i in m' <==> SpecsAt(users + [u], top, i) != []
      ensures i in m' ==> m'[i] == SpecsAt(users + [u], top, i)
    {
      ItemStep(users, u, top, i);
    }
  }

  /** The output specs by item of the delegate's result; None stands for a failed assertion. */
  method GroupByItem(users: seq<DelegateUser>, top: seq<OutputSpec>) returns (r: Option<map<int, seq<OutputSpec>>>)
    ensures r.Some? <==> ListedAreItems(users, top)
    ensures r.Some? ==> Grouped(users, top, r.value)
  {
    hide SpecsAt, SpecsNamed, Grouped;
    var byName := GroupByName(top);
    var m: map<int, seq<OutputSpec>> := map[];
    NothingGrouped(top);
    for k := 0 to |users|
      invariant forall j :: 0 <= j < k && SpecsNamed(top, users[j].name) != [] ==> users[j].index.Some?
      invariant Grouped(users[..k], top, m)
    {
      assert users[..k + 1] == users[..k] + [users[k]];
      var u := users[k];
      ghost var before := m;
      if u.name in byName {
        if u.index.None? {
          assert u in users;
          return None;
        }
        var i := u.index.value;
        m := m[i := (if i in m then m[i] else []) + byName[u.name]];
      }
      GroupOne(users[..k], u, top, before, m);
    }
    assert users[..|users|] == users;
    r := Some(m);
  }

  lemma NothingGrouped(top: seq<OutputSpec>)
    ensures Grouped([], top, map[])
  {
  }

  ghost function TopSpecs(specs: seq<OutputSpec>, isSubmodule: bool): seq<OutputSpec> {
    if isSubmodule then [] else specs
  }

  ghost predicate Accepted(outputs: seq<OutputArg>, users: seq<DelegateUser>, top: seq<OutputSpec>, buffers: set<string>) {
    ListedAreItems(users, top) && forall i :: 0 <= i < |outputs| ==> FineAt(outputs, users, top, buffers, i)
  }

  /** What the new signature says of the delegate's outputs. */
  ghost predicate Describes(outputs: seq<OutputArg>, users: seq<DelegateUser>, top: seq<OutputSpec>, buffers: set<string>,
                            r: NewOutputs) {
    && |r.specs| == |outputs|
    && (forall i :: 0 <= i < |outputs| ==> SpecFor(outputs[i], users, top, buffers, i, r.specs[i]))
    && DeletesUpTo(users, top, buffers, |outputs|, r.deleted)
  }

  /** The output half of `_get_new_signature`; None stands for a failed assertion. Inside a
      control-flow submodule the top-level specs are not looked at. */
  method GetNewOutputs(outputs: seq<OutputArg>, users: seq<DelegateUser>, specs: seq<OutputSpec>,
                       buffers: set<string>, isSubmodule: bool) returns (r: Option<NewOutputs>)
    ensures r.Some? <==> Accepted(outputs, users, TopSpecs(specs, isSubmodule), buffers)
    ensures r.Some? ==> Describes(outputs, users, TopSpecs(specs, isSubmodule), buffers, r.value)
  {
    hide SpecsAt, SpecsNamed, ListedAreItems, DeletesUpTo, IsConsumed;
    var top := if isSubmodule then [] else specs;
    var byItem := GroupByItem(users, top);
    if byItem.None? {
      return None;
    }
    var m := byItem.value;
    var delegate: seq<OutputSpec>, deleted: map<string, OutputSpec> := [], map[];
    NothingDeleted(users, top, buffers);
    for i := 0 to |outputs|
      invariant |delegate| == i && forall j :: 0 <= j < i ==> FineAt(outputs, users, top, buffers, j)
      invariant forall j :: 0 <= j < i ==> SpecFor(outputs[j], users, top, buffers, j, delegate[j])
      invariant DeletesUpTo(users, top, buffers, i, deleted)
    {
      var s: OutputSpec;
      if i in m {
        if outputs[i].ConstantValue? {
          assert !FineAt(outputs, users, top, buffers, i);
          return None;
        }
        var consumed := exists t: OutputSpec ::
          t in m[i] && t.kind == BufferMutation && t.target.Some? && t.target.value in buffers;
        MeansConsumed(m[i], buffers);
        if consumed {
          if |m[i]| != 1 {
            assert !FineAt(outputs, users, top, buffers, i);
            return None;
          }
          var t: OutputSpec := m[i][0];
          s := OutputSpec(BufferMutation, TensorArgument(outputs[i].name), t.target);
          DeleteOne(users, top, buffers, i, deleted, t);
          deleted := deleted[t.arg.name := t];
        } else {
          s := OutputSpec(UserOutput, TensorArgument(outputs[i].name), None);
        }
      } else if outputs[i].ConstantValue? {
        s := OutputSpec(UserOutput, ConstantArgument("", outputs[i].value), None);
      } else {
        s := OutputSpec(UserOutput, TensorArgument(outputs[i].name), None);
      }
      KeepOne(users, top, buffers, i, deleted);
      delegate := delegate + [s];
    }
    r := Some(NewOutputs(delegate, deleted));
  }

  lemma MeansConsumed(specs: seq<OutputSpec>, buffers: set<string>)
    ensures (exists t :: t in specs && t.kind == BufferMutation && t.target.Some? && t.target.value in buffers) <==>
            exists t :: t in specs && IsConsumed(t, buffers)
  {
  }

  lemma DeleteOne(users: seq<DelegateUser>, top: seq<OutputSpec>, buffers: set<string>, i: nat,
                  deleted: map<string, OutputSpec>, t: OutputSpec)
    requires DeletesUpTo(users, top, buffers, i, deleted) && SpecsAt(users, top, i) == [t] && IsConsumed(t, buffers)
    ensures DeletesUpTo(users, top, buffers, i + 1, deleted[t.arg.name := t])
  {
    hide SpecsAt, ConsumedAt, FromItem, IsConsumed;
    var deleted' := deleted[t.arg.name := t];
    forall x | x in deleted'
      ensures FromItem(users, top, buffers, i + 1, x, deleted'[x])
    {
      if x == t.arg.name {
        FreshItem(users, top, buffers, i, t);
      } else {
        OlderItem(users, top, buffers, i, x, deleted[x]);
      }
    }
  }

  lemma FreshItem(users: seq<DelegateUser>, top: seq<OutputSpec>, buffers: set<string>, i: nat, t: OutputSpec)
    requires SpecsAt(users, top, i) == [t] && IsConsumed(t, buffers)
    ensures FromItem(users, top, buffers, i + 1, t.arg.name, t)
  {
    hide SpecsAt;
  }

  lemma OlderItem(users: seq<DelegateUser>, top: seq<OutputSpec>, buffers: set<string>, i: nat, x: string, s: OutputSpec)
    requires FromItem(users, top, buffers, i, x, s)
    ensures FromItem(users, top, buffers, i + 1, x, s)
  {
    hide SpecsAt;
  }

  lemma KeepOne(users: seq<DelegateUser>, top: seq<OutputSpec>, buffers: set<string>, i: nat,
                deleted: map<string, OutputSpec>)
    requires ConsumedAt(users, top, buffers, i) || DeletesUpTo(users, top, buffers, i, deleted)
    ensures !ConsumedAt(users, top, buffers, i) ==> DeletesUpTo(users, top, buffers, i + 1, deleted)
  {
    hide SpecsAt, ConsumedAt;
  }

  lemma NothingDeleted(users: seq<DelegateUser>, top: seq<OutputSpec>, buffers: set<string>)
    ensures DeletesUpTo(users, top, buffers, 0, map[])
  {
  }

  // ---- renumbering the getitem nodes ----

  /** How many of the deleted indices lie below u. */
  ghost function CountBelow(idxs: seq<int>, u: int): (c: nat)
    ensures c <= |idxs|
  {
    if idxs == [] then 0
    else CountBelow(idxs[..|idxs| - 1], u) + if idxs[|idxs| - 1] < u then 1 else 0
  }

  ghost predicate Descending(idxs: seq<int>) {
    forall i, j :: 0 <= i < j < |idxs| ==> idxs[i] >= idxs[j]
  }

  lemma {:induction false} CountBelowSplit(idxs: seq<int>, u: int, k: nat)
    requires k <= |idxs|
    requires forall i :: 0 <= i < |idxs| ==> (idxs[i] < u <==> i >= k)
    ensures CountBelow(idxs, u) == |idxs| - k
  {
    if idxs != [] {
      var init := idxs[..|idxs| - 1];
      CountBelowSplit(init, u, if k < |idxs| then k else |init|);
    }
  }

  /** The new index of a getitem node, as the loop over the deleted indices, largest first,
      computes it. */
  method Renumber(u: int, idxs: seq<int>) returns (v: int)
    requires Descending(idxs)
    ensures v == u - CountBelow(idxs, u)
  {
    for i := 0 to |idxs|
      invariant forall k :: 0 <= k < i ==> idxs[k] >= u
    {
      if u > idxs[i] {
        CountBelowSplit(idxs, u, i);
        return u - (|idxs| - i);
      }
    }
    CountBelowSplit(idxs, u, |idxs|);
    return u;
  }

  lemma {:induction false} CountBelowConcat(a: seq<int>, b: seq<int>, u: int)
    ensures CountBelow(a + b, u) == CountBelow(a, u) + CountBelow(b, u)
  {
    if b == [] {
      assert a + b == a;
    } else {
      CountBelowConcat(a, b[..|b| - 1], u);
      assert (a + b)[..|a + b| - 1] == a + b[..|b| - 1];
    }
  }

  lemma InsertedCount(r: seq<int>, k: nat, x: int, u: int)
    requires k <= |r|
    ensures CountBelow(r[..k] + [x] + r[k..], u) == CountBelow(r, u) + if x < u then 1 else 0
  {
    CountBelowConcat(r[..k], [x], u);
    CountBelowConcat(r[..k] + [x], r[k..], u);
    CountBelowConcat(r[..k], r[k..], u);
    assert r == r[..k] + r[k..];
  }

  /** Sorting the deleted indices, largest first. */
  method SortDescending(idxs: seq<int>) returns (r: seq<int>)
    ensures Descending(r) && forall u :: CountBelow(r, u) == CountBelow(idxs, u)
  {
    r := [];
    for i := 0 to |idxs|
      invariant Descending(r) && forall u :: CountBelow(r, u) == CountBelow(idxs[..i], u)
    {
      assert idxs[..i + 1][..i] == idxs[..i];
      r := InsertDescending(r, idxs[i]);
    }
    assert idxs[..|idxs|] == idxs;
  }

  method InsertDescending(r: seq<int>, x: int) returns (r': seq<int>)
    requires Descending(r)
    ensures Descending(r') && forall u :: CountBelow(r', u) == CountBelow(r, u) + if x < u then 1 else 0
  {
    hide CountBelow;
    var k := 0;
    while k < |r| && r[k] >= x
      invariant 0 <= k <= |r| && forall i :: 0 <= i < k ==> r[i] >= x
    {
      k := k + 1;
    }
    r' := r[..k] + [x] + r[k..];
    forall u
      ensures CountBelow(r', u) == CountBelow(r, u) + if x < u then 1 else 0
    {
      InsertedCount(r, k, x, u);
    }
  }

  /** The positions of the delegate's output list that are returned to the user, in order:
      what a getitem node on the delegate selects from. */
  ghost function UserPositions(specs: seq<OutputSpec>): (r: seq<nat>)
    ensures forall k :: 0 <= k < |r| ==> r[k] < |specs| && specs[r[k]].kind == UserOutput
  {
    if specs == [] then [] else
      UserPositions(specs[..|specs| - 1]) +
      if specs[|specs| - 1].kind == UserOutput then [|specs| - 1] else []
  }

  lemma {:induction false} UserPositionsOfPrefix(specs: seq<OutputSpec>, n: nat, k: nat)
    requires n <= |specs| && k < |UserPositions(specs[..n])|
    ensures k < |UserPositions(specs)| && UserPositions(specs)[k] == UserPositions(specs[..n])[k]
    decreases |specs|
  {
    if n < |specs| {
      var init := specs[..|specs| - 1];
      assert init[..n] == specs[..n];
      UserPositionsOfPrefix(init, n, k);
    } else {
      assert specs[..n] == specs;
    }
  }

  /** The deleted indices are the positions not returned to the user, each once. */
  ghost predicate Exact(specs: seq<OutputSpec>, idxs: seq<int>) {
    && (forall k :: 0 <= k < |idxs| ==> 0 <= idxs[k] < |specs|)
    && forall i :: 0 <= i < |specs| ==> multiset(idxs)[i] == if specs[i].kind == UserOutput then 0 else 1
  }

  lemma {:induction false} CountBelowStep(idxs: seq<int>, u: int)
    ensures CountBelow(idxs, u + 1) == CountBelow(idxs, u) + multiset(idxs)[u]
  {
    if idxs != [] {
      var init := idxs[..|idxs| - 1];
      CountBelowStep(init, u);
      assert idxs == init + [idxs[|idxs| - 1]];
    }
  }

  lemma {:induction false} NoneBelowZero(idxs: seq<int>, u: int)
    requires u <= 0 && forall k :: 0 <= k < |idxs| ==> 0 <= idxs[k]
    ensures CountBelow(idxs, u) == 0
  {
    if idxs != [] {
      NoneBelowZero(idxs[..|idxs| - 1], u);
    }
  }

  /** Below u, positions are either deleted or returned. */
  lemma {:induction false} RankOf(specs: seq<OutputSpec>, idxs: seq<int>, u: nat)
    requires Exact(specs, idxs) && u <= |specs|
    ensures |UserPositions(specs[..u])| == u - CountBelow(idxs, u)
  {
    if u == 0 {
      NoneBelowZero(idxs, 0);
    } else {
      RankOf(specs, idxs, u - 1);
      CountBelowStep(idxs, u - 1);
      assert specs[..u][..u - 1] == specs[..u - 1];
    }
  }

  /** A renumbered getitem node selects, among the outputs the delegate still returns, the
      output it selected before; it does so exactly when that output was not consumed. */
  lemma RenumberSelectsSame(specs: seq<OutputSpec>, idxs: seq<int>, u: nat)
    requires Exact(specs, idxs) && u < |specs|
    ensures 0 <= u - CountBelow(idxs, u)
    ensures var v, kept := u - CountBelow(idxs, u), UserPositions(specs);
            (v < |kept| && kept[v] == u) <==> specs[u].kind == UserOutput
  {
    RankOf(specs, idxs, u);
    if specs[u].kind == UserOutput {
      assert specs[..u + 1][..u] == specs[..u];
      UserPositionsOfPrefix(specs, u + 1, u - CountBelow(idxs, u));
    }
  }

  /** Where item i of n is: a negative index counts from the end. */
  ghost function ItemAt(n: nat, i: int): int {
    if i < 0 then n + i else i
  }

  /** The outputs from position p on are all returned. */
  ghost predicate AllReturned(specs: seq<OutputSpec>, p: int) {
    forall i :: 0 <= i < |specs| && p <= i ==> specs[i].kind == UserOutput
  }

  lemma UserPositionsStep(init: seq<OutputSpec>, last: OutputSpec)
    ensures UserPositions(init + [last]) == UserPositions(init) + if last.kind == UserOutput then [|init|] else []
  {
    assert (init + [last])[..|init|] == init;
  }

  lemma AllReturnedStep(init: seq<OutputSpec>, last: OutputSpec, p: int)
    requires p <= |init|
    ensures AllReturned(init + [last], p) <==> AllReturned(init, p) && last.kind == UserOutput
  {
    var specs := init + [last];
    assert specs[|init|] == last && forall i :: 0 <= i < |init| ==> specs[i] == init[i];
  }

  /** The j-th position from the end of those returned is at least j from the end, and is j from
      the end exactly when the last j outputs are all returned. */
  lemma {:induction false} FromTheEnd(specs: seq<OutputSpec>, j: nat)
    requires 0 < j
    ensures var kept := UserPositions(specs);
            && (j <= |kept| ==> kept[|kept| - j] <= |specs| - j)
            && (j <= |specs| ==> ((j <= |kept| && kept[|kept| - j] == |specs| - j) <==> AllReturned(specs, |specs| - j)))
    decreases |specs|
  {
    hide UserPositions, AllReturned;
    if specs == [] {
      NothingReturned();
    } else {
      var init, last := specs[..|specs| - 1], specs[|specs| - 1];
      assert specs == init + [last];
      UserPositionsStep(init, last);
      if j <= |specs| {
        AllReturnedStep(init, last, |specs| - j);
      }
      if last.kind != UserOutput {
        FromTheEnd(init, j);
      } else if j > 1 {
        FromTheEnd(init, j - 1);
      } else {
        NothingFrom(init);
      }
    }
  }

  lemma NothingReturned()
    ensures UserPositions([]) == []
  {
  }

  lemma NothingFrom(specs: seq<OutputSpec>)
    ensures AllReturned(specs, |specs|)
  {
  }

  /** The indices of the getitem nodes that go with deleted outputs. */
  ghost function DeletedIndices(users: seq<DelegateUser>, names: set<string>): seq<int> {
    if users == [] then [] else
      var u := users[|users| - 1];
      DeletedIndices(users[..|users| - 1], names) +
      if u.name in names && u.index.Some? then [u.index.value] else []
  }

  ghost predicate DistinctNames(users: seq<DelegateUser>) {
    forall j, k :: 0 <= j < k < |users| ==> users[j].name != users[k].name
  }

  ghost predicate DeletedUser(u: DelegateUser, names: set<string>, i: int) {
    u.name in names && u.index == Some(i)
  }

  lemma {:induction false} NeverDeleted(users: seq<DelegateUser>, names: set<string>, i: int)
    requires forall u :: u in users ==> !DeletedUser(u, names, i)
    ensures multiset(DeletedIndices(users, names))[i] == 0
  {
    if users != [] {
      var init := users[..|users| - 1];
      assert users == init + [users[|users| - 1]] && users[|users| - 1] in users;
      NeverDeleted(init, names, i);
    }
  }

  lemma {:induction false} DeletedOnce(users: seq<DelegateUser>, names: set<string>, i: int, x: string)
    requires DistinctNames(users) && exists u :: u in users && DeletedUser(u, names, i)
    requires forall u :: u in users && DeletedUser(u, names, i) ==> u.name == x
    ensures multiset(DeletedIndices(users, names))[i] == 1
  {
    var init, last := users[..|users| - 1], users[|users| - 1];
    assert users == init + [last];
    if DeletedUser(last, names, i) {
      NeverDeleted(init, names, i);
    } else {
      var u :| u in users && DeletedUser(u, names, i);
      assert u in init;
      DeletedOnce(init, names, i, x);
    }
  }

  lemma {:induction false} DeletedIndexHasUser(users: seq<DelegateUser>, names: set<string>, i: int)
    requires i in DeletedIndices(users, names)
    ensures exists u :: u in users && DeletedUser(u, names, i)
  {
    var init, last := users[..|users| - 1], users[|users| - 1];
    assert users == init + [last];
    if DeletedUser(last, names, i) {
      assert last in users;
    } else {
      DeletedIndexHasUser(init, names, i);
      var u :| u in init && DeletedUser(u, names, i);
      assert u in users;
    }
  }

  /** A deleted output goes with one getitem node, at the item it was found at. */
  lemma DeletedUserIsConsumed(outputs: seq<OutputArg>, users: seq<DelegateUser>, top: seq<OutputSpec>,
                              buffers: set<string>, r: NewOutputs, u: DelegateUser)
    requires Describes(outputs, users, top, buffers, r) && DistinctNames(users)
    requires u in users && u.name in r.deleted
    ensures u.index.Some? && 0 <= u.index.value < |outputs| && ConsumedAt(users, top, buffers, u.index.value)
    ensures SpecsAt(users, top, u.index.value) == [r.deleted[u.name]] && r.deleted[u.name].arg.name == u.name
  {
    hide SpecsNamed;
    assert FromItem(users, top, buffers, |outputs|, u.name, r.deleted[u.name]);
    var i: nat :| i < |outputs| && SpecsAt(users, top, i) == [r.deleted[u.name]];
    assert r.deleted[u.name] in SpecsAt(users, top, i);
    var v :| v in users && v.index == Some(i) && v.name == u.name;
    assert v == u;
  }

  lemma ConsumedHasUser(outputs: seq<OutputArg>, users: seq<DelegateUser>, top: seq<OutputSpec>,
                        buffers: set<string>, r: NewOutputs, i: nat)
    requires Describes(outputs, users, top, buffers, r) && i < |outputs| && ConsumedAt(users, top, buffers, i)
    ensures exists u :: u in users && DeletedUser(u, r.deleted.Keys, i)
  {
    hide SpecsNamed;
    var s := SpecsAt(users, top, i)[0];
    assert s in SpecsAt(users, top, i);
    var u :| u in users && u.index == Some(i) && u.name == s.arg.name;
    assert DeletedUser(u, r.deleted.Keys, i);
  }

  /** The getitem nodes deleted from the program sit exactly at the mutations the delegate
      consumes, one at each: the two halves of the extraction agree on the indices. */
  lemma DeletionsAgree(outputs: seq<OutputArg>, users: seq<DelegateUser>, top: seq<OutputSpec>,
                       buffers: set<string>, r: NewOutputs)
    requires Describes(outputs, users, top, buffers, r) && DistinctNames(users)
    ensures Exact(r.specs, DeletedIndices(users, r.deleted.Keys))
  {
    hide SpecsAt, SpecsNamed, ConsumedAt, Describes, DeletedIndices, DistinctNames;
    OneSpecEach(outputs, users, top, buffers, r);
    var names := r.deleted.Keys;
    var idxs := DeletedIndices(users, names);
    forall k | 0 <= k < |idxs|
      ensures 0 <= idxs[k] < |r.specs|
    {
      DeletedIndexHasUser(users, names, idxs[k]);
      var u :| u in users && DeletedUser(u, names, idxs[k]);
      DeletedUserIsConsumed(outputs, users, top, buffers, r, u);
    }
    forall i | 0 <= i < |r.specs|
      ensures multiset(idxs)[i] == if r.specs[i].kind == UserOutput then 0 else 1
    {
      DeletionsAgreeAt(outputs, users, top, buffers, r, i);
    }
  }

  lemma OneSpecEach(outputs: seq<OutputArg>, users: seq<DelegateUser>, top: seq<OutputSpec>,
                    buffers: set<string>, r: NewOutputs)
    requires Describes(outputs, users, top, buffers, r)
    ensures |r.specs| == |outputs|
  {
  }

  lemma DeletionsAgreeAt(outputs: seq<OutputArg>, users: seq<DelegateUser>, top: seq<OutputSpec>,
                         buffers: set<string>, r: NewOutputs, i: nat)
    requires Describes(outputs, users, top, buffers, r) && DistinctNames(users) && i < |outputs|
    ensures multiset(DeletedIndices(users, r.deleted.Keys))[i] == if r.specs[i].kind == UserOutput then 0 else 1
  {
    hide SpecsAt, SpecsNamed, ConsumedAt, DeletesUpTo;
    var names := r.deleted.Keys;
    assert SpecFor(outputs[i], users, top, buffers, i, r.specs[i]);
    forall u | u in users && DeletedUser(u, names, i)
      ensures ConsumedAt(users, top, buffers, i) && SpecsAt(users, top, i) == [r.deleted[u.name]]
      ensures r.deleted[u.name].arg.name == u.name
    {
      DeletedUserIsConsumed(outputs, users, top, buffers, r, u);
    }
    if ConsumedAt(users, top, buffers, i) {
      ConsumedHasUser(outputs, users, top, buffers, r, i);
      var u :| u in users && DeletedUser(u, names, i);
      DeletedOnce(users, names, i, u.name);
    } else {
      NeverDeleted(users, names, i);
    }
  }

  /** The users that stay. */
  ghost function Survivors(users: seq<DelegateUser>, names: set<string>): (r: seq<DelegateUser>)
    ensures forall u :: u in r <==> u in users && u.name !in names
  {
    if users == [] then [] else
      var last := users[|users| - 1];
      Survivors(users[..|users| - 1], names) + if last.name in names then [] else [last]
  }

  ghost function Shift(u: DelegateUser, idxs: seq<int>): DelegateUser {
    if u.index.Some? then u.(index := Some(u.index.value - CountBelow(idxs, u.index.value))) else u
  }

  /** The users that stay, renumbered. */
  ghost function Renumbered(users: seq<DelegateUser>, names: set<string>): (r: seq<DelegateUser>)
    ensures |r| == |Survivors(users, names)|
    ensures forall k :: 0 <= k < |r| ==> r[k] == Shift(Survivors(users, names)[k], DeletedIndices(users, names))
  {
    var stay, idxs := Survivors(users, names), DeletedIndices(users, names);
    seq(|stay|, k requires 0 <= k < |stay| => Shift(stay[k], idxs))
  }

  /** Index i of the delegate's outputs still means the same output: an index from the front if
      that output is not a consumed mutation, one from the end, which is never renumbered, if
      none of the outputs from there on is. */
  ghost predicate StillMeans(users: seq<DelegateUser>, top: seq<OutputSpec>, buffers: set<string>, n: nat, i: int) {
    if i >= 0 then !ConsumedAt(users, top, buffers, i)
    else forall p: nat :: n + i <= p < n ==> !ConsumedAt(users, top, buffers, p)
  }

  /** A getitem node that stays selects the value it selected before, from the outputs the
      delegate still returns, exactly when its index still means the same. */
  lemma SurvivorSelectsSameIff(outputs: seq<OutputArg>, users: seq<DelegateUser>, top: seq<OutputSpec>,
                               buffers: set<string>, r: NewOutputs, k: nat, i: int)
    requires Describes(outputs, users, top, buffers, r) && DistinctNames(users) && -|outputs| <= i < |outputs|
    requires k < |Survivors(users, r.deleted.Keys)| && Survivors(users, r.deleted.Keys)[k].index == Some(i)
    ensures var u, kept := Renumbered(users, r.deleted.Keys)[k], UserPositions(r.specs);
            && u.name == Survivors(users, r.deleted.Keys)[k].name && u.index.Some? && (u.index.value < 0 <==> i < 0)
            && var p := ItemAt(|kept|, u.index.value);
               (0 <= p < |kept| && kept[p] == ItemAt(|outputs|, i)) <==> StillMeans(users, top, buffers, |outputs|, i)
  {
    hide UserPositions, DeletedIndices, CountBelow, Describes, StillMeans, Survivors, Exact, DistinctNames;
    var idxs := DeletedIndices(users, r.deleted.Keys);
    DeletionsAgree(outputs, users, top, buffers, r);
    OneSpecEach(outputs, users, top, buffers, r);
    MeansWhatIsReturned(outputs, users, top, buffers, r, i);
    if i >= 0 {
      RenumberSelectsSame(r.specs, idxs, i);
    } else {
      NoneDeletedBelow(r.specs, idxs, i);
      FromTheEnd(r.specs, -i);
    }
  }

  lemma NoneDeletedBelow(specs: seq<OutputSpec>, idxs: seq<int>, u: int)
    requires Exact(specs, idxs) && u <= 0
    ensures CountBelow(idxs, u) == 0
  {
    NoneBelowZero(idxs, u);
  }

  lemma MeansWhatIsReturned(outputs: seq<OutputArg>, users: seq<DelegateUser>, top: seq<OutputSpec>,
                            buffers: set<string>, r: NewOutputs, i: int)
    requires Describes(outputs, users, top, buffers, r) && -|outputs| <= i < |outputs|
    ensures |r.specs| == |outputs|
    ensures StillMeans(users, top, buffers, |outputs|, i) <==>
            if i >= 0 then r.specs[i].kind == UserOutput else AllReturned(r.specs, |outputs| + i)
  {
    hide SpecsAt, SpecsNamed, ConsumedAt, DeletesUpTo;
    forall p: nat | p < |outputs|
      ensures r.specs[p].kind == UserOutput <==> !ConsumedAt(users, top, buffers, p)
    {
      assert SpecFor(outputs[p], users, top, buffers, p, r.specs[p]);
    }
    if i < 0 && AllReturned(r.specs, |outputs| + i) {
      assert forall p: nat :: |outputs| + i <= p < |outputs| ==> r.specs[p].kind == UserOutput;
    }
  }

  /** Two getitem nodes on the same mutated buffer, one of them an output, one read elsewhere. */
  function SharedMutation(): (seq<OutputArg>, seq<DelegateUser>, seq<OutputSpec>) {
    ([NodeRef("mutated"), NodeRef("result")],
     [DelegateUser("first", Some(0), false), DelegateUser("second", Some(0), true)],
     [OutputSpec(BufferMutation, TensorArgument("first"), Some("cache"))])
  }

  /** The code accepts that program, deletes the first node, and leaves the second reading the
      delegate's other output. */
  lemma SharedMutationIsMisread(r: NewOutputs)
    requires var (outputs, users, top) := SharedMutation(); Describes(outputs, users, top, {"cache"}, r)
    ensures var (outputs, users, top) := SharedMutation();
            && Accepted(outputs, users, top, {"cache"})
            && Renumbered(users, r.deleted.Keys) == [DelegateUser("second", Some(0), true)]
            && UserPositions(r.specs) == [1]
  {
    hide Survivors, DeletedIndices, UserPositions, Renumbered, SpecsAt;
    var (outputs, users, top) := SharedMutation();
    var spec := top[0];
    SharedSpecs();
    assert spec in SpecsAt(users, top, 0) && IsConsumed(spec, {"cache"});
    assert SpecFor(outputs[0], users, top, {"cache"}, 0, r.specs[0]) && SpecFor(outputs[1], users, top, {"cache"}, 1, r.specs[1]);
    assert "first" in r.deleted && "second" !in r.deleted;
    SharedUsers(r.deleted.Keys);
    SharedPositions(r.specs);
  }

  lemma SharedSpecs()
    ensures var (outputs, users, top) := SharedMutation();
            && ListedAreItems(users, top)
            && forall i: nat :: SpecsAt(users, top, i) == if i == 0 then [top[0]] else []
  {
    hide SpecsAt, SpecsNamed;
    var (outputs, users, top) := SharedMutation();
    var spec := top[0];
    assert top == [] + [spec];
    NoneNamed("first");
    NoneNamed("second");
    NamedStep([], spec, "first");
    NamedStep([], spec, "second");
    assert users == ([] + [users[0]]) + [users[1]];
    forall i: nat
      ensures SpecsAt(users, top, i) == if i == 0 then [spec] else []
    {
      NoItems(top, i);
      ItemStep([], users[0], top, i);
      ItemStep([] + [users[0]], users[1], top, i);
    }
  }

  lemma NoneNamed(n: string)
    ensures SpecsNamed([], n) == []
  {
  }

  lemma SurvivorStep(users: seq<DelegateUser>, u: DelegateUser, names: set<string>)
    ensures Survivors(users + [u], names) == Survivors(users, names) + if u.name in names then [] else [u]
    ensures DeletedIndices(users + [u], names) ==
            DeletedIndices(users, names) + if u.name in names && u.index.Some? then [u.index.value] else []
  {
    assert (users + [u])[..|users|] == users;
  }

  lemma NoUsers(names: set<string>)
    ensures Survivors([], names) == [] && DeletedIndices([], names) == []
  {
  }

  lemma SharedUsers(names: set<string>)
    requires "first" in names && "second" !in names
    ensures Renumbered(SharedMutation().1, names) == [DelegateUser("second", Some(0), true)]
  {
    hide Survivors, DeletedIndices, Renumbered, CountBelow;
    var a, b := DelegateUser("first", Some(0), false), DelegateUser("second", Some(0), true);
    NoUsers(names);
    SurvivorStep([], a, names);
    SurvivorStep([] + [a], b, names);
    assert SharedMutation().1 == ([] + [a]) + [b];
    assert Survivors([a, b], names) == [b] && DeletedIndices([a, b], names) == [0] by {
      assert [a, b] == ([] + [a]) + [b];
    }
    ZeroStays(b);
  }

  lemma ZeroStays(u: DelegateUser)
    requires u.index == Some(0)
    ensures Shift(u, [0]) == u
  {
    assert CountBelow([0][..0], 0) == 0;
  }

  lemma SharedPositions(specs: seq<OutputSpec>)
    requires |specs| == 2 && specs[0].kind == BufferMutation && specs[1].kind == UserOutput
    ensures UserPositions(specs) == [1]
  {
    assert specs[..1][..0] == [] && UserPositions(specs[..1]) == [];
  }
}
