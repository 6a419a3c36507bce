/** Inputs of a partition that becomes a delegate: parameters, buffers and constants it
    consumes move into its own tables (`_get_new_signature`). */
module DelegateInputs {
  import opened Wrappers

  datatype InputKind = UserInput | Parameter | Buffer | ConstantTensor | CustomObject | OtherInput

  /** `tensor` says whether the argument is a tensor; `persistent` is the buffer's flag. */
  datatype InputSpec = InputSpec(kind: InputKind, name: string, tensor: bool, target: Option<string>, persistent: bool)

  /** A placeholder of the partition; `tagged` when it carries the partition's tag. */
  datatype Placeholder = Placeholder(name: string, tagged: bool)

  /** A tensor, known by its storage. */
  type Tensor = nat

  datatype Tables = Tables(state: map<string, Tensor>, constants: map<string, Tensor>)

  /** What the delegate gets: its input specs, the specs it takes away, and its tables. */
  datatype Extracted = Extracted(inputs: seq<InputSpec>, consumed: seq<InputSpec>, tables: Tables)

  /** Input specs by name; a later spec replaces an earlier one of the same name. */
  ghost function ByName(specs: seq<InputSpec>): (m: map<string, InputSpec>)
    ensures forall n :: n in m ==> m[n].name == n && m[n] in specs
    ensures forall s :: s in specs ==> s.name in m
  {
    if specs == [] then map[] else
      var last := specs[|specs| - 1];
      ByName(specs[..|specs| - 1])[last.name := last]
  }

  ghost predicate Consumes(sig: map<string, InputSpec>, p: Placeholder) {
    p.name in sig && sig[p.name].tensor && p.tagged && sig[p.name].kind != UserInput
  }

  /** The spec is stored where its kind says. */
  ghost predicate FitsTables(s: InputSpec, t: Tables) {
    s.target.Some? &&
    if s.target.value in t.state then s.kind == Parameter || s.kind == Buffer
    else s.target.value in t.constants && (s.kind == ConstantTensor || s.kind == CustomObject || s.kind == Buffer)
  }

  /** Entry n of a table came along with a consumed spec. */
  ghost predicate Brought(consumed: seq<InputSpec>, n: string) {
    exists s :: s in consumed && s.target == Some(n)
  }

  /** The delegate's tables hold what the consumed specs name, as it was. */
  ghost predicate Holds(t: Tables, consumed: seq<InputSpec>, d: Tables) {
    && (forall n :: n in d.state <==> n in t.state && Brought(consumed, n))
    && (forall n :: n in d.constants <==> n !in t.state && n in t.constants && Brought(consumed, n))
    && (forall n :: n in d.state ==> d.state[n] == t.state[n])
    && (forall n :: n in d.constants ==> d.constants[n] == t.constants[n])
  }

  /** The consumed specs: those of the placeholders the delegate takes over. */
  ghost predicate ConsumedFrom(sig: map<string, InputSpec>, phs: seq<Placeholder>, consumed: seq<InputSpec>) {
    && (forall s :: s in consumed ==> exists p :: p in phs && Consumes(sig, p) && s == sig[p.name])
    && (forall p :: p in phs && Consumes(sig, p) ==> sig[p.name] in consumed)
    && (forall j, k :: 0 <= j < k < |consumed| ==> consumed[j].name != consumed[k].name)
  }

  /** One spec per placeholder, in order. */
  ghost predicate InputsFor(sig: map<string, InputSpec>, phs: seq<Placeholder>, inputs: seq<InputSpec>) {
    && |inputs| == |phs|
    && forall i :: 0 <= i < |phs| ==>
         inputs[i] == if phs[i].name in sig && (!sig[phs[i].name].tensor || phs[i].tagged) then sig[phs[i].name]
                      else InputSpec(UserInput, phs[i].name, true, None, false)
  }

  ghost predicate DistinctPlaceholders(phs: seq<Placeholder>) {
    forall j, k :: 0 <= j < k < |phs| ==> phs[j].name != phs[k].name
  }

  /** Where a placeholder goes: parameters, then buffers, then everything else. */
  ghost function Rank(specs: seq<InputSpec>, p: Placeholder): (r: nat)
    ensures r < 3
  {
    if exists s :: s in specs && IsNamed(s, Parameter, p.name) then 0
    else if exists s :: s in specs && IsNamed(s, Buffer, p.name) then 1 else 2
  }

  ghost predicate IsNamed(s: InputSpec, kind: InputKind, name: string) {
    s.kind == kind && s.tensor && s.target.Some? && s.name == name
  }

  /** The placeholders of one rank, in the order they had. */
  ghost function OfRank(phs: seq<Placeholder>, specs: seq<InputSpec>, r: nat): seq<Placeholder> {
    if phs == [] then [] else
      var last := phs[|phs| - 1];
      OfRank(phs[..|phs| - 1], specs, r) + if Rank(specs, last) == r then [last] else []
  }

  ghost function Arranged(phs: seq<Placeholder>, specs: seq<InputSpec>): seq<Placeholder> {
    OfRank(phs, specs, 0) + OfRank(phs, specs, 1) + OfRank(phs, specs, 2)
  }

  /** `arrange_graph_placeholders`: three lists filled in one pass. */
  method ArrangePlaceholders(phs: seq<Placeholder>, specs: seq<InputSpec>) returns (arranged: seq<Placeholder>)
    ensures arranged == Arranged(phs, specs)
  {
    var params, buffers, inputs := [], [], [];
    for k := 0 to |phs|
      invariant params == OfRank(phs[..k], specs, 0)
      invariant buffers == OfRank(phs[..k], specs, 1)
      invariant inputs == OfRank(phs[..k], specs, 2)
    {
      assert phs[..k + 1][..k] == phs[..k];
      var name := phs[k].name;
      var isParameter := exists s :: s in specs && s.kind == Parameter && s.tensor && s.target.Some? && s.name == name;
      var isBuffer := exists s :: s in specs && s.kind == Buffer && s.tensor && s.target.Some? && s.name == name;
      assert isParameter <==> exists s :: s in specs && IsNamed(s, Parameter, name);
      assert isBuffer <==> exists s :: s in specs && IsNamed(s, Buffer, name);
      if isParameter {
        params := params + [phs[k]];
      } else if isBuffer {
        buffers := buffers + [phs[k]];
      } else {
        inputs := inputs + [phs[k]];
      }
    }
    assert phs[..|phs|] == phs;
    return params + buffers + inputs;
  }

  lemma {:induction false} OfRankHolds(phs: seq<Placeholder>, specs: seq<InputSpec>, r: nat)
    ensures forall p :: p in OfRank(phs, specs, r) <==> p in phs && Rank(specs, p) == r
  {
    hide Rank;
    if phs != [] {
      var init := phs[..|phs| - 1];
      OfRankHolds(init, specs, r);
      assert phs == init + [phs[|phs| - 1]];
    }
  }

  lemma {:induction false} OfRankIsDistinct(phs: seq<Placeholder>, specs: seq<InputSpec>, r: nat)
    requires DistinctPlaceholders(phs)
    ensures DistinctPlaceholders(OfRank(phs, specs, r))
  {
    hide Rank;
    if phs != [] {
      var init, last := phs[..|phs| - 1], phs[|phs| - 1];
      OfRankIsDistinct(init, specs, r);
      OfRankHolds(init, specs, r);
      var rest := OfRank(init, specs, r);
      forall k | 0 <= k < |rest|
        ensures rest[k].name != last.name
      {
        assert rest[k] in init;
      }
    }
  }

  lemma {:induction false} OfRankConcat(a: seq<Placeholder>, b: seq<Placeholder>, specs: seq<InputSpec>, r: nat)
    ensures OfRank(a + b, specs, r) == OfRank(a, specs, r) + OfRank(b, specs, r)
  {
    hide Rank;
    if b == [] {
      assert a + b == a;
    } else {
      OfRankConcat(a, b[..|b| - 1], specs, r);
      assert (a + b)[..|a + b| - 1] == a + b[..|b| - 1];
    }
  }

  lemma {:induction false} OfRankAgain(phs: seq<Placeholder>, specs: seq<InputSpec>, q: nat, r: nat)
    ensures OfRank(OfRank(phs, specs, q), specs, r) == if q == r then OfRank(phs, specs, q) else []
  {
    hide Rank;
    if phs != [] {
      var last := phs[|phs| - 1];
      OfRankAgain(phs[..|phs| - 1], specs, q, r);
      OfRankConcat(OfRank(phs[..|phs| - 1], specs, q), if Rank(specs, last) == q then [last] else [], specs, r);
    }
  }

  /** A stable sort by rank: the same placeholders, parameters first, then buffers, and within
      a rank the order they had. */
  lemma ArrangedIsStable(phs: seq<Placeholder>, specs: seq<InputSpec>)
    ensures var r := Arranged(phs, specs);
            && (forall i, j :: 0 <= i < j < |r| ==> Rank(specs, r[i]) <= Rank(specs, r[j]))
            && (forall k: nat :: k < 3 ==> OfRank(r, specs, k) == OfRank(phs, specs, k))
            && (forall p :: p in r <==> p in phs)
            && (DistinctPlaceholders(phs) ==> DistinctPlaceholders(r))
  {
    hide Rank, OfRank;
    var a, b, c := OfRank(phs, specs, 0), OfRank(phs, specs, 1), OfRank(phs, specs, 2);
    OfRankHolds(phs, specs, 0);
    OfRankHolds(phs, specs, 1);
    OfRankHolds(phs, specs, 2);
    forall k: nat | k < 3
      ensures OfRank(Arranged(phs, specs), specs, k) == OfRank(phs, specs, k)
    {
      OfRankConcat(a + b, c, specs, k);
      OfRankConcat(a, b, specs, k);
      OfRankAgain(phs, specs, 0, k);
      OfRankAgain(phs, specs, 1, k);
      OfRankAgain(phs, specs, 2, k);
    }
    var r := a + b + c;
    forall i | 0 <= i < |r|
      ensures Rank(specs, r[i]) == if i < |a| then 0 else if i < |a| + |b| then 1 else 2
    {
      assert r[i] in if i < |a| then a else if i < |a| + |b| then b else c;
    }
    if DistinctPlaceholders(phs) {
      OfRankIsDistinct(phs, specs, 0);
      OfRankIsDistinct(phs, specs, 1);
      OfRankIsDistinct(phs, specs, 2);
      forall i, j | 0 <= i < j < |r|
        ensures r[i].name != r[j].name
      {
        RankByName(specs, r[i], r[j]);
      }
    }
  }

  lemma RankByName(specs: seq<InputSpec>, p: Placeholder, q: Placeholder)
    ensures p.name == q.name ==> Rank(specs, p) == Rank(specs, q)
  {
  }

  method IndexByName(specs: seq<InputSpec>) returns (m: map<string, InputSpec>)
    ensures m == ByName(specs)
  {
    m := map[];
    for k := 0 to |specs|
      invariant m == ByName(specs[..k])
    {
      assert specs[..k + 1][..k] == specs[..k];
      m := m[specs[k].name := specs[k]];
    }
    assert specs[..|specs|] == specs;
  }

  ghost function SignatureOf(specs: seq<InputSpec>, isSubmodule: bool): map<string, InputSpec> {
    if isSubmodule then map[] else ByName(specs)
  }

  /** The delegate's part of the signature and tables. */
  ghost predicate Extracts(sig: map<string, InputSpec>, phs: seq<Placeholder>, t: Tables, r: Extracted) {
    InputsFor(sig, phs, r.inputs) && ConsumedFrom(sig, phs, r.consumed) && Holds(t, r.consumed, r.tables)
  }

  ghost predicate AllFit(sig: map<string, InputSpec>, phs: seq<Placeholder>, t: Tables) {
    forall p :: p in phs && Consumes(sig, p) ==> FitsTables(sig[p.name], t)
  }

  /** Taking over one more spec. */
  ghost function Take(d: Tables, t: Tables, s: InputSpec): Tables
    requires FitsTables(s, t)
  {
    var n := s.target.value;
    if n in t.state then Tables(d.state[n := t.state[n]], d.constants)
    else Tables(d.state, d.constants[n := t.constants[n]])
  }

  lemma TakeOne(t: Tables, d: Tables, consumed: seq<InputSpec>, s: InputSpec)
    requires Holds(t, consumed, d) && FitsTables(s, t)
    ensures Holds(t, consumed + [s], Take(d, t, s))
  {
    forall n
      ensures Brought(consumed + [s], n) <==> Brought(consumed, n) || s.target == Some(n)
    {
      if s.target == Some(n) {
        assert s in consumed + [s];
      }
      if x :| x in consumed && x.target == Some(n) {
        assert x in consumed + [s];
      }
    }
  }

  lemma ConsumeOne(sig: map<string, InputSpec>, phs: seq<Placeholder>, k: nat, consumed: seq<InputSpec>)
    requires k < |phs| && DistinctPlaceholders(phs) && ConsumedFrom(sig, phs[..k], consumed)
    requires forall n :: n in sig ==> sig[n].name == n
    ensures !Consumes(sig, phs[k]) ==> ConsumedFrom(sig, phs[..k + 1], consumed)
    ensures Consumes(sig, phs[k]) ==> ConsumedFrom(sig, phs[..k + 1], consumed + [sig[phs[k].name]])
  {
    assert phs[..k + 1] == phs[..k] + [phs[k]];
    assert forall p :: p in phs[..k + 1] <==> p in phs[..k] || p == phs[k];
    assert forall p :: p in phs[..k] ==> p.name != phs[k].name;
    if Consumes(sig, phs[k]) {
      var s := sig[phs[k].name];
      forall x | x in consumed + [s]
        ensures exists p :: p in phs[..k + 1] && Consumes(sig, p) && x == sig[p.name]
      {
        if x == s {
          assert phs[k] in phs[..k + 1];
        } else {
          var p :| p in phs[..k] && Consumes(sig, p) && x == sig[p.name];
          assert p in phs[..k + 1];
        }
      }
      forall j | 0 <= j < |consumed|
        ensures consumed[j].name != s.name
      {
        assert consumed[j] in consumed;
      }
    }
  }

  /** The input half of `_get_new_signature`; None stands for a failed assertion or the
      error about a spec with no entry in either table. */
  method GetNewInputs(specs: seq<InputSpec>, phs: seq<Placeholder>, t: Tables, isSubmodule: bool)
    returns (r: Option<Extracted>)
    requires DistinctPlaceholders(phs)
    ensures r.Some? <==> AllFit(SignatureOf(specs, isSubmodule), phs, t)
    ensures r.Some? ==> Extracts(SignatureOf(specs, isSubmodule), phs, t, r.value)
  {
    hide ConsumedFrom, Holds, ByName;
    var sig := map[];
    if !isSubmodule {
      sig := IndexByName(specs);
    }
    var inputs: seq<InputSpec>, consumed: seq<InputSpec>, d := [], [], Tables(map[], map[]);
    NothingTaken(sig, phs, t);
    for k := 0 to |phs|
      invariant InputsFor(sig, phs[..k], inputs) && AllFit(sig, phs[..k], t)
      invariant ConsumedFrom(sig, phs[..k], consumed) && Holds(t, consumed, d)
    {
      var p := phs[k];
      assert phs[..k + 1] == phs[..k] + [p];
      ConsumeOne(sig, phs, k, consumed);
      if p.name !in sig {
        inputs := inputs + [InputSpec(UserInput, p.name, true, None, false)];
      } else if !sig[p.name].tensor {
        inputs := inputs + [sig[p.name]];
      } else if p.tagged {
        inputs := inputs + [sig[p.name]];
        var s := sig[p.name];
        if s.kind != UserInput {
          assert p in phs && Consumes(sig, p);
          if s.target.None? {
            return None;
          }
          var n := s.target.value;
          ghost var before := d;
          if n in t.state {
            if s.kind != Parameter && s.kind != Buffer {
              return None;
            }
            d := Tables(d.state[n := t.state[n]], d.constants);
          } else if n in t.constants {
            if s.kind != ConstantTensor && s.kind != CustomObject && s.kind != Buffer {
              return None;
            }
            d := Tables(d.state, d.constants[n := t.constants[n]]);
          } else {
            return None;
          }
          TakeOne(t, before, consumed, s);
          consumed := consumed + [s];
        }
      } else {
        inputs := inputs + [InputSpec(UserInput, p.name, true, None, false)];
      }
    }
    assert phs[..|phs|] == phs;
    r := Some(Extracted(inputs, consumed, d));
  }

  lemma NothingTaken(sig: map<string, InputSpec>, phs: seq<Placeholder>, t: Tables)
    ensures ConsumedFrom(sig, phs[..0], []) && Holds(t, [], Tables(map[], map[]))
  {
  }
}
