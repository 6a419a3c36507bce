/** Which tensors a graph asks the planner for, and over which nodes each one lives. */
module Lifetimes {
  import opened Wrappers
  import opened TensorSpecs

  datatype Target = Alloc | View | GetItem | ControlFlow | CallDelegate | OutVariant | InPlace | OtherOp

  datatype Op = Placeholder(mutableBuffer: bool) | Output | GetAttr | Call(target: Target)

  /** A graph node: the specs of its value and the nodes its arguments name. */
  datatype Node = Node(op: Op, specs: seq<TensorSpec>, args: seq<nat>, weightHasGradient: bool)

  ghost predicate WellFormed(nodes: seq<Node>) {
    forall i, k :: 0 <= i < |nodes| && 0 <= k < |nodes[i].args| ==> nodes[i].args[k] < |nodes|
  }

  /** Node i carries spec s: its own, or that of its base if it is a view. */
  ghost predicate Carries(nodes: seq<Node>, i: nat, s: TensorSpec)
    requires WellFormed(nodes)
  {
    && i < |nodes|
    && var view := nodes[i].op == Call(View) && nodes[i].args != [];
       (!view && s in nodes[i].specs) || (view && s in nodes[nodes[i].args[0]].specs)
  }

  /** The specs of node i (`get_node_tensor_specs`). */
  function NodeSpecs(nodes: seq<Node>, i: nat): seq<TensorSpec>
    requires WellFormed(nodes) && i < |nodes|
  {
    if nodes[i].op == Call(View) && |nodes[i].args| > 0 then nodes[nodes[i].args[0]].specs else nodes[i].specs
  }

  lemma NodeSpecsAreCarried(nodes: seq<Node>, i: nat)
    requires WellFormed(nodes) && i < |nodes|
    ensures forall s :: s in NodeSpecs(nodes, i) <==> Carries(nodes, i, s)
    ensures forall s :: s in NodeSpecs(nodes, i) ==> s in AllSpecs(nodes)
  {
  }

  datatype Filter = Filter(
    ignoreGraphInput: bool, ignoreGraphOutput: bool, ignoreConst: bool, ignoreOutVarNode: bool,
    dedup: bool, doAssertion: bool, ignoreDynamicUnbound: bool)

  /** The filter the planners use. */
  function PlanningFilter(allocInput: bool, allocOutput: bool, doAssertion: bool): Filter {
    Filter(!allocInput, !allocOutput, true, true, true, doAssertion, true)
  }

  /** The filter for lifetimes: everything a node refers to. */
  const LIFETIME_FILTER := Filter(false, false, false, false, false, false, false)

  ghost predicate SkipsNode(n: Node, f: Filter) {
    n.op == GetAttr || (f.ignoreOutVarNode && n.op == Call(OutVariant)) || n.op == Call(InPlace)
  }

  ghost predicate ExpectedOp(n: Node) {
    n.op.Placeholder? || n.op.Output? || (n.op.Call? && n.op.target in {Alloc, View, GetItem, ControlFlow, CallDelegate})
  }

  ghost predicate IsGraphInput(nodes: seq<Node>, idxs: seq<nat>, s: TensorSpec)
    requires WellFormed(nodes) && forall k :: 0 <= k < |idxs| ==> idxs[k] < |nodes|
  {
    exists k :: 0 <= k < |idxs| && nodes[idxs[k]].op == Placeholder(false) && Carries(nodes, idxs[k], s)
  }

  ghost predicate IsGraphOutput(nodes: seq<Node>, idxs: seq<nat>, s: TensorSpec)
    requires WellFormed(nodes) && forall k :: 0 <= k < |idxs| ==> idxs[k] < |nodes|
  {
    exists k :: 0 <= k < |idxs| && nodes[idxs[k]].op == Output && Carries(nodes, idxs[k], s)
  }

  /** Node idxs[k] contributes spec s under the filter. */
  ghost predicate Contributes(nodes: seq<Node>, idxs: seq<nat>, f: Filter, k: nat, s: TensorSpec)
    requires WellFormed(nodes) && forall k :: 0 <= k < |idxs| ==> idxs[k] < |nodes|
  {
    && k < |idxs|
    && !SkipsNode(nodes[idxs[k]], f)
    && Carries(nodes, idxs[k], s)
    && !(f.ignoreDynamicUnbound && s.dynamism == DynamicUnbound)
    && !(f.ignoreGraphInput && IsGraphInput(nodes, idxs, s))
    && !(f.ignoreGraphOutput && IsGraphOutput(nodes, idxs, s))
    && !(f.ignoreConst && s.constant && !nodes[idxs[k]].weightHasGradient)
  }

  ghost predicate Unexpected(nodes: seq<Node>, idxs: seq<nat>, f: Filter, k: nat)
    requires WellFormed(nodes) && forall k :: 0 <= k < |idxs| ==> idxs[k] < |nodes|
  {
    && k < |idxs| && f.doAssertion && !SkipsNode(nodes[idxs[k]], f)
    && (exists s :: s in AllSpecs(nodes) && Carries(nodes, idxs[k], s)) && !ExpectedOp(nodes[idxs[k]])
  }

  /** Specs of the graph inputs (`get_graph_input_tensors`) or outputs. */
  method GraphTensors(nodes: seq<Node>, idxs: seq<nat>, op: Op) returns (found: set<TensorSpec>)
    requires WellFormed(nodes) && forall k :: 0 <= k < |idxs| ==> idxs[k] < |nodes|
    ensures forall s :: s in found <==>
              exists k :: 0 <= k < |idxs| && nodes[idxs[k]].op == op && Carries(nodes, idxs[k], s)
  {
    found := {};
    for n := 0 to |idxs|
      invariant forall s :: s in found <==>
                  exists k :: 0 <= k < n && nodes[idxs[k]].op == op && Carries(nodes, idxs[k], s)
    {
      NodeSpecsAreCarried(nodes, idxs[n]);
      if nodes[idxs[n]].op == op {
        found := found + set s | s in NodeSpecs(nodes, idxs[n]);
      }
    }
  }

  /** The specs one node contributes, appended to those collected so far. */
  method CollectFromNode(nodes: seq<Node>, idxs: seq<nat>, f: Filter, n: nat,
                         inputs: set<TensorSpec>, outputs: set<TensorSpec>, collected: seq<TensorSpec>)
    returns (specs: seq<TensorSpec>)
    requires WellFormed(nodes) && forall k :: 0 <= k < |idxs| ==> idxs[k] < |nodes|
    requires n < |idxs| && !SkipsNode(nodes[idxs[n]], f)
    requires f.ignoreGraphInput ==> forall s :: s in inputs <==> IsGraphInput(nodes, idxs, s)
    requires f.ignoreGraphOutput ==> forall s :: s in outputs <==> IsGraphOutput(nodes, idxs, s)
    requires f.dedup ==> Distinct(collected)
    ensures f.dedup ==> Distinct(specs)
    ensures forall s :: s in specs <==> s in collected || Contributes(nodes, idxs, f, n, s)
  {
    specs := collected;
    var own := NodeSpecs(nodes, idxs[n]);
    NodeSpecsAreCarried(nodes, idxs[n]);
    for j := 0 to |own|
      invariant f.dedup ==> Distinct(specs)
      invariant forall s :: s in specs <==> s in collected || (s in own[..j] && Contributes(nodes, idxs, f, n, s))
    {
      var spec := own[j];
      assert own[..j + 1] == own[..j] + [spec];
      if f.ignoreDynamicUnbound && spec.dynamism == DynamicUnbound {
        continue;
      }
      if f.ignoreGraphInput && spec in inputs {
        continue;
      }
      if f.ignoreGraphOutput && spec in outputs {
        continue;
      }
      if f.ignoreConst && spec.constant && !nodes[idxs[n]].weightHasGradient {
        continue;
      }
      if f.dedup && spec in specs {
        continue;
      }
      specs := specs + [spec];
    }
    assert own[..|own|] == own;
  }

  /** `collect_specs_from_nodes`; None stands for the failed internal assertion. */
  method CollectSpecsFromNodes(nodes: seq<Node>, idxs: seq<nat>, f: Filter) returns (r: Option<seq<TensorSpec>>)
    requires WellFormed(nodes) && forall k :: 0 <= k < |idxs| ==> idxs[k] < |nodes|
    ensures r.None? <==> exists k: nat :: Unexpected(nodes, idxs, f, k)
    ensures r.Some? ==> forall s :: s in r.value <==> exists k: nat :: Contributes(nodes, idxs, f, k, s)
    ensures r.Some? && f.dedup ==> Distinct(r.value)
  {
    var inputs, outputs := {}, {};
    if f.ignoreGraphInput {
      inputs := GraphTensors(nodes, idxs, Placeholder(false));
    }
    if f.ignoreGraphOutput {
      outputs := GraphTensors(nodes, idxs, Output);
    }
    var specs: seq<TensorSpec> := [];
    for n := 0 to |idxs|
      invariant forall k: nat :: k < n ==> !Unexpected(nodes, idxs, f, k)
      invariant forall s :: s in specs <==> exists k: nat :: k < n && Contributes(nodes, idxs, f, k, s)
      invariant f.dedup ==> Distinct(specs)
    {
      var node := nodes[idxs[n]];
      NodeSpecsAreCarried(nodes, idxs[n]);
      if node.op == GetAttr {
        continue;
      }
      if f.ignoreOutVarNode && node.op == Call(OutVariant) {
        continue;
      }
      var own := NodeSpecs(nodes, idxs[n]);
      if own == [] || node.op == Call(InPlace) {
        continue;
      }
      if f.doAssertion && !node.op.Placeholder? && !node.op.Output? &&
         node.op !in {Call(Alloc), Call(View), Call(GetItem), Call(ControlFlow), Call(CallDelegate)} {
        assert own[0] in own;
        assert Unexpected(nodes, idxs, f, n);
        return None;
      }
      specs := CollectFromNode(nodes, idxs, f, n, inputs, outputs, specs);
    }
    r := Some(specs);
  }

  /** `update_tensor_lifetime`: the least lifetime that covers the old one and one more node. */
  method UpdateTensorLifetime(spec: TensorSpec, nodeIdx: nat)
    modifies spec`start, spec`end
    ensures Least(old(spec.start), {nodeIdx}, spec.start) && Greatest(old(spec.end), {nodeIdx}, spec.end)
  {
    var start := if spec.start == None || spec.start.value > nodeIdx then nodeIdx else spec.start.value;
    var end := if spec.end == None || spec.end.value < nodeIdx then nodeIdx else spec.end.value;
    spec.start, spec.end := Some(start), Some(end);
  }

  /** The nodes looked at for node i: itself and its arguments. */
  function Around(nodes: seq<Node>, i: nat): seq<nat>
    requires i < |nodes|
  {
    [i] + nodes[i].args
  }

  /** Node j puts s into the lifetimes of the nodes it is looked at for. */
  ghost predicate Holds(nodes: seq<Node>, j: nat, s: TensorSpec)
    requires WellFormed(nodes)
  {
    Carries(nodes, j, s) && nodes[j].op != GetAttr && nodes[j].op != Call(InPlace)
  }

  /** Node i refers to spec s: it holds s, or one of its arguments does. */
  ghost predicate Refers(nodes: seq<Node>, i: nat, s: TensorSpec)
    requires WellFormed(nodes)
  {
    i < |nodes| && (Holds(nodes, i, s) || exists j :: j in nodes[i].args && Holds(nodes, j, s))
  }

  lemma ContributedIsHeld(nodes: seq<Node>, i: nat, k: nat, s: TensorSpec)
    requires WellFormed(nodes) && i < |nodes|
    ensures Contributes(nodes, Around(nodes, i), LIFETIME_FILTER, k, s) <==>
            k < |Around(nodes, i)| && Holds(nodes, Around(nodes, i)[k], s)
  {
  }

  lemma HolderContributes(nodes: seq<Node>, i: nat, k: nat, s: TensorSpec)
    requires WellFormed(nodes) && i < |nodes| && k < |nodes[i].args| && Holds(nodes, nodes[i].args[k], s)
    ensures Contributes(nodes, Around(nodes, i), LIFETIME_FILTER, k + 1, s)
  {
    hide Contributes, Holds;
    ContributedIsHeld(nodes, i, k + 1, s);
  }

  lemma ContributorIsReferred(nodes: seq<Node>, i: nat, k: nat, s: TensorSpec)
    requires WellFormed(nodes) && i < |nodes| && Contributes(nodes, Around(nodes, i), LIFETIME_FILTER, k, s)
    ensures Refers(nodes, i, s)
  {
    hide Contributes, Holds;
    ContributedIsHeld(nodes, i, k, s);
    var j := Around(nodes, i)[k];
    assert j == i || j == nodes[i].args[k - 1];
  }

  /** What the nodes around node i contribute to lifetimes is what node i refers to. */
  lemma AroundIsReferred(nodes: seq<Node>, i: nat, s: TensorSpec)
    requires WellFormed(nodes) && i < |nodes|
    ensures Refers(nodes, i, s) <==> exists k: nat :: Contributes(nodes, Around(nodes, i), LIFETIME_FILTER, k, s)
  {
    hide Contributes, Holds;
    if Holds(nodes, i, s) {
      OwnContributes(nodes, i, s);
    } else if j :| j in nodes[i].args && Holds(nodes, j, s) {
      var k: nat :| k < |nodes[i].args| && nodes[i].args[k] == j;
      HolderContributes(nodes, i, k, s);
    }
    if k: nat :| Contributes(nodes, Around(nodes, i), LIFETIME_FILTER, k, s) {
      ContributorIsReferred(nodes, i, k, s);
    }
  }

  lemma OwnContributes(nodes: seq<Node>, i: nat, s: TensorSpec)
    requires WellFormed(nodes) && i < |nodes| && Holds(nodes, i, s)
    ensures Contributes(nodes, Around(nodes, i), LIFETIME_FILTER, 0, s)
  {
    hide Contributes, Holds;
    ContributedIsHeld(nodes, i, 0, s);
  }

  ghost function References(nodes: seq<Node>, n: nat, s: TensorSpec): set<nat>
    requires WellFormed(nodes)
  {
    set i: nat | i < n && Refers(nodes, i, s)
  }

  /** `now` is the least of the old bound, if any, and the referring nodes. */
  ghost predicate Least(was: Option<int>, refs: set<nat>, now: Option<int>) {
    && (now.None? <==> was.None? && refs == {})
    && (now.Some? ==>
          && (was.Some? ==> now.value <= was.value)
          && (forall i :: i in refs ==> now.value <= i)
          && (now == was || exists i :: i in refs && i == now.value))
  }

  ghost predicate Greatest(was: Option<int>, refs: set<nat>, now: Option<int>) {
    && (now.None? <==> was.None? && refs == {})
    && (now.Some? ==>
          && (was.Some? ==> now.value >= was.value)
          && (forall i :: i in refs ==> now.value >= i)
          && (now == was || exists i :: i in refs && i == now.value))
  }

  /** The lifetime of s is the hull of `was` and the first n nodes, as far as they refer to it. */
  ghost predicate Hull(nodes: seq<Node>, n: nat, s: TensorSpec, was: (Option<int>, Option<int>))
    requires WellFormed(nodes)
    reads s`start, s`end
  {
    && Least(was.0, References(nodes, n, s), s.start)
    && Greatest(was.1, References(nodes, n, s), s.end)
  }

  ghost function AllSpecs(nodes: seq<Node>): set<TensorSpec> {
    set n, s | n in nodes && s in n.specs :: s
  }

  lemma ReferredIsInGraph(nodes: seq<Node>, i: nat, s: TensorSpec)
    requires WellFormed(nodes) && Refers(nodes, i, s)
    ensures s in AllSpecs(nodes)
  {
  }

  lemma ReferencesGrow(nodes: seq<Node>, n: nat, s: TensorSpec)
    requires WellFormed(nodes)
    ensures References(nodes, n + 1, s) == References(nodes, n, s) + if Refers(nodes, n, s) then {n} else {}
  {
  }

  /** Stretch the lifetimes of the specs node n refers to. */
  method TouchSpecs(nodes: seq<Node>, n: nat, touched: seq<TensorSpec>)
    requires WellFormed(nodes) && n < |nodes|
    requires forall s :: s in touched <==> Refers(nodes, n, s)
    modifies touched`start, touched`end
    ensures forall s :: s in touched ==>
              && s.start == Some(if old(s.start).None? || old(s.start).value > n then n else old(s.start).value)
              && s.end == Some(if old(s.end).None? || old(s.end).value < n then n else old(s.end).value)
  {
    for j := 0 to |touched|
      invariant forall s :: s in touched && s !in touched[..j] ==> s.start == old(s.start) && s.end == old(s.end)
      invariant forall s :: s in touched[..j] ==>
                  && s.start == Some(if old(s.start).None? || old(s.start).value > n then n else old(s.start).value)
                  && s.end == Some(if old(s.end).None? || old(s.end).value < n then n else old(s.end).value)
    {
      assert touched[..j + 1] == touched[..j] + [touched[j]];
      UpdateTensorLifetime(touched[j], n);
    }
    assert touched[..|touched|] == touched;
  }

  lemma LeastGrows(was: Option<int>, refs: set<nat>, now: Option<int>, n: nat)
    requires Least(was, refs, now)
    ensures Least(was, refs + {n}, Some(if now.None? || now.value > n then n else now.value))
  {
    var r := if now.None? || now.value > n then n else now.value;
    assert r == n ==> n in refs + {n};
  }

  lemma GreatestGrows(was: Option<int>, refs: set<nat>, now: Option<int>, n: nat)
    requires Greatest(was, refs, now)
    ensures Greatest(was, refs + {n}, Some(if now.None? || now.value < n then n else now.value))
  {
    var r := if now.None? || now.value < n then n else now.value;
    assert r == n ==> n in refs + {n};
  }

  lemma HullGrows(nodes: seq<Node>, n: nat, s: TensorSpec, was: (Option<int>, Option<int>),
                  before: (Option<int>, Option<int>))
    requires WellFormed(nodes)
    requires Least(was.0, References(nodes, n, s), before.0) && Greatest(was.1, References(nodes, n, s), before.1)
    requires if Refers(nodes, n, s) then
               && s.start == Some(if before.0.None? || before.0.value > n then n else before.0.value)
               && s.end == Some(if before.1.None? || before.1.value < n then n else before.1.value)
             else (s.start, s.end) == before
    ensures Hull(nodes, n + 1, s, was)
  {
    hide Least, Greatest, References, Refers;
    ReferencesGrow(nodes, n, s);
    assert References(nodes, n, s) + {} == References(nodes, n, s);
    if Refers(nodes, n, s) {
      LeastGrows(was.0, References(nodes, n, s), before.0, n);
      GreatestGrows(was.1, References(nodes, n, s), before.1, n);
    }
  }

  /** One turn of the loop over nodes. */
  method TouchNode(nodes: seq<Node>, n: nat, ghost was: map<TensorSpec, (Option<int>, Option<int>)>)
    returns (touched: seq<TensorSpec>)
    requires WellFormed(nodes) && n < |nodes| && was.Keys == AllSpecs(nodes)
    requires forall s :: s in was ==> Hull(nodes, n, s, was[s])
    modifies was.Keys`start, was.Keys`end
    ensures forall s :: s in was ==> Hull(nodes, n + 1, s, was[s])
    ensures forall s :: s in was ==> (s in touched <==> Refers(nodes, n, s))
    ensures forall s :: s in touched ==> s in was
  {
    hide Least, Greatest, References, AllSpecs, Contributes;
    var r := CollectSpecsFromNodes(nodes, Around(nodes, n), LIFETIME_FILTER);
    NothingUnexpected(nodes, n);
    touched := r.value;
    forall s
      ensures s in touched <==> Refers(nodes, n, s)
    {
      AroundIsReferred(nodes, n, s);
    }
    forall s | s in touched
      ensures s in was
    {
      ReferredIsInGraph(nodes, n, s);
    }
    ghost var before := map s | s in was :: (s.start, s.end);
    TouchSpecs(nodes, n, touched);
    forall s | s in was
      ensures Hull(nodes, n + 1, s, was[s])
    {
      HullGrows(nodes, n, s, was[s], before[s]);
    }
  }

  lemma NothingUnexpected(nodes: seq<Node>, n: nat)
    requires WellFormed(nodes) && n < |nodes|
    ensures !exists k: nat :: Unexpected(nodes, Around(nodes, n), LIFETIME_FILTER, k)
  {
  }

  /** The specs the first n nodes refer to. */
  ghost function Referred(nodes: seq<Node>, n: nat): set<TensorSpec>
    requires WellFormed(nodes)
  {
    set s | s in AllSpecs(nodes) && exists i: nat :: i < n && Refers(nodes, i, s)
  }

  /** The lifetimes before the update. */
  ghost function LifetimesNow(nodes: seq<Node>): (was: map<TensorSpec, (Option<int>, Option<int>)>)
    reads AllSpecs(nodes)
    ensures was.Keys == AllSpecs(nodes)
  {
    map s | s in AllSpecs(nodes) :: (s.start, s.end)
  }

  /** `update_all_tensors_lifetime`: afterwards every spec lives from the first to the
      last node referring to it (or over its old lifetime, where that reaches further),
      and the specs referred to are returned. */
  method UpdateAllTensorsLifetime(nodes: seq<Node>) returns (specs: set<TensorSpec>)
    requires WellFormed(nodes)
    modifies AllSpecs(nodes)`start, AllSpecs(nodes)`end
    ensures forall s :: s in AllSpecs(nodes) ==> Hull(nodes, |nodes|, s, old(LifetimesNow(nodes)[s]))
    ensures specs == Referred(nodes, |nodes|)
  {
    hide Refers, AllSpecs;
    ghost var was := LifetimesNow(nodes);
    specs := {};
    for n := 0 to |nodes|
      invariant forall s :: s in was ==> Hull(nodes, n, s, was[s])
      invariant specs == Referred(nodes, n)
    {
      var touched := TouchNode(nodes, n, was);
      specs := specs + set s | s in touched;
    }
  }

  /** What the planner asks for has a lifetime, and it covers every node referring to it. */
  lemma PlannedSpecsAreCovered(nodes: seq<Node>, idxs: seq<nat>, f: Filter, k: nat, s: TensorSpec)
    requires WellFormed(nodes) && forall k :: 0 <= k < |idxs| ==> idxs[k] < |nodes|
    requires Contributes(nodes, idxs, f, k, s)
    requires Least(None, References(nodes, |nodes|, s), s.start)
    requires Greatest(None, References(nodes, |nodes|, s), s.end)
    ensures s.start.Some? && s.end.Some? && 0 <= s.start.value <= s.end.value < |nodes|
    ensures forall i: nat :: Refers(nodes, i, s) ==> s.start.value <= i <= s.end.value
    ensures Refers(nodes, s.start.value, s) && Refers(nodes, s.end.value, s)
  {
    assert Refers(nodes, idxs[k], s);
    assert idxs[k] in References(nodes, |nodes|, s);
    assert forall i: nat :: Refers(nodes, i, s) ==> i in References(nodes, |nodes|, s);
  }

  /** A lifetime so computed covers every node that takes a holder of the spec as an argument. */
  lemma ArgumentsAreCovered(nodes: seq<Node>, was: (Option<int>, Option<int>), s: TensorSpec, i: nat, j: nat)
    requires WellFormed(nodes) && Hull(nodes, |nodes|, s, was)
    requires i < |nodes| && j in nodes[i].args && nodes[j].op != GetAttr && nodes[j].op != Call(InPlace)
    requires s in nodes[j].specs && nodes[j].op != Call(View)
    ensures s.start.Some? && s.end.Some? && s.start.value <= i <= s.end.value
  {
    assert Holds(nodes, j, s);
    assert i in References(nodes, |nodes|, s);
  }
}
