/** `insert_calls_to_free`: tensors of unbounded dynamic shape are freed by the graph
    itself, right after the last node that refers to them. */
module FreeInsertion {
  import opened Wrappers
  import opened TensorSpecs
  import opened Lifetimes

  /** The graph after insertion: the original nodes and the calls to free. */
  datatype Item = Original(idx: nat) | Free(spec: TensorSpec)

  /** The graph itself frees s: its shape is unbounded, it is not what the last node returns,
      and no placeholder brings it in. */
  ghost predicate Freeable(nodes: seq<Node>, s: TensorSpec) {
    && s.dynamism == DynamicUnbound
    && (nodes != [] ==> s !in nodes[|nodes| - 1].specs)
    && forall i :: 0 <= i < |nodes| && nodes[i].op.Placeholder? ==> s !in nodes[i].specs
  }

  /** The specs of `all` to free after node i, in the order they were found. */
  ghost function DeadAt(nodes: seq<Node>, all: seq<TensorSpec>, i: int): (dead: seq<TensorSpec>)
    reads all`end
    ensures forall s :: s in dead ==> s in all && Freeable(nodes, s) && s.end == Some(i)
    ensures forall s :: s in all && Freeable(nodes, s) && s.end == Some(i) ==> s in dead
    ensures Distinct(all) ==> Distinct(dead)
  {
    if all == [] then []
    else
      var n := |all| - 1;
      var rest := DeadAt(nodes, all[..n], i);
      assert all == all[..n] + [all[n]];
      if Freeable(nodes, all[n]) && all[n].end == Some(i) then rest + [all[n]] else rest
  }

  /** Calls to free inserted one by one directly after a node end up reversed. */
  function Frees(dead: seq<TensorSpec>): (items: seq<Item>)
    ensures |items| == |dead|
    ensures forall k :: 0 <= k < |dead| ==> items[k] == Free(dead[|dead| - 1 - k])
  {
    if dead == [] then [] else [Free(dead[|dead| - 1])] + Frees(dead[..|dead| - 1])
  }

  /** The graph from node i on. */
  ghost function Layout(nodes: seq<Node>, all: seq<TensorSpec>, i: nat): seq<Item>
    requires i <= |nodes|
    reads all`end
    decreases |nodes| - i
  {
    if i == |nodes| then []
    else [Original(i)] + Frees(DeadAt(nodes, all, i)) + Layout(nodes, all, i + 1)
  }

  function Originals(n: nat): (items: seq<Item>)
    ensures |items| == n && forall k :: 0 <= k < n ==> items[k] == Original(k)
  {
    seq(n, k requires 0 <= k => Original(k))
  }

  /** The original nodes, in their original order, each exactly once. */
  ghost predicate KeepsNodes(items: seq<Item>, lo: nat, hi: nat) {
    && (forall p :: 0 <= p < |items| && items[p].Original? ==> lo <= items[p].idx < hi)
    && (forall p, q :: 0 <= p < q < |items| && items[p].Original? && items[q].Original? ==> items[p].idx < items[q].idx)
    && (forall i: nat :: lo <= i < hi ==> Original(i) in items)
  }

  ghost predicate FreesOnly(items: seq<Item>, all: seq<TensorSpec>) {
    forall p :: 0 <= p < |items| && items[p].Free? ==> items[p].spec in all
  }

  /** Each call to free comes after the last node of its spec's lifetime and before any
      later node, and no spec is freed twice. */
  ghost predicate FreesInPlace(items: seq<Item>, all: seq<TensorSpec>)
    requires FreesOnly(items, all)
    reads all`end
  {
    && (forall p :: 0 <= p < |items| && items[p].Free? ==> items[p].spec.end.Some?)
    && (forall p, q :: 0 <= p < |items| && 0 <= q < |items| && items[p].Free? && items[q].Original? ==>
          (q < p <==> items[q].idx <= items[p].spec.end.value))
    && (forall p, q :: 0 <= p < q < |items| && items[p].Free? && items[q].Free? ==> items[p].spec != items[q].spec)
  }

  lemma LayoutStep(nodes: seq<Node>, all: seq<TensorSpec>, i: nat)
    requires i < |nodes|
    ensures var frees, rest := Frees(DeadAt(nodes, all, i)), Layout(nodes, all, i + 1);
            Layout(nodes, all, i) == [Original(i)] + frees + rest
  {
  }

  lemma {:induction false} LayoutKeepsNodes(nodes: seq<Node>, all: seq<TensorSpec>, i: nat)
    requires i <= |nodes|
    ensures KeepsNodes(Layout(nodes, all, i), i, |nodes|)
    decreases |nodes| - i
  {
    hide DeadAt, Layout;
    if i == |nodes| {
      LayoutEnds(nodes, all);
    } else {
      LayoutKeepsNodes(nodes, all, i + 1);
      LayoutStep(nodes, all, i);
      var frees, rest := Frees(DeadAt(nodes, all, i)), Layout(nodes, all, i + 1);
      var items := [Original(i)] + frees + rest;
      forall j: nat | i < j < |nodes|
        ensures Original(j) in items
      {
        assert Original(j) in rest;
      }
      assert items[0] == Original(i);
    }
  }

  lemma LayoutEnds(nodes: seq<Node>, all: seq<TensorSpec>)
    ensures Layout(nodes, all, |nodes|) == []
  {
  }

  /** What the layout from node i on frees: specs of `all` that are freeable and die at
      one of its nodes. */
  ghost predicate FreesDead(nodes: seq<Node>, all: seq<TensorSpec>, items: seq<Item>, i: nat)
    reads all`end
  {
    forall p :: 0 <= p < |items| && items[p].Free? ==>
      var s := items[p].spec;
      s in all && Freeable(nodes, s) && s.end.Some? && i <= s.end.value < |nodes|
  }

  lemma {:induction false} LayoutFreesDead(nodes: seq<Node>, all: seq<TensorSpec>, i: nat)
    requires i <= |nodes|
    ensures FreesDead(nodes, all, Layout(nodes, all, i), i)
    ensures forall s :: s in all && Freeable(nodes, s) && s.end.Some? && i <= s.end.value < |nodes| ==>
              Free(s) in Layout(nodes, all, i)
    decreases |nodes| - i
  {
    hide DeadAt, Layout, Freeable, Frees;
    if i == |nodes| {
      LayoutEnds(nodes, all);
    } else {
      LayoutFreesDead(nodes, all, i + 1);
      LayoutStep(nodes, all, i);
      var dead, rest := DeadAt(nodes, all, i), Layout(nodes, all, i + 1);
      forall s | s in all && Freeable(nodes, s) && s.end.Some? && i <= s.end.value < |nodes|
        ensures Free(s) in Frees(dead) || Free(s) in rest
      {
        if s.end.value == i {
          var k :| 0 <= k < |dead| && dead[k] == s;
          assert Frees(dead)[|dead| - 1 - k] == Free(s);
        }
      }
    }
  }

  lemma {:induction false} LayoutFreesInPlace(nodes: seq<Node>, all: seq<TensorSpec>, i: nat)
    requires i <= |nodes| && Distinct(all)
    ensures FreesOnly(Layout(nodes, all, i), all) && FreesInPlace(Layout(nodes, all, i), all)
    decreases |nodes| - i
  {
    hide DeadAt, Layout, Freeable, Frees;
    LayoutFreesDead(nodes, all, i);
    if i == |nodes| {
      LayoutEnds(nodes, all);
    } else {
      LayoutFreesInPlace(nodes, all, i + 1);
      LayoutFreesDead(nodes, all, i + 1);
      LayoutKeepsNodes(nodes, all, i + 1);
      LayoutStep(nodes, all, i);
      var frees, rest := Frees(DeadAt(nodes, all, i)), Layout(nodes, all, i + 1);
      FreesGoBetween(nodes, all, i, frees, rest);
    }
  }

  /** A node, the calls that free what dies there, and the rest of the graph. */
  lemma FreesGoBetween(nodes: seq<Node>, all: seq<TensorSpec>, i: nat, frees: seq<Item>, rest: seq<Item>)
    requires i < |nodes|
    requires forall k :: 0 <= k < |frees| ==>
               frees[k].Free? && frees[k].spec in all && frees[k].spec.end == Some(i)
    requires forall k, l :: 0 <= k < l < |frees| ==> frees[k].spec != frees[l].spec
    requires FreesDead(nodes, all, rest, i + 1) && KeepsNodes(rest, i + 1, |nodes|)
    requires FreesOnly(rest, all) && FreesInPlace(rest, all)
    ensures var items := [Original(i)] + frees + rest; FreesOnly(items, all) && FreesInPlace(items, all)
  {
    var items, h := [Original(i)] + frees + rest, 1 + |frees|;
    forall p | 0 <= p < |items|
      ensures items[p] == if p == 0 then Original(i) else if p < h then frees[p - 1] else rest[p - h]
    {
    }
    forall p, q | 0 <= p < |items| && 0 <= q < |items| && items[p].Free? && items[q].Original?
      ensures q < p <==> items[q].idx <= items[p].spec.end.value
    {
      if p >= h && q >= h {
        assert items[p] == rest[p - h] && items[q] == rest[q - h];
      }
    }
    forall p, q | 0 <= p < q < |items| && items[p].Free? && items[q].Free?
      ensures items[p].spec != items[q].spec
    {
      if q < h {
        assert items[p] == frees[p - 1] && items[q] == frees[q - 1];
      } else if p >= h {
        assert items[p] == rest[p - h] && items[q] == rest[q - h];
      }
    }
  }

  lemma DeadStep(nodes: seq<Node>, all: seq<TensorSpec>, n: nat, i: int)
    requires n < |all|
    ensures DeadAt(nodes, all[..n + 1], i) ==
            DeadAt(nodes, all[..n], i) + if Freeable(nodes, all[n]) && all[n].end == Some(i) then [all[n]] else []
  {
    hide Freeable, Distinct;
    assert all[..n + 1][..n] == all[..n];
  }

  lemma NoneDead(nodes: seq<Node>, i: int)
    ensures DeadAt(nodes, [], i) == []
  {
  }

  /** `get_return_specs` */
  method GetReturnSpecs(nodes: seq<Node>) returns (specs: set<TensorSpec>)
    ensures nodes == [] ==> specs == {}
    ensures nodes != [] ==> var last := nodes[|nodes| - 1].specs; specs == set s | s in last
  {
    specs := {};
    if |nodes| > 0 {
      var last := nodes[|nodes| - 1].specs;
      specs := set s | s in last;
    }
  }

  /** `get_input_specs` */
  method GetInputSpecs(nodes: seq<Node>) returns (specs: set<TensorSpec>)
    ensures forall s :: s in specs ==> exists i :: 0 <= i < |nodes| && nodes[i].op.Placeholder? && s in nodes[i].specs
    ensures forall i :: 0 <= i < |nodes| && nodes[i].op.Placeholder? ==> forall s :: s in nodes[i].specs ==> s in specs
  {
    specs := {};
    for k := 0 to |nodes|
      invariant forall s :: s in specs ==> exists i :: 0 <= i < k && nodes[i].op.Placeholder? && s in nodes[i].specs
      invariant forall i :: 0 <= i < k && nodes[i].op.Placeholder? ==> forall s :: s in nodes[i].specs ==> s in specs
    {
      if nodes[k].op.Placeholder? {
        var own := nodes[k].specs;
        specs := specs + set s | s in own;
      }
    }
  }

  lemma FreeableIs(nodes: seq<Node>, returned: set<TensorSpec>, inputs: set<TensorSpec>, s: TensorSpec)
    requires nodes == [] ==> returned == {}
    requires nodes != [] ==> var last := nodes[|nodes| - 1].specs; returned == set s | s in last
    requires s in inputs ==> exists i :: 0 <= i < |nodes| && nodes[i].op.Placeholder? && s in nodes[i].specs
    requires forall i :: 0 <= i < |nodes| && nodes[i].op.Placeholder? ==> forall s :: s in nodes[i].specs ==> s in inputs
    ensures Freeable(nodes, s) <==> s.dynamism == DynamicUnbound && s !in returned && s !in inputs
  {
  }

  /** The specs to free, by the node their lifetime ends at. */
  ghost predicate Groups(nodes: seq<Node>, all: seq<TensorSpec>, groups: map<int, seq<TensorSpec>>)
    reads all`end
  {
    forall i: int :: (if i in groups then groups[i] else []) == DeadAt(nodes, all, i)
  }

  lemma NothingGrouped(nodes: seq<Node>, all: seq<TensorSpec>)
    ensures Groups(nodes, all[..0], map[])
  {
  }

  lemma GroupStep(nodes: seq<Node>, all: seq<TensorSpec>, n: nat, groups: map<int, seq<TensorSpec>>, groups': map<int, seq<TensorSpec>>)
    requires n < |all| && all[n].end.Some? && Groups(nodes, all[..n], groups)
    requires var at := all[n].end.value;
             groups' == if Freeable(nodes, all[n])
                        then groups[at := (if at in groups then groups[at] else []) + [all[n]]] else groups
    ensures Groups(nodes, all[..n + 1], groups')
  {
    hide DeadAt, Freeable;
    forall i: int
      ensures (if i in groups' then groups'[i] else []) == DeadAt(nodes, all[..n + 1], i)
    {
      DeadStep(nodes, all, n, i);
      assert (if i in groups then groups[i] else []) == DeadAt(nodes, all[..n], i);
    }
  }

  /** Group the freeable specs by the node their lifetime ends at. */
  method GroupDead(nodes: seq<Node>, all: seq<TensorSpec>) returns (idxToDead: map<int, seq<TensorSpec>>)
    requires forall s :: s in all ==> s.end.Some?
    ensures Groups(nodes, all, idxToDead)
  {
    hide Groups, Freeable;
    var returnSpecs := GetReturnSpecs(nodes);
    var inputSpecs := GetInputSpecs(nodes);
    idxToDead := map[];
    NothingGrouped(nodes, all);
    for n := 0 to |all|
      invariant Groups(nodes, all[..n], idxToDead)
    {
      var spec := all[n];
      ghost var before := idxToDead;
      FreeableIs(nodes, returnSpecs, inputSpecs, spec);
      if spec.dynamism == DynamicUnbound && spec !in returnSpecs && spec !in inputSpecs {
        var at := spec.end.value;
        idxToDead := idxToDead[at := (if at in idxToDead then idxToDead[at] else []) + [spec]];
      }
      GroupStep(nodes, all, n, before, idxToDead);
    }
    assert all[..|all|] == all;
  }

  /** `insert_calls_to_free`: nodes are visited from the last to the first so that the
      positions of those still to come do not move. */
  method InsertCallsToFree(nodes: seq<Node>, all: seq<TensorSpec>) returns (items: seq<Item>)
    requires Distinct(all) && forall s :: s in all ==> s.end.Some?
    ensures KeepsNodes(items, 0, |nodes|)
    ensures FreesOnly(items, all) && FreesInPlace(items, all)
    ensures forall s :: s in all && 0 <= s.end.value < |nodes| ==> (Freeable(nodes, s) <==> Free(s) in items)
  {
    hide Layout, DeadAt, Freeable, Frees, Distinct;
    var idxToDead := GroupDead(nodes, all);
    items := Originals(|nodes|);
    LayoutEnds(nodes, all);
    for i := |nodes| downto 0
      invariant items == Originals(i) + Layout(nodes, all, i)
    {
      var dead := if i in idxToDead then idxToDead[i] else [];
      LayoutStep(nodes, all, i);
      assert Originals(i + 1) == Originals(i) + [Original(i)];
      items := InsertAfter(items, i, dead);
    }
    LayoutKeepsNodes(nodes, all, 0);
    LayoutFreesInPlace(nodes, all, 0);
    LayoutFreesDead(nodes, all, 0);
    assert items == Layout(nodes, all, 0);
  }

  /** Calls inserted directly after position i, one by one. */
  method InsertAfter(graph: seq<Item>, i: nat, dead: seq<TensorSpec>) returns (items: seq<Item>)
    requires i < |graph|
    ensures items == graph[..i + 1] + Frees(dead) + graph[i + 1..]
  {
    items := graph;
    for k := 0 to |dead|
      invariant items == graph[..i + 1] + Frees(dead[..k]) + graph[i + 1..]
    {
      assert dead[..k + 1][..k] == dead[..k];
      items := items[..i + 1] + [Free(dead[k])] + items[i + 1..];
    }
    assert dead[..|dead|] == dead;
  }

  /** No node after the call refers to the freed spec, when its lifetime is the one the
      planner computed. */
  lemma NoUseAfterFree(nodes: seq<Node>, all: seq<TensorSpec>, items: seq<Item>, p: nat, q: nat)
    requires WellFormed(nodes) && FreesOnly(items, all) && FreesInPlace(items, all)
    requires p < q < |items| && items[p].Free? && items[q].Original?
    requires Greatest(None, References(nodes, |nodes|, items[p].spec), items[p].spec.end)
    ensures !Refers(nodes, items[q].idx, items[p].spec)
  {
    assert Refers(nodes, items[q].idx, items[p].spec) <==> items[q].idx in References(nodes, |nodes|, items[p].spec);
  }

  /** The specs of a set, in some order. */
  method Listed(specs: set<TensorSpec>) returns (all: seq<TensorSpec>)
    ensures Distinct(all) && (set s | s in all) == specs
  {
    all := [];
    var rest := specs;
    while rest != {}
      invariant Distinct(all) && (set s | s in all) == specs - rest && rest <= specs
      decreases rest
    {
      var s :| s in rest;
      assert forall k :: 0 <= k < |all| ==> all[k] in (set t | t in all);
      assert (set t | t in all + [s]) == (set t | t in all) + {s};
      all, rest := all + [s], rest - {s};
    }
  }

  /** Where the calls to free go, said by the references alone: each freeable spec that a node
      refers to has one, behind exactly the nodes from which on some node still refers to it. */
  ghost predicate FreesAfterUse(nodes: seq<Node>, items: seq<Item>)
    requires WellFormed(nodes)
  {
    && (forall s :: s in AllSpecs(nodes) ==> (Free(s) in items <==> Freeable(nodes, s) && s in Referred(nodes, |nodes|)))
    && (forall p :: 0 <= p < |items| && items[p].Free? ==> items[p].spec in AllSpecs(nodes))
    && (forall p, q :: 0 <= p < q < |items| && items[p].Free? ==> items[p] != items[q])
    && (forall p, q :: 0 <= p < |items| && 0 <= q < |items| && items[p].Free? && items[q].Original? ==>
          (q < p <==> UsedFrom(nodes, items[q].idx, items[p].spec)))
  }

  /** Some node from n on refers to s. */
  ghost predicate UsedFrom(nodes: seq<Node>, n: nat, s: TensorSpec)
    requires WellFormed(nodes)
  {
    exists i: nat :: n <= i && Refers(nodes, i, s)
  }

  /** A lifetime computed from nothing ends at the last node that refers to the spec. */
  lemma EndIsLastUse(nodes: seq<Node>, s: TensorSpec)
    requires WellFormed(nodes) && Greatest(None, References(nodes, |nodes|, s), s.end) && s in AllSpecs(nodes)
    ensures s.end.Some? <==> s in Referred(nodes, |nodes|)
    ensures s.end.Some? ==> 0 <= s.end.value < |nodes|
    ensures s.end.Some? ==> forall n: nat :: UsedFrom(nodes, n, s) <==> n <= s.end.value
  {
    hide Refers;
    var refs := References(nodes, |nodes|, s);
    forall i: nat | Refers(nodes, i, s)
      ensures i in refs
    {
      assert i < |nodes| by {
        RefersInside(nodes, i, s);
      }
    }
  }

  lemma RefersInside(nodes: seq<Node>, i: nat, s: TensorSpec)
    requires WellFormed(nodes) && Refers(nodes, i, s)
    ensures i < |nodes|
  {
  }

  lemma PlacedByUse(nodes: seq<Node>, all: seq<TensorSpec>, items: seq<Item>)
    requires WellFormed(nodes) && (set s | s in all) == Referred(nodes, |nodes|)
    requires forall s :: s in AllSpecs(nodes) ==> Greatest(None, References(nodes, |nodes|, s), s.end)
    requires FreesOnly(items, all) && FreesInPlace(items, all)
    requires forall s :: s in all && s.end.Some? && 0 <= s.end.value < |nodes| ==> (Freeable(nodes, s) <==> Free(s) in items)
    ensures FreesAfterUse(nodes, items)
  {
    hide Greatest, References, Refers, UsedFrom, Freeable;
    assert forall s :: s in all <==> s in Referred(nodes, |nodes|);
    forall s | s in AllSpecs(nodes)
      ensures s.end.Some? <==> s in all
      ensures s.end.Some? ==> 0 <= s.end.value < |nodes| && forall n: nat :: UsedFrom(nodes, n, s) <==> n <= s.end.value
    {
      EndIsLastUse(nodes, s);
    }
  }

  /** Lifetimes from scratch, then the calls to free: the original nodes in their order, and a
      call for exactly the freeable specs in use, behind the last node that refers to each. */
  method FreeUnbound(nodes: seq<Node>) returns (items: seq<Item>)
    requires WellFormed(nodes) && forall s :: s in AllSpecs(nodes) ==> s.start == None && s.end == None
    modifies AllSpecs(nodes)`start, AllSpecs(nodes)`end
    ensures KeepsNodes(items, 0, |nodes|) && FreesAfterUse(nodes, items)
  {
    hide KeepsNodes, FreesAfterUse, FreesInPlace, Freeable, References, Refers, Referred, Greatest, Least, AllSpecs;
    ghost var was := LifetimesNow(nodes);
    assert forall s :: s in AllSpecs(nodes) ==> was[s] == (None, None);
    var specs := UpdateAllTensorsLifetime(nodes);
    AllAllocated(nodes);
    assert forall s :: s in AllSpecs(nodes) ==> Greatest(None, References(nodes, |nodes|, s), s.end);
    var all := Listed(specs);
    forall s | s in all
      ensures s.end.Some?
    {
      assert s in specs;
      ReferredEnds(nodes, s);
    }
    items := InsertCallsToFree(nodes, all);
    PlacedByUse(nodes, all, items);
  }

  lemma AllAllocated(nodes: seq<Node>)
    ensures forall s :: s in AllSpecs(nodes) ==> allocated(s)
  {
  }

  lemma ReferredEnds(nodes: seq<Node>, s: TensorSpec)
    requires WellFormed(nodes) && s in Referred(nodes, |nodes|)
    requires s in AllSpecs(nodes) ==> Greatest(None, References(nodes, |nodes|, s), s.end)
    ensures s.end.Some?
  {
    EndIsLastUse(nodes, s);
  }
}
