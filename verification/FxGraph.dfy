/** A small SSA graph: nodes in list order, each applying an operator to literals and to
    the values of other nodes. */
module FxGraph {

  datatype Op =
    | Placeholder(k: nat)
    | Output
    | ViewCopy
    | ChooseQParams
    | GetItem
    | Quantize(q: nat)
    | Dequantize(dq: nat)
    | OtherOp(code: nat)

  datatype Arg = NodeArg(id: nat) | Lit(n: int)

  datatype Node = Node(op: Op, args: seq<Arg>)

  datatype Graph = Graph(order: seq<nat>, defs: map<nat, Node>)

  datatype Value = Tensor(data: seq<int>, shape: seq<int>) | Scalar(n: int) | Opaque(tag: int)

  /** What operators compute. A view keeps the data of its input; its shape depends only on
      the number of elements and on the requested shape. */
  datatype Semantics = Semantics(
    apply: (Op, seq<Value>) -> Value,
    resolve: (nat, seq<Value>) -> seq<int>)

  function DataOf(v: Value): seq<int> {
    if v.Tensor? then v.data else []
  }

  function Lookup(val: map<nat, Value>, id: nat): Value {
    if id in val then val[id] else Opaque(0)
  }

  function ArgValue(val: map<nat, Value>, a: Arg): Value {
    match a
    case NodeArg(id) => Lookup(val, id)
    case Lit(n) => Scalar(n)
  }

  function ArgValues(val: map<nat, Value>, args: seq<Arg>): (vs: seq<Value>)
    ensures |vs| == |args| && forall k :: 0 <= k < |args| ==> vs[k] == ArgValue(val, args[k])
  {
    seq(|args|, k requires 0 <= k < |args| => ArgValue(val, args[k]))
  }

  function EvalNode(sem: Semantics, val: map<nat, Value>, n: Node): Value {
    var vs := ArgValues(val, n.args);
    if n.op == ViewCopy && |vs| > 0 then
      var data := DataOf(vs[0]);
      Tensor(data, sem.resolve(|data|, vs[1..]))
    else sem.apply(n.op, vs)
  }

  predicate Uses(n: Node, id: nat) {
    NodeArg(id) in n.args
  }

  /** Ids are unique and defined, and arguments name nodes of the graph. */
  ghost predicate Closed(g: Graph) {
    && NoRepeats(g.order)
    && (forall id :: id in g.order <==> id in g.defs)
    && (forall id, x :: id in g.defs && Uses(g.defs[id], x) ==> x in g.defs)
  }

  ghost predicate Before(order: seq<nat>, a: nat, b: nat) {
    exists i, j :: 0 <= i < j < |order| && order[i] == a && order[j] == b
  }

  /** The position of x in the list. */
  function Pos(order: seq<nat>, x: nat): (p: nat)
    ensures x in order ==> p < |order| && order[p] == x
  {
    if order == [] then 0
    else if order[|order| - 1] == x then |order| - 1
    else Pos(order[..|order| - 1], x)
  }

  lemma BeforeIsPos(order: seq<nat>, a: nat, b: nat)
    requires NoRepeats(order)
    ensures Before(order, a, b) <==> a in order && b in order && Pos(order, a) < Pos(order, b)
  {
    if a in order && b in order && Pos(order, a) < Pos(order, b) {
      assert order[Pos(order, a)] == a && order[Pos(order, b)] == b;
    }
  }

  lemma PosOfIndex(order: seq<nat>, i: nat)
    requires NoRepeats(order) && i < |order|
    ensures Pos(order, order[i]) == i
  {
    assert order[i] in order;
  }

  lemma BeforeTransitive(order: seq<nat>, a: nat, b: nat, c: nat)
    requires NoRepeats(order) && Before(order, a, b) && Before(order, b, c)
    ensures Before(order, a, c)
  {
    BeforeIsPos(order, a, b);
    BeforeIsPos(order, b, c);
    BeforeIsPos(order, a, c);
  }

  /** The list is topologically ordered. */
  ghost predicate Ordered(g: Graph) {
    forall id, x :: id in g.defs && Uses(g.defs[id], x) ==> Before(g.order, x, id)
  }

  /** The nodes that use node x. */
  function Users(g: Graph, x: nat): set<nat> {
    set id | id in g.defs && Uses(g.defs[id], x)
  }

  /** Running the first n nodes of the list. */
  ghost function Run(g: Graph, sem: Semantics, n: nat): map<nat, Value>
    requires n <= |g.order|
  {
    if n == 0 then map[]
    else
      var val := Run(g, sem, n - 1);
      var id := g.order[n - 1];
      val[id := if id in g.defs then EvalNode(sem, val, g.defs[id]) else Opaque(0)]
  }

  ghost function Result(g: Graph, sem: Semantics): map<nat, Value> {
    Run(g, sem, |g.order|)
  }

  /** Output o returns the same values in both graphs. */
  ghost predicate SameOutput(g0: Graph, g: Graph, sem: Semantics, o: nat)
    requires o in g0.defs
  {
    && o in g.defs && g.defs[o].op == g0.defs[o].op
    && ArgValues(Result(g, sem), g.defs[o].args) == ArgValues(Result(g0, sem), g0.defs[o].args)
  }

  /** Every node has the value its operator computes from the values of its arguments. */
  ghost predicate Consistent(g: Graph, sem: Semantics, val: map<nat, Value>) {
    forall id :: id in g.defs ==> id in val && val[id] == EvalNode(sem, val, g.defs[id])
  }

  lemma EvalDependsOnArgs(sem: Semantics, a: map<nat, Value>, b: map<nat, Value>, n: Node)
    requires forall x :: Uses(n, x) ==> Lookup(a, x) == Lookup(b, x)
    ensures EvalNode(sem, a, n) == EvalNode(sem, b, n)
  {
    forall k | 0 <= k < |n.args|
      ensures ArgValue(a, n.args[k]) == ArgValue(b, n.args[k])
    {
      assert n.args[k] in n.args;
      if n.args[k].NodeArg? {
        assert Uses(n, n.args[k].id);
      }
    }
    assert ArgValues(a, n.args) == ArgValues(b, n.args);
  }

  lemma ArgsAreInGraph(g: Graph, x: nat, a: map<nat, Value>, b: map<nat, Value>)
    requires Closed(g) && x in g.defs && forall y :: y in g.defs ==> Lookup(a, y) == Lookup(b, y)
    ensures ArgValues(a, g.defs[x].args) == ArgValues(b, g.defs[x].args)
  {
    forall k | 0 <= k < |g.defs[x].args|
      ensures ArgValue(a, g.defs[x].args[k]) == ArgValue(b, g.defs[x].args[k])
    {
      assert g.defs[x].args[k] in g.defs[x].args;
      assert g.defs[x].args[k].NodeArg? ==> Uses(g.defs[x], g.defs[x].args[k].id);
    }
  }

  lemma NodeAt(g: Graph, i: nat)
    requires Closed(g) && i < |g.order|
    ensures g.order[i] in g.defs && forall k: nat :: k < |g.order| && k != i ==> g.order[k] != g.order[i]
  {
    assert g.order[i] in g.order;
  }

  /** What a node uses comes earlier in the list. */
  lemma UsedIsEarlier(g: Graph, n: nat, x: nat) returns (i: nat)
    requires Closed(g) && Ordered(g) && n < |g.order| && g.order[n] in g.defs && Uses(g.defs[g.order[n]], x)
    ensures i < n && g.order[i] == x
  {
    hide Uses;
    var k, j :| 0 <= k < j < |g.order| && g.order[k] == x && g.order[j] == g.order[n];
    NodeAt(g, n);
    i := k;
  }

  lemma RunStep(g: Graph, sem: Semantics, n: nat)
    requires n < |g.order| && g.order[n] in g.defs
    ensures Run(g, sem, n + 1) ==
            Run(g, sem, n)[g.order[n] := EvalNode(sem, Run(g, sem, n), g.defs[g.order[n]])]
  {
  }

  /** In an ordered graph there is only one consistent valuation: the run's. */
  lemma {:induction false} RunAgrees(g: Graph, sem: Semantics, val: map<nat, Value>, n: nat)
    requires Closed(g) && Ordered(g) && Consistent(g, sem, val) && n <= |g.order|
    ensures forall i: nat :: i < n ==> g.order[i] in g.defs && Lookup(Run(g, sem, n), g.order[i]) == val[g.order[i]]
    ensures forall i: nat :: i < n ==> g.order[i] in Run(g, sem, n)
  {
    hide Run, EvalNode, Ordered, Closed, Uses;
    if n > 0 {
      RunAgrees(g, sem, val, n - 1);
      NodeAt(g, n - 1);
      RunStep(g, sem, n - 1);
      var id, before := g.order[n - 1], Run(g, sem, n - 1);
      forall x: nat | Uses(g.defs[id], x)
        ensures Lookup(before, x) == Lookup(val, x)
      {
        var i := UsedIsEarlier(g, n - 1, x);
      }
      EvalDependsOnArgs(sem, before, val, g.defs[id]);
    }
  }

  /** A node run earlier computes the same after one more node. */
  lemma EvalIsSettled(g: Graph, sem: Semantics, n: nat, i: nat)
    requires Closed(g) && Ordered(g) && i <= n < |g.order| && g.order[i] in g.defs && g.order[n] in g.defs
    ensures EvalNode(sem, Run(g, sem, n), g.defs[g.order[i]]) == EvalNode(sem, Run(g, sem, n + 1), g.defs[g.order[i]])
  {
    hide Run, EvalNode, Ordered, Closed, Uses;
    RunStep(g, sem, n);
    NodeAt(g, n);
    forall x: nat | Uses(g.defs[g.order[i]], x)
      ensures Lookup(Run(g, sem, n), x) == Lookup(Run(g, sem, n + 1), x)
    {
      var k := UsedIsEarlier(g, i, x);
    }
    EvalDependsOnArgs(sem, Run(g, sem, n), Run(g, sem, n + 1), g.defs[g.order[i]]);
  }

  /** The run of an ordered graph is consistent. */
  lemma {:induction false} RunIsConsistent(g: Graph, sem: Semantics, n: nat)
    requires Closed(g) && Ordered(g) && n <= |g.order|
    ensures forall i :: 0 <= i < n ==>
              g.order[i] in g.defs && g.order[i] in Run(g, sem, n) &&
              Run(g, sem, n)[g.order[i]] == EvalNode(sem, Run(g, sem, n), g.defs[g.order[i]])
  {
    hide Run, EvalNode, Ordered, Closed;
    if n > 0 {
      RunIsConsistent(g, sem, n - 1);
      NodeAt(g, n - 1);
      RunStep(g, sem, n - 1);
      forall i | 0 <= i < n
        ensures g.order[i] in g.defs && g.order[i] in Run(g, sem, n)
        ensures Run(g, sem, n)[g.order[i]] == EvalNode(sem, Run(g, sem, n), g.defs[g.order[i]])
      {
        EvalIsSettled(g, sem, n - 1, i);
      }
    }
  }

  lemma ResultIsConsistent(g: Graph, sem: Semantics)
    requires Closed(g) && Ordered(g)
    ensures Consistent(g, sem, Result(g, sem))
  {
    RunIsConsistent(g, sem, |g.order|);
    forall id | id in g.defs
      ensures id in Result(g, sem) && Result(g, sem)[id] == EvalNode(sem, Result(g, sem), g.defs[id])
    {
      var i :| 0 <= i < |g.order| && g.order[i] == id;
    }
  }

  lemma ResultIsUnique(g: Graph, sem: Semantics, val: map<nat, Value>)
    requires Closed(g) && Ordered(g) && Consistent(g, sem, val)
    ensures forall id :: id in g.defs ==> id in Result(g, sem) && Result(g, sem)[id] == val[id]
  {
    hide Run, EvalNode, Ordered;
    RunAgrees(g, sem, val, |g.order|);
    forall id | id in g.defs
      ensures id in Result(g, sem) && Result(g, sem)[id] == val[id]
    {
      var i :| 0 <= i < |g.order| && g.order[i] == id;
    }
  }

  /** Uses of e turned into uses of h. */
  function Rename(a: Arg, e: nat, h: nat): Arg {
    if a == NodeArg(e) then NodeArg(h) else a
  }

  function RenameAll(args: seq<Arg>, e: nat, h: nat): (r: seq<Arg>)
    ensures |r| == |args| && forall k :: 0 <= k < |args| ==> r[k] == Rename(args[k], e, h)
  {
    seq(|args|, k requires 0 <= k < |args| => Rename(args[k], e, h))
  }

  lemma RenamedUse(args: seq<Arg>, e: nat, h: nat, x: nat)
    requires e != h
    ensures NodeArg(x) in RenameAll(args, e, h) <==>
            (x != e && NodeArg(x) in args) || (x == h && NodeArg(e) in args)
  {
    var r := RenameAll(args, e, h);
    if NodeArg(x) in r {
      var k :| 0 <= k < |r| && r[k] == NodeArg(x);
      assert args[k] in args;
    }
    if x != e && NodeArg(x) in args {
      var k :| 0 <= k < |args| && args[k] == NodeArg(x);
      assert r[k] == NodeArg(x);
    }
    if x == h && NodeArg(e) in args {
      var k :| 0 <= k < |args| && args[k] == NodeArg(e);
      assert r[k] == NodeArg(h);
    }
  }

  /** Nodes with an effect of their own stay even when nothing uses them. */
  ghost predicate IsImpure(op: Op) {
    op.Placeholder? || op.Output?
  }

  /** g' is g without some nodes: definitions, the order of what is left, and everything
      with an effect are kept. */
  ghost predicate IsPruned(g: Graph, g': Graph) {
    && (forall id :: id in g'.defs ==> id in g.defs && g'.defs[id] == g.defs[id])
    && (forall id :: id in g.defs && IsImpure(g.defs[id].op) ==> id in g'.defs)
    && (forall a, b :: a in g'.defs && b in g'.defs && Before(g.order, a, b) ==> Before(g'.order, a, b))
  }

  /** Every node left is used or has an effect. */
  ghost predicate NoDeadCode(g: Graph) {
    forall id :: id in g.defs && !IsImpure(g.defs[id].op) ==> Users(g, id) != {}
  }

  lemma PrunedIsOrdered(g: Graph, g': Graph)
    requires Ordered(g) && Closed(g') && IsPruned(g, g')
    ensures Ordered(g')
  {
  }

  /** What is left computes what it computed before. */
  lemma PrunedKeepsValues(g: Graph, g': Graph, sem: Semantics)
    requires Closed(g) && Ordered(g) && Closed(g') && IsPruned(g, g')
    ensures forall id :: id in g'.defs ==>
              id in Result(g, sem) && id in Result(g', sem) && Result(g', sem)[id] == Result(g, sem)[id]
  {
    hide Result;
    PrunedIsOrdered(g, g');
    ResultIsConsistent(g, sem);
    ResultIsUnique(g', sem, Result(g, sem));
  }

  lemma PrunedKeepsArgs(g: Graph, g': Graph, sem: Semantics, x: nat)
    requires Closed(g) && Ordered(g) && Closed(g') && IsPruned(g, g') && x in g.defs
    requires x in g'.defs || IsImpure(g.defs[x].op)
    ensures x in g'.defs && g'.defs[x] == g.defs[x]
    ensures ArgValues(Result(g', sem), g'.defs[x].args) == ArgValues(Result(g, sem), g.defs[x].args)
  {
    hide Result;
    PrunedKeepsValues(g, g', sem);
    ArgsAreInGraph(g', x, Result(g', sem), Result(g, sem));
  }

  lemma ConsistentArgs(g: Graph, sem: Semantics, val: map<nat, Value>, x: nat)
    requires Closed(g) && Ordered(g) && Consistent(g, sem, val) && x in g.defs
    ensures ArgValues(Result(g, sem), g.defs[x].args) == ArgValues(val, g.defs[x].args)
  {
    hide Result;
    ResultIsUnique(g, sem, val);
    ArgsAreInGraph(g, x, Result(g, sem), val);
  }

  /** Delete the node at position i of the list. */
  function Erase(g: Graph, i: nat): Graph
    requires i < |g.order|
  {
    Graph(g.order[..i] + g.order[i + 1..], g.defs - {g.order[i]})
  }

  ghost predicate NoRepeats(order: seq<nat>) {
    forall i, j :: 0 <= i < j < |order| ==> order[i] != order[j]
  }

  lemma DropOne(order: seq<nat>, i: nat)
    requires NoRepeats(order) && i < |order|
    ensures var order' := order[..i] + order[i + 1..];
            && NoRepeats(order')
            && (forall x :: x in order' <==> x in order && x != order[i])
            && (forall a, b :: a != order[i] && b != order[i] && Before(order, a, b) ==> Before(order', a, b))
  {
    var order' := order[..i] + order[i + 1..];
    forall k | 0 <= k < |order'|
      ensures order'[k] == order[if k < i then k else k + 1]
    {
    }
    forall x
      ensures x in order' <==> x in order && x != order[i]
    {
      if x in order && x != order[i] {
        var k :| 0 <= k < |order| && order[k] == x;
        assert order'[if k < i then k else k - 1] == x;
      }
    }
    forall a, b | a != order[i] && b != order[i] && Before(order, a, b)
      ensures Before(order', a, b)
    {
      var k, l :| 0 <= k < l < |order| && order[k] == a && order[l] == b;
      assert order'[if k < i then k else k - 1] == a && order'[if l < i then l else l - 1] == b;
    }
  }

  lemma EraseUnused(g: Graph, i: nat)
    requires Closed(g) && i < |g.order| && Users(g, g.order[i]) == {} && g.order[i] in g.defs
    requires !IsImpure(g.defs[g.order[i]].op)
    ensures Closed(Erase(g, i)) && IsPruned(g, Erase(g, i))
  {
    hide Before;
    DropOne(g.order, i);
    forall id, x | id in Erase(g, i).defs && Uses(g.defs[id], x)
      ensures x in Erase(g, i).defs
    {
      assert id !in Users(g, g.order[i]);
    }
  }

  lemma PrunedTwice(a: Graph, b: Graph, c: Graph)
    requires IsPruned(a, b) && IsPruned(b, c)
    ensures IsPruned(a, c)
  {
  }

  /** From position i on, every node is used or has an effect. */
  ghost predicate CleanFrom(g: Graph, i: nat) {
    forall k :: i <= k < |g.order| && g.order[k] in g.defs && !IsImpure(g.defs[g.order[k]].op) ==>
      Users(g, g.order[k]) != {}
  }

  /** Deleting an unused node keeps later nodes clean: it used none of them. */
  lemma EraseKeepsClean(g: Graph, i: nat)
    requires Closed(g) && Ordered(g) && i < |g.order| && CleanFrom(g, i + 1)
    ensures CleanFrom(Erase(g, i), i)
  {
    var g' := Erase(g, i);
    forall k | i <= k < |g'.order| && g'.order[k] in g'.defs && !IsImpure(g'.defs[g'.order[k]].op)
      ensures Users(g', g'.order[k]) != {}
    {
      assert g'.order[k] == g.order[k + 1] && g.order[i] in g.order;
      var u :| u in Users(g, g.order[k + 1]);
      assert Before(g.order, g.order[k + 1], u);
      assert u in Users(g', g'.order[k]);
    }
  }

  lemma CleanIsDone(g: Graph)
    requires Closed(g) && CleanFrom(g, 0)
    ensures NoDeadCode(g)
  {
    forall id | id in g.defs && !IsImpure(g.defs[id].op)
      ensures Users(g, id) != {}
    {
      assert id in g.order;
    }
  }

  lemma PrunedItself(g: Graph)
    ensures IsPruned(g, g) && CleanFrom(g, |g.order|)
  {
  }

  /** Dead code elimination: nodes are visited from the last to the first and deleted
      when nothing uses them. */
  method EliminateDeadCode(g: Graph) returns (g': Graph)
    requires Closed(g) && Ordered(g)
    ensures Closed(g') && Ordered(g') && IsPruned(g, g') && NoDeadCode(g')
    ensures forall x :: x in g.defs && (g.defs[x].op.Placeholder? || g.defs[x].op.Output?) ==> x in g'.defs
    ensures forall x :: x in g'.defs && !g'.defs[x].op.Placeholder? && !g'.defs[x].op.Output? ==>
              exists u :: u in g'.defs && NodeArg(x) in g'.defs[u].args
  {
    hide *;
    g' := g;
    PrunedItself(g);
    for i := |g.order| downto 0
      invariant i <= |g'.order| && g'.order[..i] == g.order[..i]
      invariant Closed(g') && Ordered(g') && IsPruned(g, g') && CleanFrom(g', i)
    {
      NodeAt(g', i);
      g' := EraseIfDead(g', i, g);
      assert g.order[..i] == g.order[..i + 1][..i];
    }
    CleanIsDone(g');
    EffectsStay(g, g');
  }

  lemma EffectsStay(g: Graph, g': Graph)
    requires IsPruned(g, g') && NoDeadCode(g')
    ensures forall x :: x in g.defs && (g.defs[x].op.Placeholder? || g.defs[x].op.Output?) ==> x in g'.defs
    ensures forall x :: x in g'.defs && !g'.defs[x].op.Placeholder? && !g'.defs[x].op.Output? ==>
              exists u :: u in g'.defs && NodeArg(x) in g'.defs[u].args
  {
    hide Before;
    forall x | x in g'.defs && !g'.defs[x].op.Placeholder? && !g'.defs[x].op.Output?
      ensures exists u :: u in g'.defs && NodeArg(x) in g'.defs[u].args
    {
      var u :| u in Users(g', x);
    }
  }

  method EraseIfDead(g: Graph, i: nat, ghost g0: Graph) returns (g': Graph)
    requires Closed(g) && Ordered(g) && IsPruned(g0, g) && i < |g.order| && g.order[i] in g.defs && CleanFrom(g, i + 1)
    ensures Closed(g') && Ordered(g') && IsPruned(g0, g') && CleanFrom(g', i)
    ensures i <= |g'.order| && g'.order[..i] == g.order[..i]
  {
    hide Closed, Ordered, IsPruned;
    var id := g.order[i];
    var op := g.defs[id].op;
    if !op.Placeholder? && !op.Output? && Users(g, id) == {} {
      g' := Erase(g, i);
      EraseUnused(g, i);
      PrunedTwice(g0, g, g');
      PrunedIsOrdered(g, g');
      EraseKeepsClean(g, i);
    } else {
      g' := g;
    }
  }

  /** Every pure node of s has a user in s. */
  ghost predicate KeptAlive(g: Graph, s: set<nat>) {
    forall x :: x in s ==> x in g.defs && (IsImpure(g.defs[x].op) || exists u :: u in s && u in Users(g, x))
  }

  /** Dead code elimination keeps what the effects depend on. */
  lemma {:induction false} LiveIsKept(g: Graph, g': Graph, s: set<nat>, x: nat)
    requires Closed(g) && Ordered(g) && Closed(g') && IsPruned(g, g') && KeptAlive(g, s) && x in s
    ensures x in g'.defs && g'.defs[x] == g.defs[x]
    decreases |g.order| - Pos(g.order, x)
  {
    hide Before;
    if !IsImpure(g.defs[x].op) {
      var u :| u in s && u in Users(g, x);
      UniqueOrder(g);
      AllHavePositions(g);
      BeforeIsPos(g.order, x, u);
      LiveIsKept(g, g', s, u);
    }
  }

  lemma UniqueOrder(g: Graph)
    requires Closed(g)
    ensures NoRepeats(g.order)
  {
  }

  lemma AllHavePositions(g: Graph)
    requires Closed(g)
    ensures forall x :: x in g.defs ==> Pos(g.order, x) < |g.order|
  {
  }

  /** With one unused node in the graph, that node is all that goes. */
  lemma OnlyUnusedGoes(g: Graph, g': Graph, n: nat)
    requires Closed(g) && Ordered(g) && Closed(g') && IsPruned(g, g') && NoDeadCode(g')
    requires n in g.defs && !IsImpure(g.defs[n].op) && Users(g, n) == {} && KeptAlive(g, g.defs.Keys - {n})
    ensures g'.defs.Keys == g.defs.Keys - {n}
  {
    hide Closed, Ordered, KeptAlive, Before;
    forall x | x in g.defs.Keys - {n}
      ensures x in g'.defs
    {
      LiveIsKept(g, g', g.defs.Keys - {n}, x);
    }
    assert forall u :: u in Users(g', n) ==> u in Users(g, n);
  }

  /** The check that the list is topologically ordered, made before dead code is removed. */
  method Lint(g: Graph) returns (ok: bool)
    requires Closed(g)
    ensures ok <==> Ordered(g)
  {
    for i := 0 to |g.order|
      invariant forall k, x :: 0 <= k < i && Uses(g.defs[g.order[k]], x) ==> x in g.order[..k]
    {
      NodeAt(g, i);
      var args := g.defs[g.order[i]].args;
      for k := 0 to |args|
        invariant forall a :: a in args[..k] && a.NodeArg? ==> a.id in g.order[..i]
      {
        assert args[..k + 1] == args[..k] + [args[k]];
        if args[k].NodeArg? && args[k].id !in g.order[..i] {
          BeforeIsPrefix(g, i, args[k].id);
          assert Uses(g.defs[g.order[i]], args[k].id);
          return false;
        }
      }
      assert args[..|args|] == args;
    }
    forall id, x | id in g.defs && Uses(g.defs[id], x)
      ensures Before(g.order, x, id)
    {
      assert id in g.order;
      var k :| 0 <= k < |g.order| && g.order[k] == id;
      assert x in g.order[..k];
      var j :| 0 <= j < k && g.order[..k][j] == x;
    }
    return true;
  }

  lemma BeforeIsPrefix(g: Graph, i: nat, x: nat)
    requires Closed(g) && i < |g.order|
    ensures Before(g.order, x, g.order[i]) <==> x in g.order[..i]
  {
    if k, j :| 0 <= k < j < |g.order| && g.order[k] == x && g.order[j] == g.order[i] {
      assert g.order[..i][k] == x;
    }
    if x in g.order[..i] {
      var k :| 0 <= k < i && g.order[..i][k] == x;
    }
  }
}
