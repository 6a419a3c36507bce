/** `merge_view_copy_chains`: a chain of views, each the only user of the one before, is
    replaced by its first node taking the shape of its last. */
module FuseViewCopy {
  import opened Wrappers
  import opened FxGraph

  ghost predicate IsView(g: Graph, x: nat) {
    x in g.defs && g.defs[x].op == ViewCopy
  }

  /** The shape arguments of a view; they may name nodes when shapes are symbolic. */
  function Shape(g: Graph, x: nat): seq<Arg>
    requires x in g.defs && |g.defs[x].args| > 0
  {
    g.defs[x].args[1..]
  }

  /** A graph this pass meets: views have an input node, no view is used as a shape, and
      every argument other than a shape is defined earlier in the list. */
  ghost predicate Wf(g: Graph) {
    && Closed(g)
    && (forall x :: IsView(g, x) ==> |g.defs[x].args| > 0 && g.defs[x].args[0].NodeArg?)
    && (forall x, a :: IsView(g, x) && a in Shape(g, x) && a.NodeArg? ==> !IsView(g, a.id))
    && (forall x, k :: ReadsEarly(g, x, k) ==> Before(g.order, g.defs[x].args[k].id, x))
  }

  /** Argument k of node x is a node, and not a part of a shape. */
  ghost predicate ReadsEarly(g: Graph, x: nat, k: int) {
    && x in g.defs && 0 <= k < |g.defs[x].args| && g.defs[x].args[k].NodeArg?
    && (k == 0 || !IsView(g, x))
  }

  /** An ordered graph meets the last requirement for all arguments. */
  ghost predicate WellTyped(g: Graph) {
    && (forall x :: IsView(g, x) ==> |g.defs[x].args| > 0 && g.defs[x].args[0].NodeArg?)
    && (forall x, a :: IsView(g, x) && a in Shape(g, x) && a.NodeArg? ==> !IsView(g, a.id))
  }

  lemma OrderedIsWf(g: Graph)
    requires Closed(g) && Ordered(g) && WellTyped(g)
    ensures Wf(g)
  {
    forall x, k | x in g.defs && 0 <= k < |g.defs[x].args| && g.defs[x].args[k].NodeArg?
      ensures Before(g.order, g.defs[x].args[k].id, x)
    {
      assert g.defs[x].args[k] in g.defs[x].args;
      assert Uses(g.defs[x], g.defs[x].args[k].id);
    }
  }

  /** View u is the only user of view x. */
  ghost predicate Link(g: Graph, x: nat, u: nat) {
    IsView(g, x) && IsView(g, u) && Users(g, x) == {u}
  }

  lemma HeadOrShape(g: Graph, x: nat, a: Arg)
    requires x in g.defs && |g.defs[x].args| > 0
    ensures a in g.defs[x].args <==> a == g.defs[x].args[0] || a in Shape(g, x)
  {
    assert g.defs[x].args == [g.defs[x].args[0]] + Shape(g, x);
  }

  /** A view using another one takes it as its input, so it comes later. */
  lemma LinkGoesForward(g: Graph, x: nat, u: nat)
    requires Wf(g) && Link(g, x, u)
    ensures g.defs[u].args[0] == NodeArg(x)
    ensures x in g.order && u in g.order && Pos(g.order, x) < Pos(g.order, u) < |g.order|
  {
    hide Before;
    assert u in Users(g, x);
    HeadOrShape(g, u, NodeArg(x));
    assert ReadsEarly(g, u, 0);
    BeforeIsPos(g.order, x, u);
  }

  /** The last view of the chain starting at x. */
  ghost function EndOf(g: Graph, x: nat): (e: nat)
    requires Wf(g)
    ensures x in g.defs ==> e in g.defs
    decreases |g.order| - Pos(g.order, x)
  {
    if u :| Link(g, x, u) then
      LinkGoesForward(g, x, u);
      EndOf(g, u)
    else x
  }

  lemma EndStep(g: Graph, x: nat, u: nat)
    requires Wf(g) && Link(g, x, u)
    ensures EndOf(g, x) == EndOf(g, u)
  {
    LinkGoesForward(g, x, u);
    assert forall v :: Link(g, x, v) ==> v in Users(g, x);
  }

  lemma {:induction false} EndIsLast(g: Graph, x: nat)
    requires Wf(g) && IsView(g, x)
    ensures IsView(g, EndOf(g, x)) && (forall u :: !Link(g, EndOf(g, x), u))
    ensures EndOf(g, x) == x || Pos(g.order, x) < Pos(g.order, EndOf(g, x))
    decreases |g.order| - Pos(g.order, x)
  {
    if u :| Link(g, x, u) {
      LinkGoesForward(g, x, u);
      EndStep(g, x, u);
      EndIsLast(g, u);
    }
  }

  /** Views do not touch data: the whole chain carries the data of its first node. */
  lemma {:induction false} ChainKeepsData(g: Graph, sem: Semantics, val: map<nat, Value>, x: nat)
    requires Wf(g) && Consistent(g, sem, val) && IsView(g, x)
    ensures DataOf(Lookup(val, x)) == DataOf(Lookup(val, EndOf(g, x)))
    decreases |g.order| - Pos(g.order, x)
  {
    if u :| Link(g, x, u) {
      LinkGoesForward(g, x, u);
      EndStep(g, x, u);
      ChainKeepsData(g, sem, val, u);
    }
  }

  /** Node h takes the shape of e, and every use of e becomes a use of h. */
  function Merge(g: Graph, h: nat, e: nat): (g': Graph)
    requires h in g.defs && e in g.defs && |g.defs[h].args| > 0 && |g.defs[e].args| > 0
    ensures g'.order == g.order && g'.defs.Keys == g.defs.Keys
  {
    var defs := g.defs[h := Node(g.defs[h].op, [g.defs[h].args[0]] + g.defs[e].args[1..])];
    Graph(g.order, map x | x in defs :: Node(defs[x].op, RenameAll(defs[x].args, e, h)))
  }

  /** What the walk from h to e establishes. */
  ghost predicate Mergeable(g: Graph, h: nat, e: nat) {
    Wf(g) && IsView(g, h) && e == EndOf(g, h) && e != h
  }

  /** The facts about a chain that the rewriting needs. */
  lemma ChainFacts(g: Graph, h: nat, e: nat)
    requires Mergeable(g, h, e)
    ensures IsView(g, e) && Before(g.order, h, e) && (forall u :: !Link(g, e, u))
    ensures exists u :: Link(g, h, u)
    ensures g.defs[h].args[0].id !in {h, e}
    ensures forall a :: a in Shape(g, e) ==> a != NodeArg(h) && a != NodeArg(e)
  {
    EndIsLast(g, h);
    assert h in g.order && e in g.order;
    BeforeIsPos(g.order, h, e);
    assert ReadsEarly(g, h, 0);
    BeforeIsPos(g.order, g.defs[h].args[0].id, h);
  }

  lemma MergedDefs(g: Graph, h: nat, e: nat)
    requires Mergeable(g, h, e)
    ensures IsView(g, e)
    ensures var g' := Merge(g, h, e);
            && g'.defs[h] == Node(ViewCopy, [g.defs[h].args[0]] + Shape(g, e))
            && forall x :: x in g.defs && x != h ==>
                 g'.defs[x] == Node(g.defs[x].op, RenameAll(g.defs[x].args, e, h))
  {
    ChainFacts(g, h, e);
    var args := [g.defs[h].args[0]] + Shape(g, e);
    forall k | 0 <= k < |args|
      ensures Rename(args[k], e, h) == args[k]
    {
      assert k > 0 ==> args[k] == Shape(g, e)[k - 1];
    }
    assert RenameAll(args, e, h) == args;
  }

  /** Who uses node x after the merge: uses of e have gone to h, and h has taken over the
      shape arguments of e. */
  lemma MergedUses(g: Graph, h: nat, e: nat, u: nat, x: nat)
    requires Mergeable(g, h, e) && u in g.defs
    ensures IsView(g, e)
    ensures u != h ==> (Uses(Merge(g, h, e).defs[u], x) <==>
                          (x != e && Uses(g.defs[u], x)) || (x == h && Uses(g.defs[u], e)))
    ensures Uses(Merge(g, h, e).defs[h], x) <==> NodeArg(x) == g.defs[h].args[0] || NodeArg(x) in Shape(g, e)
  {
    hide Merge, EndOf;
    MergedDefs(g, h, e);
    RenamedUse(g.defs[u].args, e, h, x);
    var args := [g.defs[h].args[0]] + Shape(g, e);
    assert NodeArg(x) in args <==> NodeArg(x) == g.defs[h].args[0] || NodeArg(x) in Shape(g, e);
  }

  lemma MergeIsClosed(g: Graph, h: nat, e: nat)
    requires Mergeable(g, h, e)
    ensures IsView(g, e) && Closed(Merge(g, h, e))
  {
    hide EndOf, Merge;
    ChainFacts(g, h, e);
    var g' := Merge(g, h, e);
    forall u, x | u in g'.defs && Uses(g'.defs[u], x)
      ensures x in g'.defs
    {
      MergedUses(g, h, e, u, x);
      HeadOrShape(g, e, NodeArg(x));
      HeadOrShape(g, h, NodeArg(x));
      assert u != h ==> Uses(g.defs[u], x) || x == h;
      assert u == h ==> Uses(g.defs[h], x) || Uses(g.defs[e], x);
    }
  }

  /** Shapes still name no views. */
  lemma MergedShapes(g: Graph, h: nat, e: nat, x: nat, a: Arg)
    requires Mergeable(g, h, e) && IsView(g, x)
    ensures IsView(g, e) && x in Merge(g, h, e).defs && |Merge(g, h, e).defs[x].args| > 0
    ensures Merge(g, h, e).defs[x].args[0].NodeArg?
    ensures a in Shape(Merge(g, h, e), x) && a.NodeArg? ==> !IsView(g, a.id)
  {
    hide EndOf, Merge, Before, Closed, Uses;
    ChainFacts(g, h, e);
    MergedDefs(g, h, e);
    var g' := Merge(g, h, e);
    if a in Shape(g', x) && a.NodeArg? && x != h {
      var k :| 0 <= k < |Shape(g', x)| && Shape(g', x)[k] == a;
      assert Shape(g', x)[k] == g'.defs[x].args[k + 1] == Rename(g.defs[x].args[k + 1], e, h);
      assert Shape(g, x)[k] == g.defs[x].args[k + 1] && Shape(g, x)[k] in Shape(g, x);
    } else if x == h {
      assert Shape(g', h) == Shape(g, e);
    }
  }

  /** Inputs still come first. */
  lemma MergedReads(g: Graph, h: nat, e: nat, x: nat, k: int)
    requires Mergeable(g, h, e) && IsView(g, e) && ReadsEarly(Merge(g, h, e), x, k)
    ensures Before(g.order, Merge(g, h, e).defs[x].args[k].id, x)
  {
    hide EndOf, Merge, Before, Closed, Uses;
    ChainFacts(g, h, e);
    MergedDefs(g, h, e);
    if x == h {
      assert ReadsEarly(g, h, 0);
    } else {
      assert ReadsEarly(g, x, k);
      if g.defs[x].args[k] == NodeArg(e) {
        UniqueOrder(g);
        BeforeTransitive(g.order, h, e, x);
      }
    }
  }

  lemma MergeIsWf(g: Graph, h: nat, e: nat)
    requires Mergeable(g, h, e)
    ensures IsView(g, e) && Wf(Merge(g, h, e))
  {
    hide EndOf, Merge, Before, Closed, Uses, Mergeable;
    MergeIsDefined(g, h, e);
    MergedOps(g, h, e);
    MergeIsClosed(g, h, e);
    var g' := Merge(g, h, e);
    forall x | IsView(g', x)
      ensures |g'.defs[x].args| > 0 && g'.defs[x].args[0].NodeArg?
    {
      MergedShapes(g, h, e, x, Lit(0));
    }
    forall x, a | IsView(g', x) && a in Shape(g', x) && a.NodeArg?
      ensures !IsView(g', a.id)
    {
      MergedShapes(g, h, e, x, a);
    }
    forall x, k | ReadsEarly(g', x, k)
      ensures Before(g'.order, g'.defs[x].args[k].id, x)
    {
      MergedReads(g, h, e, x, k);
    }
  }

  /** Links from other views stay as they were. */
  lemma MergeKeepsLinks(g: Graph, h: nat, e: nat, x: nat, u: nat)
    requires Mergeable(g, h, e) && x != h
    ensures IsView(g, e)
    ensures Link(Merge(g, h, e), x, u) <==> Link(g, x, u)
  {
    hide EndOf, Merge, Uses;
    ChainFacts(g, h, e);
    MergedDefs(g, h, e);
    var g' := Merge(g, h, e);
    assert forall y :: IsView(g', y) <==> IsView(g, y);
    if IsView(g, x) {
      forall v | v in g.defs
        ensures v in Users(g', x) <==> x != e && v in Users(g, x)
      {
        MergedUses(g, h, e, v, x);
        HeadOrShape(g, h, NodeArg(x));
        UsesIsMember(g, h, x);
      }
      if x == e {
        assert Users(g', e) == {};
        assert !Link(g, e, u);
      } else {
        assert Users(g', x) == Users(g, x);
      }
    }
  }

  lemma UsesIsMember(g: Graph, x: nat, y: nat)
    requires x in g.defs
    ensures Uses(g.defs[x], y) <==> NodeArg(y) in g.defs[x].args
  {
  }

  /** The valuation of the merged graph: the first node now has the value of the last. */
  function Moved(val: map<nat, Value>, h: nat, e: nat): map<nat, Value> {
    val[h := Lookup(val, e)]
  }

  /** Arguments of every other node: same values, except that the next view of the chain
      sees other dimensions of the same data in its first argument. */
  lemma MergedArgValues(g: Graph, h: nat, e: nat, sem: Semantics, val: map<nat, Value>, x: nat)
    requires Mergeable(g, h, e) && Consistent(g, sem, val) && x in g.defs && x != h
    ensures IsView(g, e)
    ensures var vs, vs' := ArgValues(val, g.defs[x].args), ArgValues(Moved(val, h, e), Merge(g, h, e).defs[x].args);
            && |vs| == |vs'|
            && (forall k :: 0 < k < |vs| ==> vs[k] == vs'[k])
            && (|vs| > 0 ==> if IsView(g, x) then DataOf(vs[0]) == DataOf(vs'[0]) else vs[0] == vs'[0])
  {
    hide EndOf, Merge, Before, Closed, Consistent, EvalNode;
    ChainFacts(g, h, e);
    MergedDefs(g, h, e);
    ChainKeepsData(g, sem, val, h);
    var args := g.defs[x].args;
    forall k | 0 <= k < |args|
      ensures var v, v' := ArgValue(val, args[k]), ArgValue(Moved(val, h, e), Rename(args[k], e, h));
              v == v' || (k == 0 && IsView(g, x) && DataOf(v) == DataOf(v'))
    {
      if args[k] == NodeArg(h) {
        OnlyTheNextViewUses(g, h, x, k);
      }
    }
  }

  lemma OnlyTheNextViewUses(g: Graph, h: nat, x: nat, k: nat)
    requires Wf(g) && (exists u :: Link(g, h, u)) && x in g.defs
    requires k < |g.defs[x].args| && g.defs[x].args[k] == NodeArg(h)
    ensures IsView(g, x) && k == 0
  {
    var u :| Link(g, h, u);
    assert g.defs[x].args[k] in g.defs[x].args;
    assert x in Users(g, h);
    if k > 0 {
      InShape(g, x, k);
    }
  }

  lemma InShape(g: Graph, x: nat, k: nat)
    requires x in g.defs && 0 < k < |g.defs[x].args|
    ensures g.defs[x].args[k] in Shape(g, x)
  {
    assert Shape(g, x)[k - 1] == g.defs[x].args[k];
  }

  /** Merging keeps the meaning: moving the value of the last view to the first makes
      every node of the new graph consistent again. */
  lemma MergeIsConsistent(g: Graph, h: nat, e: nat, sem: Semantics, val: map<nat, Value>)
    requires Mergeable(g, h, e) && Consistent(g, sem, val)
    ensures IsView(g, e) && Consistent(Merge(g, h, e), sem, Moved(val, h, e))
  {
    hide EndOf, Merge, Before, Closed, Uses;
    ChainFacts(g, h, e);
    MergedDefs(g, h, e);
    var g', val' := Merge(g, h, e), Moved(val, h, e);
    forall x | x in g.defs
      ensures val'[x] == EvalNode(sem, val', g'.defs[x])
    {
      if x == h {
        ChainKeepsData(g, sem, val, h);
        ShapeValuesAgree(g, h, e, val);
      } else {
        MergedArgValues(g, h, e, sem, val, x);
        var vs, vs' := ArgValues(val, g.defs[x].args), ArgValues(val', g'.defs[x].args);
        if IsView(g, x) {
          assert vs[1..] == vs'[1..];
        } else {
          assert vs == vs';
        }
      }
    }
  }

  lemma MovedElsewhere(val: map<nat, Value>, h: nat, e: nat, a: Arg)
    requires a != NodeArg(h)
    ensures ArgValue(Moved(val, h, e), a) == ArgValue(val, a)
  {
  }

  lemma ShapeValuesAgree(g: Graph, h: nat, e: nat, val: map<nat, Value>)
    requires Mergeable(g, h, e)
    ensures IsView(g, e)
    ensures ArgValues(Moved(val, h, e), [g.defs[h].args[0]] + Shape(g, e))[1..] == ArgValues(val, g.defs[e].args)[1..]
    ensures ArgValues(Moved(val, h, e), [g.defs[h].args[0]] + Shape(g, e))[0] == ArgValue(val, g.defs[h].args[0])
  {
    hide EndOf, Before, Closed, Uses, Moved;
    ChainFacts(g, h, e);
    var args := [g.defs[h].args[0]] + Shape(g, e);
    var a, b := ArgValues(Moved(val, h, e), args), ArgValues(val, g.defs[e].args);
    forall k | 1 <= k < |b|
      ensures a[k] == b[k]
    {
      assert args[k] == g.defs[e].args[k] && args[k] == Shape(g, e)[k - 1];
      MovedElsewhere(val, h, e, args[k]);
    }
    MovedElsewhere(val, h, e, args[0]);
  }

  /** The walk along the chain: it ends because every step goes forward in the list. */
  method FindEnd(g: Graph, node: nat) returns (e: nat)
    requires Wf(g) && IsView(g, node)
    ensures e == EndOf(g, node)
  {
    hide Wf;
    e := node;
    while true
      invariant IsView(g, e) && EndOf(g, e) == EndOf(g, node)
      decreases |g.order| - Pos(g.order, e)
    {
      var users := Users(g, e);
      if |users| != 1 {
        assert forall u :: Link(g, e, u) ==> |{u}| == 1;
        return;
      }
      var u :| u in users;
      OnlyMember(users, u);
      if g.defs[u].op != ViewCopy {
        return;
      }
      EndStep(g, e, u);
      LinkGoesForward(g, e, u);
      e := u;
    }
  }

  lemma OnlyMember(s: set<nat>, u: nat)
    requires |s| == 1 && u in s
    ensures s == {u}
  {
    assert |s - {u}| == 0;
  }

  /** The node of the original graph whose value node x has after the first i nodes of
      the list were visited. */
  ghost function Rep(g0: Graph, i: nat, x: nat): nat
    requires Wf(g0)
  {
    if IsView(g0, x) && Pos(g0.order, x) < i then EndOf(g0, x) else x
  }

  ghost function Renamed(g0: Graph, i: nat, val: map<nat, Value>): map<nat, Value>
    requires Wf(g0)
  {
    map x | x in g0.defs :: Lookup(val, Rep(g0, i, x))
  }

  /** The structure after i nodes were visited: same nodes, links ahead untouched, shapes
      behind replaced by those of the chain ends. */
  ghost predicate Structure(g0: Graph, g: Graph, i: nat) {
    && Wf(g0) && Wf(g) && g.order == g0.order && g.defs.Keys == g0.defs.Keys
    && (forall x :: x in g0.defs ==> g.defs[x].op == g0.defs[x].op)
    && (forall x, u :: IsView(g0, x) && Pos(g0.order, x) >= i ==> (Link(g, x, u) <==> Link(g0, x, u)))
    && (forall x :: IsView(g0, x) ==> IsView(g0, Rep(g0, i, x)) && Shape(g, x) == Shape(g0, Rep(g0, i, x)))
  }

  /** Nodes that are not views still see the argument values `val` of the original graph. */
  ghost predicate ArgsKept(g0: Graph, g: Graph, i: nat, val: map<nat, Value>)
    requires Wf(g0)
  {
    forall x :: x in g0.defs && x in g.defs && !IsView(g0, x) ==>
      ArgValues(Renamed(g0, i, val), g.defs[x].args) == ArgValues(val, g0.defs[x].args)
  }

  /** The meaning after i nodes were visited. */
  ghost predicate Meaning(g0: Graph, g: Graph, i: nat, sem: Semantics, val: map<nat, Value>)
    requires Wf(g0)
  {
    Consistent(g, sem, Renamed(g0, i, val)) && ArgsKept(g0, g, i, val)
  }

  lemma {:induction false} EndsAgree(g0: Graph, g: Graph, i: nat, x: nat)
    requires Structure(g0, g, i) && IsView(g0, x) && Pos(g0.order, x) >= i
    ensures EndOf(g, x) == EndOf(g0, x)
    decreases |g0.order| - Pos(g0.order, x)
  {
    hide Wf;
    if u :| Link(g0, x, u) {
      assert Link(g, x, u);
      LinkGoesForward(g0, x, u);
      EndStep(g0, x, u);
      EndStep(g, x, u);
      EndsAgree(g0, g, i, u);
    }
  }

  /** One visit, on the structure. */
  lemma VisitStructure(g0: Graph, g: Graph, i: nat)
    requires Structure(g0, g, i) && i < |g0.order|
    ensures var h := g0.order[i];
            if IsView(g0, h) && EndOf(g, h) != h then
              Mergeable(g, h, EndOf(g, h)) && IsView(g, EndOf(g, h)) && Structure(g0, Merge(g, h, EndOf(g, h)), i + 1)
            else Structure(g0, g, i + 1)
  {
    hide Closed, Before, EndOf, Merge, Link, Users;
    var h := g0.order[i];
    OnlyOneAt(g0, i);
    if IsView(g0, h) {
      EndsAgree(g0, g, i, h);
      EndIsLast(g0, h);
      var e := EndOf(g0, h);
      if e != h {
        VisitMerge(g0, g, i, h, e);
      } else {
        VisitNothing(g0, g, i);
      }
    } else {
      VisitNothing(g0, g, i);
    }
  }

  lemma OnlyOneAt(g: Graph, i: nat)
    requires Closed(g) && i < |g.order|
    ensures Pos(g.order, g.order[i]) == i
    ensures forall x :: x in g.defs && x != g.order[i] ==> Pos(g.order, x) != i
  {
    PosOfIndex(g.order, i);
    forall x | x in g.defs && x != g.order[i]
      ensures Pos(g.order, x) != i
    {
      assert x in g.order;
    }
  }

  lemma VisitNothing(g0: Graph, g: Graph, i: nat)
    requires Structure(g0, g, i) && i < |g0.order|
    requires IsView(g0, g0.order[i]) ==> EndOf(g0, g0.order[i]) == g0.order[i]
    ensures Structure(g0, g, i + 1)
    ensures forall x :: x in g0.defs ==> Rep(g0, i + 1, x) == Rep(g0, i, x)
  {
    hide EndOf, Link, Before, Closed, Pos, ReadsEarly;
    OnlyOneAt(g0, i);
    forall x | x in g0.defs
      ensures Rep(g0, i + 1, x) == Rep(g0, i, x)
    {
    }
  }

  lemma VisitMerge(g0: Graph, g: Graph, i: nat, h: nat, e: nat)
    requires Structure(g0, g, i) && i < |g0.order| && h == g0.order[i] && Pos(g0.order, h) == i
    requires Mergeable(g, h, e) && e == EndOf(g0, h) && IsView(g0, e) && Pos(g0.order, e) > i
    requires forall x :: x in g0.defs && x != h ==> Pos(g0.order, x) != i
    ensures IsView(g, e) && Structure(g0, Merge(g, h, e), i + 1)
  {
    hide *;
    StructureIsWf(g0, g, i);
    MergeIsWf(g, h, e);
    MergeIsDefined(g, h, e);
    VisitMergeLinks(g0, g, i, h, e);
    forall x | IsView(g0, x)
      ensures IsView(g0, Rep(g0, i + 1, x)) && HasShape(Merge(g, h, e), x, g0, Rep(g0, i + 1, x))
    {
      ViewIsInGraph(g0, x);
      VisitMergeShape(g0, g, i, h, e, x);
    }
    IsStructure(g0, Merge(g, h, e), i + 1);
  }

  lemma MergeIsDefined(g: Graph, h: nat, e: nat)
    requires Mergeable(g, h, e)
    ensures h in g.defs && e in g.defs && |g.defs[h].args| > 0 && |g.defs[e].args| > 0
  {
    ChainFacts(g, h, e);
  }

  lemma ViewIsInGraph(g: Graph, x: nat)
    requires IsView(g, x)
    ensures x in g.defs
  {
  }

  lemma IsStructure(g0: Graph, g: Graph, i: nat)
    requires Wf(g0) && Wf(g) && g.order == g0.order && g.defs.Keys == g0.defs.Keys
    requires forall x :: x in g0.defs ==> g.defs[x].op == g0.defs[x].op
    requires forall x, u :: IsView(g0, x) && Pos(g0.order, x) >= i ==> (Link(g, x, u) <==> Link(g0, x, u))
    requires forall x :: IsView(g0, x) ==>
               IsView(g0, Rep(g0, i, x)) && HasShape(g, x, g0, Rep(g0, i, x))
    ensures Structure(g0, g, i)
  {
    hide Wf, Link, Pos, Rep, Shape;
  }

  lemma VisitMergeLinks(g0: Graph, g: Graph, i: nat, h: nat, e: nat)
    requires Structure(g0, g, i) && Mergeable(g, h, e) && Pos(g0.order, h) == i
    ensures IsView(g, e) && Merge(g, h, e).order == g0.order && Merge(g, h, e).defs.Keys == g0.defs.Keys
    ensures forall x :: x in g0.defs ==> Merge(g, h, e).defs[x].op == g0.defs[x].op
    ensures forall x, u :: IsView(g0, x) && Pos(g0.order, x) >= i + 1 ==> (Link(Merge(g, h, e), x, u) <==> Link(g0, x, u))
  {
    hide Wf, Merge, Link, Pos, Shape, Rep, IsView, Mergeable;
    MergeIsDefined(g, h, e);
    MergedOps(g, h, e);
    forall x, u | IsView(g0, x) && Pos(g0.order, x) >= i + 1
      ensures Link(Merge(g, h, e), x, u) <==> Link(g0, x, u)
    {
      MergeKeepsLinks(g, h, e, x, u);
    }
  }

  /** View x of g has the shape of view y of g0. */
  ghost predicate HasShape(g: Graph, x: nat, g0: Graph, y: nat) {
    && x in g.defs && |g.defs[x].args| > 0 && y in g0.defs && |g0.defs[y].args| > 0
    && Shape(g, x) == Shape(g0, y)
  }

  lemma VisitMergeShape(g0: Graph, g: Graph, i: nat, h: nat, e: nat, x: nat)
    requires Structure(g0, g, i) && i < |g0.order| && Pos(g0.order, h) == i && IsView(g0, x)
    requires Mergeable(g, h, e) && e == EndOf(g0, h) && IsView(g0, e) && Pos(g0.order, e) > i
    requires x != h ==> Pos(g0.order, x) != i
    ensures IsView(g, e) && IsView(g0, Rep(g0, i + 1, x)) && HasShape(Merge(g, h, e), x, g0, Rep(g0, i + 1, x))
  {
    hide Closed, ReadsEarly, EndOf, Merge, Link, Pos, Shape;
    MergedOps(g, h, e);
    if x != h {
      ShapeUntouched(g, h, e, x);
      assert Rep(g0, i + 1, x) == Rep(g0, i, x);
    } else {
      ShapeTakenOver(g, h, e);
      assert Rep(g0, i + 1, h) == e == Rep(g0, i, e);
      assert Shape(g, e) == Shape(g0, Rep(g0, i, e));
    }
  }

  lemma MergedOps(g: Graph, h: nat, e: nat)
    requires Mergeable(g, h, e)
    ensures IsView(g, e)
    ensures var g' := Merge(g, h, e);
            g'.order == g.order && g'.defs.Keys == g.defs.Keys &&
            forall x :: x in g.defs ==> g'.defs[x].op == g.defs[x].op && (|g'.defs[x].args| > 0 <==> |g.defs[x].args| > 0)
  {
    hide Merge, EndOf;
    MergedDefs(g, h, e);
  }

  lemma ShapeTakenOver(g: Graph, h: nat, e: nat)
    requires Mergeable(g, h, e)
    ensures IsView(g, e) && |Merge(g, h, e).defs[h].args| > 0 && Shape(Merge(g, h, e), h) == Shape(g, e)
  {
    hide Merge, EndOf;
    MergedDefs(g, h, e);
  }

  lemma ShapeUntouched(g: Graph, h: nat, e: nat, x: nat)
    requires Mergeable(g, h, e) && IsView(g, x) && x != h
    ensures IsView(g, e) && |Merge(g, h, e).defs[x].args| > 0 && Shape(Merge(g, h, e), x) == Shape(g, x)
  {
    ChainFacts(g, h, e);
    MergedDefs(g, h, e);
    var g' := Merge(g, h, e);
    forall k | 0 <= k < |Shape(g, x)|
      ensures Shape(g', x)[k] == Shape(g, x)[k]
    {
      assert Shape(g, x)[k] in Shape(g, x);
    }
  }

  lemma RenamedStep(g0: Graph, i: nat, e: nat, val: map<nat, Value>)
    requires Wf(g0) && i < |g0.order| && IsView(g0, g0.order[i]) && e == EndOf(g0, g0.order[i]) && e != g0.order[i]
    ensures Moved(Renamed(g0, i, val), g0.order[i], e) == Renamed(g0, i + 1, val)
  {
    hide Before, Link, Users, EndOf, Pos;
    EndIsLast(g0, g0.order[i]);
    OnlyOneAt(g0, i);
  }

  /** What a visit that merges knows. */
  lemma VisitFacts(g0: Graph, g: Graph, i: nat)
    requires Structure(g0, g, i) && i < |g0.order|
    requires IsView(g0, g0.order[i]) && EndOf(g, g0.order[i]) != g0.order[i]
    ensures var h, e := g0.order[i], EndOf(g, g0.order[i]);
            Mergeable(g, h, e) && e == EndOf(g0, h) && e in g0.defs && |g.defs[h].args| > 0 && IsView(g, e) && |g.defs[e].args| > 0
  {
    hide Before, Link, Users, EndOf, Pos;
    EndsAgree(g0, g, i, g0.order[i]);
    OnlyOneAt(g0, i);
    EndIsLast(g0, g0.order[i]);
  }

  /** One visit, on the meaning. */
  lemma VisitMeaning(g0: Graph, g: Graph, i: nat, sem: Semantics, val: map<nat, Value>)
    requires Structure(g0, g, i) && i < |g0.order| && Meaning(g0, g, i, sem, val)
    requires IsView(g0, g0.order[i]) && EndOf(g, g0.order[i]) != g0.order[i]
    ensures var h, e := g0.order[i], EndOf(g, g0.order[i]);
            && Mergeable(g, h, e) && |g.defs[h].args| > 0 && IsView(g, e) && |g.defs[e].args| > 0
            && Meaning(g0, Merge(g, h, e), i + 1, sem, val)
  {
    hide Wf, Before, EndOf, Merge, Link, Users, Consistent, Renamed, Moved, Pos, EvalNode;
    VisitFacts(g0, g, i);
    var h, e := g0.order[i], EndOf(g, g0.order[i]);
    var v, g' := Renamed(g0, i, val), Merge(g, h, e);
    RenamedStep(g0, i, e, val);
    MergeIsConsistent(g, h, e, sem, v);
    forall x | x in g0.defs && x in g'.defs && !IsView(g0, x)
      ensures ArgValues(Renamed(g0, i + 1, val), g'.defs[x].args) == ArgValues(val, g0.defs[x].args)
    {
      MergedArgValues(g, h, e, sem, v, x);
      var vs, vs' := ArgValues(v, g.defs[x].args), ArgValues(Moved(v, h, e), g'.defs[x].args);
      assert vs == vs';
    }
  }

  lemma VisitNoMeaning(g0: Graph, g: Graph, i: nat, sem: Semantics, val: map<nat, Value>)
    requires Structure(g0, g, i) && i < |g0.order| && Meaning(g0, g, i, sem, val)
    requires IsView(g0, g0.order[i]) ==> EndOf(g, g0.order[i]) == g0.order[i]
    ensures Meaning(g0, g, i + 1, sem, val)
  {
    hide Structure, Wf, Consistent;
    VisitNoRenaming(g0, g, i, val);
  }

  lemma VisitNoRenaming(g0: Graph, g: Graph, i: nat, val: map<nat, Value>)
    requires Structure(g0, g, i) && i < |g0.order|
    requires IsView(g0, g0.order[i]) ==> EndOf(g, g0.order[i]) == g0.order[i]
    ensures Renamed(g0, i + 1, val) == Renamed(g0, i, val)
  {
    hide Closed, Before, EndOf, Link, Users, Pos, Structure;
    if IsView(g0, g0.order[i]) {
      IndexIsPos(g0, g, i);
      EndsAgree(g0, g, i, g0.order[i]);
    }
    VisitNothing(g0, g, i);
  }

  lemma IndexIsPos(g0: Graph, g: Graph, i: nat)
    requires Structure(g0, g, i) && i < |g0.order|
    ensures Pos(g0.order, g0.order[i]) == i
  {
    OnlyOneAt(g0, i);
  }

  lemma StartMeaning(g0: Graph, sem: Semantics, val: map<nat, Value>)
    requires Wf(g0) && Consistent(g0, sem, val)
    ensures Structure(g0, g0, 0) && Meaning(g0, g0, 0, sem, val)
  {
    hide Closed, Link, Before, ArgValues, IsView, Renamed, Wf;
    StartStructure(g0);
    WfIsClosed(g0);
    StartNames(g0, val);
    forall x | x in g0.defs
      ensures EvalNode(sem, val, g0.defs[x]) == EvalNode(sem, Renamed(g0, 0, val), g0.defs[x])
      ensures ArgValues(val, g0.defs[x].args) == ArgValues(Renamed(g0, 0, val), g0.defs[x].args)
    {
      ArgsAreInGraph(g0, x, val, Renamed(g0, 0, val));
    }
  }

  lemma StartStructure(g0: Graph)
    requires Wf(g0)
    ensures Structure(g0, g0, 0)
  {
    hide Closed, Link, Before;
  }

  lemma StartNames(g0: Graph, val: map<nat, Value>)
    requires Wf(g0) && forall x :: x in g0.defs ==> x in val
    ensures Renamed(g0, 0, val).Keys == g0.defs.Keys
    ensures forall x :: x in g0.defs ==> Renamed(g0, 0, val)[x] == val[x]
  {
    hide Closed, Link, Before, Wf;
  }

  lemma WfIsClosed(g: Graph)
    requires Wf(g)
    ensures Closed(g)
  {
  }

  /** t continues a chain. */
  ghost predicate IsTail(g: Graph, t: nat) {
    exists x :: Link(g, x, t)
  }

  /** Nobody outside the tails of chains uses x. */
  ghost predicate OnlyTails(g0: Graph, g: Graph, x: nat) {
    forall v :: v in Users(g, x) ==> IsTail(g0, v)
  }

  /** The tails of the chains visited so far are cut off from the rest of the graph. */
  ghost predicate Detached(g0: Graph, g: Graph, i: nat)
    requires Wf(g0)
  {
    forall x :: IsView(g0, x) && Pos(g0.order, x) < i && EndOf(g0, x) != x ==>
      OnlyTails(g0, g, EndOf(g0, x)) && (IsTail(g0, x) ==> OnlyTails(g0, g, x))
  }

  /** The users of a view after a merge. */
  lemma MergedUsers(g: Graph, h: nat, e: nat, x: nat)
    requires Mergeable(g, h, e) && IsView(g, x)
    ensures IsView(g, e)
    ensures x == e ==> Users(Merge(g, h, e), x) == {}
    ensures x != e && x != h ==> Users(Merge(g, h, e), x) == Users(g, x)
    ensures x == h ==> Users(Merge(g, h, e), x) <= Users(g, h) + Users(g, e)
  {
    hide EndOf, Merge, Uses;
    ChainFacts(g, h, e);
    MergedDefs(g, h, e);
    var g' := Merge(g, h, e);
    forall v | v in g.defs
      ensures x != h ==> (v in Users(g', x) <==> x != e && v in Users(g, x))
      ensures x == h && v in Users(g', x) ==> v in Users(g, h) || v in Users(g, e)
    {
      MergedUses(g, h, e, v, x);
      HeadOrShape(g, h, NodeArg(x));
      UsesIsMember(g, h, x);
    }
  }

  lemma TailFacts(g0: Graph, t: nat) returns (y: nat)
    requires Wf(g0) && IsTail(g0, t)
    ensures Link(g0, y, t) && IsView(g0, y) && IsView(g0, t)
    ensures Pos(g0.order, y) < Pos(g0.order, t) && EndOf(g0, y) == EndOf(g0, t) && EndOf(g0, y) != y
  {
    y :| Link(g0, y, t);
    LinkGoesForward(g0, y, t);
    EndStep(g0, y, t);
    EndIsLast(g0, t);
  }

  /** Visiting h cuts off the end of its chain, and h itself if it is a tail. */
  lemma VisitDetaches(g0: Graph, g: Graph, i: nat, h: nat, e: nat, x: nat)
    requires Structure(g0, g, i) && Detached(g0, g, i) && i < |g0.order| && h == g0.order[i] && Pos(g0.order, h) == i
    requires Mergeable(g, h, e) && e == EndOf(g0, h) && IsView(g, e)
    requires forall y :: y in g0.defs && y != h ==> Pos(g0.order, y) != i
    requires IsView(g0, x) && Pos(g0.order, x) < i + 1 && EndOf(g0, x) != x
    ensures OnlyTails(g0, Merge(g, h, e), EndOf(g0, x))
    ensures IsTail(g0, x) ==> OnlyTails(g0, Merge(g, h, e), x)
  {
    hide Wf, EndOf, Merge, Link, Users, Pos;
    EndIsLast(g0, x);
    EndHasNoLink(g0, h);
    EndHasNoLink(g0, x);
    MergedUsers(g, h, e, EndOf(g0, x));
    MergedUsers(g, h, e, x);
    if IsTail(g0, x) && x == h {
      var y := TailFacts(g0, h);
      HeadUsers(g0, g, i, h);
    }
  }

  lemma EndHasNoLink(g: Graph, x: nat)
    requires Wf(g) && IsView(g, x) && EndOf(g, x) != x
    ensures EndOf(g, EndOf(g, x)) == EndOf(g, x) && IsView(g, EndOf(g, x))
  {
    EndIsLast(g, x);
  }

  lemma HeadUsers(g0: Graph, g: Graph, i: nat, h: nat)
    requires Structure(g0, g, i) && IsView(g0, h) && Pos(g0.order, h) >= i && EndOf(g0, h) != h
    ensures OnlyTails(g0, g, h)
  {
    hide Pos;
    var u :| Link(g0, h, u);
    assert Link(g, h, u);
  }

  lemma VisitKeepsDetached(g0: Graph, g: Graph, i: nat)
    requires Structure(g0, g, i) && Detached(g0, g, i) && i < |g0.order|
    ensures var h := g0.order[i];
            if IsView(g0, h) && EndOf(g0, h) != h then
              Mergeable(g, h, EndOf(g0, h)) && IsView(g, EndOf(g0, h)) && Detached(g0, Merge(g, h, EndOf(g0, h)), i + 1)
            else Detached(g0, g, i + 1)
  {
    hide *;
    var h := g0.order[i];
    StructureIsWf(g0, g, i);
    VisitStructure(g0, g, i);
    VisitedEnds(g0, g, i);
    if IsView(g0, h) && EndOf(g0, h) != h {
      MergeKeepsDetached(g0, g, i, h, EndOf(g0, h));
    } else {
      NothingKeepsDetached(g0, g, i);
    }
  }

  lemma StructureIsWf(g0: Graph, g: Graph, i: nat)
    requires Structure(g0, g, i)
    ensures Wf(g0) && Wf(g) && Closed(g0)
  {
  }

  lemma MergeKeepsDetached(g0: Graph, g: Graph, i: nat, h: nat, e: nat)
    requires Structure(g0, g, i) && Detached(g0, g, i) && i < |g0.order| && h == g0.order[i]
    requires IsView(g0, h) && e == EndOf(g0, h) && Mergeable(g, h, e) && IsView(g, e)
    ensures Detached(g0, Merge(g, h, e), i + 1)
  {
    hide Wf, EndOf, Merge, Link, Users, Pos, IsTail, OnlyTails, Structure;
    StructureIsWf(g0, g, i);
    OnlyOneAt(g0, i);
    forall x | IsView(g0, x) && Pos(g0.order, x) < i + 1 && EndOf(g0, x) != x
      ensures OnlyTails(g0, Merge(g, h, e), EndOf(g0, x))
      ensures IsTail(g0, x) ==> OnlyTails(g0, Merge(g, h, e), x)
    {
      VisitDetaches(g0, g, i, h, e, x);
    }
  }

  lemma NothingKeepsDetached(g0: Graph, g: Graph, i: nat)
    requires Structure(g0, g, i) && Detached(g0, g, i) && i < |g0.order|
    requires !(IsView(g0, g0.order[i]) && EndOf(g0, g0.order[i]) != g0.order[i])
    ensures Detached(g0, g, i + 1)
  {
    hide Wf, EndOf, Link, Users, Pos, IsTail, OnlyTails, Structure;
    StructureIsWf(g0, g, i);
    OnlyOneAt(g0, i);
  }

  /** In the end dead code elimination removes every tail: each chain is down to its head. */
  lemma {:induction false} TailIsDropped(g0: Graph, g: Graph, g': Graph, t: nat)
    requires Structure(g0, g, |g0.order|) && Detached(g0, g, |g0.order|) && Ordered(g)
    requires Closed(g') && IsPruned(g, g') && NoDeadCode(g') && IsTail(g0, t)
    ensures t !in g'.defs
    decreases |g0.order| - Pos(g0.order, t)
  {
    hide EndOf, Link, Pos, Before, Closed, Wf;
    var y := TailFacts(g0, t);
    WfIsClosed(g0);
    PosIsInside(g0, t);
    PosIsInside(g0, y);
    if t in g'.defs {
      assert !IsImpure(g'.defs[t].op);
      var v :| v in Users(g', t);
      assert v in Users(g, t);
      TailUsers(g0, g, t, y);
      UserIsLater(g0, g, t, v);
      TailIsDropped(g0, g, g', v);
    }
  }

  lemma TailUsers(g0: Graph, g: Graph, t: nat, y: nat)
    requires Structure(g0, g, |g0.order|) && Detached(g0, g, |g0.order|) && IsTail(g0, t)
    requires IsView(g0, t) && IsView(g0, y) && Pos(g0.order, t) < |g0.order| && Pos(g0.order, y) < |g0.order|
    requires EndOf(g0, y) == EndOf(g0, t) && EndOf(g0, y) != y
    ensures OnlyTails(g0, g, t)
  {
    hide EndOf, Link, Pos, Wf, IsTail, OnlyTails;
  }

  lemma UserIsLater(g0: Graph, g: Graph, t: nat, v: nat)
    requires Structure(g0, g, |g0.order|) && Ordered(g) && v in Users(g, t)
    ensures Pos(g0.order, t) < Pos(g0.order, v) && v in g0.defs && Pos(g0.order, v) < |g0.order|
  {
    BeforeIsPos(g.order, t, v);
    PosIsInside(g0, v);
  }

  lemma StartDetached(g0: Graph)
    requires Wf(g0)
    ensures Detached(g0, g0, 0)
  {
  }

  /** The loop of the pass. */
  method MergeChains(g0: Graph) returns (g: Graph)
    requires Wf(g0)
    ensures Structure(g0, g, |g0.order|) && Detached(g0, g, |g0.order|)
    ensures forall sem, val :: Consistent(g0, sem, val) ==> Meaning(g0, g, |g0.order|, sem, val)
  {
    hide *;
    g := g0;
    StartStructure(g0);
    StartDetached(g0);
    forall sem, val | Consistent(g0, sem, val)
      ensures Meaning(g0, g0, 0, sem, val)
    {
      StartMeaning(g0, sem, val);
    }
    for i := 0 to |g0.order|
      invariant Structure(g0, g, i) && Detached(g0, g, i) && |g.order| == |g0.order|
      invariant forall sem, val :: Consistent(g0, sem, val) ==> Meaning(g0, g, i, sem, val)
    {
      g := VisitNode(g0, g, i);
    }
  }

  method VisitNode(ghost g0: Graph, g: Graph, i: nat) returns (g': Graph)
    requires Structure(g0, g, i) && i < |g.order| && Detached(g0, g, i)
    requires forall sem, val :: Consistent(g0, sem, val) ==> Meaning(g0, g, i, sem, val)
    ensures Structure(g0, g', i + 1) && |g'.order| == |g.order| && Detached(g0, g', i + 1)
    ensures forall sem, val :: Consistent(g0, sem, val) ==> Meaning(g0, g', i + 1, sem, val)
  {
    hide Meaning, Consistent, Wf, EndOf, Merge, Link, Users, Pos, Detached;
    var node := g.order[i];
    VisitStructure(g0, g, i);
    VisitKeepsDetached(g0, g, i);
    VisitedEnds(g0, g, i);
    WfIsClosed(g);
    NodeAt(g, i);
    if g.defs[node].op == ViewCopy {
      var end := FindEnd(g, node);
      if node != end {
        VisitFacts(g0, g, i);
        g' := Merge(g, node, end);
        forall sem, val | Consistent(g0, sem, val)
          ensures Meaning(g0, g', i + 1, sem, val)
        {
          VisitMeaning(g0, g, i, sem, val);
        }
        return;
      }
    }
    g' := g;
    forall sem, val | Consistent(g0, sem, val)
      ensures Meaning(g0, g', i + 1, sem, val)
    {
      VisitNoMeaning(g0, g, i, sem, val);
    }
  }

  lemma VisitedEnds(g0: Graph, g: Graph, i: nat)
    requires Structure(g0, g, i) && i < |g0.order|
    ensures IsView(g0, g0.order[i]) ==> EndOf(g, g0.order[i]) == EndOf(g0, g0.order[i])
  {
    hide EndOf, Link, Pos;
    if IsView(g0, g0.order[i]) {
      IndexIsPos(g0, g, i);
      EndsAgree(g0, g, i, g0.order[i]);
    }
  }

  /** Every node named in the shape of a chain's last view is defined before each view of
      the chain. Shapes without symbolic sizes always are. */
  ghost predicate ShapesInReach(g: Graph)
    requires Wf(g)
  {
    forall x, a :: ShapeReads(g, x, a) ==> Before(g.order, a.id, x)
  }

  ghost predicate ShapeReads(g: Graph, x: nat, a: Arg)
    requires Wf(g)
  {
    IsView(g, x) && IsView(g, EndOf(g, x)) && a in Shape(g, EndOf(g, x)) && a.NodeArg?
  }

  /** The list is still ordered after merging exactly when the shapes are in reach. */
  lemma MergedIsOrderedIff(g0: Graph, g: Graph)
    requires Structure(g0, g, |g0.order|)
    ensures Ordered(g) <==> ShapesInReach(g0)
  {
    hide EndOf, Link, Before, Pos;
    if Ordered(g) {
      OrderedIsInReach(g0, g);
    }
    if ShapesInReach(g0) {
      InReachIsOrdered(g0, g);
    }
  }

  /** At the end every view has the shape of the end of its chain. */
  lemma FinalShape(g0: Graph, g: Graph, x: nat)
    requires Structure(g0, g, |g0.order|) && IsView(g0, x)
    ensures IsView(g0, EndOf(g0, x)) && IsView(g, x) && Shape(g, x) == Shape(g0, EndOf(g0, x))
  {
    hide EndOf, Link, Before, Pos;
    PosIsInside(g0, x);
  }

  lemma OrderedIsInReach(g0: Graph, g: Graph)
    requires Structure(g0, g, |g0.order|) && Ordered(g)
    ensures ShapesInReach(g0)
  {
    hide EndOf, Link, Before, Pos, Closed, Shape;
    forall x, a | ShapeReads(g0, x, a)
      ensures Before(g0.order, a.id, x)
    {
      FinalShape(g0, g, x);
      HeadOrShape(g, x, a);
      assert Uses(g.defs[x], a.id);
    }
  }

  lemma InReachIsOrdered(g0: Graph, g: Graph)
    requires Structure(g0, g, |g0.order|) && ShapesInReach(g0)
    ensures Ordered(g)
  {
    hide EndOf, Link, Before, Pos, Shape, Closed;
    forall x, y | x in g.defs && Uses(g.defs[x], y)
      ensures Before(g.order, y, x)
    {
      var k :| 0 <= k < |g.defs[x].args| && g.defs[x].args[k] == NodeArg(y);
      if !ReadsEarly(g, x, k) {
        InShape(g, x, k);
        FinalShape(g0, g, x);
        assert ShapeReads(g0, x, NodeArg(y));
      }
    }
  }

  lemma PosIsInside(g: Graph, x: nat)
    requires Closed(g) && x in g.defs
    ensures Pos(g.order, x) < |g.order|
  {
    assert x in g.order;
  }

  /** Merging and removing dead code change no output. */
  lemma OutputsAreKept(g0: Graph, g: Graph, g': Graph, sem: Semantics, o: nat)
    requires Closed(g0) && Ordered(g0) && Structure(g0, g, |g0.order|)
    requires Meaning(g0, g, |g0.order|, sem, Result(g0, sem))
    requires Ordered(g) && Closed(g') && IsPruned(g, g')
    requires o in g0.defs && g0.defs[o].op.Output?
    ensures SameOutput(g0, g', sem, o)
  {
    hide Result, Wf, Structure, Renamed, Closed, Ordered, Consistent;
    StructureFacts(g0, g, o);
    var val := Renamed(g0, |g0.order|, Result(g0, sem));
    PrunedKeepsArgs(g, g', sem, o);
    ConsistentArgs(g, sem, val, o);
  }

  lemma StructureFacts(g0: Graph, g: Graph, o: nat)
    requires Structure(g0, g, |g0.order|) && o in g0.defs
    ensures Wf(g0) && Closed(g) && o in g.defs && g.defs[o].op == g0.defs[o].op
  {
  }

  /** The whole pass; None stands for the error raised when the list is out of order. It
      succeeds exactly when the shapes are in reach, and then every output of the graph
      keeps its values, whatever the operators compute. */
  method MergeViewCopyChains(g0: Graph) returns (r: Option<Graph>)
    requires Closed(g0) && Ordered(g0) && WellTyped(g0)
    ensures Wf(g0)
    ensures r.Some? <==> ShapesInReach(g0)
    ensures r.Some? ==> Closed(r.value) && Ordered(r.value) && NoDeadCode(r.value)
    ensures r.Some? ==>
              forall sem, o :: o in g0.defs && g0.defs[o].op.Output? ==> SameOutput(g0, r.value, sem, o)
    ensures r.Some? ==> forall t :: IsTail(g0, t) ==> t !in r.value.defs
    ensures r.Some? ==> forall x :: IsView(g0, x) && x in r.value.defs ==> HasShapeOfEnd(g0, r.value, x)
  {
    hide *;
    OrderedIsWf(g0);
    var g := MergeChains(g0);
    MergedIsOrderedIff(g0, g);
    StructureIsClosed(g0, g);
    var ok := Lint(g);
    if !ok {
      return None;
    }
    var g' := EliminateDeadCode(g);
    forall sem, o | o in g0.defs && g0.defs[o].op.Output?
      ensures SameOutput(g0, g', sem, o)
    {
      ResultIsConsistent(g0, sem);
      OutputsAreKept(g0, g, g', sem, o);
    }
    forall t | IsTail(g0, t)
      ensures t !in g'.defs
    {
      TailIsDropped(g0, g, g', t);
    }
    forall x | IsView(g0, x) && x in g'.defs
      ensures HasShapeOfEnd(g0, g', x)
    {
      ShapeIsOfEnd(g0, g, g', x);
    }
    r := Some(g');
  }

  /** x has the shape of the last view of its chain. */
  ghost predicate HasShapeOfEnd(g0: Graph, g: Graph, x: nat)
    requires Wf(g0) && IsView(g0, x) && x in g.defs
  {
    IsView(g0, EndOf(g0, x)) && HasShape(g, x, g0, EndOf(g0, x))
  }

  lemma ShapeIsOfEnd(g0: Graph, g: Graph, g': Graph, x: nat)
    requires Structure(g0, g, |g0.order|) && IsPruned(g, g') && IsView(g0, x) && x in g'.defs
    ensures HasShapeOfEnd(g0, g', x)
  {
    hide EndOf, Link, Before, Pos;
    PosIsInside(g0, x);
  }

  lemma StructureIsClosed(g0: Graph, g: Graph)
    requires Structure(g0, g, |g0.order|)
    ensures Closed(g)
  {
  }

  /** A shape computed between the two views of a chain. */
  function SymbolicExample(): Graph {
    Graph([0, 1, 2, 3, 4],
          map[0 := Node(Placeholder(0), []),
              1 := Node(ViewCopy, [NodeArg(0), Lit(6)]),
              2 := Node(OtherOp(0), [NodeArg(0)]),
              3 := Node(ViewCopy, [NodeArg(1), NodeArg(2)]),
              4 := Node(Output, [NodeArg(3)])])
  }

  lemma ExampleOrder(i: nat, j: nat)
    requires i < j < 5
    ensures Before([0, 1, 2, 3, 4], i, j)
  {
    var order := [0, 1, 2, 3, 4];
    assert order[i] == i && order[j] == j;
  }

  lemma ExampleEdges(x: nat, y: nat)
    requires x in SymbolicExample().defs && Uses(SymbolicExample().defs[x], y)
    ensures y < x < 5 && y in SymbolicExample().defs
  {
  }

  lemma ExampleKeys()
    ensures SymbolicExample().order == [0, 1, 2, 3, 4]
    ensures forall x :: x in SymbolicExample().order <==> x in SymbolicExample().defs
  {
  }

  lemma ExampleIsTyped()
    ensures WellTyped(SymbolicExample())
  {
    var g := SymbolicExample();
    assert Shape(g, 1) == [Lit(6)] && Shape(g, 3) == [NodeArg(2)];
  }

  lemma ExampleIsOrdered()
    ensures Ordered(SymbolicExample())
    ensures forall x: nat, y: nat ::
              x in SymbolicExample().defs && Uses(SymbolicExample().defs[x], y) ==> y in SymbolicExample().defs
  {
    hide Before, Uses, SymbolicExample;
    var g := SymbolicExample();
    ExampleKeys();
    forall x: nat, y: nat | x in g.defs && Uses(g.defs[x], y)
      ensures Before(g.order, y, x) && y in g.defs
    {
      ExampleEdges(x, y);
      ExampleOrder(y, x);
    }
  }

  lemma SymbolicExampleIsFine()
    ensures Closed(SymbolicExample()) && Ordered(SymbolicExample()) && WellTyped(SymbolicExample())
  {
    hide Before, Uses, SymbolicExample, WellTyped;
    ExampleKeys();
    ExampleIsTyped();
    ExampleIsOrdered();
  }

  lemma SymbolicExampleLinks()
    ensures Link(SymbolicExample(), 1, 3) && forall u: nat :: !Link(SymbolicExample(), 3, u)
  {
    var g := SymbolicExample();
    assert Users(g, 1) == {3};
    assert Users(g, 3) == {4};
    assert forall u: nat :: Users(g, 3) == {u} ==> u in Users(g, 3);
  }

  /** The merged view would read the shape before it is computed. */
  lemma SymbolicShapeOutOfReach()
    ensures Wf(SymbolicExample()) && !ShapesInReach(SymbolicExample())
  {
    hide Closed, Ordered, WellTyped, Wf, Before, Users, Uses;
    var g := SymbolicExample();
    SymbolicExampleIsFine();
    SymbolicExampleLinks();
    OrderedIsWf(g);
    EndStep(g, 1, 3);
    assert Shape(g, 3)[0] == NodeArg(2);
    assert ShapeReads(g, 1, NodeArg(2));
    TwoIsAfterOne();
  }

  lemma TwoIsAfterOne()
    ensures !Before([0, 1, 2, 3, 4], 2, 1)
  {
  }
}
