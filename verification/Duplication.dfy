/** Copying nodes of a graph and redirecting uses to the copies. A graph obtained that way
    folds back onto the original one, and so computes the same outputs. */
module Duplication {
  import opened FxGraph

  function MapArg(f: map<nat, nat>, a: Arg): Arg {
    if a.NodeArg? && a.id in f then NodeArg(f[a.id]) else a
  }

  function MapArgs(f: map<nat, nat>, args: seq<Arg>): (r: seq<Arg>)
    ensures |r| == |args| && forall k :: 0 <= k < |args| ==> r[k] == MapArg(f, args[k])
  {
    seq(|args|, k requires 0 <= k < |args| => MapArg(f, args[k]))
  }

  /** f folds g onto g0: every node of g applies the operator of its image to arguments
      that fold onto the arguments of its image. Nodes with an effect are their own image. */
  ghost predicate Folds(g0: Graph, g: Graph, f: map<nat, nat>) {
    && f.Keys == g.defs.Keys
    && (forall x :: x in f ==> f[x] in g0.defs && FoldsAt(g0, g, f, x))
    && (forall x :: x in g0.defs && IsImpure(g0.defs[x].op) ==> x in f && f[x] == x)
  }

  ghost predicate FoldsAt(g0: Graph, g: Graph, f: map<nat, nat>, x: nat)
    requires x in f && x in g.defs && f[x] in g0.defs
  {
    g.defs[x].op == g0.defs[f[x]].op && MapArgs(f, g.defs[x].args) == g0.defs[f[x]].args
  }

  ghost function Identity(g: Graph): map<nat, nat> {
    map x | x in g.defs :: x
  }

  lemma GraphFoldsOntoItself(g: Graph)
    ensures Folds(g, g, Identity(g))
  {
    forall x | x in g.defs
      ensures MapArgs(Identity(g), g.defs[x].args) == g.defs[x].args
    {
    }
  }

  /** Values of the original graph, seen from the nodes of g. */
  ghost function PullBack(f: map<nat, nat>, val: map<nat, Value>): map<nat, Value> {
    map x | x in f :: Lookup(val, f[x])
  }

  lemma FoldedArgs(g0: Graph, g: Graph, f: map<nat, nat>, val: map<nat, Value>, x: nat)
    requires Closed(g) && Folds(g0, g, f) && x in g.defs
    ensures ArgValues(PullBack(f, val), g.defs[x].args) == ArgValues(val, g0.defs[f[x]].args)
  {
    assert FoldsAt(g0, g, f, x);
    forall k | 0 <= k < |g.defs[x].args|
      ensures ArgValue(PullBack(f, val), g.defs[x].args[k]) == ArgValue(val, g0.defs[f[x]].args[k])
    {
      var a := g.defs[x].args[k];
      assert a in g.defs[x].args;
      assert a.NodeArg? ==> Uses(g.defs[x], a.id);
      assert MapArgs(f, g.defs[x].args)[k] == MapArg(f, a);
    }
  }

  lemma FoldIsConsistent(g0: Graph, g: Graph, f: map<nat, nat>, sem: Semantics, val: map<nat, Value>)
    requires Closed(g) && Folds(g0, g, f) && Consistent(g0, sem, val)
    ensures Consistent(g, sem, PullBack(f, val))
  {
    forall x | x in g.defs
      ensures PullBack(f, val)[x] == EvalNode(sem, PullBack(f, val), g.defs[x])
    {
      FoldedArgs(g0, g, f, val, x);
      assert FoldsAt(g0, g, f, x);
    }
  }

  /** A graph that folds onto another returns the same outputs, whatever the operators compute. */
  lemma FoldKeepsOutputs(g0: Graph, g: Graph, f: map<nat, nat>, sem: Semantics, o: nat)
    requires Closed(g0) && Ordered(g0) && Closed(g) && Ordered(g) && Folds(g0, g, f)
    requires o in g0.defs && g0.defs[o].op.Output?
    ensures o in g.defs && g.defs[o].op == g0.defs[o].op
    ensures ArgValues(Result(g, sem), g.defs[o].args) == ArgValues(Result(g0, sem), g0.defs[o].args)
  {
    hide Result, Closed, Ordered, Consistent;
    assert o in f && FoldsAt(g0, g, f, o);
    ResultIsConsistent(g0, sem);
    FoldIsConsistent(g0, g, f, sem, Result(g0, sem));
    ConsistentArgs(g, sem, PullBack(f, Result(g0, sem)), o);
    FoldedArgs(g0, g, f, Result(g0, sem), o);
  }

  /** Insert c directly after the node at position p. */
  function InsertAt(order: seq<nat>, p: nat, c: nat): seq<nat>
    requires p < |order|
  {
    order[..p + 1] + [c] + order[p + 1..]
  }

  /** A copy of node n, named c, placed directly after node `at`. */
  function CopyNode(g: Graph, n: nat, at: nat, c: nat): Graph
    requires n in g.defs && at in g.order
  {
    Graph(InsertAt(g.order, Pos(g.order, at), c), g.defs[c := g.defs[n]])
  }

  /** Node u reads y wherever it read x. */
  function ReplaceInput(g: Graph, u: nat, x: nat, y: nat): Graph
    requires u in g.defs
  {
    Graph(g.order, g.defs[u := Node(g.defs[u].op, RenameAll(g.defs[u].args, x, y))])
  }

  lemma InsertedAt(order: seq<nat>, p: nat, c: nat, k: nat)
    requires p < |order| && k < |InsertAt(order, p, c)|
    ensures |InsertAt(order, p, c)| == |order| + 1
    ensures InsertAt(order, p, c)[k] == if k <= p then order[k] else if k == p + 1 then c else order[k - 1]
  {
  }

  lemma InsertMembers(order: seq<nat>, p: nat, c: nat)
    requires NoRepeats(order) && p < |order| && c !in order
    ensures NoRepeats(InsertAt(order, p, c))
    ensures forall x :: x in InsertAt(order, p, c) <==> x in order || x == c
  {
    var order' := InsertAt(order, p, c);
    InsertedLength(order, p, c);
    forall k | 0 <= k < |order'|
      ensures order'[k] == if k <= p then order[k] else if k == p + 1 then c else order[k - 1]
    {
    }
    forall x
      ensures x in order' <==> x in order || x == c
    {
      if x in order {
        var k :| 0 <= k < |order| && order[k] == x;
        assert order'[if k <= p then k else k + 1] == x;
      }
      assert order'[p + 1] == c;
    }
  }

  lemma InsertedLength(order: seq<nat>, p: nat, c: nat)
    requires p < |order|
    ensures |InsertAt(order, p, c)| == |order| + 1
  {
  }

  lemma InsertKeepsBefore(order: seq<nat>, p: nat, c: nat, a: nat, b: nat)
    requires NoRepeats(order) && p < |order| && Before(order, a, b)
    ensures var order' := InsertAt(order, p, c);
            && Before(order', a, b)
            && (b == order[p] ==> Before(order', a, c))
            && (a == order[p] ==> Before(order', c, b))
  {
    hide InsertAt;
    var order' := InsertAt(order, p, c);
    var k, l :| 0 <= k < l < |order| && order[k] == a && order[l] == b;
    var k', l' := if k <= p then k else k + 1, if l <= p then l else l + 1;
    InsertedLength(order, p, c);
    InsertedAt(order, p, c, k');
    InsertedAt(order, p, c, l');
    InsertedAt(order, p, c, p + 1);
    assert order'[k'] == a && order'[l'] == b && order'[p + 1] == c;
  }

  lemma InsertFacts(order: seq<nat>, p: nat, c: nat)
    requires NoRepeats(order) && p < |order| && c !in order
    ensures var order' := InsertAt(order, p, c);
            && NoRepeats(order')
            && (forall x :: x in order' <==> x in order || x == c)
            && (forall a, b :: Before(order, a, b) ==> Before(order', a, b))
            && Before(order', order[p], c)
            && (forall a :: Before(order, a, order[p]) ==> Before(order', a, c))
            && (forall b :: Before(order, order[p], b) ==> Before(order', c, b))
  {
    hide InsertAt, NoRepeats;
    InsertMembers(order, p, c);
    forall a, b | Before(order, a, b)
      ensures Before(InsertAt(order, p, c), a, b)
      ensures b == order[p] ==> Before(InsertAt(order, p, c), a, c)
      ensures a == order[p] ==> Before(InsertAt(order, p, c), c, b)
    {
      InsertKeepsBefore(order, p, c, a, b);
    }
    InsertedLength(order, p, c);
    InsertedAt(order, p, c, p);
    InsertedAt(order, p, c, p + 1);
  }

  /** A well-formed graph that folds onto g0. */
  ghost predicate Sound(g0: Graph, g: Graph, f: map<nat, nat>) {
    Closed(g) && Ordered(g) && Folds(g0, g, f)
  }

  /** Everything node n reads has been computed once node `at` has. */
  ghost predicate ReadsReady(g: Graph, n: nat, at: nat)
    requires n in g.defs
  {
    forall x :: Uses(g.defs[n], x) ==> x == at || Before(g.order, x, at)
  }

  lemma CopyIsClosedAndOrdered(g: Graph, n: nat, at: nat, c: nat)
    requires Closed(g) && Ordered(g) && n in g.defs && at in g.defs && c !in g.defs && ReadsReady(g, n, at)
    ensures at in g.order && Closed(CopyNode(g, n, at, c)) && Ordered(CopyNode(g, n, at, c))
    ensures var order' := CopyNode(g, n, at, c).order;
            && (forall a, b :: Before(g.order, a, b) ==> Before(order', a, b))
            && (forall b :: Before(g.order, at, b) ==> Before(order', c, b))
            && (forall a :: Before(g.order, a, at) ==> Before(order', a, c))
            && Before(order', at, c)
  {
    hide Before, NoRepeats, Uses, InsertAt;
    assert at in g.order && c !in g.order;
    UniqueOrder(g);
    InsertFacts(g.order, Pos(g.order, at), c);
  }

  /** Without that, the copy precedes something it reads: the list is out of order. */
  lemma LateCopyBreaksOrder(g: Graph, n: nat, at: nat, c: nat, x: nat)
    requires Closed(g) && n in g.defs && at in g.order && c !in g.defs
    requires Uses(g.defs[n], x) && x != at && !Before(g.order, x, at)
    ensures !Ordered(CopyNode(g, n, at, c))
  {
    hide Pos, InsertAt;
    var p, g' := Pos(g.order, at), CopyNode(g, n, at, c);
    if Ordered(g') {
      assert Uses(g'.defs[c], x);
      var i, j :| 0 <= i < j < |g'.order| && g'.order[i] == x && g'.order[j] == c;
      LastOfInsert(g.order, p, c, j);
    }
  }

  lemma LastOfInsert(order: seq<nat>, p: nat, c: nat, j: nat)
    requires p < |order| && c !in order && j < |InsertAt(order, p, c)| && InsertAt(order, p, c)[j] == c
    ensures j == p + 1 && InsertAt(order, p, c)[..j] == order[..p + 1]
  {
  }

  lemma CopyFolds(g0: Graph, g: Graph, f: map<nat, nat>, n: nat, at: nat, c: nat)
    requires Closed(g) && Folds(g0, g, f) && n in g.defs && at in g.order && c !in g.defs && c !in g0.defs
    ensures Folds(g0, CopyNode(g, n, at, c), f[c := f[n]])
  {
    hide Closed, MapArgs, InsertAt, Pos;
    var g', f' := CopyNode(g, n, at, c), f[c := f[n]];
    forall x | x in f'
      ensures f'[x] in g0.defs && FoldsAt(g0, g', f', x)
    {
      var y := if x == c then n else x;
      assert FoldsAt(g0, g, f, y);
      UnusedIsUnmapped(g, f, f[n], c, y);
    }
  }

  /** Where a node not in the graph is mapped to makes no difference to arguments. */
  lemma UnusedIsUnmapped(g: Graph, f: map<nat, nat>, v: nat, c: nat, y: nat)
    requires Closed(g) && y in g.defs && c !in g.defs
    ensures MapArgs(f[c := v], g.defs[y].args) == MapArgs(f, g.defs[y].args)
  {
    forall k | 0 <= k < |g.defs[y].args|
      ensures MapArg(f[c := v], g.defs[y].args[k]) == MapArg(f, g.defs[y].args[k])
    {
      var a := g.defs[y].args[k];
      assert a in g.defs[y].args;
      assert a.NodeArg? ==> Uses(g.defs[y], a.id);
    }
  }

  lemma CopyIsSound(g0: Graph, g: Graph, f: map<nat, nat>, n: nat, at: nat, c: nat)
    requires Sound(g0, g, f) && n in g.defs && at in g.defs && c !in g.defs && c !in g0.defs && ReadsReady(g, n, at)
    ensures at in g.order && Sound(g0, CopyNode(g, n, at, c), f[c := f[n]])
  {
    hide Closed, Ordered, Folds, CopyNode, ReadsReady;
    CopyIsClosedAndOrdered(g, n, at, c);
    CopyFolds(g0, g, f, n, at, c);
  }

  /** Everything about placing one copy. */
  lemma PlacedCopy(g0: Graph, g: Graph, f: map<nat, nat>, n: nat, at: nat, c: nat)
    requires Sound(g0, g, f) && n in g.defs && at in g.defs && c !in g.defs && c !in g0.defs && ReadsReady(g, n, at)
    ensures at in g.order && n in f
    ensures var g' := CopyNode(g, n, at, c);
            && Sound(g0, g', f[c := f[n]]) && g'.defs == g.defs[c := g.defs[n]] && at in g'.order
            && (forall a, b :: Before(g.order, a, b) ==> Before(g'.order, a, b))
            && (forall b :: Before(g.order, at, b) ==> Before(g'.order, c, b))
            && Before(g'.order, at, c)
            && (forall m :: m in g.defs && ReadsReady(g, m, at) ==> ReadsReady(g', m, at))
  {
    hide Before, Ordered;
    CopyIsClosedAndOrdered(g, n, at, c);
    CopyIsSound(g0, g, f, n, at, c);
    assert at in CopyNode(g, n, at, c).defs;
  }

  lemma ReplaceIsClosedAndOrdered(g: Graph, u: nat, x: nat, y: nat)
    requires Closed(g) && Ordered(g) && u in g.defs && x != y && y in g.defs && Before(g.order, y, u)
    ensures Closed(ReplaceInput(g, u, x, y)) && Ordered(ReplaceInput(g, u, x, y))
  {
    hide Before, NoRepeats;
    var g' := ReplaceInput(g, u, x, y);
    forall id, z | id in g'.defs && Uses(g'.defs[id], z)
      ensures z in g'.defs && Before(g'.order, z, id)
    {
      if id == u {
        RenamedUse(g.defs[u].args, x, y, z);
        assert z != y ==> Uses(g.defs[u], z);
      }
    }
  }

  lemma ReplaceFolds(g0: Graph, g: Graph, f: map<nat, nat>, u: nat, x: nat, y: nat)
    requires Closed(g) && Folds(g0, g, f) && u in g.defs && x in g.defs && y in g.defs && f[x] == f[y]
    ensures Folds(g0, ReplaceInput(g, u, x, y), f)
  {
    var g' := ReplaceInput(g, u, x, y);
    forall z | z in f
      ensures f[z] in g0.defs && FoldsAt(g0, g', f, z)
    {
      assert FoldsAt(g0, g, f, z);
      if z == u {
        var args := g.defs[u].args;
        forall k | 0 <= k < |args|
          ensures MapArg(f, Rename(args[k], x, y)) == MapArg(f, args[k])
        {
        }
        assert MapArgs(f, RenameAll(args, x, y)) == MapArgs(f, args);
      }
    }
  }

  lemma ReplaceIsSound(g0: Graph, g: Graph, f: map<nat, nat>, u: nat, x: nat, y: nat)
    requires Sound(g0, g, f) && u in g.defs && x in g.defs && y in g.defs && x != y
    requires f[x] == f[y] && Before(g.order, y, u)
    ensures Sound(g0, ReplaceInput(g, u, x, y), f)
  {
    hide Closed, Ordered, Folds, ReplaceInput, Before;
    ReplaceIsClosedAndOrdered(g, u, x, y);
    ReplaceFolds(g0, g, f, u, x, y);
  }

  ghost function Restrict(f: map<nat, nat>, keys: set<nat>): map<nat, nat> {
    map x | x in f && x in keys :: f[x]
  }

  /** What is left of a graph reads nothing that was dropped. */
  lemma RestrictedArgs(g: Graph, f: map<nat, nat>, x: nat)
    requires Closed(g) && x in g.defs
    ensures MapArgs(Restrict(f, g.defs.Keys), g.defs[x].args) == MapArgs(f, g.defs[x].args)
  {
    var f' := Restrict(f, g.defs.Keys);
    forall k | 0 <= k < |g.defs[x].args|
      ensures MapArg(f', g.defs[x].args[k]) == MapArg(f, g.defs[x].args[k])
    {
      var a := g.defs[x].args[k];
      assert a in g.defs[x].args;
      assert a.NodeArg? ==> Uses(g.defs[x], a.id);
    }
  }

  lemma PrunedIsSound(g0: Graph, g: Graph, g': Graph, f: map<nat, nat>)
    requires Sound(g0, g, f) && Closed(g') && IsPruned(g, g')
    ensures Sound(g0, g', Restrict(f, g'.defs.Keys))
  {
    hide Before, Ordered, Closed, MapArgs;
    PrunedIsOrdered(g, g');
    var f' := Restrict(f, g'.defs.Keys);
    forall x | x in f'
      ensures f'[x] in g0.defs && FoldsAt(g0, g', f', x)
    {
      assert FoldsAt(g0, g, f, x);
      RestrictedArgs(g', f, x);
    }
    forall x | x in g0.defs && IsImpure(g0.defs[x].op)
      ensures x in f' && f'[x] == x
    {
      assert FoldsAt(g0, g, f, x);
    }
  }
}
