/** How many users each node of a chain has after a phase, and so when the pass completes. */
module QuantChainCounts {
  import opened FxGraph
  import opened Duplication
  import opened DuplicateQuantChain
  import opened QuantChainPairs

  /** What the pass has matched when it starts on dequantize node dq. */
  ghost predicate Matched(g: Graph, choose: nat, g1: nat, g2: nat, q: nat, dq: nat) {
    && dq in g.defs && g.defs[dq].op.Dequantize? && Uses(g.defs[dq], q)
    && q in g.defs && g.defs[q].op.Quantize? && Uses(g.defs[q], g1) && Uses(g.defs[q], g2)
    && g1 in g.defs && g.defs[g1].op == GetItem && Uses(g.defs[g1], choose)
    && choose in g.defs && g.defs[choose].op == ChooseQParams
  }

  /** The items and the parameters come before the nodes that read them. */
  lemma MatchedIsAcyclic(g: Graph, choose: nat, g1: nat, g2: nat, q: nat, dq: nat)
    requires Closed(g) && Ordered(g) && Matched(g, choose, g1, g2, q, dq)
    ensures g2 in g.defs && dq !in {choose, g1, g2}
  {
    hide Before;
    UniqueOrder(g);
    BeforeTransitive(g.order, g2, q, dq);
    BeforeIsPos(g.order, g2, dq);
  }

  /** Replicating n changes the users of n only, and of what n reads. */
  lemma ReplicatedUses(g: Graph, g': Graph, n: nat, clones: map<nat, nat>, x: nat, y: nat)
    requires n in g.defs && Replicated(g, g', n, clones) && x in g.defs && y in g.defs && y != n
    ensures x in g'.defs && (Uses(g'.defs[x], y) <==> Uses(g.defs[x], y)) && g'.defs[x].op == g.defs[x].op
  {
    if x in clones {
      RenamedNodeUses(g.defs[x], n, clones[x], y);
    }
  }

  lemma ReplicatedKeepsUsers(g: Graph, g': Graph, n: nat, clones: map<nat, nat>, y: nat)
    requires n in g.defs && Replicated(g, g', n, clones) && y in g.defs && y != n && !Uses(g.defs[n], y)
    ensures Users(g', y) == Users(g, y)
  {
    forall x | x in g'.defs
      ensures x in Users(g', y) <==> x in Users(g, y)
    {
      if x in g.defs {
        ReplicatedUses(g, g', n, clones, x, y);
      }
    }
    forall x | x in g.defs
      ensures x in Users(g', y) <==> x in Users(g, y)
    {
      ReplicatedUses(g, g', n, clones, x, y);
    }
  }

  lemma {:induction false} InjectiveSize(m: map<nat, nat>)
    requires forall u, v :: u in m && v in m && m[u] == m[v] ==> u == v
    ensures |m.Values| == |m.Keys|
    decreases |m.Keys|
  {
    if m.Keys == {} {
      assert m.Values == {};
    } else {
      var u :| u in m.Keys;
      var rest := m - {u};
      assert rest.Keys == m.Keys - {u};
      InjectiveSize(rest);
      forall x
        ensures x in m.Values <==> x in rest.Values || x == m[u]
      {
        if x in m.Values {
          var k :| k in m && m[k] == x;
          assert k != u ==> k in rest && rest[k] == x;
        }
        if x in rest.Values {
          var k :| k in rest && rest[k] == x;
          assert k in m && m[k] == x;
        }
        assert u in m && m[u] in m.Values;
      }
      assert m.Values == rest.Values + {m[u]};
      assert m[u] !in rest.Values;
    }
  }

  /** Users of the nodes that were already there, after copies for all users of n. */
  lemma ReplicatedUsersOf(g: Graph, gi: Graph, n: nat, clones: map<nat, nat>, y: nat)
    requires n in g.defs && Replicated(g, gi, n, clones) && clones.Keys == Users(g, n) && y in g.defs
    ensures y != n ==> Users(gi, y) == Users(g, y) + (if Uses(g.defs[n], y) then clones.Values else {})
    ensures y == n && n !in Users(g, n) ==> Users(gi, n) == {}
  {
    forall x | x in gi.defs
      ensures x in Users(gi, y) <==>
              (y != n && x in Users(g, y)) || (x !in g.defs && Uses(g.defs[n], y))
    {
      if x in g.defs {
        if x in clones {
          RenamedNodeUses(g.defs[x], n, clones[x], y);
        }
      } else {
        var u :| u in clones && clones[u] == x;
      }
    }
    assert forall x :: x in clones.Values <==> x in gi.defs && x !in g.defs;
  }

  /** Copies for all users leave n as the only unused node. */
  lemma ReplicatedIsAlive(g: Graph, gi: Graph, n: nat, clones: map<nat, nat>)
    requires Closed(g) && Ordered(g) && NoDeadCode(g) && n in g.defs && Users(g, n) != {}
    requires Replicated(g, gi, n, clones) && clones.Keys == Users(g, n)
    ensures Users(gi, n) == {} && KeptAlive(gi, gi.defs.Keys - {n})
  {
    hide Closed, Ordered, Uses, Users;
    NotOwnUser(g, n);
    ReplicatedUsersOf(g, gi, n, clones, n);
    var s := gi.defs.Keys - {n};
    forall x | x in s
      ensures IsImpure(gi.defs[x].op) || exists u :: u in s && u in Users(gi, x)
    {
      if x in g.defs {
        ReplicatedKeepsOp(g, gi, n, clones, x);
        if !IsImpure(g.defs[x].op) {
          SomeUserBut(g, gi, n, clones, x);
        }
      } else {
        var u :| u in clones && clones[u] == x;
        ClonesAreOwn(g, gi, n, clones, u);
        UserIsInGraph(g, n, u);
        ReplicatedKeepsOp(g, gi, n, clones, u);
        assert u in Users(gi, x) && u in s;
      }
    }
  }

  lemma UserIsInGraph(g: Graph, n: nat, u: nat)
    requires u in Users(g, n)
    ensures u in g.defs
  {
  }

  /** A node copied for all its users in a graph without dead code: it goes, its copies stay
      in its place, and nothing else changes. */
  lemma AfterReplication(g: Graph, gi: Graph, g': Graph, n: nat, clones: map<nat, nat>)
    requires Closed(g) && Ordered(g) && NoDeadCode(g) && n in g.defs && !IsImpure(g.defs[n].op) && Users(g, n) != {}
    requires Replicated(g, gi, n, clones) && clones.Keys == Users(g, n) && Closed(gi) && Ordered(gi)
    requires Closed(g') && IsPruned(gi, g') && NoDeadCode(g')
    ensures g'.defs.Keys == gi.defs.Keys - {n}
    ensures forall y :: y in g.defs && y != n ==>
              y in g'.defs && Users(g', y) == (Users(g, y) - {n}) + (if Uses(g.defs[n], y) then clones.Values else {})
  {
    hide Closed, Ordered, Uses, Users, NoDeadCode, KeptAlive, IsPruned;
    ReplicatedIsAlive(g, gi, n, clones);
    ReplicatedKeepsOp(g, gi, n, clones, n);
    OnlyUnusedGoes(gi, g', n);
    forall y | y in g.defs && y != n
      ensures y in g'.defs
      ensures Users(g', y) == (Users(g, y) - {n}) + (if Uses(g.defs[n], y) then clones.Values else {})
    {
      ReplicatedKeepsOp(g, gi, n, clones, y);
      ReplicatedUsersOf(g, gi, n, clones, y);
      PrunedUsersBut(gi, g', n, y);
      assert n !in clones.Values;
    }
  }

  lemma ReplicatedKeepsOp(g: Graph, gi: Graph, n: nat, clones: map<nat, nat>, x: nat)
    requires n in g.defs && Replicated(g, gi, n, clones) && x in g.defs
    ensures x in gi.defs && gi.defs[x].op == g.defs[x].op && (x !in clones ==> gi.defs[x] == g.defs[x])
  {
  }

  lemma SomeUserBut(g: Graph, gi: Graph, n: nat, clones: map<nat, nat>, x: nat)
    requires NoDeadCode(g) && n in g.defs && Replicated(g, gi, n, clones) && clones.Keys == Users(g, n) != {}
    requires x in g.defs && x != n && !IsImpure(g.defs[x].op) && n !in Users(g, n)
    ensures exists u :: u in gi.defs.Keys - {n} && u in Users(gi, x)
  {
    ReplicatedUsersOf(g, gi, n, clones, x);
    var u :| u in Users(g, x);
    if u == n {
      var v :| v in clones;
      assert clones[v] in clones.Values && clones[v] in Users(gi, x);
    } else {
      assert u in Users(gi, x) && u in gi.defs;
    }
  }

  lemma PrunedUsersBut(gi: Graph, g': Graph, n: nat, y: nat)
    requires IsPruned(gi, g') && g'.defs.Keys == gi.defs.Keys - {n}
    ensures Users(g', y) == Users(gi, y) - {n}
  {
  }

  lemma UserUses(g: Graph, x: nat, y: nat)
    ensures x in Users(g, y) <==> x in g.defs && Uses(g.defs[x], y)
  {
  }

  /** The copies are new, all like n, and as many as users. */
  lemma CopiesOf(g: Graph, gi: Graph, g': Graph, n: nat, clones: map<nat, nat>)
    requires n in g.defs && Replicated(g, gi, n, clones) && clones.Keys == Users(g, n) != {}
    requires IsPruned(gi, g') && g'.defs.Keys == gi.defs.Keys - {n}
    ensures |clones.Values| == |Users(g, n)| > 0
    ensures forall d :: d in clones.Values ==> d !in g.defs && d in g'.defs && g'.defs[d] == g.defs[n]
    ensures forall y :: y in g.defs && y != n ==> y in g'.defs && g'.defs[y].op == g.defs[y].op
  {
    hide Users, Uses;
    InjectiveSize(clones);
    var u :| u in clones.Keys;
    assert clones.Keys != {};
  }

  /** What node y is like once n has given way to the copies v. */
  ghost predicate Stays(g: Graph, g': Graph, n: nat, v: set<nat>, y: nat)
    requires n in g.defs && y in g.defs
  {
    && y in g'.defs && g'.defs[y].op == g.defs[y].op && (y !in Users(g, n) ==> g'.defs[y] == g.defs[y])
    && Users(g', y) == (Users(g, y) - {n}) + (if Uses(g.defs[n], y) then v else {})
  }

  /** g' is g with the new copies v, one for each user of n, in the place of n. */
  ghost predicate Replaced(g: Graph, g': Graph, n: nat, v: set<nat>)
    requires n in g.defs
  {
    && |v| == |Users(g, n)| && NoDeadCode(g')
    && (forall d :: d in v ==> d !in g.defs && d in g'.defs && g'.defs[d] == g.defs[n])
    && (forall d :: d in v ==> exists u :: u in Users(g, n) && Users(g', d) == {u})
    && (forall y :: y in g.defs && y != n ==> Stays(g, g', n, v, y))
    && (forall a, b :: a in g'.defs && b in g'.defs && Before(g.order, a, b) ==> Before(g'.order, a, b))
  }

  /** One phase on a graph without dead code: the node goes, its copies take its place. */
  lemma CopiesReplace(g: Graph, gi: Graph, g': Graph, n: nat, clones: map<nat, nat>)
    requires Closed(g) && Ordered(g) && NoDeadCode(g) && n in g.defs && !IsImpure(g.defs[n].op) && Users(g, n) != {}
    requires Replicated(g, gi, n, clones) && clones.Keys == Users(g, n) && Closed(gi) && Ordered(gi) && KeepsOrder(g, gi)
    requires Closed(g') && IsPruned(gi, g') && NoDeadCode(g')
    ensures Replaced(g, g', n, clones.Values)
  {
    hide Closed, Ordered, Uses, Users, NoDeadCode, Before, IsPruned, Replicated;
    AfterReplication(g, gi, g', n, clones);
    CopiesOf(g, gi, g', n, clones);
    NotOwnUser(g, n);
    forall d | d in clones.Values
      ensures exists u :: u in Users(g, n) && Users(g', d) == {u}
    {
      var u :| u in clones && clones[u] == d;
      ClonesAreOwn(g, gi, n, clones, u);
      PrunedUsersBut(gi, g', n, d);
      assert Users(g', d) == {u};
    }
    forall y | y in g.defs && y != n
      ensures Stays(g, g', n, clones.Values, y)
    {
      ReplicatedKeepsOp(g, gi, n, clones, y);
      PrunedKeepsDef(gi, g', y);
    }
    PrunedKeepsOrder(g, gi, g');
  }

  lemma PrunedKeepsDef(gi: Graph, g': Graph, y: nat)
    requires IsPruned(gi, g') && y in g'.defs
    ensures y in gi.defs && g'.defs[y] == gi.defs[y]
  {
  }

  lemma PrunedKeepsOrder(g: Graph, gi: Graph, g': Graph)
    requires KeepsOrder(g, gi) && IsPruned(gi, g')
    ensures forall a, b :: a in g'.defs && b in g'.defs && Before(g.order, a, b) ==> Before(g'.order, a, b)
  {
    hide Before;
  }

  // ---- the counts the pass compares ----

  lemma SwapOne(a: set<nat>, x: nat, v: set<nat>)
    requires x in a && a !! v
    ensures |(a - {x}) + v| == |a| - 1 + |v|
  {
    assert |a - {x}| == |a| - 1;
    assert (a - {x}) !! v;
  }

  lemma OneMember(a: set<nat>, x: nat)
    requires x in a
    ensures |a| == 1 <==> a == {x}
  {
    assert |a - {x}| == |a| - 1;
    assert a == (a - {x}) + {x};
  }

  lemma TwoMembers(a: set<nat>, x: nat, y: nat)
    requires x in a && y in a && x != y
    ensures |a| == 2 <==> a == {x, y}
  {
    assert |a - {x, y}| == |a| - 2;
    assert a == (a - {x, y}) + {x, y};
  }

  lemma UsersAreInGraph(g: Graph, y: nat)
    ensures Users(g, y) <= g.defs.Keys
  {
  }

  /** The first count: the quantize node had no user but the dequantize node. */
  lemma FirstCountIff(g: Graph, h: Graph, q: nat, dq: nat, v1: set<nat>)
    requires dq in g.defs && q in g.defs && q != dq && Uses(g.defs[dq], q) && Replaced(g, h, dq, v1)
    ensures |Users(h, q)| == |Users(g, dq)| <==> Users(g, q) == {dq}
    ensures Users(g, q) == {dq} ==> Users(h, q) == v1
  {
    hide Uses, Users, NoDeadCode, Before;
    assert Stays(g, h, dq, v1, q);
    UserUses(g, dq, q);
    UsersAreInGraph(g, q);
    SwapOne(Users(g, q), dq, v1);
    OneMember(Users(g, q), dq);
  }

  /** An item has as many users as the pass expects: both nodes of the chain and no other; or,
      if the dequantize node does not read it, as many others as that node has users. */
  ghost predicate ItemFits(g: Graph, y: nat, q: nat, dq: nat)
    requires dq in g.defs
  {
    if Uses(g.defs[dq], y) then Users(g, y) == {q, dq} else |Users(g, y)| == |Users(g, dq)| + 1
  }

  /** What both phases have done to the users of y. */
  lemma UsersAfterBoth(g: Graph, h: Graph, k: Graph, q: nat, dq: nat, v1: set<nat>, v2: set<nat>, y: nat)
    requires dq in g.defs && q in g.defs && q !in Users(g, dq) && q != dq && Replaced(g, h, dq, v1)
    requires q in h.defs && Replaced(h, k, q, v2) && y in g.defs && y != dq && y != q
    ensures y in k.defs && k.defs[y].op == g.defs[y].op
    ensures Users(k, y) == (Users(g, y) - {dq, q}) + (if Uses(g.defs[dq], y) then v1 else {}) + (if Uses(g.defs[q], y) then v2 else {})
    ensures v1 !! g.defs.Keys && v2 !! g.defs.Keys - {dq} && v1 !! v2
  {
    hide Uses, Users, NoDeadCode, Before, Replaced;
    StaysAt(g, h, dq, v1, q);
    StaysAt(g, h, dq, v1, y);
    StaysAt(h, k, q, v2, y);
    FreshCopies(g, h, k, q, dq, v1, v2);
    TakeBoth(Users(g, y), dq, q, if Uses(g.defs[dq], y) then v1 else {}, if Uses(g.defs[q], y) then v2 else {});
  }

  lemma StaysAt(g: Graph, h: Graph, n: nat, v: set<nat>, y: nat)
    requires n in g.defs && Replaced(g, h, n, v) && y in g.defs && y != n
    ensures Stays(g, h, n, v, y)
  {
  }

  lemma TakeBoth(u: set<nat>, dq: nat, q: nat, a: set<nat>, b: set<nat>)
    requires q !in a
    ensures (((u - {dq}) + a) - {q}) + b == (u - {dq, q}) + a + b
  {
  }

  lemma FreshCopies(g: Graph, h: Graph, k: Graph, q: nat, dq: nat, v1: set<nat>, v2: set<nat>)
    requires dq in g.defs && Replaced(g, h, dq, v1) && q in h.defs && Replaced(h, k, q, v2)
    ensures v1 !! g.defs.Keys && v2 !! g.defs.Keys - {dq} && v1 !! v2
  {
    hide Uses, Users, NoDeadCode, Before;
    assert forall z :: z in g.defs && z != dq ==> Stays(g, h, dq, v1, z);
  }

  lemma CountBoth(a: set<nat>, q: nat, dq: nat, v1: set<nat>, v2: set<nat>, read: bool, n: nat)
    requires q in a && q != dq && (read <==> dq in a) && |v1| == n && |v2| == n
    requires a !! v1 && (a - {dq}) !! v2 && v1 !! v2
    ensures |(a - {dq, q}) + (if read then v1 else {}) + v2| == 2 * n <==> if read then a == {q, dq} else |a| == n + 1
  {
    var rest := a - {dq, q};
    if read {
      assert |rest| == |a| - 2;
      assert |rest + v1| == |rest| + n && |rest + v1 + v2| == |rest| + n + n;
      TwoMembers(a, q, dq);
    } else {
      assert rest == a - {q} && |rest| == |a| - 1;
      assert rest + {} + v2 == rest + v2 && |rest + v2| == |rest| + n;
    }
  }

  /** The second count. */
  lemma SecondCountIff(g: Graph, h: Graph, k: Graph, q: nat, dq: nat, v1: set<nat>, v2: set<nat>, y: nat)
    requires dq in g.defs && q in g.defs && q !in Users(g, dq) && q != dq && Replaced(g, h, dq, v1)
    requires q in h.defs && Users(h, q) == v1 && Replaced(h, k, q, v2)
    requires y in g.defs && y != dq && y != q && Uses(g.defs[q], y)
    ensures |Users(k, y)| == 2 * |Users(g, dq)| <==> ItemFits(g, y, q, dq)
  {
    hide Uses, Users, NoDeadCode, Before;
    UsersAfterBoth(g, h, k, q, dq, v1, v2, y);
    UserUses(g, q, y);
    UserUses(g, dq, y);
    UsersAreInGraph(g, y);
    CountBoth(Users(g, y), q, dq, v1, v2, Uses(g.defs[dq], y), |Users(g, dq)|);
  }

  // ---- the pairs the pass accepts ----

  ghost predicate AllAcceptable(g: Graph, g1: nat) {
    forall x :: x in Users(g, g1) && g.defs[x].op.Quantize? ==> Acceptable(g, x)
  }

  /** The other quantize nodes on the first item are pairs of their own, and not of this chain. */
  ghost predicate OthersAcceptable(g: Graph, g1: nat, q: nat, dq: nat) {
    forall x :: x in Users(g, g1) && x != q && g.defs[x].op.Quantize? ==> Acceptable(g, x) && dq !in Users(g, x)
  }

  lemma OtherIsAcceptableIff(g: Graph, h: Graph, k: Graph, q: nat, dq: nat, v1: set<nat>, v2: set<nat>, x: nat)
    requires dq in g.defs && q in g.defs && q !in Users(g, dq) && q != dq && Replaced(g, h, dq, v1)
    requires q in h.defs && Users(h, q) == v1 && Replaced(h, k, q, v2) && |Users(g, dq)| > 1
    requires g.defs[q].op.Quantize? && x in g.defs && x != dq && x != q
    ensures Acceptable(k, x) <==> Acceptable(g, x) && dq !in Users(g, x)
  {
    hide Uses, Users, NoDeadCode, Before, Replaced;
    UsersAfterBoth(g, h, k, q, dq, v1, v2, x);
    ReplacedSizes(g, h, dq, v1);
    ReplacedSizes(h, k, q, v2);
    UserUses(g, dq, x);
    UserUses(g, q, x);
    UsersAreInGraph(g, x);
    if Uses(g.defs[dq], x) {
      MoreThanOne(Users(k, x), v1);
    } else if Uses(g.defs[q], x) {
      MoreThanOne(Users(k, x), v2);
      QuantizeUserIsNotOnly(g, x, q);
    } else {
      assert Users(k, x) == Users(g, x);
      OpsAfterBoth(g, h, k, q, dq, v1, v2, x);
    }
  }

  lemma OpsAfterBoth(g: Graph, h: Graph, k: Graph, q: nat, dq: nat, v1: set<nat>, v2: set<nat>, x: nat)
    requires dq in g.defs && q in g.defs && q !in Users(g, dq) && q != dq && Replaced(g, h, dq, v1)
    requires q in h.defs && Replaced(h, k, q, v2) && dq !in Users(g, x) && q !in Users(g, x)
    ensures forall d :: d in Users(g, x) ==> d in g.defs && d in k.defs && k.defs[d].op == g.defs[d].op
  {
    hide Uses, Users, NoDeadCode, Before, Replaced;
    UsersAreInGraph(g, x);
    forall d | d in Users(g, x)
      ensures d in k.defs && k.defs[d].op == g.defs[d].op
    {
      UsersAfterBoth(g, h, k, q, dq, v1, v2, d);
    }
  }

  lemma ReplacedSizes(g: Graph, h: Graph, n: nat, v: set<nat>)
    requires n in g.defs && Replaced(g, h, n, v)
    ensures |v| == |Users(g, n)|
  {
  }

  lemma MoreThanOne(a: set<nat>, v: set<nat>)
    requires v <= a && |v| > 1
    ensures |a| > 1
  {
    assert |a - v| == |a| - |v|;
  }

  lemma QuantizeUserIsNotOnly(g: Graph, x: nat, q: nat)
    requires q in Users(g, x) && q in g.defs && g.defs[q].op.Quantize?
    ensures !Acceptable(g, x)
  {
  }

  /** A copy of the quantize node serves one dequantize node. */
  lemma CopyIsAcceptable(g: Graph, h: Graph, k: Graph, q: nat, dq: nat, v1: set<nat>, v2: set<nat>, x: nat)
    requires dq in g.defs && g.defs[dq].op.Dequantize? && Replaced(g, h, dq, v1)
    requires q in h.defs && q !in v1 && Users(h, q) == v1 && Replaced(h, k, q, v2) && x in v2
    ensures Acceptable(k, x)
  {
    hide Uses, Users, Replaced;
    var u := OwnerOfCopy(h, k, q, v2, x);
    CopiesAre(g, h, dq, v1);
    KeptOp(h, k, q, v2, u);
  }

  lemma OwnerOfCopy(g: Graph, h: Graph, n: nat, v: set<nat>, x: nat) returns (u: nat)
    requires n in g.defs && Replaced(g, h, n, v) && x in v
    ensures u in Users(g, n) && Users(h, x) == {u}
  {
    hide Uses, Users, NoDeadCode, Before, Stays;
    u :| u in Users(g, n) && Users(h, x) == {u};
  }

  lemma AllAcceptableIff(g: Graph, h: Graph, k: Graph, g1: nat, q: nat, dq: nat, v1: set<nat>, v2: set<nat>)
    requires dq in g.defs && q in g.defs && q !in Users(g, dq) && q != dq && Replaced(g, h, dq, v1)
    requires q in h.defs && Users(h, q) == v1 && Replaced(h, k, q, v2) && |Users(g, dq)| > 1
    requires g.defs[q].op.Quantize? && g.defs[dq].op.Dequantize?
    requires g1 in g.defs && g1 != dq && g1 != q
    ensures AllAcceptable(k, g1) <==> OthersAcceptable(g, g1, q, dq)
  {
    hide Uses, Users, NoDeadCode, Before, Acceptable, Replaced;
    UsersAfterBoth(g, h, k, q, dq, v1, v2, g1);
    UsersAreInGraph(g, g1);
    CopiesAre(g, h, dq, v1);
    CopiesAre(h, k, q, v2);
    forall x | x in Users(g, g1) && x != q && x != dq
      ensures x in k.defs && k.defs[x].op == g.defs[x].op
      ensures Acceptable(k, x) <==> Acceptable(g, x) && dq !in Users(g, x)
    {
      UsersAfterBoth(g, h, k, q, dq, v1, v2, x);
      OtherIsAcceptableIff(g, h, k, q, dq, v1, v2, x);
    }
    forall x | x in v1
      ensures x in k.defs && !k.defs[x].op.Quantize?
    {
      KeptOp(h, k, q, v2, x);
    }
    forall x | x in v2
      ensures Acceptable(k, x)
    {
      CopyIsAcceptable(g, h, k, q, dq, v1, v2, x);
    }
  }

  lemma CopiesAre(g: Graph, h: Graph, n: nat, v: set<nat>)
    requires n in g.defs && Replaced(g, h, n, v)
    ensures forall d :: d in v ==> d !in g.defs && d in h.defs && h.defs[d] == g.defs[n]
  {
  }

  lemma KeptOp(h: Graph, k: Graph, q: nat, v: set<nat>, x: nat)
    requires q in h.defs && Replaced(h, k, q, v) && x in h.defs && x != q
    ensures x in k.defs && k.defs[x].op == h.defs[x].op && (x !in Users(h, q) ==> k.defs[x] == h.defs[x])
  {
    assert Stays(h, k, q, v, x);
  }

  // ---- the order of the copies ----

  lemma ReadyStays(g: Graph, g': Graph, n: nat, v: set<nat>, g1: nat, g2: nat)
    requires Closed(g) && Closed(g') && n in g.defs && Replaced(g, g', n, v)
    requires g1 in g.defs && g2 in g.defs && n !in {g1, g2} && g2 !in Users(g, n) && !Uses(g.defs[g2], n)
    ensures g1 in g'.defs && g2 in g'.defs && g'.defs[g2] == g.defs[g2]
    ensures ReadsReady(g', g2, g1) <==> ReadsReady(g, g2, g1)
  {
    hide Before, NoDeadCode, Users;
    KeptOp(g, g', n, v, g1);
    KeptOp(g, g', n, v, g2);
    UniqueOrder(g);
    UniqueOrder(g');
    forall x | Uses(g.defs[g2], x) && x != g1
      ensures Before(g'.order, x, g1) <==> Before(g.order, x, g1)
    {
      KeptOp(g, g', n, v, x);
      SameSide(g.order, g'.order, x, g1);
    }
  }

  lemma SameSide(a: seq<nat>, b: seq<nat>, x: nat, y: nat)
    requires NoRepeats(a) && NoRepeats(b) && x in a && y in a && x in b && y in b && x != y
    requires (Before(a, x, y) ==> Before(b, x, y)) && (Before(a, y, x) ==> Before(b, y, x))
    ensures Before(a, x, y) <==> Before(b, x, y)
  {
    BeforeIsPos(a, x, y);
    BeforeIsPos(a, y, x);
    BeforeIsPos(b, x, y);
    BeforeIsPos(b, y, x);
    assert a[Pos(a, x)] == x && a[Pos(a, y)] == y;
  }

  /** An item of the computed parameters and of nothing else. */
  ghost predicate PlainItem(g: Graph, choose: nat, g2: nat) {
    g2 in g.defs && g.defs[g2].op == GetItem && forall x: nat :: Uses(g.defs[g2], x) ==> x == choose
  }

  /** The chain as it comes out of quantization: nothing dead, and no node of it used elsewhere. */
  ghost predicate Unshared(g: Graph, choose: nat, g1: nat, g2: nat, q: nat, dq: nat) {
    && NoDeadCode(g) && PlainItem(g, choose, g2)
    && Users(g, q) == {dq} && Users(g, g1) == {q, dq} && Users(g, g2) == {q, dq}
  }

  lemma PlainIsReady(g: Graph, choose: nat, g1: nat, g2: nat)
    requires Closed(g) && Ordered(g) && g1 in g.defs && Uses(g.defs[g1], choose) && PlainItem(g, choose, g2)
    ensures ReadsReady(g, g2, g1)
  {
    hide Before;
  }
}
