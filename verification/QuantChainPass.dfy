/** The pass over one dequantize node: its users, then the quantize node's users, then each
    quantize/dequantize pair get nodes of their own (`_maybe_duplicate_dynamic_quantize_chain`). */
module QuantChainPass {
  import opened FxGraph
  import opened Duplication
  import opened DuplicateQuantChain
  import opened QuantChainPairs
  import opened QuantChainCounts

  datatype Outcome = Stopped(graph: Graph) | Raised | Done(graph: Graph)

  /** The first part of a chain: dequantize node d for u alone, quantize node q for d alone. */
  ghost predicate Half(g: Graph, u: nat, d: nat, q: nat) {
    && d in g.defs && g.defs[d].op.Dequantize? && Users(g, d) == {u}
    && q in g.defs && g.defs[q].op.Quantize? && Users(g, q) == {d}
  }

  /** The chain the pass has matched: parameters, items, quantize and dequantize node. */
  datatype Chain = Chain(choose: nat, g1: nat, g2: nat, q: nat, dq: nat)

  ghost predicate HasChain(g: Graph, m: Chain) {
    Closed(g) && Ordered(g) && Matched(g, m.choose, m.g1, m.g2, m.q, m.dq)
  }

  /** The dequantize node reads no quantize node on the first item but its own. */
  ghost predicate SoleQuantize(g: Graph, g1: nat, q: nat, dq: nat) {
    forall x :: x in Users(g, g1) && x != q && g.defs[x].op.Quantize? ==> dq !in Users(g, x)
  }

  /** Copies of the matched nodes that read each other wherever the originals did. */
  ghost predicate CopiedNodes(g0: Graph, g: Graph, m: Chain, d: nat, q: nat, a: nat, b: nat, w: nat)
    requires {m.choose, m.g1, m.g2, m.q, m.dq} <= g0.defs.Keys && {d, q, a, b, w} <= g.defs.Keys
  {
    && g.defs[w] == g0.defs[m.choose]
    && g.defs[a] == RenameNode(g0.defs[m.g1], m.choose, w) && g.defs[b] == RenameNode(g0.defs[m.g2], m.choose, w)
    && g.defs[q] == RenameNode(RenameNode(g0.defs[m.q], m.g1, a), m.g2, b)
    && (SoleQuantize(g0, m.g1, m.q, m.dq) ==>
          g.defs[d] == RenameNode(RenameNode(RenameNode(g0.defs[m.dq], m.q, q), m.g1, a), m.g2, b))
  }

  /** Dequantize node d, quantize node q, items a and b and parameters w are new and u's alone:
      nobody else reads them, they read no original item, and they are copies of the chain. */
  ghost predicate OwnNodes(g0: Graph, g: Graph, m: Chain, u: nat, d: nat, q: nat, a: nat, b: nat, w: nat)
    requires {m.choose, m.g1, m.g2, m.q, m.dq} <= g0.defs.Keys
  {
    && {d, q, a, b, w} !! g0.defs.Keys && a != b
    && Half(g, u, d, q) && OwnParameters(g, q, d, a, b, w)
    && FreeOf(g, d, m.g1, m.g2) && FreeOf(g, q, m.g1, m.g2)
    && CopiedNodes(g0, g, m, d, q, a, b, w)
  }

  /** u reads through quantize, dequantize, items and parameters of its own. */
  ghost predicate OwnChain(g0: Graph, g: Graph, m: Chain, u: nat)
    requires {m.choose, m.g1, m.g2, m.q, m.dq} <= g0.defs.Keys
  {
    exists d, q, a, b, w :: OwnNodes(g0, g, m, u, d, q, a, b, w)
  }

  /** What such a chain reads: the dequantize node has the copies of the items exactly where the
      original had the items, and neither an original item nor the original quantize node. */
  lemma OwnReads(g0: Graph, g: Graph, m: Chain, u: nat, d: nat, q: nat, a: nat, b: nat, w: nat)
    requires HasChain(g0, m) && {m.choose, m.g1, m.g2, m.q, m.dq} <= g0.defs.Keys
    requires OwnNodes(g0, g, m, u, d, q, a, b, w) && Items(g0, m.choose, m.g1, m.g2)
    requires SoleQuantize(g0, m.g1, m.q, m.dq)
    ensures Uses(g.defs[d], a) <==> Uses(g0.defs[m.dq], m.g1)
    ensures Uses(g.defs[d], b) <==> Uses(g0.defs[m.dq], m.g2)
    ensures !Uses(g.defs[d], m.g1) && !Uses(g.defs[d], m.g2) && !Uses(g.defs[d], m.q) && Uses(g.defs[d], q)
    ensures !Uses(g.defs[a], m.choose) && !Uses(g.defs[b], m.choose)
  {
    hide Before, Ordered, SoleQuantize, Users, RenameNode;
    MatchedFacts(g0, m.choose, m.g1, m.g2, m.q, m.dq);
    var n := g0.defs[m.dq];
    var n1 := RenameNode(n, m.q, q);
    var n2 := RenameNode(n1, m.g1, a);
    forall x | x in {m.q, m.g1, m.g2, q, a, b}
      ensures Uses(n1, x) <==> (x != m.q && Uses(n, x)) || (x == q && Uses(n, m.q))
      ensures Uses(n2, x) <==> (x != m.g1 && Uses(n1, x)) || (x == a && Uses(n1, m.g1))
      ensures Uses(g.defs[d], x) <==> (x != m.g2 && Uses(n2, x)) || (x == b && Uses(n2, m.g2))
      ensures x !in g0.defs ==> !Uses(n, x)
    {
      RenamedNodeUses(n, m.q, q, x);
      RenamedNodeUses(n1, m.g1, a, x);
      RenamedNodeUses(n2, m.g2, b, x);
    }
    RenamedNodeUses(g0.defs[m.g1], m.choose, w, m.choose);
    RenamedNodeUses(g0.defs[m.g2], m.choose, w, m.choose);
  }

  /** A node used by u alone survives dead code elimination if u does, and is used by u alone. */
  lemma PrunedOwn(g: Graph, g': Graph, d: nat, u: nat)
    requires Closed(g') && IsPruned(g, g') && Users(g, d) == {u} && u in g'.defs
    ensures d in g'.defs && g'.defs[d] == g.defs[d] && Users(g', d) == {u}
  {
    assert u in Users(g, d);
    forall x | x in Users(g', d)
      ensures x in Users(g, d)
    {
    }
    assert Uses(g'.defs[u], d);
  }

  lemma PrunedHalf(g: Graph, g': Graph, u: nat, d: nat, q: nat)
    requires Closed(g') && IsPruned(g, g') && Half(g, u, d, q) && u in g'.defs
    ensures Half(g', u, d, q) && g'.defs[q] == g.defs[q]
  {
    hide IsPruned, Closed, Uses;
    PrunedOwn(g, g', d, u);
    PrunedOwn(g, g', q, d);
  }

  lemma PrunedUsers(g: Graph, g': Graph, x: nat)
    requires IsPruned(g, g')
    ensures Users(g', x) <= Users(g, x)
  {
  }

  lemma PrunedParameters(g: Graph, g': Graph, q: nat, d: nat, a: nat, b: nat, w: nat)
    requires Closed(g') && IsPruned(g, g') && OwnParameters(g, q, d, a, b, w) && q in g'.defs
    ensures OwnParameters(g', q, d, a, b, w)
  {
    PrunedUsers(g, g', a);
    PrunedUsers(g, g', b);
    PrunedUsers(g, g', w);
    assert g'.defs[q] == g.defs[q];
  }

  lemma PrunedChain(g0: Graph, g: Graph, g': Graph, m: Chain, u: nat)
    requires {m.choose, m.g1, m.g2, m.q, m.dq} <= g0.defs.Keys
    requires Closed(g') && IsPruned(g, g') && OwnChain(g0, g, m, u) && u in g'.defs
    ensures OwnChain(g0, g', m, u)
  {
    hide IsPruned, Closed, OwnNodes;
    var d, q, a, b, w :| OwnNodes(g0, g, m, u, d, q, a, b, w);
    PrunedNodes(g0, g, g', m, u, d, q, a, b, w);
  }

  lemma PrunedNodes(g0: Graph, g: Graph, g': Graph, m: Chain, u: nat, d: nat, q: nat, a: nat, b: nat, w: nat)
    requires {m.choose, m.g1, m.g2, m.q, m.dq} <= g0.defs.Keys
    requires Closed(g') && IsPruned(g, g') && OwnNodes(g0, g, m, u, d, q, a, b, w) && u in g'.defs
    ensures OwnNodes(g0, g', m, u, d, q, a, b, w)
  {
    hide Closed, Uses, Users, SoleQuantize, RenameNode, Before;
    PrunedHalf(g, g', u, d, q);
    PrunedParameters(g, g', q, d, a, b, w);
  }

  /** What is known of the nodes the chain starts from, as long as they are in the graph. */
  ghost predicate Roots(g: Graph, choose: nat, g1: nat, g2: nat, q: nat, items: bool) {
    && (q in g.defs ==> g.defs[q].op.Quantize? && Uses(g.defs[q], g1) && Uses(g.defs[q], g2))
    && (g1 in g.defs ==> g.defs[g1].op == GetItem && Uses(g.defs[g1], choose))
    && (choose in g.defs ==> g.defs[choose].op == ChooseQParams)
    && (items ==> g1 != g2 && (g2 in g.defs ==> Uses(g.defs[g2], choose)))
  }

  lemma PrunedRoots(g: Graph, g': Graph, choose: nat, g1: nat, g2: nat, q: nat, items: bool)
    requires IsPruned(g, g') && Roots(g, choose, g1, g2, q, items)
    ensures Roots(g', choose, g1, g2, q, items)
  {
  }

  lemma ReplicatedRoots(g: Graph, g': Graph, n: nat, clones: map<nat, nat>,
                        choose: nat, g1: nat, g2: nat, q: nat, items: bool)
    requires n in g.defs && Replicated(g, g', n, clones) && Roots(g, choose, g1, g2, q, items)
    requires {q, g1, g2, choose} <= g.defs.Keys && n !in {choose, g1, g2}
    ensures Roots(g', choose, g1, g2, q, items)
  {
    hide Replicated, Uses;
    ReplicatedUses(g, g', n, clones, q, g1);
    ReplicatedUses(g, g', n, clones, q, g2);
    ReplicatedUses(g, g', n, clones, g1, choose);
    ReplicatedUses(g, g', n, clones, g2, choose);
    ReplicatedUses(g, g', n, clones, choose, g1);
  }

  /** Node d is new, a copy of n, and u's alone. */
  ghost predicate OwnCopy(g0: Graph, g: Graph, u: nat, d: nat, n: nat)
    requires n in g0.defs
  {
    d !in g0.defs && d in g.defs && g.defs[d] == g0.defs[n] && Users(g, d) == {u}
  }

  ghost predicate AllOwnCopies(g0: Graph, g: Graph, users: set<nat>, n: nat)
    requires n in g0.defs
  {
    forall u :: u in users && u in g.defs ==> exists d :: OwnCopy(g0, g, u, d, n)
  }

  lemma OwnAfterFirst(g: Graph, gi: Graph, g': Graph, dq: nat, clones: map<nat, nat>)
    requires Closed(g) && dq in g.defs
    requires Replicated(g, gi, dq, clones) && Closed(g') && IsPruned(gi, g')
    ensures AllOwnCopies(g, g', clones.Keys, dq)
  {
    hide Closed, IsPruned, Uses;
    forall u | u in clones.Keys && u in g'.defs
      ensures exists d :: OwnCopy(g, g', u, d, dq)
    {
      ClonesAreOwn(g, gi, dq, clones, u);
      PrunedOwn(gi, g', clones[u], u);
      assert OwnCopy(g, g', u, clones[u], dq);
    }
  }

  /** The nodes the chain starts from are as they were, as long as they are in the graph; and
      no node has started to read the first item, or changed its operator. */
  ghost predicate SameRoots(g0: Graph, g: Graph, m: Chain) {
    && (forall x :: x in {m.choose, m.g1, m.g2, m.q} && x in g.defs ==> x in g0.defs && g.defs[x] == g0.defs[x])
    && (forall x :: x in g0.defs && x in g.defs ==>
          g.defs[x].op == g0.defs[x].op && (Uses(g.defs[x], m.g1) ==> Uses(g0.defs[x], m.g1)))
  }

  /** Copying n, which reads the chain's roots or comes after them, leaves the roots alone. */
  lemma RootsStay(g0: Graph, g: Graph, gi: Graph, g': Graph, m: Chain, n: nat, clones: map<nat, nat>)
    requires SameRoots(g0, g, m) && n in g.defs && n != m.g1 && m.g1 in g.defs && Replicated(g, gi, n, clones)
    requires IsPruned(gi, g') && {m.choose, m.g1, m.g2, m.q} !! Users(g, n)
    requires forall x :: x in gi.defs && x in g0.defs ==> x in g.defs
    requires forall x :: x in {m.choose, m.g1, m.g2, m.q} && x in g'.defs ==> x in g.defs
    ensures SameRoots(g0, g', m)
  {
    hide Uses, ClonesOf, RenameNode;
    forall x | x in g0.defs && x in g'.defs
      ensures g'.defs[x].op == g0.defs[x].op && (Uses(g'.defs[x], m.g1) ==> Uses(g0.defs[x], m.g1))
    {
      ReplicatedUses(g, gi, n, clones, x, m.g1);
    }
  }

  /** What comes before n, or is n, does not use n. */
  lemma EarlierIsNoUser(g: Graph, n: nat, x: nat)
    requires Closed(g) && Ordered(g) && (x == n || Before(g.order, x, n))
    ensures x !in Users(g, n)
  {
    hide Before;
    NotOwnUser(g, n);
    if x in Users(g, n) {
      BeforeIsPos(g.order, x, n);
      BeforeIsPos(g.order, n, x);
    }
  }

  /** The roots of the chain use neither the quantize nor the dequantize node. */
  lemma RootsAreEarlier(g: Graph, m: Chain, n: nat)
    requires Closed(g) && Ordered(g) && m.q in g.defs && Uses(g.defs[m.q], m.g1) && Uses(g.defs[m.q], m.g2)
    requires m.g1 in g.defs && Uses(g.defs[m.g1], m.choose) && (n == m.q || (n in g.defs && Uses(g.defs[n], m.q)))
    ensures {m.choose, m.g1, m.g2, m.q} !! Users(g, n) && n != m.g1
  {
    hide Before, Users;
    UniqueOrder(g);
    BeforeTransitive(g.order, m.choose, m.g1, m.q);
    if n != m.q {
      BeforeTransitive(g.order, m.choose, m.q, n);
      BeforeTransitive(g.order, m.g1, m.q, n);
      BeforeTransitive(g.order, m.g2, m.q, n);
    }
    BeforeIsPos(g.order, m.g1, n);
    forall x | x in {m.choose, m.g1, m.g2, m.q}
      ensures x !in Users(g, n)
    {
      EarlierIsNoUser(g, n, x);
    }
  }

  /** First phase: a dequantize node for each annotated user, up to the first that is not. */
  method CopyDequantize(g: Graph, choose: nat, g1: nat, g2: nat, q: nat, dq: nat, annotated: set<nat>, next: nat)
    returns (done: bool, g': Graph, next': nat, ghost f': map<nat, nat>, ghost v1: set<nat>)
    requires Closed(g) && Ordered(g) && Below(g, next) && Matched(g, choose, g1, g2, q, dq)
    ensures Sound(g, g', f') && Below(g', next') && Below(g, next')
    ensures done <==> Users(g, dq) <= annotated
    ensures done ==> dq in g.defs && AllOwnCopies(g, g', Users(g, dq), dq)
    ensures done ==> Roots(g', choose, g1, g2, q, Items(g, choose, g1, g2)) && SameRoots(g, g', Chain(choose, g1, g2, q, dq))
    ensures done ==> dq !in g'.defs && dq < next'
    ensures done && NoDeadCode(g) && Users(g, dq) != {} ==> dq in g.defs && Replaced(g, g', dq, v1)
  {
    hide Closed, Ordered, Below, Sound, Replicated, IsPruned, AllOwnCopies, Uses, NoDeadCode, Replaced, KeepsOrder, SameRoots,
      Users;
    ItselfIsSound(g);
    ghost var clones;
    g', next', done, f', clones := CopyForUsers(g, dq, annotated, next, g, Identity(g));
    if done {
      ghost var gi := g';
      SoundIsClosed(g, g', f');
      g' := EliminateDeadCode(g');
      PrunedIsSound(g, gi, g', f');
      f' := Restrict(f', g'.defs.Keys);
      OwnAfterFirst(g, gi, g', dq, clones);
      FirstKeepsRoots(g, gi, g', Chain(choose, g1, g2, q, dq), clones);
      MatchedIsAcyclic(g, choose, g1, g2, q, dq);
      ReplicatedRoots(g, gi, dq, clones, choose, g1, g2, q, Items(g, choose, g1, g2));
      PrunedRoots(gi, g', choose, g1, g2, q, Items(g, choose, g1, g2));
      PrunedBelow(gi, g', next');
      ReplicatedGoes(g, gi, g', dq, clones);
      IsBelow(g, next', dq);
      if NoDeadCode(g) && Users(g, dq) != {} {
        CopiesReplace(g, gi, g', dq, clones);
      }
    }
    v1 := clones.Values;
  }

  lemma FirstKeepsRoots(g: Graph, gi: Graph, g': Graph, m: Chain, clones: map<nat, nat>)
    requires HasChain(g, m) && m.dq in g.defs && Replicated(g, gi, m.dq, clones) && IsPruned(gi, g')
    ensures SameRoots(g, g', m)
  {
    hide Ordered, Replicated, IsPruned, Uses, Users;
    MatchedIsAcyclic(g, m.choose, m.g1, m.g2, m.q, m.dq);
    RootsAreEarlier(g, m, m.dq);
    RootsStay(g, g, gi, g', m, m.dq, clones);
  }

  lemma IsBelow(g: Graph, next: nat, x: nat)
    requires Below(g, next) && x in g.defs
    ensures x < next
  {
  }

  /** A node copied for all its users is dead, and goes. */
  lemma ReplicatedGoes(g: Graph, gi: Graph, g': Graph, n: nat, clones: map<nat, nat>)
    requires Closed(g) && Ordered(g) && n in g.defs && !IsImpure(g.defs[n].op)
    requires Replicated(g, gi, n, clones) && clones.Keys == Users(g, n) && IsPruned(gi, g') && NoDeadCode(g')
    ensures n !in g'.defs
  {
    hide Closed, Ordered, Uses;
    NotOwnUser(g, n);
    ReplicatedUsersOf(g, gi, n, clones, n);
    ReplicatedKeepsOp(g, gi, n, clones, n);
    PrunedUsers(gi, g', n);
  }

  lemma ReplicatedIsNew(g: Graph, gi: Graph, g': Graph, n: nat, clones: map<nat, nat>, next: nat)
    requires n in g.defs && Replicated(g, gi, n, clones) && IsPruned(gi, g') && forall u :: u in clones ==> clones[u] >= next
    ensures NewFrom(g, g', next)
  {
  }

  lemma PrunedIsNew(g: Graph, h: Graph, g': Graph, next: nat)
    requires NewFrom(g, h, next) && IsPruned(h, g')
    ensures NewFrom(g, g', next)
  {
  }

  lemma ItselfIsSound(g: Graph)
    requires Closed(g) && Ordered(g)
    ensures Sound(g, g, Identity(g))
  {
    GraphFoldsOntoItself(g);
  }

  lemma PrunedBelow(g: Graph, g': Graph, next: nat)
    requires IsPruned(g, g') && Below(g, next)
    ensures Below(g', next)
  {
  }

  /** Nodes after the items, apart from the second item itself. */
  ghost function Downstream(g: Graph, g1: nat, g2: nat): set<nat> {
    set y | y in g.defs && Before(g.order, g1, y) && y != g2
  }

  lemma DownstreamIsAlive(g: Graph, h: Graph, choose: nat, g1: nat, g2: nat)
    requires Closed(g) && Ordered(g) && NoDeadCode(g) && Parameters(g, choose, g1, g2) && ReadsReady(g, g2, g1)
    requires SameUsers(g, h, choose, g1, g2) && SameOps(g, h)
    ensures KeptAlive(h, Downstream(g, g1, g2))
  {
    hide Before, Uses;
    UniqueOrder(g);
    BeforeReads(g, choose, g1);
    forall y | y in Downstream(g, g1, g2) && !IsImpure(g.defs[y].op)
      ensures exists u :: u in Downstream(g, g1, g2) && u in Users(h, y)
    {
      AfterIsUnread(g, choose, g1, g2, y);
      BeforeIsPos(g.order, g1, y);
      BeforeIsPos(g.order, choose, g1);
      var u :| u in Users(g, y);
      BeforeTransitive(g.order, g1, y, u);
      assert Unread(g, choose, g1, g2, y);
      assert u in Downstream(g, g1, g2);
    }
  }

  lemma HalfIsDownstream(g: Graph, choose: nat, g1: nat, g2: nat, u: nat, d: nat, q: nat)
    requires Closed(g) && Ordered(g) && Parameters(g, choose, g1, g2) && ReadsReady(g, g2, g1)
    requires Half(g, u, d, q) && Uses(g.defs[q], g1)
    ensures u in Downstream(g, g1, g2)
  {
    hide Before;
    assert u in Users(g, d) && d in Users(g, q);
    UniqueOrder(g);
    BeforeTransitive(g.order, g1, q, d);
    BeforeTransitive(g.order, g1, d, u);
    AfterIsUnread(g, choose, g1, g2, d);
  }

  ghost predicate ReadsItems(g: Graph, q: nat, g1: nat, g2: nat) {
    q in g.defs && Uses(g.defs[q], g1) && Uses(g.defs[q], g2)
  }

  ghost predicate AllHalf(g: Graph, users: set<nat>, g1: nat, g2: nat) {
    forall u :: u in users && u in g.defs ==> exists d, q :: Half(g, u, d, q) && ReadsItems(g, q, g1, g2)
  }

  /** The nodes of the first part are new copies of the chain's, reading each other. */
  ghost predicate HalfIs(g0: Graph, g: Graph, q0: nat, dq0: nat, d: nat, q: nat)
    requires q0 in g0.defs && dq0 in g0.defs
  {
    && d !in g0.defs && q !in g0.defs && d in g.defs && q in g.defs
    && g.defs[q] == g0.defs[q0] && g.defs[d] == RenameNode(g0.defs[dq0], q0, q)
  }

  ghost predicate AllHalfAre(g0: Graph, g: Graph, users: set<nat>, q0: nat, dq0: nat)
    requires q0 in g0.defs && dq0 in g0.defs
  {
    forall u :: u in users && u in g.defs ==> exists d, q :: Half(g, u, d, q) && HalfIs(g0, g, q0, dq0, d, q)
  }

  lemma HalvesRead(g0: Graph, g: Graph, users: set<nat>, q0: nat, dq0: nat, g1: nat, g2: nat)
    requires q0 in g0.defs && dq0 in g0.defs && AllHalfAre(g0, g, users, q0, dq0)
    requires Uses(g0.defs[q0], g1) && Uses(g0.defs[q0], g2)
    ensures AllHalf(g, users, g1, g2)
  {
    hide Half, Uses;
    forall u | u in users && u in g.defs
      ensures exists d, q :: Half(g, u, d, q) && ReadsItems(g, q, g1, g2)
    {
      var d, q :| Half(g, u, d, q) && HalfIs(g0, g, q0, dq0, d, q);
      assert ReadsItems(g, q, g1, g2);
    }
  }

  /** One chain through the second phase. */
  lemma HalfAfterSecond(g0: Graph, g: Graph, gi: Graph, q: nat, dq: nat, clones: map<nat, nat>, u: nat, d: nat)
    requires Closed(g) && Ordered(g) && q in g.defs && g.defs[q].op.Quantize?
    requires q in g0.defs && dq in g0.defs && g.defs[q] == g0.defs[q]
    requires OwnCopy(g0, g, u, d, dq) && g0.defs[dq].op.Dequantize? && Uses(g0.defs[dq], q)
    requires Replicated(g, gi, q, clones) && clones.Keys == Users(g, q)
    requires forall u :: u in clones ==> clones[u] !in g0.defs
    ensures d in clones && Half(gi, u, d, clones[d]) && HalfIs(g0, gi, q, dq, d, clones[d])
  {
    hide Before;
    assert d in Users(g, q);
    ClonesAreOwn(g, gi, q, clones, d);
    BeforeIsPos(g.order, q, d);
    BeforeIsPos(g.order, d, q);
    assert !Uses(g.defs[q], d);
    ReplicatedKeepsUsers(g, gi, q, clones, d);
  }

  lemma AllHalfAfterSecond(g0: Graph, g: Graph, gi: Graph, g': Graph, q: nat, dq: nat, clones: map<nat, nat>, users: set<nat>)
    requires Closed(g) && Ordered(g) && q in g.defs && g.defs[q].op.Quantize?
    requires q in g0.defs && dq in g0.defs && g.defs[q] == g0.defs[q]
    requires AllOwnCopies(g0, g, users, dq) && g0.defs[dq].op.Dequantize? && Uses(g0.defs[dq], q)
    requires Replicated(g, gi, q, clones) && clones.Keys == Users(g, q)
    requires Closed(g') && IsPruned(gi, g')
    requires users <= g0.defs.Keys && forall u :: u in clones ==> clones[u] !in g0.defs
    ensures AllHalfAre(g0, g', users, q, dq)
  {
    hide Closed, Ordered, Uses, Half, OwnCopy;
    forall u | u in users && u in g'.defs
      ensures exists d, c :: Half(g', u, d, c) && HalfIs(g0, g', q, dq, d, c)
    {
      var d :| OwnCopy(g0, g, u, d, dq);
      HalfAfterSecond(g0, g, gi, q, dq, clones, u, d);
      PrunedHalf(gi, g', u, d, clones[d]);
      assert HalfIs(g0, g', q, dq, d, clones[d]) by {
        HalfIsThere(g', u, d, clones[d]);
      }
    }
  }

  lemma HalfIsThere(g: Graph, u: nat, d: nat, q: nat)
    requires Half(g, u, d, q)
    ensures u in g.defs && d in g.defs && q in g.defs
  {
    assert u in Users(g, d);
  }

  /** Second phase: a quantize node for each dequantize node. */
  method CopyQuantize(g: Graph, q: nat, next: nat, ghost g0: Graph, ghost f: map<nat, nat>,
                      ghost users: set<nat>, ghost choose: nat, ghost g1: nat, ghost g2: nat, ghost dq: nat, ghost items: bool)
    returns (g': Graph, next': nat, ghost f': map<nat, nat>, ghost v2: set<nat>)
    requires Sound(g0, g, f) && Below(g, next) && Below(g0, next) && q in g.defs && users <= g0.defs.Keys
    requires HasChain(g0, Chain(choose, g1, g2, q, dq)) && dq in g0.defs && AllOwnCopies(g0, g, users, dq)
    requires Roots(g, choose, g1, g2, q, items) && SameRoots(g0, g, Chain(choose, g1, g2, q, dq))
    ensures Sound(g0, g', f') && Below(g', next') && Below(g0, next')
    ensures q in g0.defs && AllHalfAre(g0, g', users, q, dq) && Roots(g', choose, g1, g2, q, items)
    ensures SameRoots(g0, g', Chain(choose, g1, g2, q, dq))
    ensures NewFrom(g, g', next) && next <= next' && q !in g'.defs
    ensures NoDeadCode(g) && Users(g, q) != {} ==> Replaced(g, g', q, v2)
  {
    hide Closed, Ordered, Below, Sound, Replicated, IsPruned, AllOwnCopies, Uses, AllHalfAre, Roots, NoDeadCode, ReadsItems,
      Replaced, KeepsOrder, NewFrom, SameRoots, HasChain;
    ghost var m := Chain(choose, g1, g2, q, dq);
    ChainNodes(g0, m);
    SameNode(g0, g, m);
    ghost var clones;
    var done;
    g', next', done, f', clones := CopyForUsers(g, q, Users(g, q), next, g0, f);
    ghost var gi := g';
    SoundIsClosed(g0, g, f);
    SoundIsClosed(g0, g', f');
    g' := EliminateDeadCode(g');
    PrunedIsSound(g0, gi, g', f');
    f' := Restrict(f', g'.defs.Keys);
    RootsAreInGraph(g, choose, g1, g2, q, items);
    FreshIsNew(g0, next, clones);
    AllHalfAfterSecond(g0, g, gi, g', q, dq, clones, users);
    SecondKeepsRoots(g0, g, gi, g', m, clones, next);
    ReplicatedRoots(g, gi, q, clones, choose, g1, g2, q, items);
    PrunedRoots(gi, g', choose, g1, g2, q, items);
    PrunedBelow(gi, g', next');
    ReplicatedGoes(g, gi, g', q, clones);
    ReplicatedIsNew(g, gi, g', q, clones, next);
    if NoDeadCode(g) && Users(g, q) != {} {
      CopiesReplace(g, gi, g', q, clones);
    }
    v2 := clones.Values;
  }

  lemma ChainNodes(g: Graph, m: Chain)
    requires HasChain(g, m)
    ensures {m.choose, m.g1, m.g2, m.q, m.dq} <= g.defs.Keys
    ensures g.defs[m.dq].op.Dequantize? && Uses(g.defs[m.dq], m.q)
    ensures Uses(g.defs[m.q], m.g1) && Uses(g.defs[m.q], m.g2)
  {
  }

  lemma SameNode(g0: Graph, g: Graph, m: Chain)
    requires SameRoots(g0, g, m) && m.q in g.defs
    ensures m.q in g0.defs && g.defs[m.q] == g0.defs[m.q]
  {
  }

  lemma SecondKeepsRoots(g0: Graph, g: Graph, gi: Graph, g': Graph, m: Chain, clones: map<nat, nat>, next: nat)
    requires HasChain(g0, m) && SameRoots(g0, g, m) && m.q in g.defs && Closed(g) && Ordered(g) && Below(g0, next)
    requires Replicated(g, gi, m.q, clones) && IsPruned(gi, g') && forall u :: u in clones ==> clones[u] >= next
    ensures SameRoots(g0, g', m)
  {
    hide Ordered, Uses, RenameNode, Users, SameRoots;
    ChainNodes(g0, m);
    SameNode(g0, g, m);
    RootsOfSame(g0, g, m);
    RootsAreEarlier(g, m, m.q);
    assert forall x :: x in gi.defs && x in g0.defs ==> x in g.defs;
    RootsStay(g0, g, gi, g', m, m.q, clones);
  }

  lemma RootsOfSame(g0: Graph, g: Graph, m: Chain)
    requires HasChain(g0, m) && SameRoots(g0, g, m) && Closed(g) && m.q in g.defs
    ensures m.g1 in g.defs && Uses(g.defs[m.g1], m.choose)
  {
  }

  lemma RootsAreInGraph(g: Graph, choose: nat, g1: nat, g2: nat, q: nat, items: bool)
    requires Closed(g) && Ordered(g) && q in g.defs && Roots(g, choose, g1, g2, q, items)
    ensures {q, g1, g2, choose} <= g.defs.Keys && q !in {choose, g1, g2} && ReadsItems(g, q, g1, g2)
    ensures g.defs[q].op.Quantize?
  {
    NotOwnUser(g, q);
    assert q in Users(g, g2);
  }

  lemma FreshIsNew(g0: Graph, next: nat, clones: map<nat, nat>)
    requires Below(g0, next) && forall u :: u in clones ==> clones[u] >= next
    ensures forall u :: u in clones ==> clones[u] !in g0.defs
  {
  }

  /** The pair of one chain in the third phase: its nodes are still the chain's, and served. */
  lemma PairOfHalf(g0: Graph, f: map<nat, nat>, g: Graph, h: Graph, m: Chain, pairs: seq<Pair>, next: nat,
                   u: nat, d: nat, q: nat) returns (k: nat)
    requires Servable(g, m.choose, m.g1, m.g2, pairs, next) && Covers(g, m.g1, pairs, {}) && Items(g, m.choose, m.g1, m.g2)
    requires Serving(g0, f, g, h, m.choose, m.g1, m.g2, pairs, |pairs|, next)
    requires Half(g, u, d, q) && ReadsItems(g, q, m.g1, m.g2)
    ensures k < |pairs| && pairs[k] == (q, d) && Half(h, u, d, q)
    ensures OwnsParameters(h, m.g1, m.g2, (q, d), next + 3 * k)
  {
    hide Before, Ordered, Sound, Closed, OwnParameters, Uses, RedefinedUpTo, FreeOf;
    assert q in Users(g, m.g1);
    var k' :| 0 <= k' < |pairs| && pairs[k'].0 == q;
    k := k';
    assert pairs[k].1 in {d};
    PairIsUnread(g, m.choose, m.g1, m.g2, q, d);
  }

  /** If the original dequantize node reads one quantize node on the first item only, so does
      each of its copies. */
  lemma SoleIsLone(g0: Graph, g: Graph, m: Chain, pairs: seq<Pair>, k: nat)
    requires HasChain(g0, m) && SameRoots(g0, g, m) && m.q !in g.defs && m.q in g0.defs && m.dq in g0.defs
    requires ArePairs(g, m.g1, pairs) && k < |pairs|
    requires HalfIs(g0, g, m.q, m.dq, pairs[k].1, pairs[k].0)
    requires SoleQuantize(g0, m.g1, m.q, m.dq)
    ensures Lone(pairs, k)
  {
    hide Ordered, Before, RenameNode;
    var q, d := pairs[k].0, pairs[k].1;
    forall j: nat | j < |pairs| && j != k
      ensures pairs[j].1 != d
    {
      var x := pairs[j].0;
      assert IsPair(g, m.g1, x, pairs[j].1);
      assert pairs[j].1 in Users(g, x);
      RenamedNodeUses(g0.defs[m.dq], m.q, q, x);
      OtherReads(g0, g, m, x);
    }
  }

  lemma OtherReads(g0: Graph, g: Graph, m: Chain, x: nat)
    requires HasChain(g0, m) && SameRoots(g0, g, m) && SoleQuantize(g0, m.g1, m.q, m.dq) && m.dq in g0.defs
    requires x in g.defs && x != m.q && g.defs[x].op.Quantize? && Uses(g.defs[x], m.g1)
    ensures !Uses(g0.defs[m.dq], x)
  {
    hide Ordered;
  }

  /** One chain through the third phase. */
  lemma ChainAfterThird(g0: Graph, f: map<nat, nat>, g: Graph, h: Graph, m: Chain, pairs: seq<Pair>, next: nat,
                        u: nat, d: nat, q: nat)
    requires HasChain(g0, m) && SameRoots(g0, g, m) && m.q !in g.defs && Below(g0, next)
    requires {m.choose, m.g1, m.g2, m.q, m.dq} <= g0.defs.Keys
    requires Servable(g, m.choose, m.g1, m.g2, pairs, next) && Covers(g, m.g1, pairs, {}) && Items(g, m.choose, m.g1, m.g2)
    requires Serving(g0, f, g, h, m.choose, m.g1, m.g2, pairs, |pairs|, next)
    requires Half(g, u, d, q) && HalfIs(g0, g, m.q, m.dq, d, q)
    ensures OwnChain(g0, h, m, u)
  {
    hide *;
    ChainNodes(g0, m);
    ItemsAreRead(g0, g, m, d, q);
    var k := PairOfHalf(g0, f, g, h, m, pairs, next, u, d, q);
    var c := next + 3 * k;
    ServingPairs(g0, f, g, h, m, pairs, next, k);
    if SoleQuantize(g0, m.g1, m.q, m.dq) {
      SoleIsLone(g0, g, m, pairs, k);
    }
    RedefinedIsCopied(g0, g, h, m, (q, d), c, Lone(pairs, k));
    IsOwnChain(g0, h, m, u, d, q, c, next);
  }

  lemma ItemsAreRead(g0: Graph, g: Graph, m: Chain, d: nat, q: nat)
    requires m.q in g0.defs && m.dq in g0.defs && HalfIs(g0, g, m.q, m.dq, d, q)
    requires Uses(g0.defs[m.q], m.g1) && Uses(g0.defs[m.q], m.g2)
    ensures ReadsItems(g, q, m.g1, m.g2) && d !in g0.defs && q !in g0.defs
  {
  }

  lemma ServingPairs(g0: Graph, f: map<nat, nat>, g: Graph, h: Graph, m: Chain, pairs: seq<Pair>, next: nat, k: nat)
    requires Servable(g, m.choose, m.g1, m.g2, pairs, next) && k < |pairs|
    requires Serving(g0, f, g, h, m.choose, m.g1, m.g2, pairs, |pairs|, next)
    ensures ArePairs(g, m.g1, pairs) && {m.choose, m.g1, m.g2, pairs[k].0, pairs[k].1} <= g.defs.Keys
    ensures Redefined(g, h, m.choose, m.g1, m.g2, pairs[k], next + 3 * k, Lone(pairs, k))
  {
    hide Sound, Closed, Ordered, Below, SameUsers, ReadsReady, ServedUpTo, NewFrom, Redefined, Uses, SameOps;
    PairsDiffer(g, m.g1, pairs, k, k);
    assert PairAt(g, h, m.choose, m.g1, m.g2, pairs, |pairs|, k, next + 3 * k);
  }

  lemma RedefinedIsCopied(g0: Graph, g: Graph, h: Graph, m: Chain, p: Pair, c: nat, lone: bool)
    requires {m.choose, m.g1, m.g2, m.q, m.dq} <= g0.defs.Keys && SameRoots(g0, g, m)
    requires {m.choose, m.g1, m.g2, p.0, p.1} <= g.defs.Keys && Redefined(g, h, m.choose, m.g1, m.g2, p, c, lone)
    requires HalfIs(g0, g, m.q, m.dq, p.1, p.0)
    requires SoleQuantize(g0, m.g1, m.q, m.dq) ==> lone
    ensures {p.1, p.0, c, c + 1, c + 2} <= h.defs.Keys && CopiedNodes(g0, h, m, p.1, p.0, c, c + 1, c + 2)
  {
    hide SoleQuantize, RenameNode, Uses;
  }

  lemma IsOwnChain(g0: Graph, h: Graph, m: Chain, u: nat, d: nat, q: nat, c: nat, next: nat)
    requires {m.choose, m.g1, m.g2, m.q, m.dq} <= g0.defs.Keys && {d, q, c, c + 1, c + 2} <= h.defs.Keys
    requires Half(h, u, d, q) && OwnsParameters(h, m.g1, m.g2, (q, d), c) && CopiedNodes(g0, h, m, d, q, c, c + 1, c + 2)
    requires d !in g0.defs && q !in g0.defs && Below(g0, next) && next <= c
    ensures OwnChain(g0, h, m, u)
  {
    hide Half, CopiedNodes, OwnParameters, FreeOf;
    assert OwnNodes(g0, h, m, u, d, q, c, c + 1, c + 2);
  }

  ghost predicate AllOwnChains(g0: Graph, g: Graph, m: Chain, users: set<nat>)
    requires {m.choose, m.g1, m.g2, m.q, m.dq} <= g0.defs.Keys
  {
    forall u :: u in users && u in g.defs ==> OwnChain(g0, g, m, u)
  }

  lemma AllChainsAfterThird(g0: Graph, f: map<nat, nat>, g: Graph, h: Graph, g': Graph, m: Chain,
                            pairs: seq<Pair>, next: nat, users: set<nat>)
    requires HasChain(g0, m) && SameRoots(g0, g, m) && m.q !in g.defs
    requires {m.choose, m.g1, m.g2, m.q, m.dq} <= g0.defs.Keys
    requires Servable(g, m.choose, m.g1, m.g2, pairs, next) && Covers(g, m.g1, pairs, {}) && Items(g, m.choose, m.g1, m.g2)
    requires Serving(g0, f, g, h, m.choose, m.g1, m.g2, pairs, |pairs|, next)
    requires AllHalfAre(g0, g, users, m.q, m.dq) && users <= g0.defs.Keys && Below(g0, next)
    requires NewFrom(g, h, next) && Closed(g') && IsPruned(h, g')
    ensures AllOwnChains(g0, g', m, users)
  {
    hide Servable, Serving, Covers, Items, Closed, Half, OwnChain, HalfIs, HasChain, SameRoots;
    forall u | u in users && u in g'.defs
      ensures OwnChain(g0, g', m, u)
    {
      var d, q :| Half(g, u, d, q) && HalfIs(g0, g, m.q, m.dq, d, q);
      ChainAfterThird(g0, f, g, h, m, pairs, next, u, d, q);
      PrunedChain(g0, h, g', m, u);
    }
  }

  /** What the third phase asks for: a getitem node as second item, a dequantize node for each
      quantize node, and, if there is any, the second item's inputs in time for its copies. */
  ghost predicate PairsServable(g: Graph, g1: nat, g2: nat)
    requires g2 in g.defs
  {
    && g.defs[g2].op == GetItem && AllAcceptable(g, g1)
    && ((exists x :: x in Users(g, g1) && g.defs[x].op.Quantize?) ==> ReadsReady(g, g2, g1))
  }

  lemma CollectedIff(g: Graph, g1: nat, pairs: seq<Pair>)
    requires Collected(g, g1, pairs, {})
    ensures pairs == [] <==> !exists x :: x in Users(g, g1) && g.defs[x].op.Quantize?
  {
    hide Uses;
    if pairs != [] {
      assert IsPair(g, g1, pairs[0].0, pairs[0].1);
      assert pairs[0].0 in Users(g, g1) by {
        UserUses(g, pairs[0].0, g1);
      }
    }
  }

  /** Third phase: items and parameters for each pair (`_replicate_chose_qparam_nodes_for_q_dq`).
      Dead code elimination starts by checking the order of the list, which fails when the
      copy of the second item came before one of its inputs. */
  method CopyQParams(g: Graph, choose: nat, g1: nat, g2: nat, next: nat, ghost g0: Graph, ghost f: map<nat, nat>,
                     ghost users: set<nat>, ghost q: nat, ghost dq: nat, ghost items: bool)
    returns (ok: bool, g': Graph, ghost f': map<nat, nat>)
    requires Sound(g0, g, f) && Below(g, next) && Below(g0, next) && users <= g0.defs.Keys
    requires g1 in g.defs && g2 in g.defs && q !in g.defs && Roots(g, choose, g1, g2, q, items)
    requires HasChain(g0, Chain(choose, g1, g2, q, dq)) && SameRoots(g0, g, Chain(choose, g1, g2, q, dq))
    requires {choose, g1, g2, q, dq} <= g0.defs.Keys && AllHalfAre(g0, g, users, q, dq)
    ensures ok ==> Sound(g0, g', f') && NoDeadCode(g')
    ensures ok && items ==> AllOwnChains(g0, g', Chain(choose, g1, g2, q, dq), users)
    ensures ok <==> PairsServable(g, g1, g2)
    ensures ok ==> NewFrom(g, g', next)
    ensures ok && NoDeadCode(g) ==> forall u :: u in users && u in g.defs ==> u in g'.defs
  {
    hide Sound, Below, Uses, AllHalf, Half, ReadsReady, InReach, Servable, Serving, AllOwnChains, Closed, Ordered,
      NoDeadCode, IsPruned, ArePairs, Covers, Acceptable, NewFrom, Users, Collected, HasChain, SameRoots, AllHalfAre, Roots;
    ghost var m := Chain(choose, g1, g2, q, dq);
    ok, g', f' := false, g, f;
    ChainNodes(g0, m);
    HalvesRead(g0, g, users, q, dq, g1, g2);
    SoundIsClosed(g0, g, f);
    ItemsInGraph(g, choose, g1, g2, q, items);
    if g.defs[g2].op != GetItem {
      return;
    }
    var pairs;
    ok, pairs := CollectPairs(g, g1);
    if !ok {
      return;
    }
    CollectedIff(g, g1, pairs);
    NothingNew(g, next);
    if pairs == [] {
      g' := EliminateDeadCode(g);
      PrunedIsNew(g, g, g', next);
      PrunedIsSound(g0, g, g', f);
      f' := Restrict(f, g'.defs.Keys);
      UsersHavePairs(g0, g, g', m, users, pairs);
      return;
    }
    InReachIsReady(g, g1, g2);
    if !InReach(g, g1, g2) {
      ok := false;
      return;
    }
    var h;
    ghost var fh;
    CollectedServes(g, g1, pairs);
    IsServable(g, choose, g1, g2, pairs, next);
    h, fh := ServePairs(g, choose, g1, g2, pairs, next, g0, f);
    ServingIsSound(g0, fh, g, h, choose, g1, g2, pairs, next);
    g' := EliminateDeadCode(h);
    PrunedIsNew(g, h, g', next);
    PrunedIsSound(g0, h, g', fh);
    f' := Restrict(fh, g'.defs.Keys);
    if items {
      AllChainsAfterThird(g0, fh, g, h, g', m, pairs, next, users);
    }
    if NoDeadCode(g) {
      UsersStay(g0, fh, g, h, g', choose, g1, g2, pairs, next, users);
    }
  }

  lemma NothingNew(g: Graph, next: nat)
    ensures NewFrom(g, g, next)
  {
  }

  lemma CollectedServes(g: Graph, g1: nat, pairs: seq<Pair>)
    requires Collected(g, g1, pairs, {})
    ensures ArePairs(g, g1, pairs) && Covers(g, g1, pairs, {})
  {
  }

  /** The users themselves survive. */
  lemma UsersStay(g0: Graph, f: map<nat, nat>, g: Graph, h: Graph, g': Graph, choose: nat, g1: nat, g2: nat,
                  pairs: seq<Pair>, next: nat, users: set<nat>)
    requires Servable(g, choose, g1, g2, pairs, next) && NoDeadCode(g)
    requires Serving(g0, f, g, h, choose, g1, g2, pairs, |pairs|, next)
    requires AllHalf(g, users, g1, g2) && Closed(g') && IsPruned(h, g')
    ensures forall u :: u in users && u in g.defs ==> u in g'.defs
  {
    hide Closed, Ordered, Uses, NoDeadCode, Half, Downstream, KeptAlive, IsPruned, SameUsers, ServedUpTo, Folds, ReadsReady;
    DownstreamIsAlive(g, h, choose, g1, g2);
    forall u | u in users && u in g.defs
      ensures u in g'.defs
    {
      var d, q :| Half(g, u, d, q) && ReadsItems(g, q, g1, g2);
      HalfIsDownstream(g, choose, g1, g2, u, d, q);
      LiveIsKept(h, g', Downstream(g, g1, g2), u);
    }
  }

  lemma ItemsInGraph(g: Graph, choose: nat, g1: nat, g2: nat, q: nat, items: bool)
    requires Closed(g) && g1 in g.defs && g2 in g.defs && Roots(g, choose, g1, g2, q, items)
    ensures choose in g.defs && (items ==> Items(g, choose, g1, g2))
    ensures g.defs[g2].op == GetItem ==> Parameters(g, choose, g1, g2)
  {
  }

  lemma IsServable(g: Graph, choose: nat, g1: nat, g2: nat, pairs: seq<Pair>, next: nat)
    requires Closed(g) && Ordered(g) && Below(g, next) && Parameters(g, choose, g1, g2)
    requires ReadsReady(g, g2, g1) && ArePairs(g, g1, pairs)
    ensures Servable(g, choose, g1, g2, pairs, next)
  {
  }

  lemma ServingIsSound(g0: Graph, f: map<nat, nat>, g: Graph, h: Graph, choose: nat, g1: nat, g2: nat,
                       pairs: seq<Pair>, next: nat)
    requires Serving(g0, f, g, h, choose, g1, g2, pairs, |pairs|, next)
    ensures Sound(g0, h, f) && Closed(h) && Ordered(h) && NewFrom(g, h, next)
  {
  }

  /** As long as a user is left there is a pair to serve. */
  lemma UsersHavePairs(g0: Graph, g: Graph, g': Graph, m: Chain, users: set<nat>, pairs: seq<Pair>)
    requires {m.choose, m.g1, m.g2, m.q, m.dq} <= g0.defs.Keys
    requires Collected(g, m.g1, pairs, {}) && AllHalf(g, users, m.g1, m.g2) && IsPruned(g, g')
    ensures pairs != [] || (AllOwnChains(g0, g', m, users) && forall u :: u in users ==> u !in g.defs)
  {
    hide OwnChain, Half;
    if u :| u in users && u in g.defs {
      var d, q :| Half(g, u, d, q) && ReadsItems(g, q, m.g1, m.g2);
      HalfIsQuantize(g, u, d, q);
      assert q in Users(g, m.g1);
    }
  }

  lemma HalfIsQuantize(g: Graph, u: nat, d: nat, q: nat)
    requires Half(g, u, d, q)
    ensures q in g.defs && g.defs[q].op.Quantize?
  {
  }

  /** When the pass completes on a graph without dead code: the quantize node serves the
      dequantize node alone, the items have the users the pass expects, the quantize nodes on
      the first item are pairs, and the second item can be copied next to the first. */
  ghost predicate Completes(g: Graph, g1: nat, g2: nat, q: nat, dq: nat)
    requires dq in g.defs && g2 in g.defs
  {
    && Users(g, q) == {dq} && ItemFits(g, g1, q, dq) && ItemFits(g, g2, q, dq)
    && g.defs[g2].op == GetItem && OthersAcceptable(g, g1, q, dq) && ReadsReady(g, g2, g1)
  }

  lemma MatchedFacts(g: Graph, choose: nat, g1: nat, g2: nat, q: nat, dq: nat)
    requires Closed(g) && Ordered(g) && Matched(g, choose, g1, g2, q, dq)
    ensures dq in g.defs && q in g.defs && g1 in g.defs && g2 in g.defs && q != dq && dq !in {g1, g2} && q !in {g1, g2}
    ensures g.defs[dq].op.Dequantize? && g.defs[q].op.Quantize? && Uses(g.defs[dq], q)
    ensures Uses(g.defs[q], g1) && Uses(g.defs[q], g2) && Uses(g.defs[g1], choose)
    ensures q !in Users(g, dq) && g2 !in Users(g, dq) && !Uses(g.defs[g2], dq) && !Uses(g.defs[g2], q)
  {
    hide Before;
    MatchedIsAcyclic(g, choose, g1, g2, q, dq);
    UniqueOrder(g);
    BeforeTransitive(g.order, g2, q, dq);
    BeforeIsPos(g.order, g1, q);
    BeforeIsPos(g.order, g2, q);
    BeforeIsPos(g.order, q, g2);
    BeforeIsPos(g.order, q, dq);
    BeforeIsPos(g.order, dq, q);
    BeforeIsPos(g.order, g2, dq);
    BeforeIsPos(g.order, dq, g2);
  }

  /** The third phase goes through exactly when the rest of the condition holds. */
  lemma ThirdIff(g: Graph, h: Graph, k: Graph, choose: nat, g1: nat, g2: nat, q: nat, dq: nat, v1: set<nat>, v2: set<nat>)
    requires Closed(g) && Ordered(g) && Closed(h) && Closed(k) && Matched(g, choose, g1, g2, q, dq) && |Users(g, dq)| > 1
    requires dq in g.defs && Replaced(g, h, dq, v1) && q in h.defs && Users(h, q) == v1 && Replaced(h, k, q, v2)
    requires g2 in g.defs
    ensures g2 in k.defs
    ensures PairsServable(k, g1, g2) <==>
            g.defs[g2].op == GetItem && OthersAcceptable(g, g1, q, dq) && ReadsReady(g, g2, g1)
  {
    hide *;
    MatchedFacts(g, choose, g1, g2, q, dq);
    KeptOp(g, h, dq, v1, q);
    KeptOp(g, h, dq, v1, g1);
    KeptOp(g, h, dq, v1, g2);
    ReadyStays(g, h, dq, v1, g1, g2);
    FreshCopies(g, h, k, q, dq, v1, v2);
    ReadyStays(h, k, q, v2, g1, g2);
    KeptOp(h, k, q, v2, g2);
    AllAcceptableIff(g, h, k, g1, q, dq, v1, v2);
    SomeQuantize(g, h, k, g1, q, dq, v1, v2);
    ServableIs(k, g1, g2);
  }

  lemma ServableIs(k: Graph, g1: nat, g2: nat)
    requires g2 in k.defs && exists x :: x in Users(k, g1) && k.defs[x].op.Quantize?
    ensures PairsServable(k, g1, g2) <==> k.defs[g2].op == GetItem && AllAcceptable(k, g1) && ReadsReady(k, g2, g1)
  {
  }

  lemma SomeQuantize(g: Graph, h: Graph, k: Graph, g1: nat, q: nat, dq: nat, v1: set<nat>, v2: set<nat>)
    requires dq in g.defs && q in g.defs && q !in Users(g, dq) && q != dq && Replaced(g, h, dq, v1) && |Users(g, dq)| > 1
    requires q in h.defs && Users(h, q) == v1 && Replaced(h, k, q, v2) && g.defs[q].op.Quantize?
    requires g1 in g.defs && g1 != dq && g1 != q && Uses(g.defs[q], g1)
    ensures exists x :: x in Users(k, g1) && k.defs[x].op.Quantize?
  {
    hide Users, Uses, Replaced;
    UsersAfterBoth(g, h, k, q, dq, v1, v2, g1);
    ReplacedSizes(g, h, dq, v1);
    ReplacedSizes(h, k, q, v2);
    CopiesAre(h, k, q, v2);
    KeptOp(g, h, dq, v1, q);
    var x :| x in v2;
    assert x in Users(k, g1) && k.defs[x].op.Quantize?;
  }

  /** A chain that nothing else uses completes. */
  lemma UnsharedCompletes(g: Graph, choose: nat, g1: nat, g2: nat, q: nat, dq: nat)
    requires Closed(g) && Ordered(g) && Matched(g, choose, g1, g2, q, dq) && Unshared(g, choose, g1, g2, q, dq)
    ensures dq in g.defs && g2 in g.defs && NoDeadCode(g) && Completes(g, g1, g2, q, dq)
  {
    hide Closed, Ordered, Uses, NoDeadCode, PlainItem, ReadsReady, Acceptable;
    MatchedFacts(g, choose, g1, g2, q, dq);
    PlainIsReady(g, choose, g1, g2);
    PlainIsItem(g, choose, g2);
    UserUses(g, dq, g1);
    UserUses(g, dq, g2);
  }

  lemma PlainIsItem(g: Graph, choose: nat, g2: nat)
    requires PlainItem(g, choose, g2)
    ensures g2 in g.defs && g.defs[g2].op == GetItem
  {
  }

  /** The node the second item is taken from; a literal is never reached as a node. */
  function ItemId(second: Arg, g1: nat): nat {
    if second.NodeArg? then second.id else g1
  }

  /** The pass over one dequantize node with several users. It stops at the first user that
      is not annotated, raises when the chain is also used elsewhere or the second item is a
      literal, and otherwise completes. However it ends without an error, the list is
      topologically ordered and every output keeps its values; once it completes, the
      quantize and dequantize nodes are gone and each user of the dequantize node that is
      still there reads through a chain of its own. Without dead code it completes on exactly
      the chains described by `Completes`, and keeps every user. */
  method MaybeDuplicateChain(g: Graph, choose: nat, g1: nat, second: Arg, q: nat, dq: nat, annotated: set<nat>, next: nat)
    returns (out: Outcome)
    requires Closed(g) && Ordered(g) && Matched(g, choose, g1, ItemId(second, g1), q, dq) && |Users(g, dq)| > 1
    requires Below(g, next)
    ensures dq in g.defs && ItemId(second, g1) in g.defs
    ensures out.Stopped? <==> !(Users(g, dq) <= annotated)
    ensures !out.Raised? ==> Closed(out.graph) && Ordered(out.graph)
    ensures !out.Raised? ==>
              forall sem, o :: o in g.defs && g.defs[o].op.Output? ==> SameOutput(g, out.graph, sem, o)
    ensures out.Done? ==> second.NodeArg? && NoDeadCode(out.graph) && dq !in out.graph.defs && q !in out.graph.defs
    ensures {choose, g1, ItemId(second, g1), q, dq} <= g.defs.Keys
    ensures out.Done? && Items(g, choose, g1, ItemId(second, g1)) ==>
              forall u :: u in Users(g, dq) && u in out.graph.defs ==>
                OwnChain(g, out.graph, Chain(choose, g1, ItemId(second, g1), q, dq), u)
    ensures NoDeadCode(g) && Users(g, dq) <= annotated ==>
              (out.Done? <==> second.NodeArg? && Completes(g, g1, ItemId(second, g1), q, dq))
    ensures NoDeadCode(g) && out.Done? ==> Users(g, dq) <= out.graph.defs.Keys && SoleQuantize(g, g1, q, dq)
  {
    hide *;
    var n, users, g2 := |Users(g, dq)|, Users(g, dq), ItemId(second, g1);
    ghost var m := Chain(choose, g1, g2, q, dq);
    MatchedFacts(g, choose, g1, g2, q, dq);
    IsChain(g, m);
    ChainNodes(g, m);
    HasSome(users);
    UsersAreInGraph(g, dq);
    IdOfNode(second, g1);
    var done, h, c;
    ghost var f, v1;
    done, h, c, f, v1 := CopyDequantize(g, choose, g1, g2, q, dq, annotated, next);
    SoundKeepsOutputs(g, h, f);
    if !done {
      return Stopped(h);
    }
    ghost var clean, first := NoDeadCode(g), h;
    if clean {
      FirstCountIff(g, h, q, dq, v1);
    }
    if |Users(h, q)| != n {
      NotComplete(g, g1, g2, q, dq);
      return Raised;
    }
    HasUsers(g, h, f, q);
    HasSome(Users(h, q));
    IsBelow(h, c, q);
    ghost var c1 := c;
    ghost var v2;
    if clean {
      ReplacedIsClean(g, h, dq, v1);
    }
    h, c, f, v2 := CopyQuantize(h, q, c, g, f, users, choose, g1, g2, dq, Items(g, choose, g1, g2));
    StaysAway(first, h, c1, dq);
    SoundKeepsOutputs(g, h, f);
    if clean {
      NotComplete(g, g1, g2, q, dq);
      SecondCountIff(g, first, h, q, dq, v1, v2, g1);
      SecondCountIff(g, first, h, q, dq, v1, v2, g2);
    }
    if second.Lit? || |Users(h, g1)| != 2 * n || |Users(h, g2)| != 2 * n {
      return Raised;
    }
    HasUsers(g, h, f, g1);
    HasUsers(g, h, f, g2);
    ghost var second' := h;
    var ok;
    ok, h, f := CopyQParams(h, choose, g1, g2, c, g, f, users, q, dq, Items(g, choose, g1, g2));
    if clean {
      ThirdIff(g, first, second', choose, g1, g2, q, dq, v1, v2);
      CompletesIs(g, g1, g2, q, dq);
    }
    if !ok {
      return Raised;
    }
    SoundKeepsOutputs(g, h, f);
    StaysAway(second', h, c, dq);
    StaysAway(second', h, c, q);
    OwnChainsAre(g, h, m, users);
    if clean {
      ReplacedIsClean(first, second', q, v2);
      UsersAreKept(g, first, second', q, dq, v1, v2);
      CompletesAlone(g, g1, g2, q, dq);
    }
    return Done(h);
  }

  lemma HasSome(s: set<nat>)
    ensures |s| > 0 <==> s != {}
  {
  }

  lemma IdOfNode(second: Arg, g1: nat)
    ensures second.NodeArg? ==> ItemId(second, g1) == second.id
  {
  }

  lemma NotComplete(g: Graph, g1: nat, g2: nat, q: nat, dq: nat)
    requires dq in g.defs && g2 in g.defs
    ensures Completes(g, g1, g2, q, dq) ==> Users(g, q) == {dq} && ItemFits(g, g1, q, dq) && ItemFits(g, g2, q, dq)
  {
  }

  lemma CompletesIs(g: Graph, g1: nat, g2: nat, q: nat, dq: nat)
    requires dq in g.defs && g2 in g.defs && Users(g, q) == {dq} && ItemFits(g, g1, q, dq) && ItemFits(g, g2, q, dq)
    ensures Completes(g, g1, g2, q, dq) <==>
            g.defs[g2].op == GetItem && OthersAcceptable(g, g1, q, dq) && ReadsReady(g, g2, g1)
  {
  }

  lemma ReplacedIsClean(g: Graph, h: Graph, n: nat, v: set<nat>)
    requires n in g.defs && Replaced(g, h, n, v)
    ensures NoDeadCode(h)
  {
  }

  lemma StaysAway(g: Graph, h: Graph, next: nat, x: nat)
    requires NewFrom(g, h, next) && x !in g.defs && x < next
    ensures x !in h.defs
  {
  }

  lemma OwnChainsAre(g0: Graph, g: Graph, m: Chain, users: set<nat>)
    requires {m.choose, m.g1, m.g2, m.q, m.dq} <= g0.defs.Keys
    ensures AllOwnChains(g0, g, m, users) ==> forall u :: u in users && u in g.defs ==> OwnChain(g0, g, m, u)
  {
  }

  lemma IsChain(g: Graph, m: Chain)
    requires Closed(g) && Ordered(g) && Matched(g, m.choose, m.g1, m.g2, m.q, m.dq)
    ensures HasChain(g, m)
  {
  }

  lemma CompletesAlone(g: Graph, g1: nat, g2: nat, q: nat, dq: nat)
    requires dq in g.defs && g2 in g.defs && Completes(g, g1, g2, q, dq)
    ensures SoleQuantize(g, g1, q, dq)
  {
  }

  /** Both phases keep the users of the dequantize node. */
  lemma UsersAreKept(g: Graph, h: Graph, k: Graph, q: nat, dq: nat, v1: set<nat>, v2: set<nat>)
    requires Closed(g) && Ordered(g) && dq in g.defs && q in g.defs && q !in Users(g, dq) && q != dq
    requires Replaced(g, h, dq, v1) && q in h.defs && Replaced(h, k, q, v2)
    ensures Users(g, dq) <= k.defs.Keys
  {
    hide *;
    NotOwnUser(g, dq);
    UsersAreInGraph(g, dq);
    forall u | u in Users(g, dq)
      ensures u in k.defs
    {
      KeptOp(g, h, dq, v1, u);
      KeptOp(h, k, q, v2, u);
    }
  }

  lemma HasUsers(g0: Graph, g: Graph, f: map<nat, nat>, x: nat)
    requires Sound(g0, g, f) && |Users(g, x)| > 0
    ensures x in g.defs
  {
    var u :| u in Users(g, x);
  }

  lemma SoundKeepsOutputs(g0: Graph, g: Graph, f: map<nat, nat>)
    requires Closed(g0) && Ordered(g0) && Sound(g0, g, f)
    ensures Closed(g) && Ordered(g)
    ensures forall sem, o :: o in g0.defs && g0.defs[o].op.Output? ==> SameOutput(g0, g, sem, o)
  {
    hide Closed, Ordered, Folds, Result;
    forall sem, o | o in g0.defs && g0.defs[o].op.Output?
      ensures SameOutput(g0, g, sem, o)
    {
      FoldKeepsOutputs(g0, g, f, sem, o);
    }
  }
}
