/** Giving each user of a dynamically quantized tensor a quantization chain of its own
    (`DuplicateDynamicQuantChainPass`). */
module DuplicateQuantChain {
  import opened FxGraph
  import opened Duplication

  /** Ids from `next` on are unused. */
  ghost predicate Below(g: Graph, next: nat) {
    forall x :: x in g.defs ==> x < next
  }

  function RenameNode(n: Node, x: nat, y: nat): Node {
    Node(n.op, RenameAll(n.args, x, y))
  }

  /** The copies: fresh, one per user, all like n. */
  ghost predicate ClonesOf(g: Graph, g': Graph, n: nat, clones: map<nat, nat>)
    requires n in g.defs
  {
    && (forall u :: u in clones ==> clones[u] !in g.defs && clones[u] in g'.defs && g'.defs[clones[u]] == g.defs[n])
    && (forall u, v :: u in clones && v in clones && clones[u] == clones[v] ==> u == v)
    && (forall x :: x in g'.defs ==> x in g.defs || exists u :: u in clones && clones[u] == x)
  }

  /** The nodes already there: users read their copy, the others are untouched. */
  ghost predicate Redirected(g: Graph, g': Graph, n: nat, clones: map<nat, nat>) {
    forall x :: x in g.defs ==>
      && x in g'.defs
      && g'.defs[x] == if x in clones then RenameNode(g.defs[x], n, clones[x]) else g.defs[x]
  }

  /** g' is g with a copy of node n, of its own, for each user in `clones`. */
  ghost predicate Replicated(g: Graph, g': Graph, n: nat, clones: map<nat, nat>)
    requires n in g.defs
  {
    clones.Keys <= Users(g, n) && ClonesOf(g, g', n, clones) && Redirected(g, g', n, clones)
  }

  /** The step for one user: copy n directly after it and redirect the user. */
  function CopyFor(g: Graph, n: nat, u: nat, c: nat): Graph
    requires n in g.defs && n in g.order && u in g.defs
  {
    ReplaceInput(CopyNode(g, n, n, c), u, n, c)
  }

  lemma UsedIsBefore(g: Graph, n: nat, u: nat)
    requires Closed(g) && Ordered(g) && u in Users(g, n)
    ensures n in g.defs && n in g.order && u in g.defs && Before(g.order, n, u) && n != u
  {
    BeforeIsPos(g.order, n, u);
  }

  lemma CopyForIsSound(g0: Graph, g: Graph, f: map<nat, nat>, n: nat, u: nat, c: nat)
    requires Sound(g0, g, f) && u in Users(g, n) && c !in g.defs && c !in g0.defs
    ensures n in g.defs && n in g.order && u in g.defs
    ensures Sound(g0, CopyFor(g, n, u, c), f[c := f[n]])
  {
    UsedIsBefore(g, n, u);
    OwnReadsReady(g, n);
    CopyIsSound(g0, g, f, n, n, c);
    CopyIsClosedAndOrdered(g, n, n, c);
    ReplaceIsSound(g0, CopyNode(g, n, n, c), f[c := f[n]], u, n, c);
  }

  lemma OwnReadsReady(g: Graph, n: nat)
    requires Ordered(g) && n in g.defs
    ensures ReadsReady(g, n, n)
  {
  }

  lemma CopyForReplicates(g: Graph, gi: Graph, n: nat, clones: map<nat, nat>, u: nat, c: nat)
    requires Closed(g) && Ordered(g) && n in g.defs && n in gi.order && Replicated(g, gi, n, clones)
    requires u in Users(g, n) && u !in clones && c !in gi.defs
    ensures n in gi.defs && u in gi.defs && u in Users(gi, n)
    ensures Replicated(g, CopyFor(gi, n, u, c), n, clones[u := c])
  {
    hide Before, Closed, Ordered, CopyFor, RenameNode;
    UsedIsBefore(g, n, u);
    NotOwnUser(g, n);
    CopyForDefs(gi, n, u, c);
    CloneAdded(g, gi, CopyFor(gi, n, u, c), n, clones, u, c);
  }

  lemma CopyForDefs(g: Graph, n: nat, u: nat, c: nat)
    requires n in g.defs && n in g.order && u in g.defs && c !in g.defs
    ensures CopyFor(g, n, u, c).defs == g.defs[c := g.defs[n]][u := RenameNode(g.defs[u], n, c)]
  {
  }

  lemma CloneAdded(g: Graph, gi: Graph, g': Graph, n: nat, clones: map<nat, nat>, u: nat, c: nat)
    requires n in g.defs && u in g.defs && n !in clones && u !in clones && n != u && c !in gi.defs && c !in g.defs
    requires ClonesOf(g, gi, n, clones) && Redirected(g, gi, n, clones)
    requires g'.defs == gi.defs[c := g.defs[n]][u := RenameNode(g.defs[u], n, c)]
    ensures ClonesOf(g, g', n, clones[u := c]) && Redirected(g, g', n, clones[u := c])
  {
    hide RenameNode;
    var clones' := clones[u := c];
    forall x | x in g'.defs
      ensures x in g.defs || exists v :: v in clones' && clones'[v] == x
    {
      if x == c {
        assert clones'[u] == x;
      } else if x !in g.defs {
        var v :| v in clones && clones[v] == x;
        assert clones'[v] == x;
      }
    }
  }

  lemma NotOwnUser(g: Graph, n: nat)
    requires Closed(g) && Ordered(g)
    ensures n !in Users(g, n)
  {
    if n in Users(g, n) {
      UsedIsBefore(g, n, n);
    }
  }

  /** Copy n for its users, one by one in any order, up to the first that is not in
      `valid` (`_replicate_node_for_each_user`, and the first loop over the users of the
      dequantize node). */
  method CopyForUsers(g: Graph, n: nat, valid: set<nat>, next: nat, ghost g0: Graph, ghost f: map<nat, nat>)
    returns (g': Graph, next': nat, done: bool, ghost f': map<nat, nat>, ghost clones: map<nat, nat>)
    requires Sound(g0, g, f) && n in g.defs && Below(g, next) && Below(g0, next)
    ensures Sound(g0, g', f') && Below(g', next') && Below(g0, next') && next <= next'
    ensures Replicated(g, g', n, clones) && forall u :: u in clones ==> clones[u] >= next
    ensures done <==> clones.Keys == Users(g, n)
    ensures done <==> Users(g, n) <= valid
    ensures KeepsOrder(g, g')
  {
    hide Sound, Replicated, CopyFor, Below, Users, Uses, KeepsOrder;
    g', next', f', clones := g, next, f, map[];
    StartReplication(g0, g, f, n);
    var todo := Users(g, n);
    while todo != {}
      invariant Sound(g0, g', f') && Below(g', next') && Below(g0, next') && next <= next'
      invariant Replicated(g, g', n, clones) && forall u :: u in clones ==> clones[u] >= next
      invariant todo <= Users(g, n) && clones.Keys == Users(g, n) - todo && clones.Keys <= valid
      invariant KeepsOrder(g, g')
      decreases |todo|
    {
      var u :| u in todo;
      if u !in valid {
        return g', next', false, f', clones;
      }
      var c := next';
      CopyOne(g0, g, g', f, f', n, clones, u, c);
      CopyKeepsOrder(g0, g, g', f', n, u, c);
      g', next' := CopyFor(g', n, u, c), c + 1;
      f', clones, todo := f'[c := f'[n]], clones[u := c], todo - {u};
    }
    done := true;
  }

  /** What came before still does. */
  ghost predicate KeepsOrder(g: Graph, g': Graph) {
    forall a, b :: Before(g.order, a, b) ==> Before(g'.order, a, b)
  }

  lemma CopyKeepsOrder(g0: Graph, g: Graph, gi: Graph, f: map<nat, nat>, n: nat, u: nat, c: nat)
    requires Sound(g0, gi, f) && n in gi.defs && n in gi.order && u in gi.defs && Below(gi, c) && KeepsOrder(g, gi)
    ensures KeepsOrder(g, CopyFor(gi, n, u, c))
  {
    hide Before, Folds;
    OwnReadsReady(gi, n);
    CopyIsClosedAndOrdered(gi, n, n, c);
  }

  lemma StartReplication(g0: Graph, g: Graph, f: map<nat, nat>, n: nat)
    requires Sound(g0, g, f) && n in g.defs
    ensures Replicated(g, g, n, map[]) && KeepsOrder(g, g)
  {
    hide Before;
  }

  lemma CopyOne(g0: Graph, g: Graph, gi: Graph, f: map<nat, nat>, fi: map<nat, nat>, n: nat,
                clones: map<nat, nat>, u: nat, c: nat)
    requires Sound(g0, g, f) && Sound(g0, gi, fi) && n in g.defs && Replicated(g, gi, n, clones)
    requires u in Users(g, n) && u !in clones && Below(gi, c) && Below(g0, c)
    ensures n in gi.defs && n in gi.order && u in gi.defs && n in fi
    ensures Sound(g0, CopyFor(gi, n, u, c), fi[c := fi[n]])
    ensures Replicated(g, CopyFor(gi, n, u, c), n, clones[u := c])
    ensures Below(CopyFor(gi, n, u, c), c + 1) && Below(g0, c + 1)
  {
    hide Folds, Ordered;
    assert n in gi.defs && n in gi.order;
    CopyForReplicates(g, gi, n, clones, u, c);
    CopyForIsSound(g0, gi, fi, n, u, c);
    FoldKeys(g0, gi, fi);
  }

  lemma FoldKeys(g0: Graph, g: Graph, f: map<nat, nat>)
    requires Folds(g0, g, f)
    ensures f.Keys == g.defs.Keys
  {
  }

  /** Each copy is used by its own user only, and by nobody else's. */
  lemma ClonesAreOwn(g: Graph, g': Graph, n: nat, clones: map<nat, nat>, u: nat)
    requires Closed(g) && n in g.defs && Replicated(g, g', n, clones) && u in clones
    ensures Users(g', clones[u]) == {u}
  {
    var c := clones[u];
    forall x | x in g'.defs
      ensures Uses(g'.defs[x], c) <==> x == u
    {
      if x in g.defs {
        if x in clones {
          RenamedUse(g.defs[x].args, n, clones[x], c);
          assert Uses(g.defs[x], n);
        }
      }
    }
  }

  /** The pattern the pass matches around a quantize node: its second argument is an item of
      the computed parameters. */
  ghost predicate Parameters(g: Graph, choose: nat, g1: nat, g2: nat) {
    && g1 in g.defs && g2 in g.defs && choose in g.defs
    && g.defs[g1].op == GetItem && g.defs[g2].op == GetItem && g.defs[choose].op == ChooseQParams
    && Uses(g.defs[g1], choose)
  }

  /** Two different items of the computed parameters, the scale and the zero point. */
  ghost predicate Items(g: Graph, choose: nat, g1: nat, g2: nat) {
    g1 != g2 && g1 in g.defs && g2 in g.defs && Uses(g.defs[g1], choose) && Uses(g.defs[g2], choose)
  }

  /** Copies of both items and of the parameters, each placed directly after the first item,
      so that the copy of the parameters ends up first. */
  function CopyParameters(g: Graph, choose: nat, g1: nat, g2: nat, c: nat): Graph
    requires choose in g.defs && g1 in g.defs && g2 in g.defs && g1 in g.order
  {
    var a := CopyNode(g, g1, g1, c);
    assert a.order[Pos(g.order, g1)] == g1;
    var b := CopyNode(a, g2, g1, c + 1);
    assert b.order[Pos(a.order, g1)] == g1;
    CopyNode(b, choose, g1, c + 2)
  }

  lemma BeforeReads(g: Graph, choose: nat, g1: nat)
    requires Closed(g) && Ordered(g) && g1 in g.defs && Uses(g.defs[g1], choose)
    ensures choose in g.defs && ReadsReady(g, choose, g1) && Before(g.order, choose, g1)
  {
    hide Before;
    UniqueOrder(g);
    forall x | Uses(g.defs[choose], x)
      ensures Before(g.order, x, g1)
    {
      BeforeTransitive(g.order, x, choose, g1);
    }
  }

  /** The nodes to copy are there, and folded. */
  predicate HaveSources(g: Graph, f: map<nat, nat>, choose: nat, g1: nat, g2: nat) {
    choose in g.defs && g1 in g.defs && g2 in g.defs && g1 in g.order && choose in f && g1 in f && g2 in f
  }

  lemma CopiedParameters(g0: Graph, g: Graph, g': Graph, f: map<nat, nat>, f': map<nat, nat>,
                         choose: nat, g1: nat, g2: nat, c: nat)
    requires HaveSources(g, f, choose, g1, g2) && g' == CopyParameters(g, choose, g1, g2, c)
    requires f' == f[c := f[g1]][c + 1 := f[g2]][c + 2 := f[choose]]
    requires Sound(g0, g, f) && Parameters(g, choose, g1, g2) && ReadsReady(g, g2, g1)
    requires Below(g, c) && Below(g0, c)
    ensures Sound(g0, g', f')
    ensures g'.defs == g.defs[c := g.defs[g1]][c + 1 := g.defs[g2]][c + 2 := g.defs[choose]]
    ensures Before(g'.order, c + 2, c) && Before(g'.order, c + 2, c + 1)
    ensures forall b :: Before(g.order, g1, b) ==> Before(g'.order, c, b) && Before(g'.order, c + 1, b)
    ensures forall a, b :: Before(g.order, a, b) ==> Before(g'.order, a, b)
  {
    hide Before, Sound, CopyNode, ReadsReady;
    SoundReads(g0, g, f, choose, g1);
    PlacedCopy(g0, g, f, g1, g1, c);
    var a, fa := CopyNode(g, g1, g1, c), f[c := f[g1]];
    PlacedCopy(g0, a, fa, g2, g1, c + 1);
    var b, fb := CopyNode(a, g2, g1, c + 1), fa[c + 1 := fa[g2]];
    PlacedCopy(g0, b, fb, choose, g1, c + 2);
  }

  lemma SoundReads(g0: Graph, g: Graph, f: map<nat, nat>, choose: nat, g1: nat)
    requires Sound(g0, g, f) && g1 in g.defs && Uses(g.defs[g1], choose)
    ensures f.Keys == g.defs.Keys
    ensures choose in g.defs && ReadsReady(g, choose, g1) && ReadsReady(g, g1, g1) && Before(g.order, choose, g1)
  {
    BeforeReads(g, choose, g1);
    OwnReadsReady(g, g1);
  }

  /** One turn of the loop over quantize/dequantize pairs: parameters and items of their own. */
  function QParamsFor(g: Graph, choose: nat, g1: nat, g2: nat, q: nat, dq: nat, c: nat): Graph
    requires choose in g.defs && g1 in g.defs && g2 in g.defs && g1 in g.order && q in g.defs && dq in g.defs
  {
    var copied := CopyParameters(g, choose, g1, g2, c);
    var items := ReplaceInput(ReplaceInput(copied, c, choose, c + 2), c + 1, choose, c + 2);
    var firsts := ReplaceInput(ReplaceInput(items, q, g1, c), dq, g1, c);
    ReplaceInput(ReplaceInput(firsts, q, g2, c + 1), dq, g2, c + 1)
  }

  /** What the pass knows of a pair it is about to serve. */
  ghost predicate IsPair(g: Graph, g1: nat, q: nat, dq: nat) {
    && q in g.defs && dq in g.defs && g.defs[q].op.Quantize? && g.defs[dq].op.Dequantize?
    && Uses(g.defs[q], g1) && Users(g, q) == {dq}
  }

  lemma PairIsAfter(g: Graph, g1: nat, q: nat, dq: nat)
    requires Closed(g) && Ordered(g) && IsPair(g, g1, q, dq)
    ensures Before(g.order, g1, q) && Before(g.order, g1, dq)
  {
    hide Before;
    assert dq in Users(g, q);
    UniqueOrder(g);
    BeforeTransitive(g.order, g1, q, dq);
  }

  lemma QParamsAreSound(g0: Graph, g: Graph, g': Graph, f: map<nat, nat>, f': map<nat, nat>,
                        choose: nat, g1: nat, g2: nat, q: nat, dq: nat, c: nat)
    requires HaveSources(g, f, choose, g1, g2) && q in g.defs && dq in g.defs
    requires g' == QParamsFor(g, choose, g1, g2, q, dq, c)
    requires f' == f[c := f[g1]][c + 1 := f[g2]][c + 2 := f[choose]]
    requires Sound(g0, g, f) && Parameters(g, choose, g1, g2) && ReadsReady(g, g2, g1)
    requires IsPair(g, g1, q, dq) && Below(g, c) && Below(g0, c)
    ensures Sound(g0, g', f')
    ensures forall a, b :: Before(g.order, a, b) ==> Before(g'.order, a, b)
  {
    hide Before, Sound, CopyParameters, ReadsReady, Uses;
    var h0 := CopyParameters(g, choose, g1, g2, c);
    CopiedParameters(g0, g, h0, f, f', choose, g1, g2, c);
    SoundPair(g0, g, f, g1, q, dq);
    ReplaceIsSound(g0, h0, f', c, choose, c + 2);
    var h1 := ReplaceInput(h0, c, choose, c + 2);
    ReplaceIsSound(g0, h1, f', c + 1, choose, c + 2);
    var h2 := ReplaceInput(h1, c + 1, choose, c + 2);
    ReplaceIsSound(g0, h2, f', q, g1, c);
    var h3 := ReplaceInput(h2, q, g1, c);
    ReplaceIsSound(g0, h3, f', dq, g1, c);
    var h4 := ReplaceInput(h3, dq, g1, c);
    ReplaceIsSound(g0, h4, f', q, g2, c + 1);
    var h5 := ReplaceInput(h4, q, g2, c + 1);
    ReplaceIsSound(g0, h5, f', dq, g2, c + 1);
  }

  lemma SoundPair(g0: Graph, g: Graph, f: map<nat, nat>, g1: nat, q: nat, dq: nat)
    requires Sound(g0, g, f) && IsPair(g, g1, q, dq)
    ensures Before(g.order, g1, q) && Before(g.order, g1, dq)
  {
    PairIsAfter(g, g1, q, dq);
  }

  function Both(n: Node, g1: nat, g2: nat, c: nat): Node {
    RenameNode(RenameNode(n, g1, c), g2, c + 1)
  }

  lemma CopyParametersDefs(g: Graph, choose: nat, g1: nat, g2: nat, c: nat)
    requires Parameters(g, choose, g1, g2) && g1 in g.order && Below(g, c)
    ensures CopyParameters(g, choose, g1, g2, c).defs ==
            g.defs[c := g.defs[g1]][c + 1 := g.defs[g2]][c + 2 := g.defs[choose]]
  {
    hide InsertAt, Pos;
  }

  lemma QParamsDefs(g: Graph, choose: nat, g1: nat, g2: nat, q: nat, dq: nat, c: nat)
    requires Parameters(g, choose, g1, g2) && g1 in g.order && Below(g, c)
    requires q in g.defs && dq in g.defs && q != dq && {q, dq} !! {g1, g2, choose}
    ensures QParamsFor(g, choose, g1, g2, q, dq, c).defs ==
            g.defs[c := RenameNode(g.defs[g1], choose, c + 2)][c + 1 := RenameNode(g.defs[g2], choose, c + 2)]
              [c + 2 := g.defs[choose]][q := Both(g.defs[q], g1, g2, c)][dq := Both(g.defs[dq], g1, g2, c)]
  {
    hide RenameAll, CopyParameters;
    CopyParametersDefs(g, choose, g1, g2, c);
    var copied := CopyParameters(g, choose, g1, g2, c);
    var items := ReplaceInput(ReplaceInput(copied, c, choose, c + 2), c + 1, choose, c + 2);
    assert items.defs == g.defs[c := RenameNode(g.defs[g1], choose, c + 2)]
                           [c + 1 := RenameNode(g.defs[g2], choose, c + 2)][c + 2 := g.defs[choose]];
    TwiceForBoth(items, g1, g2, q, dq, c);
  }

  lemma TwiceForBoth(h: Graph, g1: nat, g2: nat, q: nat, dq: nat, c: nat)
    requires q in h.defs && dq in h.defs && q != dq
    ensures var firsts := ReplaceInput(ReplaceInput(h, q, g1, c), dq, g1, c);
            ReplaceInput(ReplaceInput(firsts, q, g2, c + 1), dq, g2, c + 1).defs ==
            h.defs[q := Both(h.defs[q], g1, g2, c)][dq := Both(h.defs[dq], g1, g2, c)]
  {
    hide RenameAll;
  }

  /** Uses of a node that is neither an item nor new: the old nodes are unaffected. */
  lemma BothUses(n: Node, g1: nat, g2: nat, c: nat, y: nat)
    requires g1 < c && g2 < c
    ensures y != g1 && y != g2 && y < c ==> (Uses(Both(n, g1, g2, c), y) <==> Uses(n, y))
    ensures Uses(Both(n, g1, g2, c), c) <==> Uses(n, c) || Uses(n, g1)
    ensures g1 != g2 ==> (Uses(Both(n, g1, g2, c), c + 1) <==> Uses(n, c + 1) || Uses(n, g2))
    ensures g1 == g2 ==> (Uses(Both(n, g1, g2, c), c + 1) <==> Uses(n, c + 1))
    ensures y > c + 1 ==> (Uses(Both(n, g1, g2, c), y) <==> Uses(n, y))
  {
    var m := RenameNode(n, g1, c);
    forall z: nat
      ensures Uses(m, z) <==> (z != g1 && Uses(n, z)) || (z == c && Uses(n, g1))
      ensures Uses(Both(n, g1, g2, c), z) <==> (z != g2 && Uses(m, z)) || (z == c + 1 && Uses(m, g2))
    {
      RenamedUse(n.args, g1, c, z);
      RenamedUse(m.args, g2, c + 1, z);
    }
  }

  /** Redirected to the copies, a node reads neither of the original items. */
  lemma BothIsFree(n: Node, g1: nat, g2: nat, c: nat)
    requires g1 < c && g2 < c
    ensures !Uses(Both(n, g1, g2, c), g1) && !Uses(Both(n, g1, g2, c), g2)
  {
    var m := RenameNode(n, g1, c);
    RenamedUse(n.args, g1, c, g1);
    RenamedUse(m.args, g2, c + 1, g1);
    RenamedUse(m.args, g2, c + 1, g2);
  }

  lemma NothingToRename(n: Node, x: nat, y: nat)
    requires !Uses(n, x)
    ensures RenameNode(n, x, y) == n
  {
    assert forall k :: 0 <= k < |n.args| ==> n.args[k] in n.args;
    assert RenameAll(n.args, x, y) == n.args;
  }

  /** A dequantize node served a second time, for another quantize node it reads, keeps the
      copies of the first time. */
  lemma FirstCopiesStay(n: Node, g1: nat, g2: nat, c: nat, c': nat)
    requires g1 < c && g2 < c
    ensures Both(Both(n, g1, g2, c), g1, g2, c') == Both(n, g1, g2, c)
  {
    hide RenameAll;
    BothIsFree(n, g1, g2, c);
    var m := Both(n, g1, g2, c);
    NothingToRename(m, g1, c');
    NothingToRename(m, g2, c' + 1);
  }

  lemma RenamedNodeUses(n: Node, x: nat, c: nat, y: nat)
    requires x != c
    ensures Uses(RenameNode(n, x, c), y) <==> (y != x && Uses(n, y)) || (y == c && Uses(n, x))
  {
    RenamedUse(n.args, x, c, y);
  }

  /** The quantize node q reads its first item, its second item and its parameters through
      nodes nobody outside the pair reads. */
  ghost predicate OwnParameters(g: Graph, q: nat, dq: nat, a: nat, b: nat, w: nat) {
    && q in g.defs && a in g.defs && b in g.defs && w in g.defs
    && Uses(g.defs[q], a) && Uses(g.defs[q], b) && Uses(g.defs[a], w) && Uses(g.defs[b], w)
    && g.defs[a].op == GetItem && g.defs[b].op == GetItem && g.defs[w].op == ChooseQParams
    && Users(g, a) <= {q, dq} && Users(g, b) <= {q, dq} && Users(g, w) <= {a, b}
  }

  /** x reads neither of the items g1 and g2. */
  ghost predicate FreeOf(g: Graph, x: nat, g1: nat, g2: nat) {
    x in g.defs && !Uses(g.defs[x], g1) && !Uses(g.defs[x], g2)
  }

  /** The graph after serving a pair, as its definitions show it. */
  ghost predicate Served(g: Graph, g': Graph, choose: nat, g1: nat, g2: nat, q: nat, dq: nat, c: nat)
    requires choose in g.defs && g1 in g.defs && g2 in g.defs && q in g.defs && dq in g.defs
  {
    g'.defs == g.defs[c := RenameNode(g.defs[g1], choose, c + 2)][c + 1 := RenameNode(g.defs[g2], choose, c + 2)]
                 [c + 2 := g.defs[choose]][q := Both(g.defs[q], g1, g2, c)][dq := Both(g.defs[dq], g1, g2, c)]
  }

  lemma ReadsAreBelow(g: Graph, c: nat, x: nat)
    requires Closed(g) && Below(g, c) && x in g.defs
    ensures forall z: nat :: Uses(g.defs[x], z) ==> z in g.defs && z < c
  {
    forall z: nat | Uses(g.defs[x], z)
      ensures z in g.defs && z < c
    {
      assert z in g.defs;
    }
  }

  lemma ServedUses(g: Graph, g': Graph, choose: nat, g1: nat, g2: nat, q: nat, dq: nat, c: nat, x: nat, y: nat)
    requires Closed(g) && Parameters(g, choose, g1, g2) && Below(g, c) && q in g.defs && dq in g.defs
    requires Served(g, g', choose, g1, g2, q, dq, c) && x in g'.defs
    ensures x < c && y < c && y != g1 && y != g2 ==> (Uses(g'.defs[x], y) <==> Uses(g.defs[x], y))
    ensures x < c && (y == c || y == c + 1) && Uses(g'.defs[x], y) ==> x == q || x == dq
    ensures x < c ==> !Uses(g'.defs[x], c + 2)
    ensures x >= c && y < c && Uses(g'.defs[x], y) ==>
              Uses(g.defs[g1], y) || Uses(g.defs[g2], y) || Uses(g.defs[choose], y)
    ensures x >= c ==> x <= c + 2 && !Uses(g'.defs[x], c) && !Uses(g'.defs[x], c + 1)
    ensures Uses(g'.defs[c + 2], y) ==> y != c + 2
    ensures Uses(g'.defs[c], c + 2) && (Uses(g.defs[g2], choose) ==> Uses(g'.defs[c + 1], c + 2))
    ensures x in {q, dq} ==> (Uses(g'.defs[x], c) <==> Uses(g.defs[x], g1))
    ensures x in {q, dq} && g1 != g2 ==> (Uses(g'.defs[x], c + 1) <==> Uses(g.defs[x], g2))
  {
    hide RenameNode, Both;
    if x < c {
      ReadsAreBelow(g, c, x);
      BothUses(g.defs[x], g1, g2, c, y);
      BothUses(g.defs[x], g1, g2, c, c + 2);
    }
    ReadsAreBelow(g, c, g1);
    ReadsAreBelow(g, c, g2);
    ReadsAreBelow(g, c, choose);
    CopiedUses(g.defs[g1], choose, c, y);
    CopiedUses(g.defs[g2], choose, c, y);
  }

  lemma CopiedUses(n: Node, choose: nat, c: nat, y: nat)
    requires choose < c && forall z: nat :: Uses(n, z) ==> z < c
    ensures var m := RenameNode(n, choose, c + 2);
            && !Uses(m, c) && !Uses(m, c + 1) && (Uses(m, c + 2) <==> Uses(n, choose))
            && (y < c && Uses(m, y) ==> Uses(n, y))
  {
    RenamedNodeUses(n, choose, c + 2, c);
    RenamedNodeUses(n, choose, c + 2, c + 1);
    RenamedNodeUses(n, choose, c + 2, c + 2);
    RenamedNodeUses(n, choose, c + 2, y);
  }

  /** The pair just served has parameters of its own: both nodes read the copies wherever they
      read the items, and the items no longer. */
  lemma ServedIsOwn(g: Graph, g': Graph, choose: nat, g1: nat, g2: nat, q: nat, dq: nat, c: nat)
    requires Closed(g) && Parameters(g, choose, g1, g2) && Below(g, c) && q in g.defs && dq in g.defs && q != dq
    requires {q, dq} !! {g1, g2, choose}
    requires Served(g, g', choose, g1, g2, q, dq, c)
    requires Uses(g.defs[q], g1) && Uses(g.defs[q], g2) && Items(g, choose, g1, g2)
    ensures OwnParameters(g', q, dq, c, c + 1, c + 2)
    ensures FreeOf(g', q, g1, g2) && FreeOf(g', dq, g1, g2)
    ensures Uses(g'.defs[dq], c) <==> Uses(g.defs[dq], g1)
    ensures Uses(g'.defs[dq], c + 1) <==> Uses(g.defs[dq], g2)
  {
    hide Uses, Both, Closed;
    BothIsFree(g.defs[q], g1, g2, c);
    BothIsFree(g.defs[dq], g1, g2, c);
    forall x | x in g'.defs
      ensures Uses(g'.defs[x], c) ==> x == q || x == dq
      ensures Uses(g'.defs[x], c + 1) ==> x == q || x == dq
      ensures Uses(g'.defs[x], c + 2) ==> x == c || x == c + 1
    {
      ServedUses(g, g', choose, g1, g2, q, dq, c, x, c);
      ServedUses(g, g', choose, g1, g2, q, dq, c, x, c + 1);
      ServedUses(g, g', choose, g1, g2, q, dq, c, x, c + 2);
    }
    ServedUses(g, g', choose, g1, g2, q, dq, c, q, c);
    ServedUses(g, g', choose, g1, g2, q, dq, c, dq, c);
  }

  /** A node that reads neither item does not start to, and others than the pair stay as they are. */
  lemma ServedKeepsFree(g: Graph, g': Graph, choose: nat, g1: nat, g2: nat, q: nat, dq: nat, c: nat, x: nat)
    requires choose in g.defs && g1 in g.defs && g2 in g.defs && q in g.defs && dq in g.defs && Below(g, c)
    requires Served(g, g', choose, g1, g2, q, dq, c) && x in g.defs
    ensures x in g'.defs && (x !in {q, dq} ==> g'.defs[x] == g.defs[x])
    ensures FreeOf(g, x, g1, g2) || x in {q, dq} ==> FreeOf(g', x, g1, g2)
  {
    hide Uses, Both, RenameNode;
    BothIsFree(g.defs[q], g1, g2, c);
    BothIsFree(g.defs[dq], g1, g2, c);
  }

  /** None of the nodes that get copied reads y. */
  ghost predicate Unread(g: Graph, choose: nat, g1: nat, g2: nat, y: nat)
    requires choose in g.defs && g1 in g.defs && g2 in g.defs
  {
    y !in {choose, g1, g2} && !Uses(g.defs[g1], y) && !Uses(g.defs[g2], y) && !Uses(g.defs[choose], y)
  }

  /** Serving a pair leaves the users of every other node alone. */
  lemma ServedKeepsUsers(g: Graph, g': Graph, choose: nat, g1: nat, g2: nat, q: nat, dq: nat, c: nat, y: nat)
    requires Closed(g) && Parameters(g, choose, g1, g2) && Below(g, c) && q in g.defs && dq in g.defs
    requires Served(g, g', choose, g1, g2, q, dq, c) && y in g.defs && Unread(g, choose, g1, g2, y)
    ensures Users(g', y) == Users(g, y)
  {
    hide Uses, Both, Closed;
    forall x | x in g'.defs
      ensures x in Users(g', y) <==> x in Users(g, y)
    {
      ServedUses(g, g', choose, g1, g2, q, dq, c, x, y);
    }
  }

  /** Pairs served before keep their parameters to themselves, and read no original item. */
  lemma ServedKeepsOwn(g: Graph, g': Graph, choose: nat, g1: nat, g2: nat, q: nat, dq: nat, c: nat,
                       q0: nat, dq0: nat, a: nat, b: nat, w: nat)
    requires Closed(g) && Parameters(g, choose, g1, g2) && Below(g, c) && q in g.defs && dq in g.defs
    requires {q, dq} !! {g1, g2, choose} && g.defs[q].op.Quantize? && g.defs[dq].op.Dequantize?
    requires Served(g, g', choose, g1, g2, q, dq, c) && OwnParameters(g, q0, dq0, a, b, w)
    requires FreeOf(g, q0, g1, g2) && FreeOf(g, dq0, g1, g2)
    requires Unread(g, choose, g1, g2, a) && Unread(g, choose, g1, g2, b) && Unread(g, choose, g1, g2, w)
    ensures OwnParameters(g', q0, dq0, a, b, w)
    ensures FreeOf(g', q0, g1, g2) && FreeOf(g', dq0, g1, g2)
    ensures dq0 !in {q, dq} ==> g'.defs[dq0] == g.defs[dq0]
  {
    hide Uses, Closed, Unread;
    ServedKeepsFree(g, g', choose, g1, g2, q, dq, c, q0);
    ServedKeepsFree(g, g', choose, g1, g2, q, dq, c, dq0);
    ServedKeepsUsers(g, g', choose, g1, g2, q, dq, c, a);
    ServedKeepsUsers(g, g', choose, g1, g2, q, dq, c, b);
    ServedKeepsUsers(g, g', choose, g1, g2, q, dq, c, w);
    assert q0 in Users(g, a) && q0 in Users(g, b) && a in Users(g, w) && b in Users(g, w);
  }
}
