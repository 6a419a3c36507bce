/** Giving quantize/dequantize pairs items and parameters of their own, one pair after the
    other (`_replicate_chose_qparam_nodes_for_q_dq`). */
module QuantChainPairs {
  import opened FxGraph
  import opened Duplication
  import opened DuplicateQuantChain

  type Pair = (nat, nat)

  /** Pairs the loop is going to serve, each quantize node once. */
  ghost predicate ArePairs(g: Graph, g1: nat, pairs: seq<Pair>) {
    && (forall k :: 0 <= k < |pairs| ==> IsPair(g, g1, pairs[k].0, pairs[k].1))
    && (forall j, k :: 0 <= j < k < |pairs| ==> pairs[j].0 != pairs[k].0)
  }

  /** The nodes the loop copies are as they were. */
  ghost predicate SameSources(g: Graph, h: Graph, choose: nat, g1: nat, g2: nat) {
    && choose in g.defs && g1 in g.defs && g2 in g.defs
    && choose in h.defs && g1 in h.defs && g2 in h.defs
    && h.defs[choose] == g.defs[choose] && h.defs[g1] == g.defs[g1] && h.defs[g2] == g.defs[g2]
  }

  ghost predicate SameUsers(g: Graph, h: Graph, choose: nat, g1: nat, g2: nat)
    requires choose in g.defs && g1 in g.defs && g2 in g.defs
  {
    forall y :: y in g.defs && Unread(g, choose, g1, g2, y) ==> Users(h, y) == Users(g, y)
  }

  ghost predicate SameOps(g: Graph, h: Graph) {
    forall x :: x in g.defs ==> x in h.defs && h.defs[x].op == g.defs[x].op
  }

  /** Pair k has parameters of its own, in the three nodes from c on, and reads the items no more. */
  ghost predicate OwnsParameters(h: Graph, g1: nat, g2: nat, p: Pair, c: nat) {
    OwnParameters(h, p.0, p.1, c, c + 1, c + 2) && FreeOf(h, p.0, g1, g2) && FreeOf(h, p.1, g1, g2)
  }

  /** Pairs from i on still read what they read; pairs before i have parameters of their own. */
  ghost predicate ServedUpTo(g: Graph, h: Graph, choose: nat, g1: nat, g2: nat, pairs: seq<Pair>, i: nat, next: nat) {
    forall k :: 0 <= k < |pairs| && pairs[k].0 in g.defs ==>
      if k < i then
        Items(g, choose, g1, g2) && Uses(g.defs[pairs[k].0], g2) ==>
          OwnsParameters(h, g1, g2, pairs[k], next + 3 * k)
      else
        pairs[k].0 in h.defs && h.defs[pairs[k].0] == g.defs[pairs[k].0]
  }

  /** Nodes computed after the items are read by none of the nodes the loop copies. */
  lemma AfterIsUnread(g: Graph, choose: nat, g1: nat, g2: nat, y: nat)
    requires Closed(g) && Ordered(g) && Parameters(g, choose, g1, g2) && ReadsReady(g, g2, g1)
    requires y in g.defs && Before(g.order, g1, y)
    ensures !Uses(g.defs[g1], y) && !Uses(g.defs[g2], y) && !Uses(g.defs[choose], y)
  {
    hide Uses;
    BeforeReads(g, choose, g1);
    BeforeIsPos(g.order, y, g1);
    BeforeIsPos(g.order, g1, y);
  }

  lemma PairIsUnread(g: Graph, choose: nat, g1: nat, g2: nat, q: nat, dq: nat)
    requires Closed(g) && Ordered(g) && Parameters(g, choose, g1, g2) && ReadsReady(g, g2, g1) && IsPair(g, g1, q, dq)
    ensures Unread(g, choose, g1, g2, q) && Unread(g, choose, g1, g2, dq)
  {
    hide Uses, Before;
    PairIsAfter(g, g1, q, dq);
    AfterIsUnread(g, choose, g1, g2, q);
    AfterIsUnread(g, choose, g1, g2, dq);
  }

  /** What a served pair means for the nodes around it. */
  lemma ServedSources(g: Graph, h: Graph, h': Graph, choose: nat, g1: nat, g2: nat, q: nat, dq: nat, c: nat)
    requires Closed(h) && SameSources(g, h, choose, g1, g2) && SameUsers(g, h, choose, g1, g2) && SameOps(g, h)
    requires Parameters(h, choose, g1, g2) && Below(h, c) && q in h.defs && dq in h.defs && {q, dq} !! {choose, g1, g2}
    requires Served(h, h', choose, g1, g2, q, dq, c)
    ensures SameSources(g, h', choose, g1, g2) && SameUsers(g, h', choose, g1, g2) && SameOps(g, h')
    ensures Parameters(h', choose, g1, g2) && Below(h', c + 3)
  {
    hide Uses, Closed;
    forall y | y in g.defs && Unread(g, choose, g1, g2, y)
      ensures Users(h', y) == Users(g, y)
    {
      ServedKeepsUsers(h, h', choose, g1, g2, q, dq, c, y);
    }
  }

  /** The pairs served before, and the ones still to come. */
  lemma ServedPairs(g: Graph, h: Graph, h': Graph, choose: nat, g1: nat, g2: nat, pairs: seq<Pair>, i: nat, next: nat)
    requires Closed(g) && Closed(h) && SameSources(g, h, choose, g1, g2) && Parameters(h, choose, g1, g2)
    requires ArePairs(g, g1, pairs) && SameOps(g, h) && i < |pairs| && Below(g, next) && Below(h, next + 3 * i)
    requires ServedUpTo(g, h, choose, g1, g2, pairs, i, next) && pairs[i].0 in h.defs && pairs[i].1 in h.defs
    requires Served(h, h', choose, g1, g2, pairs[i].0, pairs[i].1, next + 3 * i)
    ensures ServedUpTo(g, h', choose, g1, g2, pairs, i + 1, next)
  {
    hide Uses, Closed, Served, OwnParameters, Below, Both;
    var q, dq, c := pairs[i].0, pairs[i].1, next + 3 * i;
    forall k | 0 <= k < |pairs| && pairs[k].0 in g.defs
      ensures k < i && Items(g, choose, g1, g2) && Uses(g.defs[pairs[k].0], g2) ==>
                OwnsParameters(h', g1, g2, pairs[k], next + 3 * k)
      ensures k == i && Items(g, choose, g1, g2) && Uses(g.defs[pairs[k].0], g2) ==>
                OwnsParameters(h', g1, g2, pairs[k], next + 3 * k)
      ensures k > i ==> pairs[k].0 in h'.defs && h'.defs[pairs[k].0] == g.defs[pairs[k].0]
    {
      if k > i {
        ServedLeaves(h, h', choose, g1, g2, q, dq, c, pairs[k].0);
      } else if Items(g, choose, g1, g2) && Uses(g.defs[pairs[k].0], g2) {
        if k == i {
          ServedIsOwn(h, h', choose, g1, g2, q, dq, c);
        } else {
          var a := next + 3 * k;
          FreshIsUnread(g, h, choose, g1, g2, next, a);
          FreshIsUnread(g, h, choose, g1, g2, next, a + 1);
          FreshIsUnread(g, h, choose, g1, g2, next, a + 2);
          ServedKeepsOwn(h, h', choose, g1, g2, q, dq, c, pairs[k].0, pairs[k].1, a, a + 1, a + 2);
        }
      }
    }
  }

  /** No other pair has the dequantize node of pair k. */
  ghost predicate Lone(pairs: seq<Pair>, k: nat)
    requires k < |pairs|
  {
    forall j: nat :: j < |pairs| && j != k ==> pairs[j].1 != pairs[k].1
  }

  /** What a served pair and its copies look like: copies of the original nodes, reading each
      other where the originals read each other. A dequantize node of several pairs keeps the
      copies of the first. */
  ghost predicate Redefined(g: Graph, h: Graph, choose: nat, g1: nat, g2: nat, p: Pair, c: nat, lone: bool)
    requires {choose, g1, g2, p.0, p.1} <= g.defs.Keys
  {
    && {c, c + 1, c + 2, p.0, p.1} <= h.defs.Keys
    && h.defs[c] == RenameNode(g.defs[g1], choose, c + 2) && h.defs[c + 1] == RenameNode(g.defs[g2], choose, c + 2)
    && h.defs[c + 2] == g.defs[choose] && h.defs[p.0] == Both(g.defs[p.0], g1, g2, c)
    && (lone ==> h.defs[p.1] == Both(g.defs[p.1], g1, g2, c))
  }

  /** Pair k with the first i pairs served: redefined, or still to come. */
  ghost predicate PairAt(g: Graph, h: Graph, choose: nat, g1: nat, g2: nat, pairs: seq<Pair>, i: nat, k: nat, c: nat)
    requires {choose, g1, g2} <= g.defs.Keys && k < |pairs| && pairs[k].0 in g.defs && pairs[k].1 in g.defs
  {
    if k < i then Redefined(g, h, choose, g1, g2, pairs[k], c, Lone(pairs, k))
    else Lone(pairs, k) ==> pairs[k].1 in h.defs && h.defs[pairs[k].1] == g.defs[pairs[k].1]
  }

  ghost predicate RedefinedUpTo(g: Graph, h: Graph, choose: nat, g1: nat, g2: nat, pairs: seq<Pair>, i: nat, next: nat)
    requires {choose, g1, g2} <= g.defs.Keys
  {
    forall k: nat :: k < |pairs| && pairs[k].0 in g.defs && pairs[k].1 in g.defs ==>
      PairAt(g, h, choose, g1, g2, pairs, i, k, next + 3 * k)
  }

  lemma RedefinedPairs(g: Graph, h: Graph, h': Graph, choose: nat, g1: nat, g2: nat, pairs: seq<Pair>, i: nat, next: nat)
    requires SameSources(g, h, choose, g1, g2)
    requires ArePairs(g, g1, pairs) && i < |pairs| && Below(g, next) && Below(h, next + 3 * i)
    requires ServedUpTo(g, h, choose, g1, g2, pairs, i, next) && pairs[i].0 in h.defs && pairs[i].1 in h.defs
    requires RedefinedUpTo(g, h, choose, g1, g2, pairs, i, next)
    requires Served(h, h', choose, g1, g2, pairs[i].0, pairs[i].1, next + 3 * i)
    ensures RedefinedUpTo(g, h', choose, g1, g2, pairs, i + 1, next)
  {
    hide Served, Below, ArePairs, PairAt, ServedUpTo;
    PairsDiffer(g, g1, pairs, i, i);
    NextIsUntouched(g, h, choose, g1, g2, pairs, i, next);
    forall k: nat | k < |pairs| && pairs[k].0 in g.defs && pairs[k].1 in g.defs
      ensures PairAt(g, h', choose, g1, g2, pairs, i + 1, k, next + 3 * k)
    {
      PairsDiffer(g, g1, pairs, i, k);
      PairStep(g, h, h', choose, g1, g2, pairs, i, k, next + 3 * k, next, next + 3 * i);
    }
  }

  lemma PairStep(g: Graph, h: Graph, h': Graph, choose: nat, g1: nat, g2: nat, pairs: seq<Pair>, i: nat, k: nat,
                 c: nat, next: nat, c': nat)
    requires SameSources(g, h, choose, g1, g2) && i < |pairs| && k < |pairs| && Below(g, next) && Below(h, c')
    requires {pairs[i].0, pairs[i].1, pairs[k].0, pairs[k].1} <= g.defs.Keys && {pairs[i].0, pairs[i].1} <= h.defs.Keys
    requires pairs[i].0 !in {pairs[i].1, pairs[k].1} && pairs[k].0 != pairs[i].1 && (i != k ==> pairs[k].0 != pairs[i].0)
    requires h.defs[pairs[i].0] == g.defs[pairs[i].0] && next <= c && (i == k ==> c == c')
    requires PairAt(g, h, choose, g1, g2, pairs, i, k, c)
    requires Served(h, h', choose, g1, g2, pairs[i].0, pairs[i].1, c')
    ensures PairAt(g, h', choose, g1, g2, pairs, i + 1, k, c)
  {
    hide Served, Below, Redefined;
    if k < i {
      StaysRedefined(g, h, h', choose, g1, g2, pairs[k], c, Lone(pairs, k), pairs[i], next, c');
    } else if k == i {
      NowRedefined(g, h, h', choose, g1, g2, pairs[i], c, Lone(pairs, i));
    } else if Lone(pairs, k) {
      ServedLeaves(h, h', choose, g1, g2, pairs[i].0, pairs[i].1, c', pairs[k].1);
    }
  }

  lemma PairsDiffer(g: Graph, g1: nat, pairs: seq<Pair>, j: nat, k: nat)
    requires ArePairs(g, g1, pairs) && j < |pairs| && k < |pairs|
    ensures {pairs[j].0, pairs[j].1, pairs[k].0, pairs[k].1} <= g.defs.Keys
    ensures pairs[j].0 != pairs[k].1 && pairs[k].0 != pairs[j].1 && (j != k ==> pairs[j].0 != pairs[k].0)
  {
    hide Uses, Users;
    assert IsPair(g, g1, pairs[j].0, pairs[j].1) && IsPair(g, g1, pairs[k].0, pairs[k].1);
  }

  lemma NextIsUntouched(g: Graph, h: Graph, choose: nat, g1: nat, g2: nat, pairs: seq<Pair>, i: nat, next: nat)
    requires i < |pairs| && pairs[i].0 in g.defs && ServedUpTo(g, h, choose, g1, g2, pairs, i, next)
    ensures pairs[i].0 in h.defs && h.defs[pairs[i].0] == g.defs[pairs[i].0]
  {
    hide OwnsParameters;
  }

  lemma NowRedefined(g: Graph, h: Graph, h': Graph, choose: nat, g1: nat, g2: nat, p: Pair, c: nat, lone: bool)
    requires SameSources(g, h, choose, g1, g2) && p.0 in g.defs && p.1 in g.defs && p.0 in h.defs && p.1 in h.defs
    requires h.defs[p.0] == g.defs[p.0] && (lone ==> h.defs[p.1] == g.defs[p.1]) && p.0 != p.1 && Below(h, c)
    requires Served(h, h', choose, g1, g2, p.0, p.1, c)
    ensures Redefined(g, h', choose, g1, g2, p, c, lone)
  {
    hide Both, RenameNode;
  }

  lemma StaysRedefined(g: Graph, h: Graph, h': Graph, choose: nat, g1: nat, g2: nat, p: Pair, c: nat, lone: bool,
                       p': Pair, next: nat, c': nat)
    requires {choose, g1, g2, p.0, p.1} <= g.defs.Keys && Redefined(g, h, choose, g1, g2, p, c, lone)
    requires {choose, g1, g2, p'.0, p'.1} <= h.defs.Keys && {p'.0, p'.1} <= g.defs.Keys && Below(g, next) && next <= c
    requires p.0 !in {p'.0, p'.1} && (lone ==> p.1 !in {p'.0, p'.1})
    requires Served(h, h', choose, g1, g2, p'.0, p'.1, c') && Below(h, c')
    ensures Redefined(g, h', choose, g1, g2, p, c, lone)
  {
    hide Both, RenameNode, Served;
    forall x | x in {c, c + 1, c + 2, p.0} || (lone && x == p.1)
      ensures x in h'.defs && h'.defs[x] == h.defs[x]
    {
      ServedLeaves(h, h', choose, g1, g2, p'.0, p'.1, c', x);
    }
    ServedStays(h, h', choose, g1, g2, p'.0, p'.1, c', p.1);
  }

  lemma ServedStays(h: Graph, h': Graph, choose: nat, g1: nat, g2: nat, q: nat, dq: nat, c: nat, x: nat)
    requires {choose, g1, g2, q, dq, x} <= h.defs.Keys && Served(h, h', choose, g1, g2, q, dq, c)
    ensures x in h'.defs
  {
    hide Both, RenameNode;
  }

  lemma ServedLeaves(h: Graph, h': Graph, choose: nat, g1: nat, g2: nat, q: nat, dq: nat, c: nat, x: nat)
    requires choose in h.defs && g1 in h.defs && g2 in h.defs && q in h.defs && dq in h.defs
    requires Served(h, h', choose, g1, g2, q, dq, c) && x in h.defs && x != q && x != dq && Below(h, c)
    ensures x in h'.defs && h'.defs[x] == h.defs[x]
  {
    hide Both, RenameNode;
  }

  lemma FreshIsUnread(g: Graph, h: Graph, choose: nat, g1: nat, g2: nat, next: nat, y: nat)
    requires Closed(g) && SameSources(g, h, choose, g1, g2) && Below(g, next) && y >= next
    ensures Unread(h, choose, g1, g2, y)
  {
    ReadsAreBelow(g, next, g1);
    ReadsAreBelow(g, next, g2);
    ReadsAreBelow(g, next, choose);
  }

  /** Everything the loop over the pairs keeps, with the first i of them served. */
  ghost predicate Serving(g0: Graph, f: map<nat, nat>, g: Graph, h: Graph, choose: nat, g1: nat, g2: nat,
                          pairs: seq<Pair>, i: nat, next: nat) {
    && Sound(g0, h, f) && Below(h, next + 3 * i) && Below(g0, next + 3 * i)
    && SameSources(g, h, choose, g1, g2) && SameUsers(g, h, choose, g1, g2) && SameOps(g, h)
    && Parameters(h, choose, g1, g2) && ReadsReady(h, g2, g1)
    && ServedUpTo(g, h, choose, g1, g2, pairs, i, next) && NewFrom(g, h, next)
    && RedefinedUpTo(g, h, choose, g1, g2, pairs, i, next)
  }

  /** Nodes h has more than g are numbered from `next` on. */
  ghost predicate NewFrom(g: Graph, h: Graph, next: nat) {
    forall x :: x in h.defs && x < next ==> x in g.defs
  }

  lemma ServedIsNew(g: Graph, h: Graph, h': Graph, choose: nat, g1: nat, g2: nat, q: nat, dq: nat, c: nat, next: nat)
    requires choose in h.defs && g1 in h.defs && g2 in h.defs && q in h.defs && dq in h.defs
    requires Served(h, h', choose, g1, g2, q, dq, c) && NewFrom(g, h, next) && next <= c
    ensures NewFrom(g, h', next)
  {
    hide Both, RenameNode;
  }

  /** What the loop starts from. */
  ghost predicate Servable(g: Graph, choose: nat, g1: nat, g2: nat, pairs: seq<Pair>, next: nat) {
    && Closed(g) && Ordered(g) && Below(g, next)
    && Parameters(g, choose, g1, g2) && ReadsReady(g, g2, g1) && ArePairs(g, g1, pairs)
  }

  predicate CanServe(h: Graph, f: map<nat, nat>, choose: nat, g1: nat, g2: nat, p: Pair) {
    HaveSources(h, f, choose, g1, g2) && p.0 in h.defs && p.1 in h.defs
  }

  lemma NextPair(g0: Graph, f: map<nat, nat>, g: Graph, h: Graph, choose: nat, g1: nat, g2: nat,
                 pairs: seq<Pair>, i: nat, next: nat)
    requires Servable(g, choose, g1, g2, pairs, next) && i < |pairs|
    requires Serving(g0, f, g, h, choose, g1, g2, pairs, i, next)
    ensures IsPair(h, g1, pairs[i].0, pairs[i].1) && {pairs[i].0, pairs[i].1} !! {choose, g1, g2}
    ensures pairs[i].0 != pairs[i].1 && CanServe(h, f, choose, g1, g2, pairs[i])
  {
    hide Before, Ordered;
    var q, dq := pairs[i].0, pairs[i].1;
    PairIsUnread(g, choose, g1, g2, q, dq);
    assert g1 in h.order;
  }

  lemma ServeNext(g0: Graph, f: map<nat, nat>, f': map<nat, nat>, g: Graph, h: Graph, h': Graph,
                  choose: nat, g1: nat, g2: nat, pairs: seq<Pair>, i: nat, next: nat)
    requires i < |pairs| && CanServe(h, f, choose, g1, g2, pairs[i])
    requires var c := next + 3 * i;
             && h' == QParamsFor(h, choose, g1, g2, pairs[i].0, pairs[i].1, c)
             && f' == f[c := f[g1]][c + 1 := f[g2]][c + 2 := f[choose]]
    requires Servable(g, choose, g1, g2, pairs, next)
    requires Serving(g0, f, g, h, choose, g1, g2, pairs, i, next)
    ensures Serving(g0, f', g, h', choose, g1, g2, pairs, i + 1, next)
  {
    hide NewFrom, Before, Ordered, Folds, Uses, Both, QParamsFor, Sound, ServedUpTo, SameUsers, RenameNode, Below,
      OwnParameters, Unread, ReadsReady, RedefinedUpTo;
    var q, dq, c := pairs[i].0, pairs[i].1, next + 3 * i;
    NextPair(g0, f, g, h, choose, g1, g2, pairs, i, next);
    QParamsAreSound(g0, h, h', f, f', choose, g1, g2, q, dq, c);
    QParamsDefs(h, choose, g1, g2, q, dq, c);
    SoundIsClosed(g0, h, f);
    ServedSources(g, h, h', choose, g1, g2, q, dq, c);
    ServedPairs(g, h, h', choose, g1, g2, pairs, i, next);
    RedefinedPairs(g, h, h', choose, g1, g2, pairs, i, next);
    ServedIsNew(g, h, h', choose, g1, g2, q, dq, c, next);
    StillReady(h, h', g2, g1);
    BelowMore(g0, c);
  }

  lemma SoundIsClosed(g0: Graph, g: Graph, f: map<nat, nat>)
    requires Sound(g0, g, f)
    ensures Closed(g) && Ordered(g) && f.Keys == g.defs.Keys
  {
  }

  lemma StillReady(h: Graph, h': Graph, n: nat, at: nat)
    requires n in h.defs && n in h'.defs && h'.defs[n] == h.defs[n] && ReadsReady(h, n, at)
    requires forall a, b :: Before(h.order, a, b) ==> Before(h'.order, a, b)
    ensures ReadsReady(h', n, at)
  {
    hide Before;
  }

  lemma BelowMore(g: Graph, c: nat)
    requires Below(g, c)
    ensures Below(g, c + 3)
  {
  }

  lemma StartServing(g0: Graph, f: map<nat, nat>, g: Graph, choose: nat, g1: nat, g2: nat, pairs: seq<Pair>, next: nat)
    requires Servable(g, choose, g1, g2, pairs, next) && Sound(g0, g, f) && Below(g0, next)
    ensures Serving(g0, f, g, g, choose, g1, g2, pairs, 0, next)
  {
  }

  /** Serve the pairs one by one (second loop of `_replicate_chose_qparam_nodes_for_q_dq`). */
  method ServePairs(g: Graph, choose: nat, g1: nat, g2: nat, pairs: seq<Pair>, next: nat,
                    ghost g0: Graph, ghost f: map<nat, nat>)
    returns (h: Graph, ghost f': map<nat, nat>)
    requires Servable(g, choose, g1, g2, pairs, next) && Sound(g0, g, f) && Below(g0, next)
    ensures Serving(g0, f', g, h, choose, g1, g2, pairs, |pairs|, next)
  {
    hide Serving, Servable, Sound, Below, QParamsFor, IsPair;
    h, f' := g, f;
    StartServing(g0, f, g, choose, g1, g2, pairs, next);
    for i := 0 to |pairs|
      invariant Serving(g0, f', g, h, choose, g1, g2, pairs, i, next)
    {
      var c := next + 3 * i;
      NextPair(g0, f', g, h, choose, g1, g2, pairs, i, next);
      ghost var f0, h0 := f', h;
      h := QParamsFor(h, choose, g1, g2, pairs[i].0, pairs[i].1, c);
      f' := f'[c := f'[g1]][c + 1 := f'[g2]][c + 2 := f'[choose]];
      ServeNext(g0, f0, f', g, h0, h, choose, g1, g2, pairs, i, next);
    }
  }

  /** A quantize node the loop accepts: one user, a dequantize node. */
  ghost predicate Acceptable(g: Graph, q: nat) {
    |Users(g, q)| == 1 && forall d :: d in Users(g, q) ==> g.defs[d].op.Dequantize?
  }

  lemma OnlyUser(g: Graph, q: nat, d: nat)
    requires |Users(g, q)| == 1 && d in Users(g, q)
    ensures Users(g, q) == {d}
  {
    var rest := Users(g, q) - {d};
    assert |rest| == 0;
    assert Users(g, q) == rest + {d};
  }

  /** Every quantize user of the first item outside `todo` is the quantize node of a pair. */
  ghost predicate Covers(g: Graph, g1: nat, pairs: seq<Pair>, todo: set<nat>) {
    forall q :: q in Users(g, g1) && q !in todo && g.defs[q].op.Quantize? ==> exists k :: 0 <= k < |pairs| && pairs[k].0 == q
  }

  /** Pairs from some of the users. */
  ghost predicate Collected(g: Graph, g1: nat, pairs: seq<Pair>, todo: set<nat>) {
    && ArePairs(g, g1, pairs) && Covers(g, g1, pairs, todo)
    && (forall k :: 0 <= k < |pairs| ==> pairs[k].0 !in todo)
    && (forall q :: q in Users(g, g1) && q !in todo && g.defs[q].op.Quantize? ==> Acceptable(g, q))
  }

  lemma CollectOne(g: Graph, g1: nat, pairs: seq<Pair>, todo: set<nat>, q: nat, d: nat)
    requires Collected(g, g1, pairs, todo) && q in todo && q in Users(g, g1) && g.defs[q].op.Quantize?
    requires Users(g, q) == {d} && g.defs[d].op.Dequantize?
    ensures Collected(g, g1, pairs + [(q, d)], todo - {q})
  {
    hide Uses;
    var pairs' := pairs + [(q, d)];
    assert d in Users(g, q);
    forall x | x in Users(g, g1) && x !in todo - {q} && g.defs[x].op.Quantize?
      ensures exists k :: 0 <= k < |pairs'| && pairs'[k].0 == x
    {
      if x == q {
        assert pairs'[|pairs|].0 == x;
      } else {
        var k :| 0 <= k < |pairs| && pairs[k].0 == x;
        assert pairs'[k].0 == x;
      }
    }
  }

  /** First loop of `_replicate_chose_qparam_nodes_for_q_dq`: collect the pairs, or raise. */
  method CollectPairs(g: Graph, g1: nat) returns (ok: bool, pairs: seq<Pair>)
    ensures ok ==> Collected(g, g1, pairs, {})
    ensures ok <==> forall q :: q in Users(g, g1) && g.defs[q].op.Quantize? ==> Acceptable(g, q)
  {
    hide Covers, ArePairs, Uses;
    var todo := Users(g, g1);
    pairs := [];
    assert Collected(g, g1, pairs, todo) by {
      NothingCollected(g, g1);
    }
    while todo != {}
      invariant todo <= Users(g, g1) && Collected(g, g1, pairs, todo)
      decreases |todo|
    {
      var q :| q in todo;
      if g.defs[q].op.Quantize? {
        if |Users(g, q)| != 1 {
          return false, pairs;
        }
        OneUser(g, q);
        var d :| d in Users(g, q);
        OnlyUser(g, q, d);
        if !g.defs[d].op.Dequantize? {
          return false, pairs;
        }
        CollectOne(g, g1, pairs, todo, q, d);
        pairs := pairs + [(q, d)];
      } else {
        SkipOne(g, g1, pairs, todo, q);
      }
      todo := todo - {q};
    }
    ok := true;
  }

  lemma OneUser(g: Graph, q: nat)
    requires |Users(g, q)| == 1
    ensures exists d :: d in Users(g, q)
  {
    assert Users(g, q) != {};
  }

  lemma NothingCollected(g: Graph, g1: nat)
    ensures Collected(g, g1, [], Users(g, g1))
  {
  }

  lemma SkipOne(g: Graph, g1: nat, pairs: seq<Pair>, todo: set<nat>, q: nat)
    requires Collected(g, g1, pairs, todo) && q in g.defs && !g.defs[q].op.Quantize?
    ensures Collected(g, g1, pairs, todo - {q})
  {
    hide Uses;
  }

  /** The second item's inputs are there by the time the copies are placed. */
  predicate InReach(g: Graph, g1: nat, g2: nat)
    requires g2 in g.defs
  {
    forall a :: a in g.defs[g2].args && a.NodeArg? ==> Pos(g.order, a.id) <= Pos(g.order, g1)
  }

  lemma InReachIsReady(g: Graph, g1: nat, g2: nat)
    requires Closed(g) && g1 in g.defs && g2 in g.defs
    ensures InReach(g, g1, g2) <==> ReadsReady(g, g2, g1)
  {
    forall a | a in g.defs[g2].args && a.NodeArg?
      ensures Uses(g.defs[g2], a.id)
      ensures Pos(g.order, a.id) <= Pos(g.order, g1) <==> a.id == g1 || Before(g.order, a.id, g1)
    {
      BeforeIsPos(g.order, a.id, g1);
      assert g.order[Pos(g.order, a.id)] == a.id && g.order[Pos(g.order, g1)] == g1;
    }
  }
}
