/**
 The pool's steps on values: what each does to one account's lists, and that it keeps the
 views in agreement and the pending lists executable.
 */
module PoolSteps {
  import opened Transactions
  import opened NonceMaps
  import opened TxLists
  import opened PricedLists
  import opened PoolModel
  import SortedMap
  import Orders

  /** The transaction stored under a nonce, if any. */
  function Stored(m: Items, n: nat): (s: set<Tx>)
    ensures |s| <= 1
  {
    if n in m then {m[n]} else {}
  }

  /** setIfLower: the pending nonce does not rise, and falls to `n` if it was above. */
  function Lowered(noncer: map<Address, nat>, c: Chain, a: Address, n: nat): (r: map<Address, nat>) {
    noncer[a := if PendingNonce(noncer, c, a) <= n then PendingNonce(noncer, c, a) else n]
  }

  // ---------- account steps on values ----------

  /** Queueing a transaction whose nonce is not pending; one it replaces leaves the pool. */
  lemma QueueOne(p: Book, q: Book, live: set<Tx>, tx: Tx)
    requires Consistent(p, q, live) && tx.signed && tx.nonce !in At(p, tx.from)
    ensures Consistent(p, q[tx.from := ListOf(q, tx.from, false).Added(tx)],
                       live - Stored(At(q, tx.from), tx.nonce) + {tx})
    ensures Stored(At(q, tx.from), tx.nonce) <= live
  {
    var a := tx.from;
    var l := ListOf(q, a, false);
    var q' := q[a := l.Added(tx)];
    var live' := live - Stored(At(q, a), tx.nonce) + {tx};
    assert AccountOk(p, q, live, a);
    AddedOk(l, tx);
    assert At(q', a) == At(q, a)[tx.nonce := tx];
    assert Owned(At(q', a), a);
    forall t: Tx | t.from == a ensures t in live' <==> Has(At(p, a), t) || Has(At(q', a), t) {
    }
    assert AccountOk(p, q', live', a);
    AccountStep(p, q, live, p, q', live', a);
  }

  /** Adding a transaction to pending whose nonce is not queued; one it replaces leaves the pool. */
  lemma PendOne(p: Book, q: Book, live: set<Tx>, tx: Tx)
    requires Consistent(p, q, live) && tx.signed && tx.nonce !in At(q, tx.from)
    ensures Consistent(p[tx.from := ListOf(p, tx.from, true).Added(tx)], q,
                       live - Stored(At(p, tx.from), tx.nonce) + {tx})
    ensures Stored(At(p, tx.from), tx.nonce) <= live
  {
    var a := tx.from;
    var l := ListOf(p, a, true);
    var p' := p[a := l.Added(tx)];
    var live' := live - Stored(At(p, a), tx.nonce) + {tx};
    assert AccountOk(p, q, live, a);
    AddedOk(l, tx);
    assert At(p', a) == At(p, a)[tx.nonce := tx];
    assert Owned(At(p', a), a);
    forall t: Tx | t.from == a ensures t in live' <==> Has(At(p', a), t) || Has(At(q, a), t) {
    }
    assert AccountOk(p', q, live', a);
    AccountStep(p, q, live, p', q, live', a);
  }

  /** Transactions taken out of the lookup table but not reported yet are slack. */
  lemma SlackAfter(items: seq<Tx>, stales: int, live: set<Tx>, slack: nat, gone: set<Tx>)
    requires Tracking(items, stales, live, slack)
    ensures Tracking(items, stales, live - gone, slack + |gone|)
  {
    Shrunk(live, gone);
  }

  lemma Shrunk(live: set<Tx>, gone: set<Tx>)
    ensures |live| <= |live - gone| + |gone|
  {
    assert live == (live - gone) + (live * gone);
    assert |live| == |live - gone| + |live * gone|;
    SubsetSize(live * gone, gone);
  }

  /** Cutting an account's pending list down to part of it. */
  lemma CutPending(p: Book, q: Book, live: set<Tx>, a: Address, l: AccountList, gone: set<Tx>)
    requires Consistent(p, q, live) && a in p
    requires l.strict && l.Ok() && SubMap(l.items, p[a].items)
    requires forall t: Tx :: t in gone <==> Has(p[a].items, t) && t.nonce !in l.items
    ensures Consistent(SetList(p, a, l), q, live - gone)
  {
    assert AccountOk(p, q, live, a);
    var p' := SetList(p, a, l);
    assert At(p', a) == l.items;
    assert AccountOk(p', q, live - gone, a);
    AccountStep(p, q, live, p', q, live - gone, a);
  }

  lemma CutQueue(p: Book, q: Book, live: set<Tx>, a: Address, l: AccountList, gone: set<Tx>)
    requires Consistent(p, q, live) && a in q
    requires !l.strict && l.Ok() && SubMap(l.items, q[a].items)
    requires forall t: Tx :: t in gone <==> Has(q[a].items, t) && t.nonce !in l.items
    ensures Consistent(p, SetList(q, a, l), live - gone)
  {
    assert AccountOk(p, q, live, a);
    var q' := SetList(q, a, l);
    assert At(q', a) == l.items;
    assert AccountOk(p, q', live - gone, a);
    AccountStep(p, q, live, p, q', live - gone, a);
  }

  lemma SetListFacts(b: Book, a: Address, l: AccountList)
    ensures At(SetList(b, a, l), a) == l.items
    ensures SameBut(SetList(b, a, l), b, a)
  {
  }

  /** The pending nonces once the first i transactions of an account were promoted. */
  function Noted(noncer: map<Address, nat>, a: Address, txs: seq<Tx>, i: nat): (r: map<Address, nat>)
    requires i <= |txs|
  {
    if i == 0 then noncer else noncer[a := txs[i - 1].nonce + 1]
  }

  lemma NotedNext(noncer: map<Address, nat>, a: Address, txs: seq<Tx>, i: nat)
    requires i < |txs|
    ensures Noted(noncer, a, txs, i)[a := txs[i].nonce + 1] == Noted(noncer, a, txs, i + 1)
  {
  }

  /** The lowest nonces up to a cap, if there is one. */
  function CappedTo(m: Items, cap: Option<nat>): (r: Items) {
    if cap.None? then m else KeepLowest(m, cap.value)
  }

  /**
   What one account's turn in the promotion does, `m` being the usable part of its queue:
   the consecutive run at the front moves to pending, the pending nonce follows it, and the
   rest stays queued up to the cap.
   */
  ghost predicate Promotion(p: Book, noncer: map<Address, nat>, m: Items, p': Book, q': Book, noncer': map<Address, nat>,
                            c: Chain, a: Address, cap: Option<nat>, promoted: seq<Tx>)
  {
    var end := ReadyEnd(m, PendingNonce(noncer, c, a));
    && At(p', a) == At(p, a) + Below(m, end)
    && At(q', a) == CappedTo(From(m, end), cap)
    && Flat(promoted, Below(m, end))
    && noncer' == Noted(noncer, a, promoted, |promoted|)
  }

  /**
   With nothing queued behind the chain nonce `s`, no queued nonce pending, and everything
   from `s` to the pending nonce pending, the promoted run starts exactly at the pending nonce.
   */
  lemma FrontRun(m: Items, base: Items, s: nat, pn: nat)
    requires forall n :: n in m ==> s <= n && n !in base
    requires forall k: nat :: s <= k < pn ==> k in base
    ensures var run, end := Below(m, ReadyEnd(m, pn)), ReadyEnd(m, pn);
      run == map[] || (pn in m && pn < end && Spans(run, pn, end))
  {
    var run, end := Below(m, ReadyEnd(m, pn)), ReadyEnd(m, pn);
    if m.Keys != {} && MinKey(m.Keys) <= pn {
      assert MinKey(m.Keys) == pn;
      assert forall n: nat :: n in run <==> n in m && n < end;
    }
  }

  lemma LastOfRun(txs: seq<Tx>, m: Items, lo: nat, hi: nat)
    requires Flat(txs, m) && Keyed(m) && Spans(m, lo, hi) && lo < hi
    ensures txs != [] && txs[|txs| - 1].nonce == hi - 1
  {
    assert m[hi - 1] in txs;
    var i :| 0 <= i < |txs| && txs[i] == m[hi - 1];
    assert txs[|txs| - 1] in txs;
  }

  lemma NoneOfRun(txs: seq<Tx>)
    requires Flat(txs, map[])
    ensures txs == []
  {
    HasFirst(txs);
  }

  /** The run that is promoted: none, or one from the pending nonce up to where it ends. */
  lemma RunOrNone(m: Items, base: Items, s: nat, pn: nat, promoted: seq<Tx>)
    requires Keyed(m) && forall n :: n in m ==> s <= n && n !in base
    requires forall k: nat :: s <= k < pn ==> k in base
    requires Flat(promoted, Below(m, ReadyEnd(m, pn)))
    ensures var run, end := Below(m, ReadyEnd(m, pn)), ReadyEnd(m, pn);
      || (run == map[] && promoted == [])
      || (pn in m && pn < end && Spans(run, pn, end) && promoted != [] && promoted[|promoted| - 1].nonce + 1 == end)
  {
    var run, end := Below(m, ReadyEnd(m, pn)), ReadyEnd(m, pn);
    FrontRun(m, base, s, pn);
    if run == map[] {
      NoneOfRun(promoted);
    } else {
      LastOfRun(promoted, run, pn, end);
    }
  }

  /** The promoted run starts at the pending nonce, and the new pending nonce is its end. */
  lemma PromotionRun(p: Book, noncer: map<Address, nat>, m: Items, p': Book, q': Book, noncer': map<Address, nat>,
                     c: Chain, a: Address, cap: Option<nat>, promoted: seq<Tx>)
    requires Promotion(p, noncer, m, p', q', noncer', c, a, cap, promoted)
    requires Keyed(m) && forall n :: n in m ==> c.Nonce(a) <= n && n !in At(p, a)
    requires forall k: nat :: c.Nonce(a) <= k < PendingNonce(noncer, c, a) ==> k in At(p, a)
    ensures (At(p', a) == At(p, a) && noncer' == noncer)
            || (var pn, end := PendingNonce(noncer, c, a), PendingNonce(noncer', c, a);
                pn in m && pn < end && Spans(Below(m, end), pn, end) && At(p', a) == At(p, a) + Below(m, end))
  {
    var pn := PendingNonce(noncer, c, a);
    var end := ReadyEnd(m, pn);
    var run := Below(m, end);
    RunOrNone(m, At(p, a), c.Nonce(a), pn, promoted);
    RunEnds(At(p, a), At(p', a), run, noncer, noncer', c, a, promoted, end);
  }

  lemma RunEnds(base: Items, all: Items, run: Items, noncer: map<Address, nat>, noncer': map<Address, nat>, c: Chain, a: Address,
                promoted: seq<Tx>, end: nat)
    requires all == base + run
    requires (run == map[] && promoted == []) || (promoted != [] && promoted[|promoted| - 1].nonce + 1 == end)
    requires noncer' == if promoted == [] then noncer else noncer[a := promoted[|promoted| - 1].nonce + 1]
    ensures promoted == [] ==> all == base && noncer' == noncer
    ensures promoted != [] ==> PendingNonce(noncer', c, a) == end
  {
    assert promoted == [] ==> base + map[] == base;
  }

  /** One account's promotion keeps an executable account executable. */
  lemma PromotionExecutable(p: Book, noncer: map<Address, nat>, m: Items, p': Book, q': Book, noncer': map<Address, nat>,
                            c: Chain, a: Address, cap: Option<nat>, promoted: seq<Tx>)
    requires Promotion(p, noncer, m, p', q', noncer', c, a, cap, promoted)
    requires Keyed(m) && Payable(m, c, a) && forall n :: n in m ==> c.Nonce(a) <= n && n !in At(p, a)
    requires Executable(p, noncer, c, a)
    ensures Executable(p', noncer', c, a)
  {
    PromotionRun(p, noncer, m, p', q', noncer', c, a, cap, promoted);
    var pn, end := PendingNonce(noncer, c, a), PendingNonce(noncer', c, a);
    if pn < end {
      Joined(At(p, a), Below(m, end), c.Nonce(a), pn, end);
    }
  }

  lemma PromotionSettling(p: Book, noncer: map<Address, nat>, m: Items, p': Book, q': Book, noncer': map<Address, nat>,
                          c: Chain, a: Address, cap: Option<nat>, promoted: seq<Tx>)
    requires Promotion(p, noncer, m, p', q', noncer', c, a, cap, promoted)
    requires Keyed(m) && Payable(m, c, a) && forall n :: n in m ==> c.Nonce(a) <= n && n !in At(p, a)
    requires Settling(p, noncer, c, a)
    ensures Settling(p', noncer', c, a)
  {
    var s, pn := c.Nonce(a), PendingNonce(noncer, c, a);
    FilledUp(At(p, a), s, pn);
    PromotionRun(p, noncer, m, p', q', noncer', c, a, cap, promoted);
    var end := PendingNonce(noncer', c, a);
    if pn < end {
      JoinedFrom(At(p, a), Below(m, end), s, pn, end);
      PayableJoin(From(At(p, a), s), Below(m, end), c, a);
    }
  }

  lemma FilledUp(base: Items, s: nat, pn: nat)
    requires pn == s || Spans(From(base, s), s, pn)
    ensures forall k: nat :: s <= k < pn ==> k in base
  {
    assert forall k: nat :: k in From(base, s) ==> k in base;
  }

  lemma PayableJoin(m: Items, n: Items, c: Chain, a: Address)
    requires Payable(m, c, a) && Payable(n, c, a)
    ensures Payable(m + n, c, a)
  {
  }

  lemma Joined(base: Items, run: Items, s: nat, pn: nat, end: nat)
    requires Spans(base, s, pn) && Spans(run, pn, end)
    ensures Spans(base + run, s, end)
  {
  }

  lemma JoinedFrom(base: Items, run: Items, s: nat, pn: nat, end: nat)
    requires Steady(From(base, s), s) && s <= pn && pn !in base && Spans(run, pn, end)
    requires pn == s || Spans(From(base, s), s, pn)
    ensures From(base + run, s) == From(base, s) + run
    ensures Spans(From(base + run, s), s, end)
  {
    assert pn !in From(base, s);
    assert forall n :: n in From(base, s) && pn < n ==> pn in From(base, s);
  }

  /** What is left of a queued list once stale and unpayable transactions are gone. */
  function Usable(l: AccountList, c: Chain, a: Address): (r: AccountList) {
    l.Forwarded(c.Nonce(a)).Filtered(c.Balance(a), c.maxGas)
  }

  /** What the filter of a queued list takes out. */
  function TooDear(l: AccountList, c: Chain, a: Address): (r: Items) {
    l.Forwarded(c.Nonce(a)).Unpayable(c.Balance(a), c.maxGas)
  }

  /** Usable transactions are payable and not behind the chain. */
  lemma UsableOk(l: AccountList, c: Chain, a: Address)
    requires l.Ok()
    ensures Usable(l, c, a).Ok() && Usable(l, c, a).strict == l.strict
    ensures Payable(Usable(l, c, a).items, c, a)
    ensures forall n :: n in Usable(l, c, a).items ==> n in l.items && c.Nonce(a) <= n && Usable(l, c, a).items[n] == l.items[n]
  {
    var f := l.Forwarded(c.Nonce(a));
    FilterShortcut(f, c.Balance(a), c.maxGas);
    FilteredOk(f, c.Balance(a), c.maxGas);
  }

  /** A queued list falls into stale, unpayable and usable transactions. */
  lemma UsableSplit(l: AccountList, c: Chain, a: Address)
    requires l.Ok() && !l.strict
    ensures Partition3(l.items, Usable(l, c, a).items, Below(l.items, c.Nonce(a)), TooDear(l, c, a))
  {
    FilterPartition(l.Forwarded(c.Nonce(a)), c.Balance(a), c.maxGas);
    PartitionSize(l.items, Usable(l, c, a).items, Below(l.items, c.Nonce(a)), TooDear(l, c, a));
  }

  lemma TxsUnion(m: Items, a: Items, b: Items, rest: Items)
    requires Keyed(m) && Partition3(m, rest, a, b)
    ensures |Txs(a) + Txs(b)| == |a| + |b|
    ensures forall t: Tx :: t in Txs(a) + Txs(b) <==> Has(m, t) && t.nonce !in rest
  {
    TxsSize(a);
    TxsSize(b);
    forall t: Tx ensures t in Txs(a) + Txs(b) <==> Has(m, t) && t.nonce !in rest {
      TxsHas(a, t);
      TxsHas(b, t);
    }
    assert Txs(a) !! Txs(b) by {
      forall t | t in Txs(a) ensures t !in Txs(b) {
        TxsHas(a, t);
        TxsHas(b, t);
      }
    }
  }

  lemma PruneStep(p: Book, q: Book, live: set<Tx>, c: Chain, a: Address)
    requires Consistent(p, q, live) && a in q
    ensures var forwards, drops := Below(q[a].items, c.Nonce(a)), TooDear(q[a], c, a);
      && Consistent(p, SetList(q, a, Usable(q[a], c, a)), live - (Txs(forwards) + Txs(drops)))
      && |Txs(forwards) + Txs(drops)| == |forwards| + |drops|
  {
    assert AccountOk(p, q, live, a);
    var forwards, drops := Below(q[a].items, c.Nonce(a)), TooDear(q[a], c, a);
    UsableOk(q[a], c, a);
    UsableSplit(q[a], c, a);
    TxsUnion(q[a].items, forwards, drops, Usable(q[a], c, a).items);
    CutQueue(p, q, live, a, Usable(q[a], c, a), Txs(forwards) + Txs(drops));
  }

  lemma ReadyStep(p: Book, q: Book, live: set<Tx>, a: Address, pn: nat)
    requires Consistent(p, q, live)
    ensures var l := ListOf(q, a, false);
      var run, rest := l.ReadyRun(pn), l.AfterReady(pn);
      && Consistent(p, SetList(q, a, rest), live - Txs(run))
      && At(SetList(q, a, rest), a) == rest.items
      && Keyed(run) && Owned(run, a) && Txs(run) <= live
      && run.Keys !! At(p, a).Keys && run.Keys !! rest.items.Keys
  {
    assert AccountOk(p, q, live, a);
    var l := ListOf(q, a, false);
    var run, rest := l.ReadyRun(pn), l.AfterReady(pn);
    forall t: Tx ensures t in Txs(run) <==> Has(l.items, t) && t.nonce !in rest.items {
      TxsHas(run, t);
    }
    if a in q {
      CutQueue(p, q, live, a, rest, Txs(run));
    } else {
      assert run == map[] && rest.items == map[];
      assert SetList(q, a, rest) == q && live - Txs(run) == live;
    }
  }

  /** What a cap keeps and drops. */
  lemma CapSplit(l: AccountList, k: nat)
    requires l.Ok() && !l.strict
    ensures l.Capped(k).Ok() && !l.Capped(k).strict && l.Capped(k).items == KeepLowest(l.items, k)
    ensures SubMap(l.Capped(k).items, l.items)
    ensures |Txs(DropLowest(l.items, k))| == |DropLowest(l.items, k)|
    ensures forall t: Tx :: t in Txs(DropLowest(l.items, k)) <==> Has(l.items, t) && t.nonce !in l.Capped(k).items
  {
    var caps := DropLowest(l.items, k);
    TxsSize(caps);
    forall t: Tx ensures t in Txs(caps) <==> Has(l.items, t) && t.nonce !in l.Capped(k).items {
      TxsHas(caps, t);
    }
  }

  lemma CapQueueStep(p: Book, q: Book, live: set<Tx>, a: Address, k: nat)
    requires Consistent(p, q, live)
    ensures var l := ListOf(q, a, false);
      && Consistent(p, SetList(q, a, l.Capped(k)), live - Txs(DropLowest(l.items, k)))
      && At(SetList(q, a, l.Capped(k)), a) == KeepLowest(At(q, a), k)
      && |Txs(DropLowest(l.items, k))| == |DropLowest(l.items, k)|
  {
    var l := ListOf(q, a, false);
    assert l.Ok() && !l.strict by {
      assert AccountOk(p, q, live, a);
    }
    CapSplit(l, k);
    if a in q {
      CutQueue(p, q, live, a, l.Capped(k), Txs(DropLowest(l.items, k)));
    } else {
      NothingToCap(l, k);
      assert SetList(q, a, l.Capped(k)) == q;
      assert live - Txs(DropLowest(l.items, k)) == live;
    }
  }

  lemma NothingToCap(l: AccountList, k: nat)
    requires l.items == map[]
    ensures l.Capped(k).items == map[] && DropLowest(l.items, k) == map[] && Txs(DropLowest(l.items, k)) == {}
    ensures KeepLowest(l.items, k) == map[]
  {
  }

  /** The transactions of a list in nonce order. */
  method InOrder(m: Items) returns (txs: seq<Tx>)
    requires Keyed(m)
    ensures Flat(txs, m)
  {
    var list := SortedMap.ItemList(m);
    txs := Orders.Sort(list, SortedMap.TxNonceLe);
    SortedMap.Rearranged(list, txs, m);
  }

  /** Cutting an executable list at a nonce and lowering the pending nonce to it keeps it executable. */
  lemma CutReady(p: Book, noncer: map<Address, nat>, p': Book, noncer': map<Address, nat>, c: Chain, a: Address, n: nat)
    requires AllExecutable(p, noncer, c)
    requires SameBut(p', p, a) && n in At(p, a) && At(p', a) == Below(At(p, a), n)
    requires noncer' == Lowered(noncer, c, a, n)
    ensures AllExecutable(p', noncer', c)
  {
    forall x ensures Executable(p', noncer', c, x) {
      assert Executable(p, noncer, c, x);
      if x != a {
        assert At(p', x) == At(p, x);
      }
    }
  }

  /** In a strict list, removing a transaction leaves what is below it and orphans what is above. */
  lemma StrictWithout(l: AccountList, tx: Tx)
    requires l.strict && l.Ok() && Has(l.items, tx)
    ensures l.Without(tx.nonce).items == Below(l.items, tx.nonce)
    ensures l.Without(tx.nonce).Ok() && SubMap(l.Without(tx.nonce).items, l.items)
    ensures l.Orphans(tx.nonce) == From(l.items, tx.nonce + 1)
    ensures forall t: Tx :: t in Txs(l.Orphans(tx.nonce)) + {tx} <==> Has(l.items, t) && t.nonce !in l.Without(tx.nonce).items
  {
    var orphans := l.Orphans(tx.nonce);
    forall t: Tx ensures t in Txs(orphans) + {tx} <==> Has(l.items, t) && t.nonce !in l.Without(tx.nonce).items {
      TxsHas(orphans, t);
    }
  }

  /** Taking a pending transaction and its orphans out leaves consistent lists with room to queue the orphans. */
  lemma OrphanStep(p: Book, q: Book, was: set<Tx>, tx: Tx)
    requires Consistent(p, q, was) && Has(At(p, tx.from), tx)
    ensures var a := tx.from;
      var rest, orphans := p[a].Without(tx.nonce), p[a].Orphans(tx.nonce);
      && Consistent(SetList(p, a, rest), q, was - {tx} - Txs(orphans))
      && At(SetList(p, a, rest), a) == rest.items == Below(At(p, a), tx.nonce)
      && orphans == From(At(p, a), tx.nonce + 1)
      && Keyed(orphans) && Owned(orphans, a) && Txs(orphans) <= was - {tx}
      && orphans.Keys !! rest.items.Keys && orphans.Keys !! At(q, a).Keys
  {
    var a := tx.from;
    var rest, orphans := p[a].Without(tx.nonce), p[a].Orphans(tx.nonce);
    assert AccountOk(p, q, was, a);
    StrictWithout(p[a], tx);
    CutPending(p, q, was, a, rest, Txs(orphans) + {tx});
    assert was - (Txs(orphans) + {tx}) == was - {tx} - Txs(orphans);
    forall t | t in Txs(orphans) ensures t in was - {tx} {
      TxsHas(orphans, t);
    }
  }

  lemma NothingLeft(txs: seq<Tx>, m: Items, done: Items)
    requires txs == [] && Keyed(m) && SubMap(done, m) && Lists(txs, m - done.Keys)
    ensures done == m
  {
    ListsSize(txs, m - done.Keys);
  }

  lemma OneMoreDone(start: Items, m: Items, done: Items, tx: Tx)
    requires tx.nonce !in done
    ensures m - (done[tx.nonce := tx]).Keys == m - done.Keys - {tx.nonce}
    ensures (start + done)[tx.nonce := tx] == start + done[tx.nonce := tx]
    ensures Txs(done[tx.nonce := tx]) == Txs(done) + {tx}
  {
    var more := done[tx.nonce := tx];
    forall t ensures t in Txs(more) <==> t in Txs(done) || t == tx {
      if t in Txs(done) {
        var n :| n in done && done[n] == t;
        assert more[n] == t;
      }
      if t == tx {
        assert more[tx.nonce] == tx;
      }
    }
  }

  /** Part-way through queueing the transactions of `m`: those done are in the queue, the others still listed. */
  ghost predicate Moving(rest: seq<Tx>, m: Items, done: Items, start: Items, now: Items, live: set<Tx>, moved: set<Tx>) {
    && Keyed(m) && SubMap(done, m) && Lists(rest, m - done.Keys)
    && now == start + done && moved == live + Txs(done)
  }

  lemma MoveOne(rest: seq<Tx>, m: Items, done: Items, start: Items, now: Items, live: set<Tx>, moved: set<Tx>, a: Address, all: set<Tx>)
    requires Moving(rest, m, done, start, now, live, moved) && rest != []
    requires Owned(m, a) && m.Keys !! start.Keys && Txs(m) <= all
    ensures var tx := rest[0];
      && tx.from == a && tx.signed && tx in all && tx.nonce in m && tx.nonce !in now
      && Moving(rest[1..], m, done[tx.nonce := tx], start, now[tx.nonce := tx], live, moved + {tx})
  {
    var tx := rest[0];
    ListsTail(rest, m - done.Keys);
    TxsHas(m, tx);
    OneMoreDone(start, m, done, tx);
  }

  /** A usable queued transaction is not pending, not behind the chain, and payable. */
  lemma QueuedUsable(p: Book, q: Book, live: set<Tx>, c: Chain, a: Address)
    requires Consistent(p, q, live) && a in q
    ensures var m := Usable(q[a], c, a).items;
      Keyed(m) && Payable(m, c, a) && forall n :: n in m ==> c.Nonce(a) <= n && n !in At(p, a)
  {
    assert AccountOk(p, q, live, a);
    UsableOk(q[a], c, a);
  }

  /** What only concerns one account leaves the others executable, or settling. */
  lemma Untouched(p: Book, noncer: map<Address, nat>, p': Book, noncer': map<Address, nat>, c: Chain, a: Address, x: Address)
    requires SameBut(p', p, a) && x != a && PendingNonce(noncer', c, x) == PendingNonce(noncer, c, x)
    ensures Executable(p, noncer, c, x) ==> Executable(p', noncer', c, x)
    ensures Settling(p, noncer, c, x) ==> Settling(p', noncer', c, x)
  {
    assert At(p', x) == At(p, x);
  }

  /** One account's promotion keeps every account executable, or settling. */
  lemma PromotionAll(p: Book, q: Book, live: set<Tx>, noncer: map<Address, nat>, p': Book, q': Book, noncer': map<Address, nat>,
                     c: Chain, a: Address, cap: Option<nat>, promoted: seq<Tx>)
    requires Consistent(p, q, live) && a in q && SameBut(p', p, a)
    requires Promotion(p, noncer, Usable(q[a], c, a).items, p', q', noncer', c, a, cap, promoted)
    ensures AllExecutable(p, noncer, c) ==> AllExecutable(p', noncer', c)
    ensures AllSettling(p, noncer, c) ==> AllSettling(p', noncer', c)
  {
    QueuedUsable(p, q, live, c, a);
    PromotionForAll(p, noncer, Usable(q[a], c, a).items, p', q', noncer', c, a, cap, promoted);
  }

  lemma PromotionForAll(p: Book, noncer: map<Address, nat>, m: Items, p': Book, q': Book, noncer': map<Address, nat>,
                        c: Chain, a: Address, cap: Option<nat>, promoted: seq<Tx>)
    requires SameBut(p', p, a)
    requires Promotion(p, noncer, m, p', q', noncer', c, a, cap, promoted)
    requires Keyed(m) && Payable(m, c, a) && forall n :: n in m ==> c.Nonce(a) <= n && n !in At(p, a)
    ensures AllExecutable(p, noncer, c) ==> AllExecutable(p', noncer', c)
    ensures AllSettling(p, noncer, c) ==> AllSettling(p', noncer', c)
  {
    if AllExecutable(p, noncer, c) {
      assert Executable(p, noncer, c, a);
      PromotionExecutable(p, noncer, m, p', q', noncer', c, a, cap, promoted);
    }
    if AllSettling(p, noncer, c) {
      assert Settling(p, noncer, c, a);
      PromotionSettling(p, noncer, m, p', q', noncer', c, a, cap, promoted);
    }
    OthersUntouched(p, noncer, p', noncer', c, a);
  }

  lemma OthersUntouched(p: Book, noncer: map<Address, nat>, p': Book, noncer': map<Address, nat>, c: Chain, a: Address)
    requires SameBut(p', p, a) && forall x :: x != a ==> PendingNonce(noncer', c, x) == PendingNonce(noncer, c, x)
    ensures AllExecutable(p, noncer, c) && Executable(p', noncer', c, a) ==> AllExecutable(p', noncer', c)
    ensures AllSettling(p, noncer, c) && Settling(p', noncer', c, a) ==> AllSettling(p', noncer', c)
  {
    forall x | x != a
      ensures Executable(p, noncer, c, x) ==> Executable(p', noncer', c, x)
      ensures Settling(p, noncer, c, x) ==> Settling(p', noncer', c, x)
    {
      Untouched(p, noncer, p', noncer', c, a, x);
    }
  }

  /** Nothing left in an account's queue is stale, too dear, or ready to be promoted. */
  ghost predicate Drained(q: Book, noncer: map<Address, nat>, c: Chain, a: Address) {
    && (forall n :: n in At(q, a) ==> c.Nonce(a) <= n)
    && Payable(At(q, a), c, a)
    && PendingNonce(noncer, c, a) !in At(q, a)
  }

  /** Right behind the promoted run the queue has a gap. */
  lemma RunStops(m: Items, pn: nat, promoted: seq<Tx>)
    requires Keyed(m) && Flat(promoted, Below(m, ReadyEnd(m, pn)))
    ensures promoted == [] ==> pn !in m
    ensures promoted != [] ==> promoted[|promoted| - 1].nonce + 1 !in m
  {
    var end := ReadyEnd(m, pn);
    var run := Below(m, end);
    if m != map[] && MinKey(m.Keys) <= pn {
      assert MinKey(m.Keys) in run;
      LastOfRun(promoted, run, MinKey(m.Keys), end);
    } else {
      assert run == map[];
      NoneOfRun(promoted);
    }
  }

  lemma PromotionDrains(p: Book, noncer: map<Address, nat>, m: Items, p': Book, q': Book, noncer': map<Address, nat>,
                        c: Chain, a: Address, cap: Option<nat>, promoted: seq<Tx>)
    requires Promotion(p, noncer, m, p', q', noncer', c, a, cap, promoted)
    requires Keyed(m) && Payable(m, c, a) && forall n :: n in m ==> c.Nonce(a) <= n
    ensures Drained(q', noncer', c, a)
  {
    var pn := PendingNonce(noncer, c, a);
    RunStops(m, pn, promoted);
    var rest := CappedTo(From(m, ReadyEnd(m, pn)), cap);
    assert SubMap(rest, m);
    DrainedPart(rest, m, c, a, PendingNonce(noncer', c, a));
  }

  /** What of an account's queue is neither stale nor unpayable. */
  ghost function UsableOf(q: Book, c: Chain, a: Address): (m: Items) {
    if a in q then Usable(q[a], c, a).items else map[]
  }

  /** An account's queue allowance; local accounts have none. */
  ghost function CapOf(locals: set<Address>, limit: nat, a: Address): (cap: Option<nat>) {
    if a in locals then None else Some(limit)
  }

  /**
   The exact outcome of a promotion from the pending nonce `pn`, `m` being the usable part of the queue: the run up
   to the first gap has moved to pending, and the rest stays queued up to the allowance, the lowest nonces first.
   */
  ghost predicate Moved(m: Items, pn: nat, before: Items, after: Items, queued: Items, cap: Option<nat>) {
    && after == before + Below(m, ReadyEnd(m, pn))
    && queued == CappedTo(From(m, ReadyEnd(m, pn)), cap)
  }

  ghost predicate PromotedAt(p: Book, q: Book, pn: nat, p': Book, q': Book, c: Chain, a: Address, cap: Option<nat>) {
    Moved(UsableOf(q, c, a), pn, At(p, a), At(p', a), At(q', a), cap)
  }

  lemma NothingQueued(p: Book, q: Book, pn: nat, c: Chain, a: Address, cap: Option<nat>)
    requires a !in q
    ensures PromotedAt(p, q, pn, p, q, c, a, cap)
  {
    var none: Items := map[];
    var end := ReadyEnd(none, pn);
    assert Below(none, end) == none && From(none, end) == none && At(p, a) + none == At(p, a);
    assert CappedTo(none, cap) == none;
  }

  /** What an account's turn means for it and for the others. */
  lemma TurnDone(p: Book, q: Book, live: set<Tx>, noncer: map<Address, nat>, p': Book, q': Book, noncer': map<Address, nat>, c: Chain,
                 locals: set<Address>, limit: nat, a: Address, promoted: seq<Tx>)
    requires Consistent(p, q, live) && a in q && SameBut(p', p, a)
    requires Promotion(p, noncer, Usable(q[a], c, a).items, p', q', noncer', c, a, CapOf(locals, limit, a), promoted)
    ensures Drained(q', noncer', c, a)
    ensures PromotedAt(p, q, PendingNonce(noncer, c, a), p', q', c, a, CapOf(locals, limit, a))
    ensures forall x :: x != a ==> PendingNonce(noncer', c, x) == PendingNonce(noncer, c, x)
    ensures AllExecutable(p, noncer, c) ==> AllExecutable(p', noncer', c)
    ensures AllSettling(p, noncer, c) ==> AllSettling(p', noncer', c)
  {
    PromotionAll(p, q, live, noncer, p', q', noncer', c, a, CapOf(locals, limit, a), promoted);
    QueuedUsable(p, q, live, c, a);
    PromotionDrains(p, noncer, Usable(q[a], c, a).items, p', q', noncer', c, a, CapOf(locals, limit, a), promoted);
  }

  /** An account whose turn has not come. */
  ghost predicate Unmoved(p: Book, q: Book, noncer: map<Address, nat>, p': Book, q': Book, noncer': map<Address, nat>, c: Chain, a: Address) {
    && At(p', a) == At(p, a) && At(q', a) == At(q, a) && UsableOf(q', c, a) == UsableOf(q, c, a)
    && PendingNonce(noncer', c, a) == PendingNonce(noncer, c, a)
  }

  /** The accounts of a batch after their turns, if none of them had two. */
  ghost predicate AllPromoted(p: Book, q: Book, noncer: map<Address, nat>, p': Book, q': Book, c: Chain,
                              locals: set<Address>, limit: nat, accounts: seq<Address>) {
    AllDifferent(accounts) ==>
      forall a :: a in accounts ==> PromotedAt(p, q, PendingNonce(noncer, c, a), p', q', c, a, CapOf(locals, limit, a))
  }

  /** Everything that is neither in the batch nor before it in the queue stays. */
  ghost predicate OthersUnmoved(p: Book, q: Book, noncer: map<Address, nat>, p': Book, q': Book, noncer': map<Address, nat>, c: Chain,
                                accounts: seq<Address>) {
    forall a :: a !in accounts ==> Unmoved(p, q, noncer, p', q', noncer', c, a)
  }

  lemma UnmovedMore(p0: Book, q0: Book, n0: map<Address, nat>, p: Book, q: Book, n: map<Address, nat>,
                    p': Book, q': Book, n': map<Address, nat>, c: Chain, before: seq<Address>, a: Address)
    requires OthersUnmoved(p0, q0, n0, p, q, n, c, before)
    requires SameBut(p', p, a) && SameBut(q', q, a) && forall x :: x != a ==> PendingNonce(n', c, x) == PendingNonce(n, c, x)
    ensures OthersUnmoved(p0, q0, n0, p', q', n', c, before + [a])
  {
    forall x | x !in before + [a] ensures Unmoved(p0, q0, n0, p', q', n', c, x) {
      assert x !in before && x != a && Unmoved(p0, q0, n0, p, q, n, c, x);
      assert x in q' <==> x in q;
    }
  }

  /** One more account's turn leaves the others' outcomes alone. */
  lemma PromotedMore(p0: Book, q0: Book, n0: map<Address, nat>, p: Book, q: Book, n: map<Address, nat>, p': Book, q': Book, c: Chain,
                     locals: set<Address>, limit: nat, before: seq<Address>, a: Address)
    requires AllPromoted(p0, q0, n0, p, q, c, locals, limit, before) && OthersUnmoved(p0, q0, n0, p, q, n, c, before)
    requires SameBut(p', p, a) && SameBut(q', q, a)
    requires PromotedAt(p, q, PendingNonce(n, c, a), p', q', c, a, CapOf(locals, limit, a))
    ensures AllPromoted(p0, q0, n0, p', q', c, locals, limit, before + [a])
  {
    if AllDifferent(before + [a]) {
      DifferentFront(before, a);
      forall x | x in before + [a]
        ensures PromotedAt(p0, q0, PendingNonce(n0, c, x), p', q', c, x, CapOf(locals, limit, x))
      {
        if x == a {
          assert Unmoved(p0, q0, n0, p, q, n, c, a);
        } else {
          assert x in before && At(p', x) == At(p, x) && At(q', x) == At(q, x);
          assert PromotedAt(p0, q0, PendingNonce(n0, c, x), p, q, c, x, CapOf(locals, limit, x));
        }
      }
    }
  }

  lemma DifferentFront(before: seq<Address>, a: Address)
    requires AllDifferent(before + [a])
    ensures AllDifferent(before) && a !in before
  {
    var all := before + [a];
    forall i, j | 0 <= i < j < |before| ensures before[i] != before[j] {
      assert all[i] == before[i] && all[j] == before[j];
    }
    forall i | 0 <= i < |before| ensures before[i] != a {
      assert all[i] == before[i] && all[|before|] == a;
    }
  }

  lemma StillDrained(q: Book, noncer: map<Address, nat>, q': Book, noncer': map<Address, nat>, c: Chain, a: Address, before: seq<Address>)
    requires SameBut(q', q, a) && forall x :: x != a ==> PendingNonce(noncer', c, x) == PendingNonce(noncer, c, x)
    requires Drained(q', noncer', c, a) && forall x :: x in before ==> Drained(q, noncer, c, x)
    ensures forall x :: x in before ==> Drained(q', noncer', c, x)
  {
    forall x | x in before && x != a ensures Drained(q', noncer', c, x) {
      assert Drained(q, noncer, c, x) && At(q', x) == At(q, x);
    }
  }

  /** What a batch has done so far: its accounts are drained and as promoted, all others as they were. */
  ghost predicate Batched(p: Book, q: Book, noncer: map<Address, nat>, p': Book, q': Book, noncer': map<Address, nat>, c: Chain,
                          locals: set<Address>, limit: nat, accounts: seq<Address>) {
    && (forall a :: a in accounts ==> Drained(q', noncer', c, a))
    && AllPromoted(p, q, noncer, p', q', c, locals, limit, accounts)
    && OthersUnmoved(p, q, noncer, p', q', noncer', c, accounts)
  }

  lemma BatchedMore(p0: Book, q0: Book, n0: map<Address, nat>, p: Book, q: Book, n: map<Address, nat>,
                    p': Book, q': Book, n': map<Address, nat>, c: Chain, locals: set<Address>, limit: nat, accounts: seq<Address>, i: nat)
    requires i < |accounts| && Batched(p0, q0, n0, p, q, n, c, locals, limit, accounts[..i])
    requires var a := accounts[i];
      && SameBut(p', p, a) && SameBut(q', q, a) && (forall x :: x != a ==> PendingNonce(n', c, x) == PendingNonce(n, c, x))
      && Drained(q', n', c, a) && PromotedAt(p, q, PendingNonce(n, c, a), p', q', c, a, CapOf(locals, limit, a))
    ensures Batched(p0, q0, n0, p', q', n', c, locals, limit, accounts[..i + 1])
  {
    var before, a := accounts[..i], accounts[i];
    assert accounts[..i + 1] == before + [a];
    StillDrained(q, n, q', n', c, a, before);
    UnmovedMore(p0, q0, n0, p, q, n, p', q', n', c, before, a);
    PromotedMore(p0, q0, n0, p, q, n, p', q', c, locals, limit, before, a);
  }

  lemma DrainedPart(rest: Items, m: Items, c: Chain, a: Address, next: nat)
    requires SubMap(rest, m) && Payable(m, c, a) && (forall n :: n in m ==> c.Nonce(a) <= n) && next !in m
    ensures Payable(rest, c, a) && (forall n :: n in rest ==> c.Nonce(a) <= n) && next !in rest
  {
  }

  // ---------- demotion ----------

  /** What the filter of a pending list invalidates. */
  function Stranded(l: AccountList, c: Chain, a: Address): (r: Items) {
    l.Forwarded(c.Nonce(a)).Invalidated(c.Balance(a), c.maxGas)
  }

  /** `m` falls into four parts: kept, stale, unpayable and stranded. */
  ghost predicate FourParts(m: Items, u: Items, olds: Items, drops: Items, invalids: Items) {
    && SubMap(u, m) && SubMap(olds, m) && SubMap(drops, m) && SubMap(invalids, m)
    && u.Keys !! invalids.Keys
    && forall n :: n in m ==> (n !in u && n !in invalids <==> n in olds || n in drops)
  }

  lemma SplitByNonce(m: Items, s: nat, u: Items, drops: Items, invalids: Items)
    requires Parts3(From(m, s), u, drops, invalids)
    ensures FourParts(m, u, Below(m, s), drops, invalids)
  {
    forall n | n in m ensures n !in u && n !in invalids <==> n in Below(m, s) || n in drops {
      assert n in From(m, s) <==> n in u || n in drops || n in invalids;
    }
  }

  lemma FourTxs(m: Items, u: Items, olds: Items, drops: Items, invalids: Items)
    requires Keyed(m) && FourParts(m, u, olds, drops, invalids)
    ensures forall t: Tx :: t in Txs(olds) + Txs(drops) + Txs(invalids) <==> Has(m, t) && t.nonce !in u
    ensures Txs(invalids) !! Txs(olds) + Txs(drops)
    ensures |Txs(olds) + Txs(drops)| <= |olds| + |drops|
  {
    forall t: Tx
      ensures t in Txs(olds) + Txs(drops) + Txs(invalids) <==> Has(m, t) && t.nonce !in u
      ensures t in Txs(invalids) ==> t !in Txs(olds) + Txs(drops)
    {
      TxsHas(olds, t);
      TxsHas(drops, t);
      TxsHas(invalids, t);
    }
    TxsSize(olds);
    TxsSize(drops);
    UnionSize(Txs(olds), Txs(drops));
  }

  /** A pending list falls into usable, stale, unpayable and stranded transactions. */
  lemma PendingSplit(l: AccountList, c: Chain, a: Address)
    requires l.Ok()
    ensures FourParts(l.items, Usable(l, c, a).items, Below(l.items, c.Nonce(a)), TooDear(l, c, a), Stranded(l, c, a))
  {
    FilterPartition(l.Forwarded(c.Nonce(a)), c.Balance(a), c.maxGas);
    SplitByNonce(l.items, c.Nonce(a), Usable(l, c, a).items, TooDear(l, c, a), Stranded(l, c, a));
  }

  /** Cutting a pending list down to `u`, the rest falling into what leaves and what is queued again. */
  lemma CutFour(p: Book, q: Book, live: set<Tx>, a: Address, u: AccountList, olds: Items, drops: Items, invalids: Items)
    requires Consistent(p, q, live) && a in p
    requires u.Ok() && u.strict && FourParts(p[a].items, u.items, olds, drops, invalids)
    ensures Consistent(SetList(p, a, u), q, live - (Txs(olds) + Txs(drops)) - Txs(invalids))
  {
    var gone := Txs(olds) + Txs(drops);
    assert p[a].Ok() by { assert AccountOk(p, q, live, a); }
    FourTxs(p[a].items, u.items, olds, drops, invalids);
    CutPending(p, q, live, a, u, gone + Txs(invalids));
    MinusTwice(live, gone, Txs(invalids));
  }

  lemma MinusTwice(live: set<Tx>, a: set<Tx>, b: set<Tx>)
    ensures live - (a + b) == live - a - b
  {
  }

  /** The stranded part of a pending list is live, and free to be queued. */
  lemma RoomToQueue(p: Book, q: Book, live: set<Tx>, a: Address, u: Items, olds: Items, drops: Items, invalids: Items)
    requires Consistent(p, q, live) && a in p
    requires FourParts(p[a].items, u, olds, drops, invalids)
    ensures |Txs(olds) + Txs(drops)| <= |olds| + |drops|
    ensures Keyed(invalids) && Owned(invalids, a) && Txs(invalids) <= live - (Txs(olds) + Txs(drops))
    ensures invalids.Keys !! u.Keys && invalids.Keys !! At(q, a).Keys
  {
    assert AccountOk(p, q, live, a);
    FourTxs(p[a].items, u, olds, drops, invalids);
    forall t | t in Txs(invalids) ensures t in live {
      TxsHas(invalids, t);
    }
  }

  /** Taking the stale, unpayable and stranded transactions out of a pending list. */
  lemma DemoteStep(p: Book, q: Book, live: set<Tx>, c: Chain, a: Address)
    requires Consistent(p, q, live) && a in p
    ensures var u, invalids := Usable(p[a], c, a), Stranded(p[a], c, a);
      var gone := Txs(Below(p[a].items, c.Nonce(a))) + Txs(TooDear(p[a], c, a));
      && Consistent(SetList(p, a, u), q, live - gone - Txs(invalids))
      && |gone| <= |Below(p[a].items, c.Nonce(a))| + |TooDear(p[a], c, a)|
      && Keyed(invalids) && Owned(invalids, a) && Txs(invalids) <= live - gone
      && invalids.Keys !! u.items.Keys && invalids.Keys !! At(q, a).Keys
  {
    assert AccountOk(p, q, live, a);
    UsableOk(p[a], c, a);
    PendingSplit(p[a], c, a);
    CutFour(p, q, live, a, Usable(p[a], c, a), Below(p[a].items, c.Nonce(a)), TooDear(p[a], c, a), Stranded(p[a], c, a));
    RoomToQueue(p, q, live, a, Usable(p[a], c, a).items, Below(p[a].items, c.Nonce(a)), TooDear(p[a], c, a), Stranded(p[a], c, a));
  }

  lemma UnionSize(a: set<Tx>, b: set<Tx>)
    ensures |a + b| <= |a| + |b|
  {
    assert a + b == a + (b - a);
    assert |a + (b - a)| == |a| + |b - a|;
    SubsetSize(b - a, b);
  }

  /** Taking an account's whole pending list out. */
  lemma GapStep(p: Book, q: Book, live: set<Tx>, a: Address)
    requires Consistent(p, q, live) && a in p
    ensures Consistent(p - {a}, q, live - Txs(p[a].items))
    ensures Keyed(p[a].items) && Owned(p[a].items, a) && Txs(p[a].items) <= live
    ensures p[a].items.Keys !! At(q, a).Keys
  {
    assert AccountOk(p, q, live, a);
    forall t: Tx ensures t in Txs(p[a].items) <==> Has(p[a].items, t) {
      TxsHas(p[a].items, t);
    }
    CutPending(p, q, live, a, NewList(true), Txs(p[a].items));
  }

  /**
   What one account's turn in the demotion does to its lists, `u` being the usable and
   `invalids` the stranded part of its pending list.
   */
  ghost predicate Demotion(u: Items, invalids: Items, q: Book, p': Book, q': Book, c: Chain, a: Address, gapped: bool) {
    && (gapped <==> u != map[] && c.Nonce(a) !in u)
    && At(p', a) == (if gapped then map[] else u)
    && At(q', a) == (if gapped then At(q, a) + invalids + u else At(q, a) + invalids)
  }

  lemma SteadySpans(m: Items, s: nat) returns (hi: nat)
    requires Steady(m, s)
    ensures Spans(m, s, hi)
  {
    hi := if m.Keys == {} then s else MaxKey(m.Keys) + 1;
  }

  /** Demotion settles a settling account, and never finds a gap in front. */
  lemma DemotionSettles(p: Book, noncer: map<Address, nat>, q: Book, p': Book, q': Book, c: Chain, a: Address, gapped: bool)
    requires a in p && p[a].Ok() && p[a].strict
    requires Demotion(Usable(p[a], c, a).items, Stranded(p[a], c, a), q, p', q', c, a, gapped)
    requires Settling(p, noncer, c, a)
    ensures !gapped && Settled(p', noncer, c, a)
  {
    var s := c.Nonce(a);
    var f := p[a].Forwarded(s);
    var hi := SteadySpans(f.items, s);
    var cut := StrictFilter(f, s, hi, c.Balance(a), c.maxGas);
    UsableOk(p[a], c, a);
  }

  /** Settling one account leaves the others as they are. */
  lemma OneSettled(p: Book, p': Book, noncer: map<Address, nat>, c: Chain, a: Address, todo: set<Address>)
    requires SameBut(p', p, a) && a !in todo && Settled(p', noncer, c, a)
    requires forall x :: x in todo ==> Settling(p, noncer, c, x)
    requires forall x :: x !in todo && x != a ==> Settled(p, noncer, c, x)
    ensures forall x :: x in todo ==> Settling(p', noncer, c, x)
    ensures forall x :: x !in todo ==> Settled(p', noncer, c, x)
  {
    forall x | x in todo ensures Settling(p', noncer, c, x) {
      assert Settling(p, noncer, c, x) && At(p', x) == At(p, x);
    }
    forall x | x !in todo ensures Settled(p', noncer, c, x) {
      if x != a {
        assert Settled(p, noncer, c, x) && At(p', x) == At(p, x);
      }
    }
  }

  /** Part-way through the demotion: settled but for those still to come. */
  ghost predicate SettledBut(p: Book, noncer: map<Address, nat>, c: Chain, todo: set<Address>) {
    && (forall x :: x in todo ==> Settling(p, noncer, c, x))
    && (forall x :: x !in todo ==> Settled(p, noncer, c, x))
  }

  /** An account with nothing pending is settled when it is settling. */
  lemma EmptySettled(p: Book, noncer: map<Address, nat>, c: Chain, a: Address)
    requires a !in p && Settling(p, noncer, c, a)
    ensures Settled(p, noncer, c, a)
  {
    assert From(At(p, a), c.Nonce(a)) == At(p, a);
  }

  // ---------- truncation ----------

  /** Dropping the highest nonce of a pending list that has more than one. */
  lemma DropTopStep(p: Book, q: Book, live: set<Tx>, a: Address)
    requires Consistent(p, q, live) && a in p && |p[a].items| > 1
    ensures var l := p[a];
      var top := MaxKey(l.items.Keys);
      && Consistent(p[a := l.Capped(|l.items| - 1)], q, live - {l.items[top]})
      && l.Capped(|l.items| - 1).items == Below(l.items, top)
      && l.items[top] in live && l.items[top].nonce == top
  {
    assert AccountOk(p, q, live, a);
    var l := p[a];
    var top := MaxKey(l.items.Keys);
    KeepAllButOne(l.items);
    var rest := l.Capped(|l.items| - 1);
    assert rest.items == Below(l.items, top);
    assert |rest.items.Keys| == |l.items| - 1;
    assert rest.items != map[];
    CutPending(p, q, live, a, rest, {l.items[top]});
  }

  /** Dropping the highest nonce and lowering the pending nonce to it keeps settled accounts settled. */
  lemma CutSettled(p: Book, noncer: map<Address, nat>, p': Book, noncer': map<Address, nat>, c: Chain, a: Address, n: nat)
    requires AllSettled(p, noncer, c)
    requires SameBut(p', p, a) && n in At(p, a) && (forall k :: k in At(p, a) ==> k <= n) && At(p', a) == Below(At(p, a), n)
    requires noncer' == Lowered(noncer, c, a, n)
    ensures AllSettled(p', noncer', c)
  {
    forall x ensures Settled(p', noncer', c, x) {
      assert Settled(p, noncer, c, x);
      if x != a {
        assert At(p', x) == At(p, x);
      }
    }
  }

  /** Without its last transaction a nonce-ordered listing lists the rest. */
  lemma FlatFront(txs: seq<Tx>, m: Items)
    requires Flat(txs, m) && txs != []
    ensures Has(m, txs[|txs| - 1])
    ensures Flat(txs[..|txs| - 1], m - {txs[|txs| - 1].nonce})
  {
    var last := txs[|txs| - 1];
    var front := txs[..|txs| - 1];
    assert last in txs;
    forall t ensures t in front <==> t.nonce in m - {last.nonce} && m[t.nonce] == t {
      if t in txs && t.nonce != last.nonce {
        var i :| 0 <= i < |txs| && txs[i] == t;
        assert front[i] == t;
      }
      if t in front {
        var i :| 0 <= i < |front| && front[i] == t;
        assert txs[i] == t;
      }
    }
  }

  /** Replacing a pending transaction by a payable one with its nonce keeps the list executable. */
  lemma ReplaceReady(p: Book, p': Book, noncer: map<Address, nat>, c: Chain, tx: Tx)
    requires AllExecutable(p, noncer, c) && tx.nonce in At(p, tx.from)
    requires p' == p[tx.from := ListOf(p, tx.from, true).Added(tx)]
    requires !Over(c.Balance(tx.from), c.maxGas)(tx)
    ensures AllExecutable(p', noncer, c)
  {
    forall x ensures Executable(p', noncer, c, x) {
      assert Executable(p, noncer, c, x);
      if x == tx.from {
        assert At(p', x) == At(p, x)[tx.nonce := tx];
      } else {
        assert At(p', x) == At(p, x);
      }
    }
  }

  /** Whatever is stored under a transaction's account and nonce has that account and nonce. */

  lemma SteadySettles(p: Book, noncer: map<Address, nat>, c: Chain)
    requires AllExecutable(p, noncer, c)
    ensures AllSettling(p, noncer, c) && AllSettled(p, noncer, c)
  {
    forall a ensures Settling(p, noncer, c, a) && Settled(p, noncer, c, a) {
      assert Executable(p, noncer, c, a);
      ExecutableSettles(p, noncer, c, a);
    }
  }

  /** A settled list is executable once its pending nonce is one past its last transaction. */
  lemma LastExecutable(p: Book, noncer: map<Address, nat>, c: Chain, a: Address, txs: seq<Tx>)
    requires Settled(p, noncer, c, a) && a in p && Keyed(At(p, a)) && Flat(txs, At(p, a)) && txs != []
    ensures Executable(p, noncer[a := txs[|txs| - 1].nonce + 1], c, a)
  {
    var hi := SteadySpans(At(p, a), c.Nonce(a));
    assert txs[0] in txs;
    LastOfRun(txs, At(p, a), c.Nonce(a), hi);
  }

  lemma OneExecutable(p: Book, noncer: map<Address, nat>, noncer': map<Address, nat>, c: Chain, a: Address, todo: set<Address>)
    requires a !in todo && noncer'.Keys == noncer.Keys + {a} && (forall x :: x != a && x in noncer ==> noncer'[x] == noncer[x])
    requires Executable(p, noncer', c, a)
    requires forall x :: x in todo ==> Settled(p, noncer, c, x)
    requires forall x :: x !in todo && x != a ==> Executable(p, noncer, c, x)
    ensures forall x :: x in todo ==> Settled(p, noncer', c, x)
    ensures forall x :: x !in todo ==> Executable(p, noncer', c, x)
  {
    assert forall x :: x != a ==> PendingNonce(noncer', c, x) == PendingNonce(noncer, c, x);
    forall x | x in todo ensures Settled(p, noncer', c, x) {
      assert Settled(p, noncer, c, x);
    }
    forall x | x !in todo ensures Executable(p, noncer', c, x) {
      if x != a {
        assert Executable(p, noncer, c, x);
      }
    }
  }

  lemma LastIsMax(txs: seq<Tx>, m: Items)
    requires Keyed(m) && Flat(txs, m) && txs != []
    ensures m.Keys != {} && txs[|txs| - 1].nonce == MaxKey(m.Keys)
  {
    var last := txs[|txs| - 1];
    assert last in txs;
    forall n | n in m ensures n <= last.nonce {
      assert m[n] in txs;
      var i :| 0 <= i < |txs| && txs[i] == m[n];
    }
  }

  // ---------- nothing is lost ----------

  /** Behind the chain or over a limit: the only reasons for the demotion to drop a transaction. */
  ghost predicate Spent(t: Tx, c: Chain) {
    t.nonce < c.Nonce(t.from) || Over(c.Balance(t.from), c.maxGas)(t)
  }

  ghost predicate OnlySpent(before: set<Tx>, after: set<Tx>, c: Chain) {
    forall t :: t in before && t !in after ==> Spent(t, c)
  }

  lemma DropsAreSpent(p: Book, q: Book, live: set<Tx>, c: Chain, a: Address)
    requires Consistent(p, q, live) && a in p
    ensures OnlySpent(live, live - (Txs(Below(p[a].items, c.Nonce(a))) + Txs(TooDear(p[a], c, a))), c)
  {
    assert AccountOk(p, q, live, a);
    SpentParts(p[a], c, a);
  }

  lemma SpentParts(l: AccountList, c: Chain, a: Address)
    requires l.Ok() && Owned(l.items, a)
    ensures forall t :: t in Txs(Below(l.items, c.Nonce(a))) + Txs(TooDear(l, c, a)) ==> Spent(t, c)
  {
    forall t | t in Txs(Below(l.items, c.Nonce(a))) ensures Spent(t, c) {
      TxsHas(Below(l.items, c.Nonce(a)), t);
    }
    forall t | t in Txs(TooDear(l, c, a)) ensures Spent(t, c) {
      TxsHas(TooDear(l, c, a), t);
    }
  }

  /** The account's pending list is payable and starts at the chain's nonce. */
  ghost predicate Fronted(p: Book, c: Chain, a: Address) {
    && (forall n :: n in At(p, a) ==> c.Nonce(a) <= n)
    && Payable(At(p, a), c, a)
    && (At(p, a) != map[] ==> c.Nonce(a) in At(p, a))
  }

  lemma DemotionFronts(l: AccountList, q: Book, p': Book, q': Book, c: Chain, a: Address, gapped: bool)
    requires l.Ok() && Demotion(Usable(l, c, a).items, Stranded(l, c, a), q, p', q', c, a, gapped)
    ensures Fronted(p', c, a)
  {
    UsableOk(l, c, a);
  }

  lemma OneFronted(p: Book, p': Book, c: Chain, a: Address, todo: set<Address>)
    requires SameBut(p', p, a) && Fronted(p', c, a) && forall x :: x !in todo && x != a ==> Fronted(p, c, x)
    ensures forall x :: x !in todo ==> Fronted(p', c, x)
  {
    forall x | x !in todo && x != a ensures Fronted(p', c, x) {
      assert At(p', x) == At(p, x);
    }
  }
}
