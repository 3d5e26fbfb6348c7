/**
 The transaction pool. Each method is a step taken with the pool's lock held; `Valid` holds
 whenever the lock is free.
 */
module TxPools {
  import opened Transactions
  import opened NonceMaps
  import opened TxLists
  import opened PricedLists
  import opened PoolModel
  import opened PoolSteps
  import opened PoolProgress
  import opened WaterFilling
  import Gas
  import SortedMap

  datatype Config = Config(
    priceBump: nat,
    accountSlots: nat,
    globalSlots: nat,
    accountQueue: nat,
    globalQueue: nat)
  {
    /** What the pool's own clean-up of its configuration guarantees. */
    predicate Sanitized() {
      priceBump >= 1 && accountSlots >= 1 && globalSlots >= 1 && accountQueue >= 1 && globalQueue >= 1
    }

    /** How many transactions the pool takes before it drops the cheapest. */
    function Limit(): (n: nat) {
      globalSlots + globalQueue
    }
  }

  datatype PoolError =
    | KnownTransaction | OversizedData | NegativeValue | GasLimit | InvalidSender | Underpriced
    | NonceTooLow | InsufficientFunds | OutOfGas | IntrinsicGas | ReplaceUnderpriced

  datatype AddResult = Added(replaced: bool) | Rejected(error: PoolError)

  /**
   What a new head brings: nothing if its blocks or its state cannot be read, else the new
   state and the transactions of abandoned blocks to put back.
   */
  datatype Reset = Skipped | Applied(chain: Chain, singularity: bool, reinject: seq<Tx>)

  /** What happens to the pool from outside. */
  datatype Event =
    | AddTxs(txs: seq<Tx>, local: bool)
    | Reorg(reset: Option<Reset>, dirty: seq<Address>, now: nat)
    | EvictTick(now: nat, lifetime: int)
    | SetPrice(price: int)

  /** Every new head extends the one before it: nothing to put back, and no account's nonce goes down. */
  ghost predicate Extending(events: seq<Event>, chain: Chain)
    decreases |events|
  {
    events != [] ==>
      var e := events[0];
      if e.Reorg? && e.reset.Some? && e.reset.value.Applied? then
        && Extends(e.reset.value, chain)
        && Extending(events[1..], e.reset.value.chain)
      else Extending(events[1..], chain)
  }

  ghost predicate Extends(r: Reset, chain: Chain) {
    r.Applied? ==> r.reinject == [] && forall a :: chain.Nonce(a) <= r.chain.Nonce(a)
  }

  const MAX_TX_SIZE: nat := 32 * 1024

  /** The checks on a transaction by itself, against the chain state and the pool's price floor. */
  function Validate(tx: Tx, local: bool, locals: set<Address>, gasPrice: int, chain: Chain, singularity: bool): (err: Option<PoolError>)
    ensures err.None? <==>
      && tx.size <= MAX_TX_SIZE && 0 <= tx.value
      && tx.signed && chain.Nonce(tx.from) <= tx.nonce
      && !Over(chain.Balance(tx.from), chain.maxGas)(tx)
      && (local || tx.from in locals || gasPrice <= tx.price)
      && Gas.IntrinsicSum(tx.data, tx.creation, singularity) <= tx.gas
      && Gas.IntrinsicSum(tx.data, tx.creation, singularity) <= Gas.MAX_UINT64
    ensures err != Some(KnownTransaction)
  {
    var intrinsic := Gas.IntrinsicSum(tx.data, tx.creation, singularity);
    if tx.size > MAX_TX_SIZE then Some(OversizedData)
    else if tx.value < 0 then Some(NegativeValue)
    else if chain.maxGas < tx.gas then Some(GasLimit)
    else if !tx.signed then Some(InvalidSender)
    else if !local && tx.from !in locals && gasPrice > tx.price then Some(Underpriced)
    else if chain.Nonce(tx.from) > tx.nonce then Some(NonceTooLow)
    else if chain.Balance(tx.from) < tx.Cost() then Some(InsufficientFunds)
    else if intrinsic > Gas.MAX_UINT64 then Some(OutOfGas)
    else if tx.gas < intrinsic then Some(IntrinsicGas)
    else None
  }

  /** Why a transaction is refused before the pool looks for room. */
  function Refusal(all: set<Tx>, tx: Tx, local: bool, locals: set<Address>, gasPrice: int, chain: Chain, singularity: bool): (err: Option<PoolError>)
    ensures err == Some(KnownTransaction) <==> tx in all
  {
    if tx in all then Some(KnownTransaction) else Validate(tx, local, locals, gasPrice, chain, singularity)
  }

  /** The accounts whose transactions were taken without replacing another. */
  ghost predicate Dirties(dirty: set<Address>, txs: seq<Tx>, results: seq<AddResult>) {
    && |results| == |txs|
    && (forall i :: 0 <= i < |txs| && results[i] == Added(false) ==> txs[i].from in dirty)
    && (forall a :: a in dirty ==> exists i :: 0 <= i < |txs| && txs[i].from == a && results[i] == Added(false))
  }

  lemma OneMoreDirty(dirty: set<Address>, txs: seq<Tx>, n: nat, results: seq<AddResult>, r: AddResult)
    requires n < |txs| && Dirties(dirty, txs[..n], results)
    ensures Dirties(if r == Added(false) then dirty + {txs[n].from} else dirty, txs[..n + 1], results + [r])
  {
    var done, more, rs := txs[..n], txs[..n + 1], results + [r];
    forall a | a in dirty ensures exists i :: 0 <= i < |more| && more[i].from == a && rs[i] == Added(false) {
      var i :| 0 <= i < n && done[i].from == a && results[i] == Added(false);
      assert more[i].from == a && rs[i] == Added(false);
    }
    forall i | 0 <= i < n ensures more[i] == done[i] && rs[i] == results[i] {
    }
    assert more[n] == txs[n] && rs[n] == r;
  }

  /** A new transaction is let in unless it is remote, the pool is full and nothing in it is cheaper. */
  ghost predicate Admits(all: set<Tx>, locals: set<Address>, limit: nat, tx: Tx, local: bool) {
    local || IsLocal(tx, locals) || |all| < limit || exists t :: t in all && t.price < tx.price
  }

  /** What leaves a full pool for a new transaction: different remote ones, none dearer than a remote one that stays. */
  ghost predicate Shed(before: set<Tx>, drop: seq<Tx>, locals: set<Address>, limit: nat) {
    if |before| < limit then drop == []
    else
      && CheapestGone(before, before - Elements(drop), drop, locals) && NoTwice(drop)
      && MadeRoom(before, before - Elements(drop), locals, limit)
  }

  ghost predicate Outbids(tx: Tx, t: Tx, bump: nat) {
    t.price < tx.price && BumpedPrice(t.price, bump) <= tx.price
  }

  /** The pooled transactions with the sender and nonce of a new one; there is at most one. */
  ghost function Rivals(live: set<Tx>, tx: Tx): (r: set<Tx>) {
    set t | t in live && t.from == tx.from && t.nonce == tx.nonce
  }

  /** The exact outcome of putting a new transaction into a pool that has room: it must outbid its rival, if it has one. */
  ghost predicate Placed(live: set<Tx>, after: set<Tx>, tx: Tx, bump: nat, r: AddResult) {
    match r
    case Rejected(e) =>
      e == ReplaceUnderpriced && after == live && exists t :: t in Rivals(live, tx) && !Outbids(tx, t, bump)
    case Added(replaced) =>
      && (replaced <==> Rivals(live, tx) != {})
      && (forall t :: t in Rivals(live, tx) ==> Outbids(tx, t, bump))
      && after == live - Rivals(live, tx) + {tx}
  }

  /** The exact outcome of adding a valid new transaction: refused, or put into what is left after room was made. */
  ghost predicate AddedOrNot(before: set<Tx>, after: set<Tx>, locals: set<Address>, config: Config, tx: Tx, local: bool,
                             drop: seq<Tx>, r: AddResult) {
    match r
    case Rejected(Underpriced) =>
      !Admits(before, locals, config.Limit(), tx, local) && after == before && drop == []
    case _ =>
      && Admits(before, locals, config.Limit(), tx, local) && Shed(before, drop, locals, config.Limit())
      && Placed(before - Elements(drop), after, tx, config.priceBump, r)
  }

  lemma Outcome(before: set<Tx>, mid: set<Tx>, after: set<Tx>, locals: set<Address>, config: Config, tx: Tx, local: bool,
                drop: seq<Tx>, ok: bool, r: AddResult)
    requires ok <==> Admits(before, locals, config.Limit(), tx, local)
    requires mid == before - Elements(drop)
    requires if ok then Shed(before, drop, locals, config.Limit()) && Placed(mid, after, tx, config.priceBump, r)
             else drop == [] && after == mid && r == Rejected(Underpriced)
    ensures AddedOrNot(before, after, locals, config, tx, local, drop, r)
  {
  }

  /** At most the transaction itself is new; what leaves is remote or has its sender and nonce. */
  ghost predicate OnlyGains(before: set<Tx>, after: set<Tx>, locals: set<Address>, tx: Tx, r: AddResult) {
    && (if r.Added? then tx in after && after <= before + {tx} else after <= before)
    && forall t :: t in before && t !in after ==> !IsLocal(t, locals) || (t.from == tx.from && t.nonce == tx.nonce)
  }

  lemma AddedFacts(before: set<Tx>, after: set<Tx>, locals: set<Address>, config: Config, tx: Tx, local: bool, drop: seq<Tx>, r: AddResult)
    requires AddedOrNot(before, after, locals, config, tx, local, drop, r)
    ensures OnlyGains(before, after, locals, tx, r) && r != Rejected(KnownTransaction)
  {
    forall t | t in before && t !in after ensures !IsLocal(t, locals) || (t.from == tx.from && t.nonce == tx.nonce) {
      assert t in Elements(drop) || t in Rivals(before - Elements(drop), tx);
    }
  }

  lemma RivalsAre(p: Book, q: Book, live: set<Tx>, tx: Tx)
    requires Consistent(p, q, live)
    ensures Rivals(live, tx) == Stored(At(p, tx.from), tx.nonce) + Stored(At(q, tx.from), tx.nonce)
    ensures tx.nonce in At(p, tx.from) ==> tx.nonce !in At(q, tx.from)
  {
    assert AccountOk(p, q, live, tx.from);
  }

  /** One account's list decides for the pool. */
  lemma PlacedIn(live: set<Tx>, after: set<Tx>, tx: Tx, bump: nat, l: AccountList, r: AddResult)
    requires Rivals(live, tx) == Stored(l.items, tx.nonce)
    requires r == if l.Accepts(tx, bump) then Added(tx.nonce in l.items) else Rejected(ReplaceUnderpriced)
    requires after == if r.Added? then live - Stored(l.items, tx.nonce) + {tx} else live
    ensures Placed(live, after, tx, bump, r)
  {
    if r.Rejected? {
      assert l.items[tx.nonce] in Rivals(live, tx) && !Outbids(tx, l.items[tx.nonce], bump);
    }
  }

  lemma DroppedNext(drop: seq<Tx>, i: nat, start: set<Tx>)
    requires i < |drop|
    ensures start - Elements(drop[..i]) - {drop[i]} == start - Elements(drop[..i + 1]) && drop[i] in Elements(drop)
  {
    assert drop[..i + 1] == drop[..i] + [drop[i]];
  }

  /**
   What a run leaves overdue: nothing among the dirty accounts without a new head, and with one at most what was
   late before it.
   */
  ghost predicate Caught(reset: Option<Reset>, dirty: seq<Address>, p0: Book, q0: Book, n0: map<Address, nat>, c0: Chain,
                         p: Book, q: Book, c: Chain) {
    match reset
    case None => forall a :: a in dirty ==> !Overdue(p, q, c, a)
    case Some(r) => forall a :: Overdue(p, q, c, a) ==> r.Applied? && Late(p0, q0, PendingNonce(n0, c0, a), c, a)
  }

  /** Before the limits are applied it is exactly what was late. */
  ghost predicate CaughtExactly(r: Reset, p0: Book, q0: Book, n0: map<Address, nat>, c0: Chain, p: Book, q: Book, c: Chain) {
    forall a :: Overdue(p, q, c, a) <==> r.Applied? && Late(p0, q0, PendingNonce(n0, c0, a), c, a)
  }

  lemma StillCaught(reset: Option<Reset>, dirty: seq<Address>, p0: Book, q0: Book, n0: map<Address, nat>, c0: Chain,
                    p: Book, q: Book, p': Book, q': Book, c: Chain)
    requires Caught(reset, dirty, p0, q0, n0, c0, p, q, c) && FewerOverdue(p, q, p', q', c)
    ensures Caught(reset, dirty, p0, q0, n0, c0, p', q', c)
  {
  }

  lemma KeysListed(list: seq<Address>, keys: set<Address>)
    requires multiset(list) == multiset(keys)
    ensures AllDifferent(list) && forall a :: a in list <==> a in keys
  {
    SortedMap.NoDuplicates(list, keys);
    forall a ensures a in list <==> a in keys {
      assert a in list <==> a in multiset(list);
    }
  }

  lemma AllDrained(p: Book, q: Book, n: map<Address, nat>, p': Book, q': Book, n': map<Address, nat>, c: Chain,
                   locals: set<Address>, limit: nat, accounts: seq<Address>)
    requires Batched(p, q, n, p', q', n', c, locals, limit, accounts) && forall a :: a in accounts <==> a in q
    ensures forall a :: PendingNonce(n', c, a) !in At(q', a)
  {
    forall a ensures PendingNonce(n', c, a) !in At(q', a) {
      if a in accounts {
        assert Drained(q', n', c, a);
      } else {
        assert Unmoved(p, q, n, p', q', n', c, a);
      }
    }
  }

  lemma LeveledParts(init: Book, p: Book, locals: set<Address>, level: nat, limit: nat)
    requires if TotalLen(init) <= limit then p == init else Leveled(init, p, locals, level)
    ensures forall a :: At(p, a).Keys <= At(init, a).Keys
  {
    forall a ensures At(p, a).Keys <= At(init, a).Keys {
      if a in p && TotalLen(init) > limit {
        assert At(p, a) == Cut(init, locals, level, a);
      }
    }
  }

  lemma FrontKept(m: Items, rest: Items, c: Chain, a: Address, k: nat)
    requires (forall n :: n in m ==> c.Nonce(a) <= n) && Payable(m, c, a) && (m != map[] ==> c.Nonce(a) in m)
    requires k >= 1 && rest == KeepLowest(m, k)
    ensures (forall n :: n in rest ==> c.Nonce(a) <= n) && Payable(rest, c, a) && (rest != map[] ==> c.Nonce(a) in rest)
  {
    if m != map[] {
      LowestKept(m, k, c.Nonce(a));
    }
  }

  /** Cutting pending lists to a level keeps their fronts. */
  lemma LeveledFronts(init: Book, p: Book, locals: set<Address>, level: nat, c: Chain)
    requires Leveled(init, p, locals, level) && level >= 1 && forall a :: Fronted(init, c, a)
    ensures forall a :: Fronted(p, c, a)
  {
    forall a ensures Fronted(p, c, a) {
      assert Fronted(init, c, a);
      if a in init {
        assert At(p, a) == Cut(init, locals, level, a);
        if a !in locals {
          FrontKept(At(init, a), At(p, a), c, a, level);
        }
      }
    }
  }

  class TxPool {
    const config: Config
    const priced: TxPricedList
    var gasPrice: int
    var chain: Chain
    var singularity: bool
    var noncer: map<Address, nat>
    var locals: set<Address>
    var pending: Book
    var queue: Book
    var beats: map<Address, nat>
    var all: set<Tx>

    /** The five views agree. */
    ghost predicate Valid()
      reads this, priced
    {
      && config.Sanitized()
      && Consistent(pending, queue, all)
      && priced.Tracks(all, 0)
      && OnceIfOver(priced.items, locals, all, config.Limit())
    }

    /** Every pending list is executable on the current chain state. */
    ghost predicate Ready()
      reads this
    {
      AllExecutable(pending, noncer, chain)
    }

    constructor (config: Config, gasPrice: int, locals: set<Address>, chain: Chain, singularity: bool)
      requires config.Sanitized()
      ensures Valid() && Ready() && fresh(priced)
      ensures all == {} && this.config == config && this.chain == chain && this.locals == locals
    {
      this.config, this.gasPrice, this.chain, this.singularity := config, gasPrice, chain, singularity;
      this.locals := locals;
      noncer, pending, queue, beats, all := map[], map[], map[], map[], {};
      priced := new TxPricedList();
    }

    // ---------- queueing ----------

    /**
     Puts a transaction into the future queue. `live` is what the lists hold now; a demoted
     transaction is known already and meets no queued one with its nonce.
     */
    method EnqueueTx(tx: Tx, ghost live: set<Tx>) returns (replaced: bool, ok: bool)
      requires Consistent(pending, queue, live) && live <= all && tx !in live && tx.signed
      requires tx.nonce !in At(pending, tx.from)
      requires tx in all ==> tx.nonce !in At(queue, tx.from)
      requires tx !in all ==> live == all && priced.Tracks(all, 0)
      modifies this`queue, this`all, priced
      ensures ok == ListOf(old(queue), tx.from, false).Accepts(tx, config.priceBump)
      ensures replaced == (ok && tx.nonce in At(old(queue), tx.from))
      ensures !ok ==> queue == old(queue) && all == old(all) && unchanged(priced)
      ensures ok ==> queue == old(queue)[tx.from := ListOf(old(queue), tx.from, false).Added(tx)]
      ensures ok ==> all == old(all) - Stored(At(old(queue), tx.from), tx.nonce) + {tx}
      ensures ok ==> Consistent(pending, queue, live - Stored(At(old(queue), tx.from), tx.nonce) + {tx})
      ensures tx !in old(all) ==> priced.Tracks(all, 0) && Grown(priced.items, old(priced.items), tx)
      ensures tx in old(all) ==> ok && all == old(all) && unchanged(priced)
    {
      var from := tx.from;
      var list := ListOf(queue, from, false);
      if !list.Accepts(tx, config.priceBump) {
        return false, false;
      }
      QueueOne(pending, queue, live, tx);
      var prior := Stored(list.items, tx.nonce);
      PutInQueue(tx, prior);
      return prior != {}, true;
    }

    /** The transaction takes its place in the queue. */
    method PutInQueue(tx: Tx, prior: set<Tx>)
      requires prior <= all && |prior| <= 1 && tx !in prior
      requires priced.Tracks(all, 0) || (prior == {} && tx in all)
      modifies this`queue, this`all, priced
      ensures queue == old(queue)[tx.from := ListOf(old(queue), tx.from, false).Added(tx)]
      ensures all == old(all) - prior + {tx} && Grown(priced.items, old(priced.items), tx)
      ensures old(priced.Tracks(all, 0)) ==> priced.Tracks(all, 0)
      ensures prior == {} && tx in old(all) ==> all == old(all) && unchanged(priced)
    {
      Record(prior, tx, 0);
      queue := queue[tx.from := ListOf(queue, tx.from, false).Added(tx)];
    }

    /** Takes a replaced transaction, if there is one, out of the lookup table and reports it to the price heap. */
    method DropPrior(prior: set<Tx>, ghost slack: nat)
      requires prior <= all && |prior| <= 1
      requires priced.Tracks(all, slack) || prior == {}
      modifies this`all, priced
      ensures all == old(all) - prior && Part(priced.items, old(priced.items))
      ensures prior == {} ==> unchanged(priced)
      ensures old(priced.Tracks(all, slack)) ==> priced.Tracks(all, slack)
    {
      if prior != {} {
        assert |all| == |all - prior| + |prior|;
        all := all - prior;
        priced.Removed(1, all, slack + 1);
      }
    }

    /** Takes a replaced transaction out of the lookup table and the price heap and puts the new one in. */
    method Record(prior: set<Tx>, tx: Tx, ghost slack: nat)
      requires prior <= all && |prior| <= 1 && tx !in prior
      requires priced.Tracks(all, slack) || (prior == {} && tx in all)
      modifies this`all, priced
      ensures all == old(all) - prior + {tx} && Grown(priced.items, old(priced.items), tx)
      ensures old(priced.Tracks(all, slack)) ==> priced.Tracks(all, slack)
      ensures prior == {} && tx in old(all) ==> all == old(all) && unchanged(priced)
    {
      DropPrior(prior, slack);
      if tx !in all {
        all := all + {tx};
        priced.Put(tx);
      }
    }

    /** Queues the transactions `m` of account `a` that were taken out of its pending list. */
    method EnqueueAll(a: Address, txs: seq<Tx>, ghost m: Items, ghost live: set<Tx>)
      requires Consistent(pending, queue, live) && live <= all
      requires Lists(txs, m) && Keyed(m) && Owned(m, a)
      requires m.Keys !! At(pending, a).Keys && m.Keys !! At(queue, a).Keys
      requires Txs(m) <= all
      modifies this`queue, this`all, priced
      ensures SameBut(queue, old(queue), a)
      ensures At(queue, a) == At(old(queue), a) + m
      ensures all == old(all) && unchanged(priced)
      ensures Consistent(pending, queue, live + Txs(m))
    {
      ghost var start := At(queue, a);
      ghost var done: Items, moved: set<Tx> := map[], live;
      assert m - done.Keys == m && start + done == start && live + Txs(done) == live;
      for i := 0 to |txs|
        invariant Moving(txs[i..], m, done, start, At(queue, a), live, moved)
        invariant Consistent(pending, queue, moved) && moved <= all
        invariant SameBut(queue, old(queue), a)
        invariant all == old(all) && unchanged(priced)
      {
        var tx := txs[i];
        assert txs[i..][0] == tx && txs[i..][1..] == txs[i + 1..];
        MoveOne(txs[i..], m, done, start, At(queue, a), live, moved, a, all);
        EnqueueDemoted(tx, moved);
        done, moved := done[tx.nonce := tx], moved + {tx};
      }
      NothingLeft(txs[|txs|..], m, done);
    }

    /** Queues a transaction that just left its pending list: nothing is replaced, nothing is lost. */
    method EnqueueDemoted(tx: Tx, ghost live: set<Tx>)
      requires Consistent(pending, queue, live) && live <= all && tx in all && tx.signed
      requires tx.nonce !in At(pending, tx.from) && tx.nonce !in At(queue, tx.from)
      modifies this`queue, this`all, priced
      ensures SameBut(queue, old(queue), tx.from)
      ensures At(queue, tx.from) == At(old(queue), tx.from)[tx.nonce := tx]
      ensures all == old(all) && unchanged(priced)
      ensures Consistent(pending, queue, live + {tx})
    {
      assert AccountOk(pending, queue, live, tx.from);
      assert live - Stored(At(queue, tx.from), tx.nonce) == live;
      var replaced, ok := EnqueueTx(tx, live);
    }

    // ---------- removing ----------

    /**
     Removes one transaction; pending ones behind it go back to the queue. `owed` are the
     transactions already taken out of the price heap when `outofbound` is false.
     */
    method RemoveTx(tx: Tx, outofbound: bool, ghost owed: set<Tx>)
      requires Consistent(pending, queue, all)
      requires outofbound ==> priced.Tracks(all, 0)
      requires !outofbound ==> priced.Tracks(all - owed, 0) && (tx in all ==> tx in owed)
      modifies this`pending, this`queue, this`all, this`noncer, this`beats, priced
      ensures Consistent(pending, queue, all) && all == old(all) - {tx} && Part(priced.items, old(priced.items))
      ensures outofbound ==> priced.Tracks(all, 0)
      ensures !outofbound ==> priced.Tracks(all - owed, 0)
      ensures SameBut(pending, old(pending), tx.from) && SameBut(queue, old(queue), tx.from)
      ensures Has(At(old(pending), tx.from), tx) ==>
        && At(pending, tx.from) == Below(At(old(pending), tx.from), tx.nonce)
        && At(queue, tx.from) == At(old(queue), tx.from) + From(At(old(pending), tx.from), tx.nonce + 1)
        && noncer == Lowered(old(noncer), chain, tx.from, tx.nonce)
      ensures Has(At(old(queue), tx.from), tx) ==>
        && At(queue, tx.from) == At(old(queue), tx.from) - {tx.nonce}
        && pending == old(pending) && noncer == old(noncer)
      ensures tx !in old(all) ==> pending == old(pending) && queue == old(queue) && noncer == old(noncer)
      ensures old(Ready()) ==> Ready()
    {
      WhereIs(pending, queue, all, tx);
      assert AccountOk(pending, queue, all, tx.from);
      if tx !in all {
        assert all - {tx} == all;
        return;
      }
      ghost var was := all;
      assert |all| == |all - {tx}| + 1;
      all := all - {tx};
      if outofbound {
        priced.Removed(1, all, 1);
      } else {
        assert all - owed == was - owed;
      }
      if tx.from in pending && tx.nonce in pending[tx.from].items {
        RemovePending(tx, was);
      } else {
        RemoveQueued(tx, was);
      }
    }

    method RemovePending(tx: Tx, ghost was: set<Tx>)
      requires Consistent(pending, queue, was) && all == was - {tx} && tx in was
      requires Has(At(pending, tx.from), tx)
      modifies this`pending, this`queue, this`all, this`noncer, this`beats, priced
      ensures Consistent(pending, queue, all) && all == old(all) && unchanged(priced)
      ensures SameBut(pending, old(pending), tx.from) && SameBut(queue, old(queue), tx.from)
      ensures At(pending, tx.from) == Below(At(old(pending), tx.from), tx.nonce)
      ensures At(queue, tx.from) == At(old(queue), tx.from) + From(At(old(pending), tx.from), tx.nonce + 1)
      ensures noncer == Lowered(old(noncer), chain, tx.from, tx.nonce)
      ensures old(Ready()) ==> Ready()
    {
      var a := tx.from;
      var rest, orphans := pending[a].Without(tx.nonce), pending[a].Orphans(tx.nonce);
      OrphanStep(pending, queue, was, tx);
      pending := SetList(pending, a, rest);
      if rest.items == map[] {
        beats := beats - {a};
      }
      var invalids := SortedMap.ItemList(orphans);
      EnqueueAll(a, invalids, orphans, all - Txs(orphans));
      assert all - Txs(orphans) + Txs(orphans) == all;
      noncer := Lowered(noncer, chain, a, tx.nonce);
      if old(Ready()) {
        CutReady(old(pending), old(noncer), pending, noncer, chain, a, tx.nonce);
      }
    }

    method RemoveQueued(tx: Tx, ghost was: set<Tx>)
      requires Consistent(pending, queue, was) && all == was - {tx}
      requires Has(At(queue, tx.from), tx)
      modifies this`queue
      ensures Consistent(pending, queue, all)
      ensures SameBut(queue, old(queue), tx.from)
      ensures At(queue, tx.from) == At(old(queue), tx.from) - {tx.nonce}
    {
      var a := tx.from;
      var list := queue[a];
      assert AccountOk(pending, queue, was, a);
      var rest := list.Without(tx.nonce);
      CutQueue(pending, queue, was, a, rest, {tx});
      queue := SetList(queue, a, rest);
    }

    // ---------- promoting ----------

    /**
     Moves a transaction into its account's pending list unless an older one there is better.
     `live` is what the lists hold, `slack` the removals not reported to the price heap yet.
     */
    method PromoteTx(tx: Tx, now: nat, ghost live: set<Tx>, ghost slack: nat) returns (ok: bool)
      requires Consistent(pending, queue, live) && live <= all && tx !in live && tx.signed
      requires tx.nonce !in At(queue, tx.from)
      requires priced.Tracks(all, slack) || (tx in all && tx.nonce !in At(pending, tx.from))
      modifies this`pending, this`all, this`noncer, this`beats, priced
      ensures ok == ListOf(old(pending), tx.from, true).Accepts(tx, config.priceBump)
      ensures ok ==> pending == old(pending)[tx.from := ListOf(old(pending), tx.from, true).Added(tx)]
      ensures ok ==> all == old(all) - Stored(At(old(pending), tx.from), tx.nonce) + {tx}
      ensures ok ==> Consistent(pending, queue, live - Stored(At(old(pending), tx.from), tx.nonce) + {tx})
      ensures ok ==> noncer == old(noncer)[tx.from := tx.nonce + 1]
      ensures !ok ==> pending == old(pending) && noncer == old(noncer) && all == old(all) - {tx}
      ensures old(priced.Tracks(all, slack)) ==> priced.Tracks(all, slack)
      ensures tx in old(all) && tx.nonce !in At(old(pending), tx.from) ==> ok && all == old(all) && unchanged(priced)
    {
      var list := ListOf(pending, tx.from, true);
      ok := list.Accepts(tx, config.priceBump);
      if !ok {
        Forget(tx, slack);
      } else {
        Promote(tx, now, live, slack);
      }
    }

    /** The transaction takes its place; the pending nonce and the heartbeat follow it. */
    method Place(tx: Tx, now: nat, prior: set<Tx>, ghost slack: nat)
      requires prior <= all && |prior| <= 1 && tx !in prior
      requires priced.Tracks(all, slack) || (prior == {} && tx in all)
      modifies this`pending, this`all, this`noncer, this`beats, priced
      ensures pending == old(pending)[tx.from := ListOf(old(pending), tx.from, true).Added(tx)]
      ensures all == old(all) - prior + {tx}
      ensures noncer == old(noncer)[tx.from := tx.nonce + 1]
      ensures old(priced.Tracks(all, slack)) ==> priced.Tracks(all, slack)
      ensures prior == {} && tx in old(all) ==> all == old(all) && unchanged(priced)
    {
      Record(prior, tx, slack);
      pending := pending[tx.from := ListOf(pending, tx.from, true).Added(tx)];
      beats := beats[tx.from := now];
      noncer := noncer[tx.from := tx.nonce + 1];
    }

    /** The accepted case: the five views still agree. */
    method Promote(tx: Tx, now: nat, ghost live: set<Tx>, ghost slack: nat)
      requires Consistent(pending, queue, live) && live <= all && tx !in live && tx.signed
      requires tx.nonce !in At(queue, tx.from)
      requires priced.Tracks(all, slack) || (tx in all && tx.nonce !in At(pending, tx.from))
      modifies this`pending, this`all, this`noncer, this`beats, priced
      ensures pending == old(pending)[tx.from := ListOf(old(pending), tx.from, true).Added(tx)]
      ensures all == old(all) - Stored(At(old(pending), tx.from), tx.nonce) + {tx}
      ensures Consistent(pending, queue, live - Stored(At(old(pending), tx.from), tx.nonce) + {tx})
      ensures noncer == old(noncer)[tx.from := tx.nonce + 1]
      ensures old(priced.Tracks(all, slack)) ==> priced.Tracks(all, slack)
      ensures tx in old(all) && tx.nonce !in At(old(pending), tx.from) ==> all == old(all) && unchanged(priced)
    {
      var prior := Stored(At(pending, tx.from), tx.nonce);
      PendOne(pending, queue, live, tx);
      Place(tx, now, prior, slack);
    }

    /** Drops a transaction that lost against an older one. */
    method Forget(tx: Tx, ghost slack: nat)
      requires priced.Tracks(all, slack)
      modifies this`all, priced
      ensures all == old(all) - {tx}
      ensures priced.Tracks(all, slack)
    {
      SlackAfter(priced.items, priced.stales, all, slack, {tx});
      all := all - {tx};
      priced.Removed(1, all, slack + 1);
    }

    /** Promotes a known transaction whose nonce is not pending yet: it is always taken. */
    method PromoteFresh(tx: Tx, now: nat, ghost live: set<Tx>)
      requires Consistent(pending, queue, live) && live <= all && tx in all && tx.signed
      requires tx.nonce !in At(queue, tx.from) && tx.nonce !in At(pending, tx.from)
      modifies this`pending, this`all, this`noncer, this`beats, priced
      ensures SameBut(pending, old(pending), tx.from)
      ensures At(pending, tx.from) == At(old(pending), tx.from)[tx.nonce := tx]
      ensures noncer == old(noncer)[tx.from := tx.nonce + 1]
      ensures all == old(all) && unchanged(priced)
      ensures Consistent(pending, queue, live + {tx})
    {
      assert AccountOk(pending, queue, live, tx.from);
      assert live - Stored(At(pending, tx.from), tx.nonce) == live;
      var ok := PromoteTx(tx, now, live, 0);
    }

    /** One more transaction of the run moves to pending. */
    method PromoteNext(a: Address, txs: seq<Tx>, i: nat, now: nat, ghost start: Items, ghost m: Items, ghost done: Items, ghost live: set<Tx>)
      returns (ghost more: Items)
      requires Consistent(pending, queue, live + Txs(done)) && live + Txs(done) <= all
      requires Keyed(m) && Owned(m, a) && m.Keys !! At(queue, a).Keys && Txs(m) <= all
      requires m.Keys !! start.Keys && At(pending, a) == start + done
      requires SubMap(done, m) && i < |txs| && Lists(txs[i..], m - done.Keys)
      modifies this`pending, this`all, this`noncer, this`beats, priced
      ensures Consistent(pending, queue, live + Txs(more)) && live + Txs(more) <= all
      ensures SameBut(pending, old(pending), a) && At(pending, a) == start + more
      ensures SubMap(more, m) && Lists(txs[i + 1..], m - more.Keys)
      ensures noncer == old(noncer)[a := txs[i].nonce + 1]
      ensures all == old(all) && unchanged(priced)
    {
      var tx := txs[i];
      assert txs[i..][0] == tx && txs[i..][1..] == txs[i + 1..];
      ListsTail(txs[i..], m - done.Keys);
      TxsHas(m, tx);
      OneMoreDone(start, m, done, tx);
      more := done[tx.nonce := tx];
      assert live + Txs(more) == live + Txs(done) + {tx};
      PromoteFresh(tx, now, live + Txs(done));
    }

    /** Promotes a run of queued transactions in nonce order. */
    method PromoteRun(a: Address, txs: seq<Tx>, now: nat, ghost m: Items, ghost live: set<Tx>)
      requires Consistent(pending, queue, live) && live <= all
      requires Flat(txs, m) && Keyed(m) && Owned(m, a)
      requires m.Keys !! At(pending, a).Keys && m.Keys !! At(queue, a).Keys
      requires Txs(m) <= all
      modifies this`pending, this`all, this`noncer, this`beats, priced
      ensures SameBut(pending, old(pending), a)
      ensures At(pending, a) == At(old(pending), a) + m
      ensures noncer == Noted(old(noncer), a, txs, |txs|)
      ensures all == old(all) && unchanged(priced)
      ensures Consistent(pending, queue, live + Txs(m))
    {
      ghost var start := At(pending, a);
      ghost var done: Items := map[];
      assert m - done.Keys == m && start + done == start && live + Txs(done) == live;
      for i := 0 to |txs|
        invariant Consistent(pending, queue, live + Txs(done)) && live + Txs(done) <= all
        invariant SameBut(pending, old(pending), a)
        invariant SubMap(done, m) && Lists(txs[i..], m - done.Keys)
        invariant At(pending, a) == start + done
        invariant noncer == Noted(old(noncer), a, txs, i)
        invariant all == old(all) && unchanged(priced)
      {
        NotedNext(old(noncer), a, txs, i);
        done := PromoteNext(a, txs, i, now, start, m, done, live);
      }
      NothingLeft(txs[|txs|..], m, done);
    }

    /** Drops what the account's queue holds below the chain nonce or beyond its means. */
    method PruneQueue(a: Address) returns (count: nat)
      requires Consistent(pending, queue, all) && a in queue
      modifies this`queue, this`all
      ensures Consistent(pending, queue, all)
      ensures queue == SetList(old(queue), a, Usable(old(queue)[a], chain, a))
      ensures all <= old(all) && |old(all)| <= |all| + count
    {
      var list := queue[a];
      var forwards, drops := Below(list.items, chain.Nonce(a)), TooDear(list, chain, a);
      PruneStep(pending, queue, all, chain, a);
      Shrunk(all, Txs(forwards) + Txs(drops));
      all := all - (Txs(forwards) + Txs(drops));
      queue := SetList(queue, a, Usable(list, chain, a));
      count := |forwards| + |drops|;
    }

    /** Promotes the run of consecutive nonces at the front of the account's queue. */
    method PromoteReady(a: Address, now: nat) returns (readies: seq<Tx>)
      requires Consistent(pending, queue, all)
      modifies this`pending, this`queue, this`all, this`noncer, this`beats, priced
      ensures Consistent(pending, queue, all) && all == old(all) && unchanged(priced)
      ensures SameBut(pending, old(pending), a) && SameBut(queue, old(queue), a)
      ensures Promotion(old(pending), old(noncer), At(old(queue), a), pending, queue, noncer, chain, a, None, readies)
    {
      var list := ListOf(queue, a, false);
      var pn := PendingNonce(noncer, chain, a);
      var run := list.ReadyRun(pn);
      ReadyStep(pending, queue, all, a, pn);
      queue := SetList(queue, a, list.AfterReady(pn));
      readies := InOrder(run);
      PromoteRun(a, readies, now, run, all - Txs(run));
      assert all - Txs(run) + Txs(run) == all;
    }

    /** Cuts an account's queue down to its lowest nonces; counts what was dropped. */
    method CutQueueTo(a: Address, cap: nat) returns (count: nat)
      requires Consistent(pending, queue, all)
      modifies this`queue, this`all
      ensures Consistent(pending, queue, all)
      ensures SameBut(queue, old(queue), a)
      ensures At(queue, a) == KeepLowest(At(old(queue), a), cap)
      ensures all <= old(all) && |old(all)| <= |all| + count
    {
      var list := ListOf(queue, a, false);
      var caps := DropLowest(list.items, cap);
      CapQueueStep(pending, queue, all, a, cap);
      Shrunk(all, Txs(caps));
      all := all - Txs(caps);
      queue := SetList(queue, a, list.Capped(cap));
      count := |caps|;
    }

    /** Drops the highest nonces of a queue that is over the account's allowance. */
    method CapQueue(a: Address) returns (count: nat)
      requires Consistent(pending, queue, all)
      modifies this`queue, this`all
      ensures Consistent(pending, queue, all)
      ensures SameBut(queue, old(queue), a)
      ensures At(queue, a) == CappedTo(At(old(queue), a), if a in locals then None else Some(config.accountQueue))
      ensures all <= old(all) && |old(all)| <= |all| + count
    {
      count := 0;
      if a !in locals {
        count := CutQueueTo(a, config.accountQueue);
      }
    }

    /** Prunes an account's queue, promotes what is ready and caps the rest; counts what was dropped. */
    method PromoteQueued(a: Address, now: nat) returns (promoted: seq<Tx>, dropped: nat)
      requires Consistent(pending, queue, all) && a in queue
      modifies this`pending, this`queue, this`all, this`noncer, this`beats, priced
      ensures Consistent(pending, queue, all) && unchanged(priced)
      ensures all <= old(all) && |old(all)| <= |all| + dropped
      ensures SameBut(pending, old(pending), a) && SameBut(queue, old(queue), a)
      ensures Promotion(old(pending), old(noncer), Usable(old(queue)[a], chain, a).items, pending, queue, noncer, chain, a,
                        if a in locals then None else Some(config.accountQueue), promoted)
    {
      ghost var usable := Usable(queue[a], chain, a);
      SetListFacts(queue, a, usable);
      var pruned := PruneQueue(a);
      promoted := PromoteReady(a, now);
      var capped := CapQueue(a);
      dropped := pruned + capped;
    }

    /**
     One account's turn in the promotion: stale and unpayable transactions leave the queue,
     the executable run moves to pending, and the rest is capped unless the account is local.
     */
    method PromoteAccount(a: Address, now: nat) returns (promoted: seq<Tx>)
      requires Valid()
      modifies this`pending, this`queue, this`all, this`noncer, this`beats, priced
      ensures Valid() && all <= old(all)
      ensures SameBut(pending, old(pending), a) && SameBut(queue, old(queue), a)
      ensures a !in old(queue) ==> pending == old(pending) && queue == old(queue) && noncer == old(noncer) && promoted == []
      ensures a in old(queue) ==>
        Promotion(old(pending), old(noncer), Usable(old(queue)[a], chain, a).items, pending, queue, noncer, chain, a,
                  if a in locals then None else Some(config.accountQueue), promoted)
    {
      promoted := [];
      if a !in queue {
        return;
      }
      var dropped;
      promoted, dropped := PromoteQueued(a, now);
      priced.Removed(dropped, all, dropped);
      OnceStays(old(priced.items), locals, old(all), config.Limit(), priced.items, locals, all);
    }

    /** One account's turn: whatever was executable or settling stays so, and the queue is drained. */
    method PromoteOne(a: Address, now: nat) returns (promoted: seq<Tx>)
      requires Valid()
      modifies this`pending, this`queue, this`all, this`noncer, this`beats, priced
      ensures Valid() && all <= old(all)
      ensures SameBut(pending, old(pending), a) && SameBut(queue, old(queue), a)
      ensures forall x :: x != a ==> PendingNonce(noncer, chain, x) == PendingNonce(old(noncer), chain, x)
      ensures Drained(queue, noncer, chain, a)
      ensures PromotedAt(old(pending), old(queue), PendingNonce(old(noncer), chain, a), pending, queue, chain, a,
                         CapOf(locals, config.accountQueue, a))
      ensures old(Ready()) ==> Ready()
      ensures old(AllSettling(pending, noncer, chain)) ==> AllSettling(pending, noncer, chain)
    {
      ghost var p, q, n, live := pending, queue, noncer, all;
      promoted := PromoteAccount(a, now);
      if a in q {
        TurnDone(p, q, live, n, pending, queue, noncer, chain, locals, config.accountQueue, a, promoted);
      } else {
        NothingQueued(p, q, PendingNonce(n, chain, a), chain, a, CapOf(locals, config.accountQueue, a));
      }
    }

    /** The next account of a batch. */
    method PromoteTurn(accounts: seq<Address>, i: nat, now: nat, ghost p0: Book, ghost q0: Book, ghost n0: map<Address, nat>)
      returns (promoted: seq<Tx>)
      requires Valid() && i < |accounts|
      requires Batched(p0, q0, n0, pending, queue, noncer, chain, locals, config.accountQueue, accounts[..i])
      modifies this`pending, this`queue, this`all, this`noncer, this`beats, priced
      ensures Valid() && all <= old(all)
      ensures Batched(p0, q0, n0, pending, queue, noncer, chain, locals, config.accountQueue, accounts[..i + 1])
      ensures old(Ready()) ==> Ready()
      ensures old(AllSettling(pending, noncer, chain)) ==> AllSettling(pending, noncer, chain)
    {
      ghost var p, q, n := pending, queue, noncer;
      promoted := PromoteOne(accounts[i], now);
      BatchedMore(p0, q0, n0, p, q, n, pending, queue, noncer, chain, locals, config.accountQueue, accounts, i);
    }

    /** Promotes what has become processable in each of the given accounts. */
    method PromoteExecutables(accounts: seq<Address>, now: nat) returns (promoted: seq<Tx>)
      requires Valid()
      modifies this`pending, this`queue, this`all, this`noncer, this`beats, priced
      ensures Valid() && all <= old(all)
      ensures Batched(old(pending), old(queue), old(noncer), pending, queue, noncer, chain, locals, config.accountQueue, accounts)
      ensures old(Ready()) ==> Ready()
      ensures old(AllSettling(pending, noncer, chain)) ==> AllSettling(pending, noncer, chain)
    {
      promoted := [];
      ghost var p0, q0, n0 := pending, queue, noncer;
      for i := 0 to |accounts|
        invariant Valid() && all <= old(all)
        invariant Batched(p0, q0, n0, pending, queue, noncer, chain, locals, config.accountQueue, accounts[..i])
        invariant old(Ready()) ==> Ready()
        invariant old(AllSettling(pending, noncer, chain)) ==> AllSettling(pending, noncer, chain)
      {
        var txs := PromoteTurn(accounts, i, now, p0, q0, n0);
        promoted := promoted + txs;
      }
      assert accounts[..|accounts|] == accounts;
    }

    // ---------- demoting ----------

    /** Takes the stale and unpayable transactions of a pending list out of the pool, and the stranded ones off the list. */
    method PrunePending(a: Address) returns (count: nat, invalids: Items)
      requires Consistent(pending, queue, all) && a in pending
      modifies this`pending, this`all
      ensures pending == SetList(old(pending), a, Usable(old(pending)[a], chain, a))
      ensures invalids == Stranded(old(pending)[a], chain, a)
      ensures Consistent(pending, queue, all - Txs(invalids)) && Txs(invalids) <= all
      ensures Keyed(invalids) && Owned(invalids, a)
      ensures invalids.Keys !! At(pending, a).Keys && invalids.Keys !! At(queue, a).Keys
      ensures all <= old(all) && |old(all)| <= |all| + count && OnlySpent(old(all), all, chain)
    {
      var list := pending[a];
      var olds, drops := Below(list.items, chain.Nonce(a)), TooDear(list, chain, a);
      DemoteStep(pending, queue, all, chain, a);
      DropsAreSpent(pending, queue, all, chain, a);
      SetListFacts(pending, a, Usable(list, chain, a));
      Shrunk(all, Txs(olds) + Txs(drops));
      all := all - (Txs(olds) + Txs(drops));
      pending := SetList(pending, a, Usable(list, chain, a));
      count, invalids := |olds| + |drops|, Stranded(list, chain, a);
    }

    /** The safety net for a pending list whose first nonce is not the chain's: all of it is queued again. */
    method CloseGap(a: Address) returns (gapped: bool)
      requires Consistent(pending, queue, all)
      modifies this`pending, this`queue, this`all, priced
      ensures gapped <==> At(old(pending), a) != map[] && chain.Nonce(a) !in At(old(pending), a)
      ensures !gapped ==> pending == old(pending) && queue == old(queue)
      ensures gapped ==> At(pending, a) == map[] && At(queue, a) == At(old(queue), a) + At(old(pending), a)
      ensures SameBut(pending, old(pending), a) && SameBut(queue, old(queue), a)
      ensures Consistent(pending, queue, all) && all == old(all) && unchanged(priced)
    {
      assert AccountOk(pending, queue, all, a);
      gapped := a in pending && chain.Nonce(a) !in pending[a].items;
      if gapped {
        var items := pending[a].items;
        GapStep(pending, queue, all, a);
        pending := pending - {a};
        var txs := SortedMap.ItemList(items);
        EnqueueAll(a, txs, items, all - Txs(items));
        assert all - Txs(items) + Txs(items) == all;
      }
    }

    /** Takes out what an account's pending list may not keep, and queues the stranded part again. */
    method DemoteInvalid(a: Address)
      requires Valid() && a in pending
      modifies this`pending, this`queue, this`all, priced
      ensures Valid() && all <= old(all) && OnlySpent(old(all), all, chain)
      ensures pending == SetList(old(pending), a, Usable(old(pending)[a], chain, a))
      ensures SameBut(queue, old(queue), a)
      ensures At(queue, a) == At(old(queue), a) + Stranded(old(pending)[a], chain, a)
    {
      var count, invalids := PrunePending(a);
      priced.Removed(count, all, count);
      OnceStays(old(priced.items), locals, old(all), config.Limit(), priced.items, locals, all);
      var txs := SortedMap.ItemList(invalids);
      EnqueueAll(a, txs, invalids, all - Txs(invalids));
      assert all - Txs(invalids) + Txs(invalids) == all;
    }

    /**
     One account's turn in the demotion: stale and unpayable transactions leave the pool,
     stranded ones return to the queue, and so does a list with a gap in front.
     */
    method DemoteAccount(a: Address) returns (gapped: bool)
      requires Valid() && a in pending
      modifies this`pending, this`queue, this`all, this`beats, priced
      ensures Valid() && all <= old(all) && OnlySpent(old(all), all, chain)
      ensures SameBut(pending, old(pending), a) && SameBut(queue, old(queue), a)
      ensures Demotion(Usable(old(pending)[a], chain, a).items, Stranded(old(pending)[a], chain, a),
                       old(queue), pending, queue, chain, a, gapped)
    {
      SetListFacts(pending, a, Usable(pending[a], chain, a));
      DemoteInvalid(a);
      gapped := CloseGap(a);
      if a !in pending {
        beats := beats - {a};
      }
    }

    /** One account's turn, seen from all accounts: what is left is payable and starts at the chain's nonce. */
    method DemoteOne(a: Address, ghost todo: set<Address>) returns (gapped: bool)
      requires Valid() && a in pending && a !in todo
      modifies this`pending, this`queue, this`all, this`beats, priced
      ensures Valid() && all <= old(all) && OnlySpent(old(all), all, chain)
      ensures SameBut(pending, old(pending), a) && SameBut(queue, old(queue), a) && Fronted(pending, chain, a)
      ensures old(SettledBut(pending, noncer, chain, todo + {a})) ==>
        !gapped && SettledBut(pending, noncer, chain, todo) && DemotedAt(old(pending), old(queue), pending, queue, chain, a)
    {
      assert AccountOk(pending, queue, all, a);
      gapped := DemoteAccount(a);
      DemotionFronts(old(pending)[a], old(queue), pending, queue, chain, a, gapped);
      if old(SettledBut(pending, noncer, chain, todo + {a})) {
        OneDemoted(old(pending), noncer, old(queue), pending, queue, chain, a, gapped, todo);
      }
    }

    /** Validates every pending list against the current chain state. */
    method DemoteUnexecutables() returns (gaps: nat)
      requires Valid()
      modifies this`pending, this`queue, this`all, this`beats, priced
      ensures Valid() && all <= old(all) && OnlySpent(old(all), all, chain)
      ensures forall a :: Fronted(pending, chain, a)
      ensures old(AllSettling(pending, noncer, chain)) ==>
        gaps == 0 && AllSettled(pending, noncer, chain) && Demoting(old(pending), old(queue), pending, queue, chain, {})
    {
      gaps := 0;
      ghost var settling, p0, q0 := AllSettling(pending, noncer, chain), pending, queue;
      NothingDemoted(pending, queue, chain);
      var todo := pending.Keys;
      if settling {
        forall x | x !in todo ensures Settled(pending, noncer, chain, x) {
          assert Settling(pending, noncer, chain, x);
          EmptySettled(pending, noncer, chain, x);
        }
      }
      while todo != {}
        invariant Valid() && all <= old(all) && OnlySpent(old(all), all, chain) && todo <= pending.Keys
        invariant forall x :: x !in todo ==> Fronted(pending, chain, x)
        invariant settling ==> gaps == 0 && SettledBut(pending, noncer, chain, todo) && Demoting(p0, q0, pending, queue, chain, todo)
        decreases |todo|
      {
        var a :| a in todo;
        assert todo - {a} + {a} == todo;
        todo := todo - {a};
        ghost var p, q := pending, queue;
        var gapped := DemoteOne(a, todo);
        OneFronted(p, pending, chain, a, todo);
        if settling {
          DemotedMore(p0, q0, p, q, pending, queue, chain, a, todo);
        }
        gaps := gaps + if gapped then 1 else 0;
      }
    }

    // ---------- truncating ----------

    /** Drops the highest nonce of an account's pending list, and lowers its pending nonce to it. */
    method DropHighest(a: Address)
      requires Valid() && a in pending && |pending[a].items| > 1
      modifies this`pending, this`all, this`noncer, priced
      ensures Valid()
      ensures pending == old(pending)[a := old(pending)[a].Capped(|old(pending)[a].items| - 1)]
      ensures all < old(all)
      ensures old(Ready()) ==> Ready()
      ensures old(AllSettled(pending, noncer, chain)) ==> AllSettled(pending, noncer, chain)
    {
      var list := pending[a];
      var top := MaxKey(list.items.Keys);
      var tx := list.items[top];
      DropTopStep(pending, queue, all, a);
      SlackAfter(priced.items, priced.stales, all, 0, {tx});
      all := all - {tx};
      pending := pending[a := list.Capped(|list.items| - 1)];
      noncer := Lowered(noncer, chain, a, top);
      priced.Removed(1, all, 1);
      OnceStays(old(priced.items), locals, old(all), config.Limit(), priced.items, locals, all);
      if old(Ready()) {
        CutReady(old(pending), old(noncer), pending, noncer, chain, a, top);
      }
      if old(AllSettled(pending, noncer, chain)) {
        CutSettled(old(pending), old(noncer), pending, noncer, chain, a, top);
      }
    }

    /** One account of a round; `start` are the lists at its beginning, `done` the accounts so far. */
    method DropNext(a: Address, count: nat, ghost start: Book, ghost done: set<Address>) returns (left: nat)
      requires Valid() && count == TotalLen(pending)
      requires Dropped(start, pending, done) && a in start && a !in done && |At(start, a)| > 1
      modifies this`pending, this`all, this`noncer, priced
      ensures Valid() && left == TotalLen(pending)
      ensures Dropped(start, pending, done + {a})
      ensures all <= old(all)
      ensures old(Ready()) ==> Ready()
      ensures old(AllSettled(pending, noncer, chain)) ==> AllSettled(pending, noncer, chain)
    {
      assert At(pending, a) == Shorter(At(start, a), a in done);
      ghost var before := pending;
      DropHighest(a);
      DroppedOne(start, before, done, a, pending);
      OneFewer(before, a, pending);
      TotalNonNegative(pending);
      left := count - 1;
    }

    /** One round: the highest nonce of each listed account goes. */
    method DropRound(accounts: seq<Address>, count: nat) returns (left: nat)
      requires Valid() && count == TotalLen(pending) && AllDifferent(accounts)
      requires forall i :: 0 <= i < |accounts| ==> accounts[i] in pending && |At(pending, accounts[i])| > 1
      modifies this`pending, this`all, this`noncer, priced
      ensures Valid() && left == TotalLen(pending)
      ensures Dropped(old(pending), pending, First(accounts, |accounts|))
      ensures all <= old(all)
      ensures old(Ready()) ==> Ready()
      ensures old(AllSettled(pending, noncer, chain)) ==> AllSettled(pending, noncer, chain)
    {
      left := count;
      for i := 0 to |accounts|
        invariant Valid() && left == TotalLen(pending)
        invariant Dropped(old(pending), pending, First(accounts, i))
        invariant all <= old(all)
        invariant old(Ready()) ==> Ready()
        invariant old(AllSettled(pending, noncer, chain)) ==> AllSettled(pending, noncer, chain)
      {
        FirstNext(accounts, i);
        left := DropNext(accounts[i], left, old(pending), First(accounts, i));
      }
    }

    /**
     Rounds over the offenders until the pool fits or they are down to `floor`. `init` are
     the lists at the beginning of the truncation, `top` the level reached so far.
     */
    method ReduceTo(accounts: seq<Address>, count: nat, floor: nat, ghost init: Book, ghost top: nat)
      returns (left: nat, ghost level: nat)
      requires Valid() && accounts != [] && AllDifferent(accounts)
      requires Filling(init, pending, locals, top, count, config.accountSlots, config.globalSlots)
      requires config.accountSlots <= floor <= top && Offending(init, locals, accounts, top, floor)
      modifies this`pending, this`all, this`noncer, priced
      ensures Valid() && all <= old(all)
      ensures Filling(init, pending, locals, level, left, config.accountSlots, config.globalSlots)
      ensures floor <= level <= top && (left <= config.globalSlots || level == floor)
      ensures old(Ready()) ==> Ready()
      ensures old(AllSettled(pending, noncer, chain)) ==> AllSettled(pending, noncer, chain)
    {
      left, level := count, top;
      AtLevel(init, pending, locals, level, accounts, floor);
      while left > config.globalSlots && |At(pending, accounts[|accounts| - 1])| > floor
        invariant Valid() && all <= old(all)
        invariant Filling(init, pending, locals, level, left, config.accountSlots, config.globalSlots)
        invariant floor <= level <= top && Offending(init, locals, accounts, level, floor)
        invariant forall i :: 0 <= i < |accounts| ==> accounts[i] in pending && |At(pending, accounts[i])| == level
        invariant old(Ready()) ==> Ready()
        invariant old(AllSettled(pending, noncer, chain)) ==> AllSettled(pending, noncer, chain)
        decreases level
      {
        left, level := LowerOnce(accounts, left, floor, init, level);
      }
    }

    /** One round, and what it does to the level. */
    method LowerOnce(accounts: seq<Address>, count: nat, ghost floor: nat, ghost init: Book, ghost level: nat)
      returns (left: nat, ghost next: nat)
      requires Valid() && AllDifferent(accounts) && config.globalSlots < count
      requires Filling(init, pending, locals, level, count, config.accountSlots, config.globalSlots)
      requires config.accountSlots <= floor < level && Offending(init, locals, accounts, level, floor)
      modifies this`pending, this`all, this`noncer, priced
      ensures level == next + 1 && Valid() && all <= old(all)
      ensures Filling(init, pending, locals, next, left, config.accountSlots, config.globalSlots)
      ensures Offending(init, locals, accounts, next, floor)
      ensures forall i :: 0 <= i < |accounts| ==> accounts[i] in pending && |At(pending, accounts[i])| == next
      ensures old(Ready()) ==> Ready()
      ensures old(AllSettled(pending, noncer, chain)) ==> AllSettled(pending, noncer, chain)
    {
      next := level - 1;
      AtLevel(init, pending, locals, level, accounts, floor);
      left := DropRound(accounts, count);
      RoundLevel(init, old(pending), pending, locals, level, next, accounts, floor);
      NextFilling(init, old(pending), pending, locals, level, next, count, left, config.accountSlots, config.globalSlots);
      AtLevel(init, pending, locals, next, accounts, floor);
    }

    /**
     The next offender joins: the ones before it are cut down to its length, or until the
     pool fits. Nothing is cut for the first one.
     */
    method NextOffender(offenders: seq<Address>, o: Address, threshold: nat, count: nat,
                        ghost spammers: map<Address, nat>, ghost init: Book, ghost level: nat)
      returns (left: nat, ghost next: nat)
      requires Valid() && config.globalSlots < count
      requires Filling(init, pending, locals, level, count, config.accountSlots, config.globalSlots)
      requires Waiting(init, locals, config.accountSlots, offenders, spammers) && Even(init, offenders, level)
      requires offenders == [] ==> forall a :: a in init ==> |init[a].items| <= level
      requires o in spammers && threshold == spammers[o] && NoneAbove(spammers, threshold) && NoneAbove(spammers, level)
      modifies this`pending, this`all, this`noncer, priced
      ensures Valid() && all <= old(all)
      ensures Filling(init, pending, locals, next, left, config.accountSlots, config.globalSlots)
      ensures threshold <= next <= level && (config.globalSlots < left ==> next == threshold)
      ensures old(Ready()) ==> Ready()
      ensures old(AllSettled(pending, noncer, chain)) ==> AllSettled(pending, noncer, chain)
    {
      PopOrder(init, locals, config.accountSlots, offenders, spammers, level, o);
      if offenders != [] {
        left, next := ReduceTo(offenders, count, threshold, init, level);
      } else {
        left, next := count, threshold;
        FirstLevel(init, pending, locals, level, threshold, threshold + 1, count, config.accountSlots, config.globalSlots);
      }
    }

    /** Pops the longest waiting account and has it join the offenders. */
    method PopOffender(offenders: seq<Address>, spammers: map<Address, nat>, count: nat, ghost init: Book, ghost level: nat,
                       ghost exempt: set<Address>)
      returns (offenders': seq<Address>, spammers': map<Address, nat>, left: nat, ghost next: nat)
      requires Valid() && config.globalSlots < count && spammers != map[] && exempt == locals
      requires Filling(init, pending, locals, level, count, config.accountSlots, config.globalSlots)
      requires Waiting(init, exempt, config.accountSlots, offenders, spammers) && Even(init, offenders, level)
      requires NoneAbove(spammers, level)
      requires offenders == [] ==> forall a :: a in init ==> |init[a].items| <= level
      modifies this`pending, this`all, this`noncer, priced
      ensures Valid() && all <= old(all)
      ensures offenders' != [] && |spammers'.Keys| < |spammers.Keys|
      ensures Filling(init, pending, locals, next, left, config.accountSlots, config.globalSlots)
      ensures Waiting(init, exempt, config.accountSlots, offenders', spammers') && NoneAbove(spammers', next)
      ensures config.globalSlots < left ==> Even(init, offenders', next)
      ensures old(Ready()) ==> Ready()
      ensures old(AllSettled(pending, noncer, chain)) ==> AllSettled(pending, noncer, chain)
    {
      var o;
      o, offenders', spammers' := TakeOffender(offenders, spammers, init, exempt, config.accountSlots, level);
      left, next := NextOffender(offenders, o, spammers[o], count, spammers, init, level);
    }

    /** Takes offenders in order of size, each bringing the ones before it down to its own length. */
    method Equalize(waiting: map<Address, nat>, total: nat, ghost init: Book, ghost top: nat, ghost exempt: set<Address>)
      returns (offenders: seq<Address>, count: nat, ghost level: nat)
      requires Valid() && pending == init && config.globalSlots < total && exempt == locals
      requires Filling(init, pending, locals, top, total, config.accountSlots, config.globalSlots)
      requires Waiting(init, exempt, config.accountSlots, [], waiting) && NoneAbove(waiting, top)
      requires forall a :: a in init ==> |init[a].items| <= top
      modifies this`pending, this`all, this`noncer, priced
      ensures Valid() && all <= old(all)
      ensures Filling(init, pending, locals, level, count, config.accountSlots, config.globalSlots)
      ensures config.globalSlots < count ==> Even(init, offenders, level)
      ensures config.globalSlots < count ==> Waiting(init, exempt, config.accountSlots, offenders, map[])
      ensures offenders == [] ==> config.globalSlots < count && level == top
      ensures old(Ready()) ==> Ready()
      ensures old(AllSettled(pending, noncer, chain)) ==> AllSettled(pending, noncer, chain)
    {
      offenders, count, level := [], total, top;
      var spammers := waiting;
      while count > config.globalSlots && spammers != map[]
        invariant Valid() && all <= old(all)
        invariant Filling(init, pending, locals, level, count, config.accountSlots, config.globalSlots)
        invariant Waiting(init, exempt, config.accountSlots, offenders, spammers) && NoneAbove(spammers, level)
        invariant config.globalSlots < count ==> Even(init, offenders, level)
        invariant offenders == [] ==> config.globalSlots < count && level == top
        invariant old(Ready()) ==> Ready()
        invariant old(AllSettled(pending, noncer, chain)) ==> AllSettled(pending, noncer, chain)
        decreases |spammers.Keys|
      {
        offenders, spammers, count, level := PopOffender(offenders, spammers, count, init, level, exempt);
      }
    }

    /** If that was not enough, all offenders go down together, at most to the guarantee. */
    method CutOffenders(offenders: seq<Address>, total: nat, ghost init: Book, ghost top: nat) returns (ghost level: nat)
      requires Valid() && Filling(init, pending, locals, top, total, config.accountSlots, config.globalSlots)
      requires config.globalSlots < total ==>
        Even(init, offenders, top) && Waiting(init, locals, config.accountSlots, offenders, map[])
      requires offenders == [] ==> config.globalSlots < total && forall a :: a in init ==> |init[a].items| <= top
      modifies this`pending, this`all, this`noncer, priced
      ensures Valid() && all <= old(all) && Leveled(init, pending, locals, level)
      ensures WaterLevel(Totals(init, locals), config.accountSlots, config.globalSlots, level)
      ensures old(Ready()) ==> Ready()
      ensures old(AllSettled(pending, noncer, chain)) ==> AllSettled(pending, noncer, chain)
    {
      var count: nat := total;
      level := top;
      if count > config.globalSlots && offenders != [] {
        LastOffending(init, locals, config.accountSlots, offenders, level);
        count, level := ReduceTo(offenders, count, config.accountSlots, init, level);
      } else if offenders == [] {
        FirstLevel(init, pending, locals, level, config.accountSlots, config.accountSlots + 1, count,
                   config.accountSlots, config.globalSlots);
        level := config.accountSlots;
      }
      FilledLevel(init, pending, locals, level, count, config.accountSlots, config.globalSlots);
    }

    /** Cuts the longest lists, one transaction at a time, down to the water level. */
    method CutToLevel() returns (ghost level: nat)
      requires Valid()
      modifies this`pending, this`all, this`noncer, priced
      ensures Valid() && all <= old(all)
      ensures TotalLen(old(pending)) <= config.globalSlots ==> pending == old(pending) && noncer == old(noncer)
      ensures TotalLen(old(pending)) > config.globalSlots ==>
        && Leveled(old(pending), pending, locals, level)
        && WaterLevel(Totals(old(pending), locals), config.accountSlots, config.globalSlots, level)
      ensures old(Ready()) ==> Ready()
      ensures old(AllSettled(pending, noncer, chain)) ==> AllSettled(pending, noncer, chain)
    {
      level := 0;
      var count := CountAll(pending);
      if count <= config.globalSlots {
        return;
      }
      ghost var init := pending;
      var spammers := Spammers(pending, locals, config.accountSlots);
      ghost var bound := LenBound(init);
      level := bound + config.accountSlots;
      FillingStart(init, locals, level, config.accountSlots, config.globalSlots);
      var offenders;
      offenders, count, level := Equalize(spammers, count, init, level, locals);
      level := CutOffenders(offenders, count, init, level);
    }

    /**
     Brings the pending transactions down to the global limit by cutting the accounts with
     the most of them. The outcome is exact water-filling: one level for all remote
     accounts, the highest that fits, or the guarantee if none does.
     */
    method TruncatePending() returns (ghost level: nat)
      requires Valid()
      modifies this`pending, this`all, this`noncer, priced
      ensures Valid() && all <= old(all)
      ensures TotalLen(old(pending)) <= config.globalSlots ==> pending == old(pending) && noncer == old(noncer)
      ensures TotalLen(old(pending)) > config.globalSlots ==>
        && Leveled(old(pending), pending, locals, level)
        && WaterLevel(Totals(old(pending), locals), config.accountSlots, config.globalSlots, level)
        && (forall k: nat :: WaterLevel(Totals(old(pending), locals), config.accountSlots, config.globalSlots, k) ==> k == level)
      ensures Fits(pending, locals, config.accountSlots, config.globalSlots)
      ensures old(forall a :: Fronted(pending, chain, a)) ==> forall a :: Fronted(pending, chain, a)
      ensures old(Ready()) ==> Ready()
      ensures old(AllSettled(pending, noncer, chain)) ==> AllSettled(pending, noncer, chain)
    {
      level := CutToLevel();
      if TotalLen(old(pending)) > config.globalSlots {
        OnlyLevel(old(pending), locals, config.accountSlots, config.globalSlots, level);
        LevelFits(old(pending), pending, locals, config.accountSlots, config.globalSlots, level);
        if forall a :: Fronted(old(pending), chain, a) {
          LeveledFronts(old(pending), pending, locals, level, chain);
        }
      }
    }

    /** Removes the highest nonces of an account's queue, from the top down, and keeps the first ones. */
    method DropLast(a: Address, txs: seq<Tx>, keep: nat)
      requires Valid() && Flat(txs, At(queue, a)) && keep <= |txs|
      modifies this`pending, this`queue, this`all, this`noncer, this`beats, priced
      ensures Valid() && all <= old(all)
      ensures pending == old(pending) && noncer == old(noncer)
      ensures SameBut(queue, old(queue), a) && Flat(txs[..keep], At(queue, a))
      ensures SubMap(At(queue, a), At(old(queue), a))
    {
      assert txs[..|txs|] == txs;
      for i := |txs| downto keep
        invariant Valid() && all <= old(all)
        invariant pending == old(pending) && noncer == old(noncer)
        invariant SameBut(queue, old(queue), a) && Flat(txs[..i], At(queue, a))
        invariant SubMap(At(queue, a), At(old(queue), a))
      {
        assert txs[..i + 1][..i] == txs[..i];
        RemoveLast(a, txs[..i + 1], i);
      }
    }

    method RemoveLast(a: Address, txs: seq<Tx>, ghost keep: nat)
      requires Valid() && Flat(txs, At(queue, a)) && |txs| == keep + 1
      modifies this`pending, this`queue, this`all, this`noncer, this`beats, priced
      ensures Valid() && all <= old(all)
      ensures pending == old(pending) && noncer == old(noncer)
      ensures SameBut(queue, old(queue), a) && Flat(txs[..keep], At(queue, a))
      ensures SubMap(At(queue, a), At(old(queue), a))
    {
      var tx := txs[|txs| - 1];
      assert tx in txs;
      assert AccountOk(pending, queue, all, a);
      FlatFront(txs, At(queue, a));
      RemoveTx(tx, true, {});
      OnceStays(old(priced.items), locals, old(all), config.Limit(), priced.items, locals, all);
    }

    /** Drops a whole queue if it is no larger than the overflow, else only its highest nonces. */
    method DropOverflow(a: Address, drop: nat) returns (left: nat)
      requires Valid()
      modifies this`pending, this`queue, this`all, this`noncer, this`beats, priced
      ensures Valid() && all <= old(all)
      ensures pending == old(pending) && noncer == old(noncer)
      ensures SameBut(queue, old(queue), a) && LowPart(At(queue, a), At(old(queue), a))
      ensures left == if |At(old(queue), a)| <= drop then drop - |At(old(queue), a)| else 0
      ensures |At(queue, a)| == |At(old(queue), a)| - (drop - left)
      ensures TotalLen(queue) == TotalLen(old(queue)) - (drop - left)
    {
      assert AccountOk(pending, queue, all, a);
      var txs := InOrder(At(queue, a));
      ListsSize(txs, At(queue, a));
      var keep := if |txs| <= drop then 0 else |txs| - drop;
      ghost var q0 := queue;
      DropLast(a, txs, keep);
      QueueCut(q0, queue, a, txs, keep);
      left := drop - (|txs| - keep);
    }

    /**
     Brings the queued transactions down to the global limit, or to the local ones alone:
     remote queues go in order of their heartbeats, the latest first, highest nonces first.
     */
    method TruncateQueue()
      requires Valid()
      modifies this`pending, this`queue, this`all, this`noncer, this`beats, priced
      ensures Valid() && all <= old(all)
      ensures pending == old(pending) && noncer == old(noncer)
      ensures TotalLen(old(queue)) <= config.globalQueue ==> queue == old(queue)
      ensures TotalLen(old(queue)) > config.globalQueue ==>
        && TotalLen(queue) >= config.globalQueue
        && (TotalLen(queue) == config.globalQueue || forall a :: a !in locals ==> At(queue, a) == map[])
      ensures Fits(queue, locals, 0, config.globalQueue)
      ensures forall a :: a in locals ==> At(queue, a) == At(old(queue), a)
      ensures forall a :: LowPart(At(queue, a), At(old(queue), a))
      ensures LatestFirst(old(queue), queue, locals, old(beats))
    {
      var queued := CountAll(queue);
      if queued <= config.globalQueue {
        return;
      }
      var order := SortByBeat(queue, locals, beats);
      ghost var q0 := queue;
      var drop: nat := queued - config.globalQueue;
      var i := |order|;
      while drop > 0 && i > 0
        invariant Valid() && all <= old(all)
        invariant pending == old(pending) && noncer == old(noncer)
        invariant 0 <= i <= |order| && TotalLen(queue) == config.globalQueue + drop
        invariant drop > 0 ==> Emptied(q0, queue, order, i)
        invariant i < |order| ==> Trimmed(q0, queue, order, i)
        invariant i == |order| ==> queue == q0
      {
        i := i - 1;
        ghost var before := queue;
        drop := DropOverflow(order[i], drop);
        TrimNext(q0, before, queue, order, i);
      }
      if i < |order| {
        TrimmedLatest(q0, queue, locals, old(beats), order, i);
      }
      if drop > 0 {
        OnlyLocals(q0, queue, locals, old(beats), order);
      }
    }

    // ---------- adding ----------

    /** Removes transactions that were already taken out of the price heap. */
    method RemoveDropped(drop: seq<Tx>)
      requires config.Sanitized() && Consistent(pending, queue, all)
      requires priced.Tracks(all - Elements(drop), 0) && OnceIfOver(priced.items, locals, all, config.Limit())
      modifies this`pending, this`queue, this`all, this`noncer, this`beats, priced
      ensures Valid() && all == old(all) - Elements(drop) && Part(priced.items, old(priced.items))
      ensures old(Ready()) ==> Ready()
    {
      ghost var owed, start := Elements(drop), all;
      assert drop[..0] == [];
      for i := 0 to |drop|
        invariant Consistent(pending, queue, all) && priced.Tracks(all - owed, 0)
        invariant all == start - Elements(drop[..i]) && Part(priced.items, old(priced.items))
        invariant old(Ready()) ==> Ready()
      {
        DroppedNext(drop, i, start);
        RemoveTx(drop[i], false, owed);
      }
      assert drop[..|drop|] == drop;
      assert all - owed == all;
      OnceStays(old(priced.items), locals, old(all), config.Limit(), priced.items, locals, all);
    }

    /** Brings a full pool below its limit, the cheapest remote transactions first, or down to the local ones. */
    method DropCheapest() returns (ghost drop: seq<Tx>)
      requires Valid() && config.Limit() <= |all|
      modifies this`pending, this`queue, this`all, this`noncer, this`beats, priced
      ensures Valid() && all == old(all) - Elements(drop)
      ensures CheapestGone(old(all), all, drop, locals) && NoTwice(drop)
      ensures MadeRoom(old(all), all, locals, config.Limit())
      ensures |all| < config.Limit() || forall t :: t in priced.items ==> t in all
      ensures old(Ready()) ==> Ready()
    {
      var count := |all| - (config.Limit() - 1);
      var dropped;
      ghost var popped, rest;
      dropped, popped, rest := priced.Discard(count, locals, all);
      drop := dropped;
      Discarded(old(priced.items), priced.items, locals, all, config.Limit(), count, drop, popped, rest);
      ghost var kept := priced.items;
      RemoveDropped(dropped);
      PartMembers(priced.items, kept);
    }

    /** A full pool: a remote transaction that outbids nothing is refused, otherwise the cheapest leave. */
    method MakeRoomInFull(tx: Tx, local: bool) returns (ok: bool, ghost drop: seq<Tx>)
      requires Valid() && tx !in all && config.Limit() <= |all|
      modifies this`pending, this`queue, this`all, this`noncer, this`beats, priced
      ensures Valid() && all == old(all) - Elements(drop)
      ensures ok <==> Admits(old(all), locals, config.Limit(), tx, local)
      ensures !ok ==> drop == [] && pending == old(pending) && queue == old(queue)
      ensures ok ==> Shed(old(all), drop, locals, config.Limit()) && Roomy(priced.items, locals, all, config.Limit(), tx)
      ensures old(Ready()) ==> Ready()
    {
      drop := [];
      if !local {
        var cheap := priced.Underpriced(tx, locals, all);
        OnceStays(old(priced.items), locals, all, config.Limit(), priced.items, locals, all);
        if cheap {
          assert Elements(drop) == {};
          return false, drop;
        }
      }
      drop := DropCheapest();
      RoomyLeft(priced.items, locals, all, config.Limit(), tx);
      return true, drop;
    }

    /**
     Whether the pool can take a transaction, the cheapest remote ones dropped if it is full: then it is below
     its limit afterwards, or without remote ones.
     */
    method MakeRoom(tx: Tx, local: bool) returns (ok: bool, ghost drop: seq<Tx>)
      requires Valid() && tx !in all
      modifies this`pending, this`queue, this`all, this`noncer, this`beats, priced
      ensures Valid() && all == old(all) - Elements(drop)
      ensures ok <==> Admits(old(all), locals, config.Limit(), tx, local)
      ensures !ok || |old(all)| < config.Limit() ==> drop == [] && pending == old(pending) && queue == old(queue)
      ensures ok ==> Shed(old(all), drop, locals, config.Limit())
      ensures ok ==> |all| < config.Limit() || AllLocal(all, locals)
      ensures ok ==> Roomy(priced.items, locals, all, config.Limit(), tx)
      ensures old(Ready()) ==> Ready()
    {
      if |all| < config.Limit() {
        drop := [];
        assert Elements(drop) == {};
        return true, drop;
      }
      ok, drop := MakeRoomInFull(tx, local);
    }

    /** Puts a better-paying transaction in the place of a pending one with its nonce. */
    method ReplacePending(tx: Tx) returns (ok: bool)
      requires Valid() && tx !in all && tx.signed && tx.nonce in At(pending, tx.from)
      requires Roomy(priced.items, locals, all, config.Limit(), tx)
      modifies this`pending, this`all, priced
      ensures Valid()
      ensures ok == ListOf(old(pending), tx.from, true).Accepts(tx, config.priceBump)
      ensures ok ==> pending == old(pending)[tx.from := ListOf(old(pending), tx.from, true).Added(tx)]
      ensures ok ==> all == old(all) - {At(old(pending), tx.from)[tx.nonce]} + {tx}
      ensures !ok ==> pending == old(pending) && all == old(all)
    {
      var list := ListOf(pending, tx.from, true);
      ok := list.Accepts(tx, config.priceBump);
      if ok {
        var prior := Stored(list.items, tx.nonce);
        assert AccountOk(pending, queue, all, tx.from);
        PendOne(pending, queue, all, tx);
        Record(prior, tx, 0);
        OnceAfterPut(old(priced.items), locals, old(all), config.Limit(), tx, priced.items, all);
        pending := pending[tx.from := list.Added(tx)];
      }
    }

    /**
     Validates a transaction and puts it into the queue, or in the place of a pending one
     it outbids. In a full pool it must outbid something; whatever leaves for it is remote,
     or the transaction it replaces.
     */
    method Add(tx: Tx, local: bool) returns (r: AddResult, ghost drop: seq<Tx>)
      requires Valid()
      modifies this`pending, this`queue, this`all, this`noncer, this`beats, this`locals, priced
      ensures Valid() && OnlyGains(old(all), all, old(locals), tx, r)
      ensures match Refusal(old(all), tx, local, old(locals), gasPrice, chain, singularity)
              case Some(e) => r == Rejected(e) && all == old(all) && pending == old(pending) && queue == old(queue)
              case None => AddedOrNot(old(all), all, old(locals), config, tx, local, drop, r) && r != Rejected(KnownTransaction)
      ensures locals == old(locals) || (local && r.Added? && locals == old(locals) + {tx.from})
      ensures old(Ready()) ==> Ready()
    {
      var err := Refusal(all, tx, local, locals, gasPrice, chain, singularity);
      if err.Some? {
        drop := [];
        return Rejected(err.value), drop;
      }
      r, drop := AddChecked(tx, local);
      AddedFacts(old(all), all, old(locals), config, tx, local, drop, r);
    }

    /** A valid new transaction: room is made for it, then it is put in its place. */
    method AddChecked(tx: Tx, local: bool) returns (r: AddResult, ghost drop: seq<Tx>)
      requires Valid() && tx !in all && tx.signed && !Over(chain.Balance(tx.from), chain.maxGas)(tx)
      modifies this`pending, this`queue, this`all, this`noncer, this`beats, this`locals, priced
      ensures Valid() && AddedOrNot(old(all), all, old(locals), config, tx, local, drop, r)
      ensures locals == old(locals) || (local && r.Added? && locals == old(locals) + {tx.from})
      ensures old(Ready()) ==> Ready()
    {
      var ok;
      ok, drop := MakeRoom(tx, local);
      ghost var mid := all;
      r := Rejected(Underpriced);
      if ok {
        r := Insert(tx, local);
      }
      Outcome(old(all), mid, all, old(locals), config, tx, local, drop, ok, r);
    }

    /** The transaction takes its place; at most the one it replaces leaves. */
    method Insert(tx: Tx, local: bool) returns (r: AddResult)
      requires Valid() && tx !in all && tx.signed && !Over(chain.Balance(tx.from), chain.maxGas)(tx)
      requires Roomy(priced.items, locals, all, config.Limit(), tx)
      modifies this`pending, this`queue, this`all, this`locals, priced
      ensures Valid() && Placed(old(all), all, tx, config.priceBump, r)
      ensures locals == if local && r.Added? && tx.nonce !in At(old(pending), tx.from) then old(locals) + {tx.from} else old(locals)
      ensures old(Ready()) ==> Ready()
    {
      var overlaps := tx.nonce in At(pending, tx.from);
      if overlaps {
        r := InsertPending(tx);
      } else {
        r := InsertQueued(tx, local);
      }
    }

    method InsertPending(tx: Tx) returns (r: AddResult)
      requires Valid() && tx !in all && tx.signed && !Over(chain.Balance(tx.from), chain.maxGas)(tx)
      requires tx.nonce in At(pending, tx.from) && Roomy(priced.items, locals, all, config.Limit(), tx)
      modifies this`pending, this`all, priced
      ensures Valid() && Placed(old(all), all, tx, config.priceBump, r)
      ensures old(Ready()) ==> Ready()
    {
      ghost var list := ListOf(pending, tx.from, true);
      RivalsAre(pending, queue, all, tx);
      var inserted := ReplacePending(tx);
      if inserted && old(Ready()) {
        ReplaceReady(old(pending), pending, noncer, chain, tx);
      }
      r := if inserted then Added(true) else Rejected(ReplaceUnderpriced);
      PlacedIn(old(all), all, tx, config.priceBump, list, r);
    }

    method InsertQueued(tx: Tx, local: bool) returns (r: AddResult)
      requires Valid() && tx !in all && tx.signed && tx.nonce !in At(pending, tx.from)
      requires Roomy(priced.items, locals, all, config.Limit(), tx)
      modifies this`queue, this`all, this`locals, priced
      ensures Valid() && Placed(old(all), all, tx, config.priceBump, r)
      ensures locals == if local && r.Added? then old(locals) + {tx.from} else old(locals)
      ensures old(Ready()) ==> Ready()
    {
      r := EnqueueNew(tx);
      if local && r.Added? {
        MarkLocal(tx.from);
      }
    }

    method EnqueueNew(tx: Tx) returns (r: AddResult)
      requires Valid() && tx !in all && tx.signed && tx.nonce !in At(pending, tx.from)
      requires Roomy(priced.items, locals, all, config.Limit(), tx)
      modifies this`queue, this`all, priced
      ensures Valid() && Placed(old(all), all, tx, config.priceBump, r)
    {
      ghost var list, items, was := ListOf(queue, tx.from, false), priced.items, all;
      RivalsAre(pending, queue, all, tx);
      var replaced, ok := EnqueueTx(tx, all);
      r := if ok then Added(replaced) else Rejected(ReplaceUnderpriced);
      PlacedIn(was, all, tx, config.priceBump, list, r);
      OnceAfterPut(items, locals, was, config.Limit(), tx, priced.items, all);
    }

    /** The account's transactions are not dropped for their price any more. */
    method MarkLocal(a: Address)
      requires Valid()
      modifies this`locals
      ensures Valid() && locals == old(locals) + {a}
    {
      OnceStays(priced.items, locals, all, config.Limit(), priced.items, locals + {a}, all);
      locals := locals + {a};
    }

    /** Raises or lowers the price floor, and drops the remote transactions below it. */
    method SetGasPrice(price: int)
      requires Valid()
      modifies this`pending, this`queue, this`all, this`noncer, this`beats, this`gasPrice, priced
      ensures Valid() && gasPrice == price
      ensures all == set t | t in old(all) && (t.price >= price || IsLocal(t, locals))
      ensures old(Ready()) ==> Ready()
    {
      gasPrice := price;
      var drop := priced.Cap(price, locals, all);
      OnceStays(old(priced.items), locals, all, config.Limit(), priced.items, locals, all);
      RemoveDropped(drop);
    }

    /** Drops the queues of remote accounts that have been silent for longer than `lifetime`. */
    method Evict(now: nat, lifetime: int)
      requires Valid()
      modifies this`pending, this`queue, this`all, this`noncer, this`beats, priced
      ensures Valid() && all <= old(all)
      ensures pending == old(pending) && noncer == old(noncer)
      ensures forall a :: At(queue, a) == Survivor(old(queue), locals, old(beats), now, lifetime, a)
    {
      ghost var q0 := queue;
      var times := beats;
      var todo := queue.Keys;
      while todo != {}
        invariant Valid() && all <= old(all)
        invariant pending == old(pending) && noncer == old(noncer)
        invariant Sweeping(q0, queue, locals, times, now, lifetime, todo)
        decreases |todo|
      {
        var a :| a in todo;
        ghost var before := queue;
        if a !in locals && now - Beat(times, a) > lifetime {
          var left := DropOverflow(a, |At(queue, a)|);
        }
        SweptOne(q0, before, queue, locals, times, now, lifetime, todo, a);
        todo := todo - {a};
      }
    }

    // ---------- runs ----------

    /** Adds a batch; the senders of new, not replacing transactions are dirty. */
    method AddTxsLocked(txs: seq<Tx>, local: bool) returns (results: seq<AddResult>, dirty: set<Address>)
      requires Valid()
      modifies this`pending, this`queue, this`all, this`noncer, this`beats, this`locals, priced
      ensures Valid() && Dirties(dirty, txs, results)
      ensures all <= old(all) + Elements(txs)
      ensures old(Ready()) ==> Ready()
      ensures txs == [] ==> unchanged(this)
    {
      dirty, results := {}, [];
      for i := 0 to |txs|
        invariant Valid() && Dirties(dirty, txs[..i], results)
        invariant all <= old(all) + Elements(txs)
        invariant old(Ready()) ==> Ready()
        invariant i == 0 ==> unchanged(this)
      {
        var r;
        ghost var drop;
        r, drop := Add(txs[i], local);
        OneMoreDirty(dirty, txs, i, results, r);
        results := results + [r];
        if r.Added? && !r.replaced {
          dirty := dirty + {txs[i].from};
        }
      }
      assert txs[..|txs|] == txs;
    }

    /** Moves the pool to a new head: the new state, pending nonces from scratch, and the reinjection. */
    method ResetTo(r: Reset)
      requires Valid()
      modifies this
      modifies priced
      ensures Valid()
      ensures chain == if r.Applied? then r.chain else old(chain)
      ensures Extends(r, old(chain)) ==> pending == old(pending) && queue == old(queue) && all == old(all)
      ensures Extends(r, old(chain)) ==> noncer == if r.Applied? then map[] else old(noncer)
      ensures old(Ready()) && Extends(r, old(chain)) ==> AllSettling(pending, noncer, chain)
    {
      ghost var good := Ready() && Extends(r, chain);
      if r.Skipped? {
        if good {
          SteadySettles(pending, noncer, chain);
        }
        return;
      }
      if good {
        ResetSettles(pending, noncer, chain, r.chain);
      }
      chain, noncer := r.chain, map[];
      assert good ==> AllSettling(pending, noncer, chain);
      var results, dirty := AddTxsLocked(r.reinject, false);
      singularity := r.singularity;
    }

    /** Sets one account's pending nonce to one past its last pending transaction, which always exists. */
    method UpdateNonce(a: Address, ghost todo: set<Address>)
      requires Consistent(pending, queue, all) && a in pending && a !in todo
      modifies this`noncer
      ensures At(pending, a).Keys != {} && noncer == old(noncer)[a := MaxKey(At(pending, a).Keys) + 1]
      ensures Settled(pending, old(noncer), chain, a)
              && (forall x :: x in todo ==> Settled(pending, old(noncer), chain, x))
              && (forall x :: x !in todo && x != a ==> Executable(pending, old(noncer), chain, x))
              ==> (forall x :: x in todo ==> Settled(pending, noncer, chain, x))
                  && (forall x :: x !in todo ==> Executable(pending, noncer, chain, x))
    {
      assert AccountOk(pending, queue, all, a);
      var txs := InOrder(pending[a].items);
      ListsSize(txs, pending[a].items);
      LastIsMax(txs, pending[a].items);
      noncer := noncer[a := txs[|txs| - 1].nonce + 1];
      if Settled(pending, old(noncer), chain, a)
         && (forall x :: x in todo ==> Settled(pending, old(noncer), chain, x))
         && (forall x :: x !in todo && x != a ==> Executable(pending, old(noncer), chain, x)) {
        LastExecutable(pending, old(noncer), chain, a, txs);
        OneExecutable(pending, old(noncer), noncer, chain, a, todo);
      }
    }

    /** Brings all pending nonces up to date; settled lists are executable after it. */
    method UpdateNonces()
      requires Valid()
      modifies this`noncer
      ensures forall a :: a in pending ==> At(pending, a).Keys != {} && PendingNonce(noncer, chain, a) == MaxKey(At(pending, a).Keys) + 1
      ensures forall a :: a !in pending ==> PendingNonce(noncer, chain, a) == PendingNonce(old(noncer), chain, a)
      ensures AllSettled(pending, old(noncer), chain) ==> Ready()
    {
      var todo := pending.Keys;
      ghost var settled := AllSettled(pending, noncer, chain);
      if settled {
        forall a | a !in todo ensures Executable(pending, noncer, chain, a) {
          assert Settled(pending, noncer, chain, a);
        }
      }
      while todo != {}
        invariant todo <= pending.Keys
        invariant forall a :: a in pending && a !in todo ==>
                    At(pending, a).Keys != {} && PendingNonce(noncer, chain, a) == MaxKey(At(pending, a).Keys) + 1
        invariant forall a :: a !in pending ==> PendingNonce(noncer, chain, a) == PendingNonce(old(noncer), chain, a)
        invariant settled ==> forall a :: a in todo ==> Settled(pending, noncer, chain, a)
        invariant settled ==> forall a :: a !in todo ==> Executable(pending, noncer, chain, a)
        decreases |todo|
      {
        var a :| a in todo;
        todo := todo - {a};
        UpdateNonce(a, todo);
      }
    }

    /** The first half of a run without a new head: promotions only. */
    method PromoteDirty(dirty: seq<Address>, now: nat)
      requires Valid()
      modifies this`pending, this`queue, this`all, this`noncer, this`beats, priced
      ensures Valid()
      ensures old(Ready()) ==> AllSettled(pending, noncer, chain) && forall a :: a in dirty ==> !Overdue(pending, queue, chain, a)
    {
      var promoted := PromoteExecutables(dirty, now);
      if Ready() {
        SteadySettles(pending, noncer, chain);
        forall a | a in dirty ensures !Overdue(pending, queue, chain, a) {
          assert Drained(queue, noncer, chain, a) && Executable(pending, noncer, chain, a);
          OverdueNonce(pending, queue, noncer, chain, a);
        }
      }
    }

    /** Promotes what is ready in all queued accounts. */
    method PromoteAll(now: nat) returns (ghost accounts: seq<Address>)
      requires Valid()
      modifies this`pending, this`queue, this`all, this`noncer, this`beats, priced
      ensures Valid() && AllDifferent(accounts) && (forall a :: a in accounts <==> a in old(queue))
      ensures Batched(old(pending), old(queue), old(noncer), pending, queue, noncer, chain, locals, config.accountQueue, accounts)
      ensures forall a :: PendingNonce(noncer, chain, a) !in At(queue, a)
      ensures old(Ready()) ==> Ready()
      ensures old(AllSettling(pending, noncer, chain)) ==> AllSettling(pending, noncer, chain)
    {
      ghost var keys, p, q, n := queue.Keys, pending, queue, noncer;
      var addrs := SortedMap.KeyList(queue.Keys);
      accounts := addrs;
      KeysListed(addrs, keys);
      var promoted := PromoteExecutables(addrs, now);
      AllDrained(p, q, n, pending, queue, noncer, chain, locals, config.accountQueue, addrs);
    }

    /** The first half of a run with a new head: the reset, promotions and demotions. */
    method FollowHead(r: Reset, now: nat) returns (gaps: nat)
      requires Valid()
      modifies this, priced
      ensures Valid()
      ensures chain == if r.Applied? then r.chain else old(chain)
      ensures forall a :: Fronted(pending, chain, a)
      ensures old(Ready()) && Extends(r, old(chain)) ==>
        && AllSettled(pending, noncer, chain) && gaps == 0
        && CaughtExactly(r, old(pending), old(queue), old(noncer), old(chain), pending, queue, chain)
    {
      ghost var p0, q0, n0, c0, live0, good := pending, queue, noncer, chain, all, Ready() && Extends(r, chain);
      ResetTo(r);
      ghost var accounts := PromoteAll(now);
      ghost var p1, q1, n1, live1, set1 := pending, queue, noncer, all, locals;
      gaps := DemoteUnexecutables();
      if good {
        match r
        case Skipped =>
          CaughtUp(p1, q1, n1, pending, queue, chain, live1);
        case Applied(_, _, _) =>
          AllOverdueExactly(p0, q0, n0, c0, p1, q1, n1, pending, queue, chain, set1, config.accountQueue, accounts, live0, live1);
      }
    }

    /** The limit on pending transactions, as far as a run needs it. */
    method LimitPending()
      requires Valid()
      modifies this`pending, this`all, this`noncer, priced
      ensures Valid() && Fits(pending, locals, config.accountSlots, config.globalSlots)
      ensures (forall a :: Fronted(old(pending), chain, a)) ==> forall a :: Fronted(pending, chain, a)
      ensures old(AllSettled(pending, noncer, chain)) ==> AllSettled(pending, noncer, chain)
      ensures FewerOverdue(old(pending), queue, pending, queue, chain)
    {
      ghost var p, live := pending, all;
      ghost var level := TruncatePending();
      LeveledParts(p, pending, locals, level, config.globalSlots);
      FewerByParts(p, queue, pending, queue, chain, live);
    }

    /** The limit on queued transactions, as far as a run needs it. */
    method LimitQueue()
      requires Valid()
      modifies this`pending, this`queue, this`all, this`noncer, this`beats, priced
      ensures Valid() && Fits(queue, locals, 0, config.globalQueue)
      ensures pending == old(pending) && noncer == old(noncer)
      ensures FewerOverdue(pending, old(queue), pending, queue, chain)
    {
      ghost var q, live := queue, all;
      TruncateQueue();
      FewerByParts(pending, q, pending, queue, chain, live);
    }

    /** Both limits. */
    method Truncate()
      requires Valid()
      modifies this`pending, this`queue, this`all, this`noncer, this`beats, priced
      ensures Valid()
      ensures Fits(pending, locals, config.accountSlots, config.globalSlots) && Fits(queue, locals, 0, config.globalQueue)
      ensures (forall a :: Fronted(old(pending), chain, a)) ==> forall a :: Fronted(pending, chain, a)
      ensures old(AllSettled(pending, noncer, chain)) ==> AllSettled(pending, noncer, chain)
      ensures FewerOverdue(old(pending), old(queue), pending, queue, chain)
    {
      LimitPending();
      LimitQueue();
    }

    /** The first half of a run. */
    method Refresh(reset: Option<Reset>, dirty: seq<Address>, now: nat) returns (gaps: nat)
      requires Valid()
      modifies this, priced
      ensures Valid()
      ensures chain == if reset.Some? && reset.value.Applied? then reset.value.chain else old(chain)
      ensures reset.Some? ==> forall a :: Fronted(pending, chain, a)
      ensures old(Ready()) && (reset.Some? ==> Extends(reset.value, old(chain))) ==>
        && AllSettled(pending, noncer, chain) && gaps == 0
        && Caught(reset, dirty, old(pending), old(queue), old(noncer), old(chain), pending, queue, chain)
    {
      match reset
      case None =>
        gaps := 0;
        PromoteDirty(dirty, now);
      case Some(r) =>
        gaps := FollowHead(r, now);
    }

    /**
     One run of the background reorganization. When the head extends the previous one, all
     pending lists are executable again at its end, and no list had a gap in front.
     */
    method RunReorg(reset: Option<Reset>, dirty: seq<Address>, now: nat) returns (gaps: nat)
      requires Valid()
      modifies this, priced
      ensures Valid()
      ensures chain == if reset.Some? && reset.value.Applied? then reset.value.chain else old(chain)
      ensures Fits(pending, locals, config.accountSlots, config.globalSlots) && Fits(queue, locals, 0, config.globalQueue)
      ensures forall a :: a in pending ==> At(pending, a).Keys != {} && PendingNonce(noncer, chain, a) == MaxKey(At(pending, a).Keys) + 1
      ensures reset.Some? ==> forall a :: Fronted(pending, chain, a)
      ensures old(Ready()) && (reset.Some? ==> Extends(reset.value, old(chain))) ==>
        && Ready() && gaps == 0
        && Caught(reset, dirty, old(pending), old(queue), old(noncer), old(chain), pending, queue, chain)
    {
      ghost var p0, q0, n0, c0 := pending, queue, noncer, chain;
      ghost var good := Ready() && (reset.Some? ==> Extends(reset.value, chain));
      gaps := Refresh(reset, dirty, now);
      ghost var p1, q1 := pending, queue;
      Truncate();
      if good {
        StillCaught(reset, dirty, p0, q0, n0, c0, p1, q1, pending, queue, chain);
      }
      UpdateNonces();
    }

    /**
     Any sequence of events: the five views agree after each of them; and as long as every
     new head extends the one before it, all pending lists are executable.
     */
    method Run(events: seq<Event>) returns (gaps: nat)
      requires Valid()
      modifies this, priced
      ensures Valid()
      ensures old(Ready()) && Extending(events, old(chain)) ==> Ready() && gaps == 0
    {
      gaps := 0;
      ghost var good := Ready() && Extending(events, chain);
      for i := 0 to |events|
        invariant Valid()
        invariant good ==> Ready() && Extending(events[i..], chain) && gaps == 0
      {
        assert events[i..][1..] == events[i + 1..];
        var more := Step(events[i], good);
        gaps := gaps + more;
      }
    }

    method Step(e: Event, ghost good: bool) returns (gaps: nat)
      requires Valid()
      requires good ==> Ready() && (e.Reorg? && e.reset.Some? ==> Extends(e.reset.value, chain))
      modifies this, priced
      ensures Valid()
      ensures good ==> Ready() && gaps == 0
      ensures chain == if e.Reorg? && e.reset.Some? && e.reset.value.Applied? then e.reset.value.chain else old(chain)
    {
      gaps := 0;
      match e
      case AddTxs(txs, local) =>
        var results, dirty := AddTxsLocked(txs, local);
      case Reorg(reset, dirty, now) =>
        gaps := RunReorg(reset, dirty, now);
      case EvictTick(now, lifetime) =>
        Evict(now, lifetime);
      case SetPrice(price) =>
        SetGasPrice(price);
    }
  }

  /** What eviction leaves of an account's queue. */
  ghost function Survivor(q: Book, locals: set<Address>, beats: map<Address, nat>, now: nat, lifetime: int, a: Address): Items {
    if a !in locals && now - Beat(beats, a) > lifetime then map[] else At(q, a)
  }

  /** Part-way through an eviction: the queues seen are as they end up, the others as they were. */
  ghost predicate Sweeping(q0: Book, q: Book, locals: set<Address>, beats: map<Address, nat>, now: nat, lifetime: int, todo: set<Address>) {
    forall a :: At(q, a) == if a in todo then At(q0, a) else Survivor(q0, locals, beats, now, lifetime, a)
  }

  lemma SweptOne(q0: Book, before: Book, after: Book, locals: set<Address>, beats: map<Address, nat>, now: nat, lifetime: int,
                 todo: set<Address>, a: Address)
    requires Sweeping(q0, before, locals, beats, now, lifetime, todo) && a in todo && SameBut(after, before, a)
    requires At(after, a) == if a !in locals && now - Beat(beats, a) > lifetime then map[] else At(before, a)
    ensures Sweeping(q0, after, locals, beats, now, lifetime, todo - {a})
  {
    assert At(before, a) == At(q0, a);
    forall x ensures At(after, x) == if x in todo - {a} then At(q0, x) else Survivor(q0, locals, beats, now, lifetime, x) {
      if x != a {
        assert At(after, x) == At(before, x);
      }
    }
  }
}
