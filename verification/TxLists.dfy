/**
 An account's transaction list: a nonce map with upper bounds on cost and gas that let
 `Filter` skip its scan. `AccountList` is the list as a value; `TxList` is the mutable
 object, proved to follow it.
 */
module TxLists {
  import opened Transactions
  import opened NonceMaps
  import opened SortedMap

  /** Costs more than the balance or needs more gas than a block has. */
  function Over(costLimit: int, gasLimit: nat): (p: Tx -> bool) {
    (t: Tx) => t.Cost() > costLimit || t.gas > gasLimit
  }

  /** The price a replacement must reach: the old one plus `bump` percent, rounded down. */
  function BumpedPrice(price: int, bump: nat): (p: int) {
    price * (100 + bump) / 100
  }

  /** What a filter keeps: in strict mode nothing above the lowest transaction over the limit. */
  function KeptBy(m: Items, strict: bool, over: Tx -> bool): (r: Items) {
    var gone, kept := Where(m, over), Except(m, over);
    if strict && gone != map[] then Below(kept, MinKey(gone.Keys) + 1) else kept
  }

  /** What a filter of a strict list takes out though it is not over the limit. */
  function StrandedBy(m: Items, strict: bool, over: Tx -> bool): (r: Items) {
    var gone, kept := Where(m, over), Except(m, over);
    if strict && gone != map[] then From(kept, MinKey(gone.Keys) + 1) else map[]
  }

  /** An account's list as a value: its transactions by nonce, and upper bounds on what they cost and need. */
  datatype AccountList = AccountList(strict: bool, items: Items, costcap: int, gascap: nat) {

    /** The caps really are upper bounds. */
    ghost predicate Ok() {
      && Keyed(items)
      && (forall n :: n in items ==> items[n].Cost() <= costcap && items[n].gas <= gascap)
    }

    predicate Overlaps(tx: Tx) {
      tx.nonce in items
    }

    /** Whether `Add` takes the transaction: a replacement must pay strictly more, and the bump. */
    predicate Accepts(tx: Tx, bump: nat) {
      tx.nonce in items ==>
        && items[tx.nonce].price < tx.price
        && BumpedPrice(items[tx.nonce].price, bump) <= tx.price
    }

    function Added(tx: Tx): (l: AccountList) {
      AccountList(strict, items[tx.nonce := tx],
                  if costcap < tx.Cost() then tx.Cost() else costcap,
                  if gascap < tx.gas then tx.gas else gascap)
    }

    function Forwarded(threshold: nat): (l: AccountList) {
      this.(items := From(items, threshold))
    }

    function Capped(k: nat): (l: AccountList) {
      this.(items := KeepLowest(items, k))
    }

    function Filtered(costLimit: int, gasLimit: nat): (l: AccountList) {
      if costcap <= costLimit && gascap <= gasLimit then this
      else AccountList(strict, KeptBy(items, strict, Over(costLimit, gasLimit)), costLimit, gasLimit)
    }

    /** What `Filter` returns first: the transactions over a limit. */
    function Unpayable(costLimit: int, gasLimit: nat): (r: Items) {
      if costcap <= costLimit && gascap <= gasLimit then map[] else Where(items, Over(costLimit, gasLimit))
    }

    /** What `Filter` returns second: in strict mode, what the removals left without a predecessor. */
    function Invalidated(costLimit: int, gasLimit: nat): (r: Items) {
      if costcap <= costLimit && gascap <= gasLimit then map[] else StrandedBy(items, strict, Over(costLimit, gasLimit))
    }

    /** `Remove` of a stored nonce: in strict mode everything above it goes too. */
    function Without(nonce: nat): (l: AccountList) {
      this.(items := if strict then Below(items - {nonce}, nonce + 1) else items - {nonce})
    }

    function Orphans(nonce: nat): (r: Items) {
      if strict then From(items - {nonce}, nonce + 1) else map[]
    }

    function AfterReady(start: nat): (l: AccountList) {
      this.(items := From(items, ReadyEnd(items, start)))
    }

    function ReadyRun(start: nat): (r: Items) {
      Below(items, ReadyEnd(items, start))
    }
  }

  function NewList(strict: bool): (l: AccountList) {
    AccountList(strict, map[], 0, 0)
  }

  // ---------- the caps ----------

  /** Every operation keeps the caps upper bounds, so they are so in all reachable lists. */
  lemma CapsKept(l: AccountList, tx: Tx, k: nat, costLimit: int, gasLimit: nat)
    requires l.Ok()
    ensures l.Added(tx).Ok() && l.Forwarded(k).Ok() && l.Capped(k).Ok()
    ensures l.Filtered(costLimit, gasLimit).Ok() && l.Without(k).Ok() && l.AfterReady(k).Ok()
  {
    AddedOk(l, tx);
    FilteredOk(l, costLimit, gasLimit);
  }

  lemma AddedOk(l: AccountList, tx: Tx)
    requires l.Ok()
    ensures l.Added(tx).Ok()
  {
  }

  lemma FilteredOk(l: AccountList, costLimit: int, gasLimit: nat)
    requires l.Ok()
    ensures l.Filtered(costLimit, gasLimit).Ok()
  {
    var p := Over(costLimit, gasLimit);
    assert forall n :: n in Except(l.items, p) ==> !p(l.items[n]);
  }

  /** Filtering without the short cut. */
  ghost function ScanAll(l: AccountList, costLimit: int, gasLimit: nat): AccountList {
    AccountList(l.strict, l.items, costLimit + 1, gasLimit + 1).Filtered(costLimit, gasLimit)
  }

  /**
   With the caps right, the short cut changes nothing: the same transactions stay, the same
   are over the limits, the same are invalidated as in a scan of the whole list.
   */
  lemma FilterShortcut(l: AccountList, costLimit: int, gasLimit: nat)
    requires l.Ok()
    ensures l.Filtered(costLimit, gasLimit).items == ScanAll(l, costLimit, gasLimit).items
    ensures l.Unpayable(costLimit, gasLimit) == Where(l.items, Over(costLimit, gasLimit))
    ensures l.Invalidated(costLimit, gasLimit) == StrandedBy(l.items, l.strict, Over(costLimit, gasLimit))
  {
    var p := Over(costLimit, gasLimit);
    if l.costcap <= costLimit && l.gascap <= gasLimit {
      assert forall n :: n in l.items ==> !p(l.items[n]);
      assert Where(l.items, p) == map[];
      assert Except(l.items, p) == l.items;
    }
  }

  ghost predicate SubMap(a: Items, m: Items) {
    a.Keys <= m.Keys && forall n :: n in a ==> a[n] == m[n]
  }

  /** `m` is split into three parts with nothing in common. */
  ghost predicate Parts3(m: Items, a: Items, b: Items, c: Items) {
    && SubMap(a, m) && SubMap(b, m) && SubMap(c, m)
    && a.Keys !! b.Keys && a.Keys !! c.Keys && b.Keys !! c.Keys
    && forall n :: n in m ==> n in a || n in b || n in c
  }

  ghost predicate Partition3(m: Items, a: Items, b: Items, c: Items) {
    Parts3(m, a, b, c) && |m| == |a| + |b| + |c|
  }

  lemma PartitionSize(m: Items, a: Items, b: Items, c: Items)
    requires Parts3(m, a, b, c)
    ensures Partition3(m, a, b, c)
  {
    assert m.Keys == a.Keys + b.Keys + c.Keys;
    assert |m.Keys| == |a.Keys| + |b.Keys| + |c.Keys|;
  }

  /** Kept, removed and invalidated transactions are disjoint and make up the whole list. */
  lemma FilterPartition(l: AccountList, costLimit: int, gasLimit: nat)
    requires l.Ok()
    ensures Partition3(l.items, l.Filtered(costLimit, gasLimit).items,
                       l.Unpayable(costLimit, gasLimit), l.Invalidated(costLimit, gasLimit))
  {
    PartitionSize(l.items, l.Filtered(costLimit, gasLimit).items,
                  l.Unpayable(costLimit, gasLimit), l.Invalidated(costLimit, gasLimit));
  }

  // ---------- strict lists ----------

  /** The nonces are exactly the interval [lo, hi). */
  ghost predicate Spans(m: Items, lo: nat, hi: nat) {
    lo <= hi && forall n: nat :: n in m <==> lo <= n < hi
  }

  /**
   On a contiguous strict list, `Filter` leaves exactly the nonces before the first
   transaction over a limit, and everything from there on is returned.
   */
  lemma StrictFilter(l: AccountList, lo: nat, hi: nat, costLimit: int, gasLimit: nat) returns (cut: nat)
    requires l.Ok() && l.strict && Spans(l.items, lo, hi)
    ensures lo <= cut <= hi
    ensures Spans(l.Filtered(costLimit, gasLimit).items, lo, cut)
    ensures forall n :: lo <= n < cut ==> !Over(costLimit, gasLimit)(l.items[n])
    ensures cut < hi ==> Over(costLimit, gasLimit)(l.items[cut])
    ensures Spans(l.Unpayable(costLimit, gasLimit) + l.Invalidated(costLimit, gasLimit), cut, hi)
  {
    FilterShortcut(l, costLimit, gasLimit);
    cut := StrictCut(l.items, lo, hi, Over(costLimit, gasLimit));
  }

  lemma StrictCut(m: Items, lo: nat, hi: nat, over: Tx -> bool) returns (cut: nat)
    requires Spans(m, lo, hi)
    ensures lo <= cut <= hi && Spans(KeptBy(m, true, over), lo, cut)
    ensures forall n :: lo <= n < cut ==> !over(m[n])
    ensures cut < hi ==> over(m[cut])
    ensures Spans(Where(m, over) + StrandedBy(m, true, over), cut, hi)
  {
    var removed := Where(m, over);
    cut := if removed == map[] then hi else MinKey(removed.Keys);
    assert forall n :: n in m && over(m[n]) ==> n in removed.Keys;
    assert removed != map[] ==> cut in removed;
  }

  lemma StrictRemove(l: AccountList, lo: nat, hi: nat, nonce: nat)
    requires l.strict && Spans(l.items, lo, hi) && nonce in l.items
    ensures Spans(l.Without(nonce).items, lo, nonce)
    ensures Spans(l.Orphans(nonce), nonce + 1, hi)
  {
  }

  ghost function Interval(lo: nat, hi: nat): (s: set<nat>)
    requires lo <= hi
    ensures forall n: nat :: n in s <==> lo <= n < hi
    ensures |s| == hi - lo
    decreases hi
  {
    if lo == hi then {} else Interval(lo, hi - 1) + {hi - 1}
  }

  lemma SpanSize(m: Items, lo: nat, hi: nat)
    requires Spans(m, lo, hi)
    ensures |m| == hi - lo
  {
    assert m.Keys == Interval(lo, hi);
  }

  lemma StrictCap(l: AccountList, lo: nat, hi: nat, k: nat)
    requires Spans(l.items, lo, hi)
    ensures Spans(l.Capped(k).items, lo, if lo + k < hi then lo + k else hi)
    ensures Spans(DropLowest(l.items, k), if lo + k < hi then lo + k else hi, hi)
  {
    SpanSize(l.items, lo, hi);
    if lo + k < hi {
      LowestKeysUnique(l.items.Keys, k, Interval(lo, lo + k));
    }
  }

  // ---------- the object ----------

  class TxList {
    const strict: bool
    const txs: TxSortedMap
    var costcap: int
    var gascap: nat

    ghost function Abs(): AccountList
      reads this, txs
    {
      AccountList(strict, txs.items, costcap, gascap)
    }

    ghost predicate Valid()
      reads this, txs
    {
      txs.Valid() && Abs().Ok()
    }

    constructor (strict: bool)
      ensures Valid() && fresh(txs)
      ensures Abs() == NewList(strict)
    {
      this.strict := strict;
      txs := new TxSortedMap();
      costcap, gascap := 0, 0;
    }

    method Overlaps(tx: Tx) returns (b: bool)
      requires Valid()
      ensures b == Abs().Overlaps(tx)
    {
      var found := txs.Get(tx.nonce);
      b := found.Some?;
    }

    method Add(tx: Tx, priceBump: nat) returns (inserted: bool, replaced: Option<Tx>)
      requires Valid()
      modifies this, txs
      ensures Valid()
      ensures inserted == old(Abs()).Accepts(tx, priceBump)
      ensures Abs() == if inserted then old(Abs()).Added(tx) else old(Abs())
      ensures replaced == if inserted && tx.nonce in old(txs.items) then Some(old(txs.items)[tx.nonce]) else None
    {
      CapsKept(Abs(), tx, 0, 0, 0);
      var previous := txs.Get(tx.nonce);
      if previous.Some? {
        var threshold := BumpedPrice(previous.value.price, priceBump);
        if previous.value.price >= tx.price || threshold > tx.price {
          return false, None;
        }
      }
      txs.Put(tx);
      if costcap < tx.Cost() {
        costcap := tx.Cost();
      }
      if gascap < tx.gas {
        gascap := tx.gas;
      }
      return true, previous;
    }

    method Forward(threshold: nat) returns (removed: seq<Tx>)
      requires Valid()
      modifies txs
      ensures Valid()
      ensures Abs() == old(Abs()).Forwarded(threshold)
      ensures Flat(removed, Below(old(txs.items), threshold))
    {
      removed := txs.Forward(threshold);
    }

    /** Takes out everything above a nonce. */
    method FilterAbove(nonce: nat) returns (invalids: seq<Tx>)
      requires txs.Valid()
      modifies txs
      ensures txs.Valid() && txs.items == Below(old(txs.items), nonce + 1)
      ensures Lists(invalids, From(old(txs.items), nonce + 1))
    {
      ghost var kept := txs.items;
      invalids := txs.Filter((t: Tx) => t.nonce > nonce);
      AboveNonce(kept, nonce);
    }

    /** Takes out what is over a limit and, in strict mode, everything above the lowest of that. */
    method FilterItems(over: Tx -> bool) returns (removed: seq<Tx>, invalids: seq<Tx>)
      requires txs.Valid()
      modifies txs
      ensures txs.Valid() && txs.items == KeptBy(old(txs.items), strict, over)
      ensures Lists(removed, Where(old(txs.items), over))
      ensures Lists(invalids, StrandedBy(old(txs.items), strict, over))
    {
      ghost var gone := Where(txs.items, over);
      removed := txs.Filter(over);
      invalids := [];
      NothingListed(removed, gone);
      if strict && |removed| > 0 {
        var lowest := LowestNonce(removed);
        LowestRemoved(gone, removed, lowest);
        invalids := FilterAbove(lowest);
      }
    }

    method Filter(costLimit: int, gasLimit: nat) returns (removed: seq<Tx>, invalids: seq<Tx>)
      requires Valid()
      modifies this, txs
      ensures Valid()
      ensures Abs() == old(Abs()).Filtered(costLimit, gasLimit)
      ensures Lists(removed, old(Abs()).Unpayable(costLimit, gasLimit))
      ensures Lists(invalids, old(Abs()).Invalidated(costLimit, gasLimit))
    {
      removed, invalids := [], [];
      if costcap <= costLimit && gascap <= gasLimit {
        return;
      }
      FilteredOk(Abs(), costLimit, gasLimit);
      costcap, gascap := costLimit, gasLimit;
      removed, invalids := FilterItems(Over(costLimit, gasLimit));
    }

    method Cap(threshold: nat) returns (drops: seq<Tx>)
      requires Valid()
      modifies txs
      ensures Valid()
      ensures Abs() == old(Abs()).Capped(threshold)
      ensures Covers(drops, DropLowest(old(txs.items), threshold)) && Decreasing(drops)
    {
      drops := txs.Cap(threshold);
    }

    method Remove(tx: Tx) returns (found: bool, invalids: seq<Tx>)
      requires Valid()
      modifies txs
      ensures Valid()
      ensures found == old(Abs()).Overlaps(tx)
      ensures Abs() == if found then old(Abs()).Without(tx.nonce) else old(Abs())
      ensures Lists(invalids, if found then old(Abs()).Orphans(tx.nonce) else map[])
    {
      found, invalids := RemoveItem(tx.nonce);
      assert !found ==> txs.items == old(txs.items);
    }

    /** Takes out a nonce and, in strict mode, everything above it. */
    method RemoveItem(nonce: nat) returns (found: bool, invalids: seq<Tx>)
      requires txs.Valid()
      modifies txs
      ensures txs.Valid() && found == (nonce in old(txs.items))
      ensures var rest := old(txs.items) - {nonce};
        && txs.items == (if found && strict then Below(rest, nonce + 1) else rest)
        && Lists(invalids, if found && strict then From(rest, nonce + 1) else map[])
    {
      found := txs.Remove(nonce);
      invalids := [];
      if found && strict {
        invalids := FilterAbove(nonce);
      }
    }

    method Ready(start: nat) returns (ready: seq<Tx>)
      requires Valid()
      modifies txs
      ensures Valid()
      ensures Abs() == old(Abs()).AfterReady(start)
      ensures Flat(ready, old(Abs()).ReadyRun(start))
    {
      ready := txs.Ready(start);
    }
  }

  /** The least nonce among removed transactions, found by a scan. */
  method LowestNonce(txs: seq<Tx>) returns (lowest: nat)
    requires txs != []
    ensures exists i :: 0 <= i < |txs| && txs[i].nonce == lowest
    ensures forall i :: 0 <= i < |txs| ==> lowest <= txs[i].nonce
  {
    lowest := txs[0].nonce;
    for i := 1 to |txs|
      invariant exists j :: 0 <= j < |txs| && txs[j].nonce == lowest
      invariant forall j :: 0 <= j < i ==> lowest <= txs[j].nonce
    {
      if lowest > txs[i].nonce {
        lowest := txs[i].nonce;
      }
    }
  }

  lemma LowestRemoved(m: Items, txs: seq<Tx>, lowest: nat)
    requires Keyed(m) && Lists(txs, m)
    requires exists i :: 0 <= i < |txs| && txs[i].nonce == lowest
    requires forall i :: 0 <= i < |txs| ==> lowest <= txs[i].nonce
    ensures m != map[] && lowest == MinKey(m.Keys)
  {
    var i :| 0 <= i < |txs| && txs[i].nonce == lowest;
    assert txs[i] in txs;
    forall n | n in m ensures lowest <= n {
      assert m[n] in txs;
    }
    assert MinKey(m.Keys) in m;
  }

  lemma AboveNonce(m: Items, n: nat)
    requires Keyed(m)
    ensures Except(m, (t: Tx) => t.nonce > n) == Below(m, n + 1)
    ensures Where(m, (t: Tx) => t.nonce > n) == From(m, n + 1)
  {
  }

  lemma NothingListed(txs: seq<Tx>, m: Items)
    requires Keyed(m) && Lists(txs, m)
    ensures |txs| == 0 <==> m == map[]
  {
    ListsSize(txs, m);
  }
}
