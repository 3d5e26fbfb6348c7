/**
 The nonce-indexed transaction map with its heap index and its lazily built sorted cache.
 Every operation is proved against the plain map operations of `NonceMaps`.
 */
module SortedMap {
  import opened Transactions
  import opened NonceMaps
  import opened Orders

  predicate NonceLe(a: nat, b: nat) {
    a <= b
  }

  predicate TxNonceLe(a: Tx, b: Tx) {
    a.nonce <= b.nonce
  }

  /** `index` is a heap holding each nonce of `m` exactly once. */
  ghost predicate Indexes(index: seq<nat>, m: Items) {
    multiset(index) == multiset(m.Keys) && FrontLeast(index, NonceLe)
  }

  /** The front of the heap is the least nonce. */
  lemma IndexFront(index: seq<nat>, m: Items)
    requires Indexes(index, m)
    ensures |index| == |m|
    ensures forall n :: n in index <==> n in m
    ensures index != [] ==> index[0] in m && forall n :: n in m ==> index[0] <= n
  {
    assert |multiset(index)| == |index|;
    assert |multiset(m.Keys)| == |m.Keys|;
    assert forall n :: n in index <==> n in multiset(index);
    if index != [] {
      assert index[0] in index;
    }
  }

  /** Taking a nonce out of the heap goes with taking it out of the map. */
  lemma IndexRemove(before: seq<nat>, index: seq<nat>, m: Items, n: nat)
    requires Indexes(before, m) && FrontLeast(index, NonceLe)
    requires multiset(before) == multiset(index) + multiset{n}
    ensures Indexes(index, m - {n})
  {
    assert (m - {n}).Keys == m.Keys - {n};
    assert multiset(index) == multiset(before) - multiset{n};
    assert multiset(m.Keys - {n}) == multiset(m.Keys) - multiset{n};
  }

  lemma IndexAdd(before: seq<nat>, index: seq<nat>, m: Items, tx: Tx)
    requires Indexes(before, m) && FrontLeast(index, NonceLe)
    requires tx.nonce !in m
    requires multiset(index) == multiset(before) + multiset{tx.nonce}
    ensures Indexes(index, m[tx.nonce := tx])
  {
    assert (m[tx.nonce := tx]).Keys == m.Keys + {tx.nonce};
  }

  /** An arrangement of a set has no duplicates. */
  lemma NoDuplicates(index: seq<nat>, s: set<nat>)
    requires multiset(index) == multiset(s)
    ensures forall i, j :: 0 <= i < j < |index| ==> index[i] != index[j]
  {
    forall i, j | 0 <= i < j < |index| ensures index[i] != index[j] {
      assert index == index[..i] + [index[i]] + index[i + 1..j] + [index[j]] + index[j + 1..];
      assert multiset(s)[index[i]] <= 1;
    }
  }

  /** Appending a transaction under a new nonce to a listing. */
  lemma ListsSnoc(txs: seq<Tx>, m: Items, t: Tx)
    requires Covers(txs, m) && t.nonce !in m
    ensures Covers(txs + [t], m[t.nonce := t])
    ensures Increasing(txs) && (forall n :: n in m ==> n < t.nonce) ==> Increasing(txs + [t])
    ensures Decreasing(txs) && (forall n :: n in m ==> n > t.nonce) ==> Decreasing(txs + [t])
    ensures Distinct(txs) ==> Distinct(txs + [t])
  {
    assert forall i :: 0 <= i < |txs| ==> txs[i] in txs;
  }

  lemma CutStep(m: Items, cut: nat, n: nat)
    requires cut <= n && n in m
    requires forall x :: x in From(m, cut) ==> n <= x
    ensures From(m, n + 1) == From(m, cut) - {n}
    ensures Below(m, n + 1) == Below(m, cut)[n := m[n]]
  {
    assert forall x :: x in m && cut <= x ==> x in From(m, cut);
  }

  /** Taking the least nonce off the rest appends its transaction to the removed ones. */
  lemma OneMore(m: Items, cut: nat, n: nat, removed: seq<Tx>)
    requires Keyed(m) && cut <= n && n in m
    requires forall x :: x in From(m, cut) ==> n <= x
    requires Flat(removed, Below(m, cut))
    ensures From(m, n + 1) == From(m, cut) - {n}
    ensures Flat(removed + [m[n]], Below(m, n + 1))
  {
    CutStep(m, cut, n);
    ListsSnoc(removed, Below(m, cut), m[n]);
  }

  lemma RestGrows(m: Items, kept: set<nat>, top: nat)
    requires top in kept && top in m
    ensures m - (kept - {top}) == (m - kept)[top := m[top]]
  {
  }

  lemma LowestStep(keys: set<nat>, size: nat, top: nat)
    requires 0 < size <= |keys|
    requires top in LowestKeys(keys, size) && forall n :: n in LowestKeys(keys, size) ==> n <= top
    ensures LowestKeys(keys, size - 1) == LowestKeys(keys, size) - {top}
  {
    LowestKeysUnique(keys, size - 1, LowestKeys(keys, size) - {top});
  }

  lemma DropStep(m: Items, size: nat, top: nat)
    requires 0 < size <= |m|
    requires top in KeepLowest(m, size) && forall n :: n in KeepLowest(m, size) ==> n <= top
    ensures KeepLowest(m, size - 1) == KeepLowest(m, size) - {top}
    ensures DropLowest(m, size - 1) == DropLowest(m, size)[top := m[top]]
  {
    assert KeepLowest(m, size).Keys == LowestKeys(m.Keys, size);
    LowestStep(m.Keys, size, top);
    RestGrows(m, LowestKeys(m.Keys, size), top);
  }

  /** Lowering the cap by one moves the greatest kept nonce to the dropped ones. */
  lemma CapStep(m: Items, size: nat, top: nat, drops: seq<Tx>)
    requires Keyed(m) && 0 < size <= |m|
    requires top in KeepLowest(m, size) && forall n :: n in KeepLowest(m, size) ==> n <= top
    requires Covers(drops, DropLowest(m, size)) && Decreasing(drops)
    ensures KeepLowest(m, size - 1) == KeepLowest(m, size) - {top}
    ensures Covers(drops + [m[top]], DropLowest(m, size - 1)) && Decreasing(drops + [m[top]])
  {
    DropStep(m, size, top);
    ListsSnoc(drops, DropLowest(m, size), m[top]);
  }

  /** In a sorted arrangement of the nonces of `m` the last is the greatest. */
  lemma LastIsGreatest(index: seq<nat>, m: Items)
    requires multiset(index) == multiset(m.Keys) && Sorted(index, NonceLe) && index != []
    ensures var top := index[|index| - 1];
      && top in m
      && (forall n :: n in m ==> n <= top)
      && multiset(index[..|index| - 1]) == multiset((m - {top}).Keys)
  {
    var top := index[|index| - 1];
    assert index == index[..|index| - 1] + [top];
    assert top in multiset(index);
    forall n | n in m.Keys ensures n <= top {
      assert n in multiset(index);
    }
    assert (m - {top}).Keys == m.Keys - {top};
    assert multiset(m.Keys - {top}) == multiset(m.Keys) - multiset{top};
  }

  /** The kept nonces are those below the lowest dropped one. */
  lemma KeptBelow(m: Items, k: nat, t: nat)
    requires t in DropLowest(m, k) && forall n :: n in DropLowest(m, k) ==> t <= n
    ensures KeepLowest(m, k) == Below(m, t)
  {
    var kept := LowestKeys(m.Keys, k);
    forall n ensures n in kept <==> n in m && n < t {
      assert n in m && n !in kept ==> n in DropLowest(m, k);
    }
  }

  /** Dropping the highest nonces cuts as many entries off the end of the sorted cache. */
  lemma CapCache(m: Items, k: nat, c: seq<Tx>, drops: seq<Tx>)
    requires Keyed(m) && k < |m| && Flat(c, m)
    requires Covers(drops, DropLowest(m, k)) && Decreasing(drops)
    ensures |drops| <= |c|
    ensures Flat(c[..|c| - |drops|], KeepLowest(m, k))
  {
    ListsSize(c, m);
    ListsSize(drops, DropLowest(m, k));
    assert DropLowest(m, k).Keys == m.Keys - LowestKeys(m.Keys, k);
    assert |DropLowest(m, k).Keys| == |m| - k;
    var low := drops[|drops| - 1];
    assert low in drops;
    forall n | n in DropLowest(m, k) ensures low.nonce <= n {
      assert m[n] in drops;
    }
    KeptBelow(m, k, low.nonce);
    var j := FlatCut(c, m, low.nonce);
    ListsSize(c[..j], KeepLowest(m, k));
  }

  lemma {:induction false} DistinctCount(txs: seq<Tx>, t: Tx)
    requires Distinct(txs)
    ensures multiset(txs)[t] <= 1
  {
    if txs != [] {
      assert txs == [txs[0]] + txs[1..];
      DistinctCount(txs[1..], t);
      if txs[0] == t {
        assert t !in txs[1..];
      }
    }
  }

  /** Rearranging a listing gives a listing. */
  lemma Rearranged(a: seq<Tx>, b: seq<Tx>, m: Items)
    requires multiset(a) == multiset(b) && Lists(a, m)
    ensures Lists(b, m)
  {
    assert forall t :: t in a <==> t in multiset(a);
    assert forall t :: t in b <==> t in multiset(b);
    forall i, j | 0 <= i < j < |b| ensures b[i].nonce != b[j].nonce {
      assert b[i] in b && b[j] in b;
      assert b == b[..i] + [b[i]] + b[i + 1..j] + [b[j]] + b[j + 1..];
      DistinctCount(a, b[i]);
    }
  }

  lemma MoveOut(start: Items, items: Items, n: nat)
    requires n in items && n in start
    ensures start - (items - {n}).Keys == (start - items.Keys)[n := start[n]]
  {
  }

  lemma SplitBy(start: Items, items: Items, p: Tx -> bool)
    requires items.Keys <= start.Keys
    requires forall n :: n in items ==> items[n] == start[n] && !p(start[n])
    requires forall n :: n in start && n !in items ==> p(start[n])
    ensures items == Except(start, p) && start - items.Keys == Where(start, p)
  {
  }

  lemma NoneRemoved(start: Items, p: Tx -> bool, removed: seq<Tx>)
    requires Keyed(start) && Covers(removed, Where(start, p)) && |removed| == 0
    ensures Except(start, p) == start
  {
    assert forall n :: n in start ==> start[n] !in removed;
  }

  /** The keys of a set in whatever order a map iteration yields them. */
  method KeyList(keys: set<nat>) returns (list: seq<nat>)
    ensures multiset(list) == multiset(keys)
  {
    list := [];
    var rest := keys;
    while rest != {}
      invariant rest <= keys
      invariant multiset(list) == multiset(keys - rest)
      decreases |rest|
    {
      var nonce :| nonce in rest;
      assert keys - (rest - {nonce}) == (keys - rest) + {nonce};
      list := list + [nonce];
      rest := rest - {nonce};
    }
    assert keys - rest == keys;
  }

  /** The transactions of a map in whatever order an iteration yields them. */
  method ItemList(m: Items) returns (list: seq<Tx>)
    requires Keyed(m)
    ensures Lists(list, m)
  {
    list := [];
    var rest := m.Keys;
    while rest != {}
      invariant rest <= m.Keys
      invariant Lists(list, m - rest)
      decreases |rest|
    {
      var n :| n in rest;
      assert m - (rest - {n}) == (m - rest)[n := m[n]];
      assert forall i :: 0 <= i < |list| ==> list[i] in list;
      list := list + [m[n]];
      rest := rest - {n};
    }
    assert m - rest == m;
  }

  lemma SameCut(m: Items, cut: nat, t: nat)
    requires cut <= t && forall n :: n in From(m, cut) ==> t <= n
    ensures From(m, cut) == From(m, t) && Below(m, cut) == Below(m, t)
  {
    assert forall n :: n in m && cut <= n ==> n in From(m, cut);
  }

  /** heap.Pop on the nonce heap. */
  method PopNonce(index: seq<nat>, ghost m: Items) returns (nonce: nat, rest: seq<nat>)
    requires Indexes(index, m) && index != []
    ensures nonce == index[0] && nonce in m && forall n :: n in m ==> nonce <= n
    ensures Indexes(rest, m - {nonce})
    ensures |rest| < |index|
  {
    IndexFront(index, m);
    nonce := index[0];
    rest := HeapRemove(index, 0, NonceLe);
    IndexRemove(index, rest, m, nonce);
  }

  /** Drops the highest nonces of a sorted index until `threshold` are left. */
  method DropTop(m: Items, sorted: seq<nat>, threshold: nat) returns (live: Items, rest: seq<nat>, drops: seq<Tx>)
    requires Keyed(m) && threshold <= |m|
    requires multiset(sorted) == multiset(m.Keys) && Sorted(sorted, NonceLe)
    ensures live == KeepLowest(m, threshold)
    ensures multiset(rest) == multiset(live.Keys)
    ensures Covers(drops, DropLowest(m, threshold)) && Decreasing(drops)
  {
    live, rest, drops := m, sorted, [];
    assert |multiset(sorted)| == |multiset(m.Keys)|;
    var size := |m|;
    while size > threshold
      invariant threshold <= size == |rest| <= |m|
      invariant live == KeepLowest(m, size)
      invariant multiset(rest) == multiset(live.Keys) && Sorted(rest, NonceLe)
      invariant Covers(drops, DropLowest(m, size)) && Decreasing(drops)
    {
      var top := rest[size - 1];
      LastIsGreatest(rest, live);
      CapStep(m, size, top, drops);
      drops := drops + [live[top]];
      live, rest := live - {top}, rest[..size - 1];
      size := size - 1;
    }
  }

  /** Pops consecutive nonces off the heap, starting at the lowest. */
  method TakeRun(m: Items, index: seq<nat>) returns (live: Items, heap: seq<nat>, ready: seq<Tx>)
    requires Keyed(m) && Indexes(index, m) && m != map[]
    ensures Indexes(heap, live)
    ensures live == From(m, RunEnd(m.Keys, MinKey(m.Keys)))
    ensures Flat(ready, Below(m, RunEnd(m.Keys, MinKey(m.Keys))))
    ensures forall i :: 0 <= i < |ready| ==> ready[i].nonce == ready[0].nonce + i
  {
    IndexFront(index, m);
    var next := index[0];
    ghost var first := next;
    ghost var end := RunEnd(m.Keys, first);
    assert first == MinKey(m.Keys);
    live, heap, ready := m, index, [];
    assert From(m, next) == m;
    while |heap| > 0 && heap[0] == next
      invariant Indexes(heap, live)
      invariant first <= next <= end
      invariant live == From(m, next)
      invariant Flat(ready, Below(m, next))
      invariant |ready| == next - first
      invariant forall i :: 0 <= i < |ready| ==> ready[i].nonce == first + i
      decreases |heap|
    {
      var nonce, rest := PopNonce(heap, live);
      OneMore(m, next, next, ready);
      ready := ready + [live[next]];
      heap, live := rest, live - {next};
      next := next + 1;
    }
    IndexFront(heap, live);
    assert next < end ==> next in live;
  }

  /** Takes the transactions that meet the predicate out of a map, in any order. */
  method Sweep(start: Items, p: Tx -> bool) returns (items: Items, removed: seq<Tx>)
    requires Keyed(start)
    ensures items == Except(start, p) && Lists(removed, Where(start, p))
  {
    items, removed := start, [];
    var todo := items.Keys;
    while todo != {}
      invariant todo <= items.Keys && items.Keys <= start.Keys
      invariant forall n :: n in items ==> items[n] == start[n] && (n in todo || !p(start[n]))
      invariant forall n :: n in start && n !in items ==> p(start[n])
      invariant Lists(removed, start - items.Keys)
      decreases |todo|
    {
      var nonce :| nonce in todo;
      todo := todo - {nonce};
      if p(items[nonce]) {
        MoveOut(start, items, nonce);
        ListsSnoc(removed, start - items.Keys, items[nonce]);
        removed := removed + [items[nonce]];
        items := items - {nonce};
      }
    }
    SplitBy(start, items, p);
  }

  class TxSortedMap {
    var items: Items
    var index: seq<nat>
    var cache: Option<seq<Tx>>

    /**
     The heap is a duplicate-free permutation of the stored nonces, and a cache that was
     not thrown away is the sorted list of everything stored.
     */
    ghost predicate Valid()
      reads this
    {
      && Keyed(items)
      && Indexes(index, items)
      && (cache.Some? ==> Flat(cache.value, items))
    }

    constructor ()
      ensures Valid()
      ensures items == map[]
    {
      items, index, cache := map[], [], None;
    }

    method Get(nonce: nat) returns (tx: Option<Tx>)
      requires Valid()
      ensures tx == if nonce in items then Some(items[nonce]) else None
    {
      tx := if nonce in items then Some(items[nonce]) else None;
    }

    method Put(tx: Tx)
      requires Valid()
      modifies this
      ensures Valid()
      ensures items == old(items)[tx.nonce := tx]
    {
      var nonce := tx.nonce;
      if nonce !in items {
        ghost var before := index;
        index := HeapPush(index, nonce, NonceLe);
        IndexAdd(before, index, items, tx);
      } else {
        assert (items[nonce := tx]).Keys == items.Keys;
      }
      items, cache := items[nonce := tx], None;
    }

    /** Removes everything below the threshold, in nonce order, shifting the cache. */
    method Forward(threshold: nat) returns (removed: seq<Tx>)
      requires Valid()
      modifies this
      ensures Valid()
      ensures items == From(old(items), threshold)
      ensures Flat(removed, Below(old(items), threshold))
    {
      ghost var start := items;
      ghost var cut: nat := 0;
      var live: Items, heap: seq<nat> := items, index;
      removed := [];
      assert From(start, 0) == start;
      while |heap| > 0 && heap[0] < threshold
        invariant cache == old(cache)
        invariant Indexes(heap, live) && cut <= threshold
        invariant live == From(start, cut)
        invariant Flat(removed, Below(start, cut))
        decreases |heap|
      {
        var nonce, rest := PopNonce(heap, live);
        OneMore(start, cut, nonce, removed);
        heap := rest;
        removed := removed + [live[nonce]];
        live := live - {nonce};
        cut := nonce + 1;
      }
      IndexFront(heap, live);
      SameCut(start, cut, threshold);
      items, index := live, heap;
      if cache.Some? {
        ghost var k := FlatCut(cache.value, start, threshold);
        FlatUnique(cache.value[..k], removed, Below(start, threshold));
        cache := Some(cache.value[|removed|..]);
      }
    }

    /** Removes everything for which the predicate holds; rebuilds the heap only if needed. */
    method Filter(p: Tx -> bool) returns (removed: seq<Tx>)
      requires Valid()
      modifies this
      ensures Valid()
      ensures items == Except(old(items), p)
      ensures Lists(removed, Where(old(items), p))
    {
      ghost var start := items;
      items, removed := Sweep(items, p);
      if |removed| > 0 {
        var list := KeyList(items.Keys);
        index := HeapInit(list, NonceLe);
        cache := None;
      } else {
        NoneRemoved(start, p, removed);
      }
    }

    /** Keeps the lowest nonces up to the limit, returning the rest in decreasing order. */
    method Cap(threshold: nat) returns (drops: seq<Tx>)
      requires Valid()
      modifies this
      ensures Valid()
      ensures items == KeepLowest(old(items), threshold)
      ensures Covers(drops, DropLowest(old(items), threshold)) && Decreasing(drops)
    {
      ghost var start := items;
      drops := [];
      if |items| <= threshold {
        return;
      }
      var sorted := Sort(index, NonceLe);
      var live, heap;
      live, heap, drops := DropTop(items, sorted, threshold);
      items := live;
      index := HeapInit(heap, NonceLe);
      if cache.Some? {
        CapCache(start, threshold, cache.value, drops);
        cache := Some(cache.value[..|cache.value| - |drops|]);
      }
    }

    /** Deletes one nonce; the heap entry is found by a scan. */
    method Remove(nonce: nat) returns (found: bool)
      requires Valid()
      modifies this
      ensures Valid()
      ensures found <==> nonce in old(items)
      ensures items == old(items) - {nonce}
    {
      found := nonce in items;
      if !found {
        assert items - {nonce} == items;
        return;
      }
      IndexFront(index, items);
      var i := 0;
      while i < |index| && index[i] != nonce
        invariant 0 <= i <= |index|
        invariant nonce in index[i..]
      {
        i := i + 1;
      }
      ghost var before := index;
      index := HeapRemove(index, i, NonceLe);
      IndexRemove(before, index, items, nonce);
      items := items - {nonce};
      cache := None;
    }

    /**
     Takes out the maximal run of consecutive nonces that starts at the lowest one,
     unless that one is above `start`.
     */
    method Ready(start: nat) returns (ready: seq<Tx>)
      requires Valid()
      modifies this
      ensures Valid()
      ensures items == From(old(items), ReadyEnd(old(items), start))
      ensures Flat(ready, Below(old(items), ReadyEnd(old(items), start)))
      ensures forall i :: 0 <= i < |ready| ==> ready[i].nonce == ready[0].nonce + i
    {
      ghost var all := items;
      IndexFront(index, items);
      ready := [];
      if |index| == 0 || index[0] > start {
        assert From(all, 0) == all;
        return;
      }
      var live, heap;
      live, heap, ready := TakeRun(items, index);
      items, index, cache := live, heap, None;
    }

    /** The transactions in nonce order; sorts only when there is no cache. */
    method Flatten() returns (txs: seq<Tx>)
      requires Valid()
      modifies this`cache
      ensures Valid()
      ensures Flat(txs, items)
    {
      if cache.None? {
        var list := ItemList(items);
        var sorted := Sort(list, TxNonceLe);
        Rearranged(list, sorted, items);
        cache := Some(sorted);
      }
      txs := cache.value;
    }
  }
}
