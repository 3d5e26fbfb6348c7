/**
 The price heap over all pooled transactions. Removals only bump a counter of stale
 entries; the heap is rebuilt when a quarter of it may be stale. `all` stands for the
 pool's lookup table, which the list reads through a pointer.
 */
module PricedLists {
  import opened Transactions
  import opened NonceMaps
  import opened Orders

  /** Heap order: cheaper first, and of equal prices the higher nonce first. */
  predicate PriceLe(a: Tx, b: Tx) {
    a.price < b.price || (a.price == b.price && a.nonce >= b.nonce)
  }

  predicate IsLocal(tx: Tx, locals: set<Address>) {
    tx.signed && tx.from in locals
  }

  lemma {:induction false} SetInSeq<T>(a: set<T>, s: seq<T>)
    requires forall t :: t in a ==> t in s
    ensures |a| <= |s|
    decreases |s|
  {
    if s == [] {
      assert a == {};
    } else {
      var b := a - {s[0]};
      forall t | t in b ensures t in s[1..] {
        assert t in s;
      }
      SetInSeq(b, s[1..]);
      SubsetSize(a, b + {s[0]});
    }
  }

  /**
   The heap over-approximates the live set: every live transaction is in it, and at most
   `stales` of its entries (and `slack` removals not yet reported) are beyond them.
   */
  ghost predicate Tracking(items: seq<Tx>, stales: int, live: set<Tx>, slack: nat) {
    && FrontLeast(items, PriceLe)
    && (forall t :: t in live ==> t in items)
    && |items| <= |live| + stales + slack
  }

  ghost function Elements(s: seq<Tx>): set<Tx> {
    set x | x in s
  }

  /** Every entry of one heap is in the other, at least as often. */
  ghost predicate Part(a: seq<Tx>, b: seq<Tx>) {
    multiset(a) <= multiset(b)
  }

  /** The stale counter cannot go negative. */
  lemma StalesNonNegative(items: seq<Tx>, stales: int, live: set<Tx>)
    requires Tracking(items, stales, live, 0)
    ensures 0 <= stales
  {
    SetInSeq(live, items);
  }

  /** Elements of a sequence after one entry was taken out. */
  lemma MembersAfterRemove(s: seq<Tx>, h: seq<Tx>, x: Tx)
    requires multiset(s) == multiset(h) + multiset{x}
    ensures forall t :: t in s <==> t in h || t == x
  {
    forall t ensures t in s <==> t in h || t == x {
      assert t in s <==> t in multiset(s);
      assert t in h <==> t in multiset(h);
    }
  }

  /** The live remote transactions among heap entries, in their order. */
  ghost function Taken(entries: seq<Tx>, locals: set<Address>, all: set<Tx>): (r: seq<Tx>) {
    if entries == [] then []
    else
      var last := entries[|entries| - 1];
      Taken(entries[..|entries| - 1], locals, all) + if last in all && !IsLocal(last, locals) then [last] else []
  }

  lemma TakenNext(entries: seq<Tx>, tx: Tx, locals: set<Address>, all: set<Tx>)
    ensures Taken(entries + [tx], locals, all) ==
      if tx in all && !IsLocal(tx, locals) then Taken(entries, locals, all) + [tx] else Taken(entries, locals, all)
  {
    assert (entries + [tx])[..|entries|] == entries;
  }

  lemma {:induction false} TakenPart(entries: seq<Tx>, locals: set<Address>, all: set<Tx>)
    ensures Part(Taken(entries, locals, all), entries)
  {
    if entries != [] {
      var front, last := entries[..|entries| - 1], entries[|entries| - 1];
      TakenPart(front, locals, all);
      assert entries == front + [last];
    }
  }

  /** The live local transactions among heap entries, in their order. */
  ghost function Spared(entries: seq<Tx>, locals: set<Address>, all: set<Tx>): (r: seq<Tx>) {
    if entries == [] then []
    else
      var last := entries[|entries| - 1];
      Spared(entries[..|entries| - 1], locals, all) + if last in all && IsLocal(last, locals) then [last] else []
  }

  lemma SparedNext(entries: seq<Tx>, tx: Tx, locals: set<Address>, all: set<Tx>)
    ensures Spared(entries + [tx], locals, all) ==
      if tx in all && IsLocal(tx, locals) then Spared(entries, locals, all) + [tx] else Spared(entries, locals, all)
  {
    assert (entries + [tx])[..|entries|] == entries;
  }

  lemma {:induction false} SparedPart(entries: seq<Tx>, locals: set<Address>, all: set<Tx>)
    ensures Part(Spared(entries, locals, all), entries)
    ensures forall t :: t in Spared(entries, locals, all) ==> t in all && IsLocal(t, locals)
  {
    if entries != [] {
      var front, last := entries[..|entries| - 1], entries[|entries| - 1];
      SparedPart(front, locals, all);
      assert entries == front + [last];
    }
  }

  /** Nothing is listed twice. */
  ghost predicate NoTwice(s: seq<Tx>) {
    forall i, j :: 0 <= i < j < |s| ==> s[i] != s[j]
  }

  /** A list has as many elements as entries exactly when nothing is listed twice. */
  lemma {:induction false} ElementsCount(s: seq<Tx>)
    ensures |Elements(s)| <= |s| && (|Elements(s)| == |s| <==> NoTwice(s))
  {
    if s == [] {
      assert Elements(s) == {};
    } else {
      var front, last := s[..|s| - 1], s[|s| - 1];
      ElementsCount(front);
      assert s == front + [last];
      assert Elements(s) == Elements(front) + {last};
      assert NoTwice(s) <==> NoTwice(front) && last !in front;
    }
  }

  /** Part-way through a discard: live transactions are still in the heap, saved as local, or dropped as cheap remote ones. */
  ghost predicate Sifting(heap: seq<Tx>, stale: int, save: seq<Tx>, drop: seq<Tx>, locals: set<Address>, all: set<Tx>) {
    && FrontLeast(heap, PriceLe)
    && (forall t :: t in all ==> t in heap || t in save || t in drop)
    && |heap| + |save| + |Elements(drop)| <= |all| + stale
    && (forall t :: t in drop ==> t in all && !IsLocal(t, locals))
    && (forall t :: t in save ==> t in all && IsLocal(t, locals))
    && (forall d, t :: d in drop && t in heap ==> PriceLe(d, t))
  }

  /** The least entry leaves the heap: a stale one is only counted, a local one saved, a remote one dropped. */
  method SiftNext(heap: seq<Tx>, stale: int, save: seq<Tx>, drop: seq<Tx>, locals: set<Address>, all: set<Tx>)
      returns (heap': seq<Tx>, stale': int, save': seq<Tx>, drop': seq<Tx>)
    requires Sifting(heap, stale, save, drop, locals, all) && heap != []
    ensures Sifting(heap', stale', save', drop', locals, all)
    ensures multiset(heap) == multiset(heap') + multiset{heap[0]} && |heap'| + 1 == |heap|
    ensures drop' == if heap[0] in all && !IsLocal(heap[0], locals) then drop + [heap[0]] else drop
    ensures save' == if heap[0] in all && IsLocal(heap[0], locals) then save + [heap[0]] else save
  {
    var tx := heap[0];
    stale', save', drop' := stale, save, drop;
    heap' := HeapRemove(heap, 0, PriceLe);
    MembersAfterRemove(heap, heap', tx);
    if tx !in all {
      stale' := stale - 1;
    } else if IsLocal(tx, locals) {
      save' := save + [tx];
    } else {
      assert Elements(drop + [tx]) == Elements(drop) + {tx};
      forall t | t in heap' ensures PriceLe(tx, t) {
        var i :| 0 <= i < |heap| && heap[i] == t;
      }
      drop' := drop + [tx];
    }
  }

  /** A heap that gained at most one entry, the given one. */
  ghost predicate Grown(a: seq<Tx>, b: seq<Tx>, tx: Tx) {
    multiset(a) <= multiset(b) + multiset{tx}
  }

  lemma PartMembers(a: seq<Tx>, b: seq<Tx>)
    requires Part(a, b)
    ensures forall t :: t in a ==> t in b
  {
    forall t | t in a ensures t in b {
      assert t in multiset(a);
    }
  }

  /** Which entries were popped so far, cheapest first, and what became of them. */
  ghost predicate Popping(items: seq<Tx>, popped: seq<Tx>, heap: seq<Tx>, save: seq<Tx>, drop: seq<Tx>,
                          locals: set<Address>, all: set<Tx>) {
    && multiset(items) == multiset(popped) + multiset(heap)
    && (forall p, t :: p in popped && t in heap ==> PriceLe(p, t))
    && drop == Taken(popped, locals, all)
    && save == Spared(popped, locals, all)
  }

  lemma PopNext(items: seq<Tx>, popped: seq<Tx>, heap: seq<Tx>, heap': seq<Tx>, save: seq<Tx>, drop: seq<Tx>,
                save': seq<Tx>, drop': seq<Tx>, locals: set<Address>, all: set<Tx>)
    requires Popping(items, popped, heap, save, drop, locals, all) && heap != [] && FrontLeast(heap, PriceLe)
    requires multiset(heap) == multiset(heap') + multiset{heap[0]}
    requires drop' == if heap[0] in all && !IsLocal(heap[0], locals) then drop + [heap[0]] else drop
    requires save' == if heap[0] in all && IsLocal(heap[0], locals) then save + [heap[0]] else save
    ensures Popping(items, popped + [heap[0]], heap', save', drop', locals, all)
  {
    TakenNext(popped, heap[0], locals, all);
    SparedNext(popped, heap[0], locals, all);
    MembersAfterRemove(heap, heap', heap[0]);
    forall t | t in heap' ensures PriceLe(heap[0], t) {
      var i :| 0 <= i < |heap| && heap[i] == t;
    }
  }

  lemma RebuiltPart(items: seq<Tx>, list: seq<Tx>, all: set<Tx>)
    requires multiset(list) == multiset(all) && forall t :: t in all ==> t in items
    ensures Part(list, items)
  {
    forall t ensures multiset(list)[t] <= multiset(items)[t] {
    }
  }

  ghost predicate AllLocal(all: set<Tx>, locals: set<Address>) {
    forall t :: t in all ==> IsLocal(t, locals)
  }

  /** The remote transactions `drop` left, none of them dearer than a remote one that stayed. */
  ghost predicate CheapestGone(before: set<Tx>, after: set<Tx>, drop: seq<Tx>, locals: set<Address>) {
    && after == before - Elements(drop)
    && (forall t :: t in drop ==> t in before && !IsLocal(t, locals))
    && (forall d, t :: d in drop && t in after && !IsLocal(t, locals) ==> PriceLe(d, t))
  }

  /** Something left or all are local, and there is room below the limit or all are local. */
  ghost predicate MadeRoom(before: set<Tx>, after: set<Tx>, locals: set<Address>, limit: nat) {
    && (after < before || AllLocal(after, locals))
    && (|after| < limit || AllLocal(after, locals))
  }

  /** Dropping as many different transactions as are over the limit and one more, or all remote ones. */
  lemma ShrinksBy(all: set<Tx>, drop: seq<Tx>, locals: set<Address>, limit: nat)
    requires (forall t :: t in drop ==> t in all) && NoTwice(drop) && limit <= |all|
    requires |drop| <= |all| + 1 - limit
    requires |drop| < |all| + 1 - limit ==> AllLocal(all - Elements(drop), locals)
    ensures |all - Elements(drop)| + |drop| == |all| && MadeRoom(all, all - Elements(drop), locals, limit)
  {
    LeftAfter(all, drop);
    ElementsCount(drop);
    if drop != [] {
      assert drop[0] in all;
    }
  }

  /** No live remote transaction is in the heap twice. */
  ghost predicate OnceInHeap(items: seq<Tx>, locals: set<Address>, all: set<Tx>) {
    forall t :: t in all && !IsLocal(t, locals) ==> multiset(items)[t] <= 1
  }

  /** In a pool over its limit no live remote transaction is in the heap twice. */
  ghost predicate OnceIfOver(items: seq<Tx>, locals: set<Address>, all: set<Tx>, limit: nat) {
    |all| > limit ==> OnceInHeap(items, locals, all)
  }

  /** That stays so when transactions leave, heap entries go, or accounts become local. */
  lemma OnceStays(items: seq<Tx>, locals: set<Address>, all: set<Tx>, limit: nat,
                  items': seq<Tx>, locals': set<Address>, all': set<Tx>)
    requires OnceIfOver(items, locals, all, limit) && Part(items', items) && locals <= locals' && all' <= all
    ensures OnceIfOver(items', locals', all', limit)
  {
    SubsetSize(all', all);
  }

  /** There is room for one more, or nothing but local transactions and a heap without the new one. */
  ghost predicate Roomy(items: seq<Tx>, locals: set<Address>, all: set<Tx>, limit: nat, tx: Tx) {
    |all| < limit || (AllLocal(all, locals) && tx !in items)
  }

  /** Then the new one is in the heap once, and it is the only remote one that counts. */
  lemma OnceAfterPut(items: seq<Tx>, locals: set<Address>, all: set<Tx>, limit: nat, tx: Tx, items': seq<Tx>, all': set<Tx>)
    requires Roomy(items, locals, all, limit, tx) && all' <= all + {tx}
    requires Grown(items', items, tx)
    ensures OnceIfOver(items', locals, all', limit)
  {
    SubsetSize(all', all + {tx});
    if |all'| > limit {
      forall t | t in all' && !IsLocal(t, locals) ensures multiset(items')[t] <= 1 {
        assert t == tx && multiset(items)[tx] == 0;
      }
    }
  }

  /** A heap that holds nothing but live local transactions does not hold a new one. */
  lemma RoomyLeft(items: seq<Tx>, locals: set<Address>, all: set<Tx>, limit: nat, tx: Tx)
    requires |all| < limit || (AllLocal(all, locals) && forall t :: t in items ==> t in all)
    requires tx !in all
    ensures Roomy(items, locals, all, limit, tx)
  {
  }

  /** What is listed twice counts twice. */
  lemma CountsTwice(s: seq<Tx>, i: nat, j: nat)
    requires i < j < |s| && s[i] == s[j]
    ensures multiset(s)[s[j]] >= 2
  {
    var t := s[j];
    assert s == s[..j] + s[j..];
    assert t in s[..j] && t in s[j..];
    assert multiset(s) == multiset(s[..j]) + multiset(s[j..]);
  }

  /** Then none is dropped twice. */
  lemma DroppedOnce(items: seq<Tx>, popped: seq<Tx>, locals: set<Address>, all: set<Tx>)
    requires OnceInHeap(items, locals, all) && Part(popped, items)
    requires forall t :: t in Taken(popped, locals, all) ==> t in all && !IsLocal(t, locals)
    ensures NoTwice(Taken(popped, locals, all))
  {
    var drop := Taken(popped, locals, all);
    TakenPart(popped, locals, all);
    forall i, j | 0 <= i < j < |drop| ensures drop[i] != drop[j] {
      assert drop[j] in drop && multiset(drop)[drop[j]] <= 1;
      if drop[i] == drop[j] {
        CountsTwice(drop, i, j);
      }
    }
  }

  /** What no shorter run of pops would have given. */
  ghost predicate JustEnough(popped: seq<Tx>, locals: set<Address>, all: set<Tx>, count: nat) {
    popped != [] ==> |Taken(popped[..|popped| - 1], locals, all)| < count
  }

  lemma EnoughNext(popped: seq<Tx>, tx: Tx, locals: set<Address>, all: set<Tx>, count: nat)
    requires |Taken(popped, locals, all)| < count
    ensures JustEnough(popped + [tx], locals, all, count)
  {
    assert (popped + [tx])[..|popped|] == popped;
  }

  /** The loop of a discard: entries leave the heap until enough of them are live and remote. */
  method PopCheapest(items: seq<Tx>, stales: int, count: nat, locals: set<Address>, all: set<Tx>)
      returns (heap: seq<Tx>, stale: int, save: seq<Tx>, drop: seq<Tx>, ghost popped: seq<Tx>)
    requires Tracking(items, stales, all, 0)
    ensures Sifting(heap, stale, save, drop, locals, all) && Popping(items, popped, heap, save, drop, locals, all)
    ensures |drop| <= count && (|drop| == count || heap == []) && JustEnough(popped, locals, all, count)
  {
    heap, stale, save, drop, popped := items, stales, [], [], [];
    assert Elements(drop) == {};
    while |heap| > 0 && |drop| < count
      invariant Sifting(heap, stale, save, drop, locals, all) && |drop| <= count
      invariant Popping(items, popped, heap, save, drop, locals, all) && JustEnough(popped, locals, all, count)
      decreases |heap|
    {
      ghost var before, saved, dropped := heap, save, drop;
      EnoughNext(popped, before[0], locals, all, count);
      heap, stale, save, drop := SiftNext(heap, stale, save, drop, locals, all);
      PopNext(items, popped, before, heap, saved, dropped, save, drop, locals, all);
      popped := popped + [before[0]];
    }
  }

  /**
   What a discard does to a pool at or over its limit: nothing is dropped twice, the pool gets below its limit or
   without remote transactions, and in the second case nothing but live local ones is left in the heap.
   */
  lemma Discarded(items: seq<Tx>, items': seq<Tx>, locals: set<Address>, all: set<Tx>, limit: nat, count: nat,
                  drop: seq<Tx>, popped: seq<Tx>, rest: seq<Tx>)
    requires OnceIfOver(items, locals, all, limit) && 0 < limit <= |all| && count == |all| - (limit - 1)
    requires |drop| <= count && forall t :: t in drop ==> t in all && !IsLocal(t, locals)
    requires |drop| < count ==> rest == [] && forall t :: t in all && !IsLocal(t, locals) ==> t in drop
    requires Popping(items, popped, rest, Spared(popped, locals, all), drop, locals, all)
    requires multiset(items') == multiset(rest) + multiset(Spared(popped, locals, all))
    ensures NoTwice(drop) && MadeRoom(all, all - Elements(drop), locals, limit)
    ensures OnceIfOver(items', locals, all, limit)
    ensures |all - Elements(drop)| < limit || forall t :: t in items' ==> t in all - Elements(drop)
  {
    SparedPart(popped, locals, all);
    assert Part(items', items);
    if count > 1 {
      DroppedOnce(items, popped, locals, all);
    }
    ShrinksBy(all, drop, locals, limit);
    if |drop| < count {
      forall t | t in items' ensures t in all - Elements(drop) {
        assert t in multiset(items');
      }
    }
  }

  /** Part-way through a cap: live transactions are still in the heap, saved, or dropped as cheap remote ones. */
  ghost predicate Skimming(items: seq<Tx>, heap: seq<Tx>, stale: int, save: seq<Tx>, drop: seq<Tx>, threshold: int,
                           locals: set<Address>, all: set<Tx>) {
    && FrontLeast(heap, PriceLe)
    && (forall t :: t in all ==> t in heap || t in save || t in drop)
    && |heap| + |save| + |Elements(drop)| <= |all| + stale
    && multiset(heap) + multiset(save) <= multiset(items)
    && (forall t :: t in drop ==> t in all && t.price < threshold && !IsLocal(t, locals))
    && (forall t :: t in save ==> t in all && (IsLocal(t, locals) || t.price >= threshold))
  }

  /** The least entry leaves the heap; it is the last one if it is live and at the threshold. */
  method SkimNext(ghost items: seq<Tx>, heap: seq<Tx>, stale: int, save: seq<Tx>, drop: seq<Tx>, threshold: int,
                  locals: set<Address>, all: set<Tx>)
      returns (heap': seq<Tx>, stale': int, save': seq<Tx>, drop': seq<Tx>, reached: bool)
    requires Skimming(items, heap, stale, save, drop, threshold, locals, all) && heap != []
    ensures Skimming(items, heap', stale', save', drop', threshold, locals, all) && |heap'| + 1 == |heap|
    ensures reached ==> forall t :: t in heap' ==> t.price >= threshold
  {
    var tx := heap[0];
    stale', save', drop', reached := stale, save, drop, false;
    heap' := HeapRemove(heap, 0, PriceLe);
    MembersAfterRemove(heap, heap', tx);
    if tx !in all {
      stale' := stale - 1;
    } else if tx.price >= threshold {
      save', reached := save + [tx], true;
      forall t | t in heap' ensures t.price >= threshold {
        var i :| 0 <= i < |heap| && heap[i] == t;
        assert PriceLe(heap[0], heap[i]);
      }
    } else if IsLocal(tx, locals) {
      save' := save + [tx];
    } else {
      assert Elements(drop + [tx]) == Elements(drop) + {tx};
      drop' := drop + [tx];
    }
  }

  /** The loop of a cap: entries leave the heap until a live one is at the threshold. */
  method Skim(items: seq<Tx>, stales: int, threshold: int, locals: set<Address>, all: set<Tx>)
      returns (heap: seq<Tx>, stale: int, save: seq<Tx>, drop: seq<Tx>)
    requires Tracking(items, stales, all, 0)
    ensures Skimming(items, heap, stale, save, drop, threshold, locals, all)
    ensures Elements(drop) == set t | t in all && t.price < threshold && !IsLocal(t, locals)
  {
    heap, stale, save, drop := items, stales, [], [];
    var reached := false;
    assert Elements(drop) == {};
    while |heap| > 0 && !reached
      invariant Skimming(items, heap, stale, save, drop, threshold, locals, all)
      invariant reached ==> forall t :: t in heap ==> t.price >= threshold
      decreases |heap|, !reached
    {
      heap, stale, save, drop, reached := SkimNext(items, heap, stale, save, drop, threshold, locals, all);
    }
  }

  class TxPricedList {
    var items: seq<Tx>
    var stales: int

    ghost predicate Tracks(live: set<Tx>, slack: nat)
      reads this
    {
      Tracking(items, stales, live, slack)
    }

    constructor ()
      ensures Tracks({}, 0) && items == []
    {
      items, stales := [], 0;
    }

    method Put(tx: Tx)
      modifies this`items
      ensures |items| == |old(items)| + 1 && FrontLeast(items, PriceLe)
      ensures forall t :: t in items <==> t in old(items) || t == tx
      ensures multiset(items) == multiset(old(items)) + multiset{tx}
    {
      var h := HeapPush(items, tx, PriceLe);
      MembersAfterRemove(h, items, tx);
      items := h;
    }

    /**
     Reports `count` removals. Afterwards at most a quarter of the heap is counted stale,
     and the heap still over-approximates what is left.
     */
    method Removed(count: nat, all: set<Tx>, ghost slack: nat)
      requires count <= slack && Tracks(all, slack)
      modifies this
      ensures Tracks(all, slack - count)
      ensures 4 * stales <= |items| && Part(items, old(items))
    {
      stales := stales + count;
      if stales <= |items| / 4 {
        return;
      }
      var list := TxSeq(all);
      RebuiltPart(items, list, all);
      items := HeapInit(list, PriceLe);
      stales := 0;
      assert forall t :: t in list <==> t in multiset(list);
      assert forall t :: t in items <==> t in multiset(items);
    }

    /**
     Takes out every live remote transaction below the threshold, and nothing else.
     */
    method Cap(threshold: int, locals: set<Address>, all: set<Tx>) returns (drop: seq<Tx>)
      requires Tracks(all, 0)
      modifies this
      ensures Elements(drop) == set t | t in all && t.price < threshold && !IsLocal(t, locals)
      ensures Tracks(all - Elements(drop), 0) && Part(items, old(items))
    {
      var heap, stale, save;
      heap, stale, save, drop := Skim(items, stales, threshold, locals, all);
      LeftAfter(all, drop);
      stales := stale;
      Restore(heap, save);
    }

    /** Pushes the saved transactions back onto what is left of the heap. */
    method Restore(heap: seq<Tx>, save: seq<Tx>)
      requires FrontLeast(heap, PriceLe)
      modifies this`items
      ensures FrontLeast(items, PriceLe)
      ensures |items| == |heap| + |save|
      ensures forall t :: t in items <==> t in heap || t in save
      ensures multiset(items) == multiset(heap) + multiset(save)
    {
      items := heap;
      for i := 0 to |save|
        invariant FrontLeast(items, PriceLe)
        invariant |items| == |heap| + i
        invariant forall t :: t in items <==> t in heap || t in save[..i]
        invariant multiset(items) == multiset(heap) + multiset(save[..i])
      {
        Put(save[i]);
        assert save[..i + 1] == save[..i] + [save[i]];
      }
      assert save[..|save|] == save;
    }

    /**
     Whether a remote transaction pays no more than every pooled one: the same answer as a
     scan of the whole pool for the minimum price.
     */
    method Underpriced(tx: Tx, locals: set<Address>, all: set<Tx>) returns (b: bool)
      requires Tracks(all, 0)
      modifies this
      ensures Tracks(all, 0)
      ensures all != {} ==> (b <==> !IsLocal(tx, locals) && forall t :: t in all ==> tx.price <= t.price)
      ensures all == {} ==> !b
      ensures Part(items, old(items))
    {
      if IsLocal(tx, locals) {
        return false;
      }
      while |items| > 0 && items[0] !in all
        invariant Tracks(all, 0)
        invariant Part(items, old(items))
        decreases |items|
      {
        ghost var before := items;
        stales := stales - 1;
        items := HeapRemove(items, 0, PriceLe);
        MembersAfterRemove(before, items, before[0]);
      }
      if |items| == 0 {
        return false;
      }
      b := items[0].price >= tx.price;
      assert items[0] in all;
      forall t | t in all ensures PriceLe(items[0], t) {
        var i :| 0 <= i < |items| && items[i] == t;
      }
    }

    /**
     Takes out the `count` cheapest live remote transactions, or all of them if there are not as many: the
     cheapest entries are popped until there are enough, and the live local ones among them put back.
     */
    method Discard(count: nat, locals: set<Address>, all: set<Tx>)
      returns (drop: seq<Tx>, ghost popped: seq<Tx>, ghost rest: seq<Tx>)
      requires Tracks(all, 0)
      modifies this
      ensures |drop| <= count
      ensures forall t :: t in drop ==> t in all && !IsLocal(t, locals)
      ensures forall d, t :: d in drop && t in all && t !in drop && !IsLocal(t, locals) ==> PriceLe(d, t)
      ensures |drop| < count ==> rest == [] && forall t :: t in all && !IsLocal(t, locals) ==> t in drop
      ensures Popping(old(items), popped, rest, Spared(popped, locals, all), drop, locals, all)
      ensures JustEnough(popped, locals, all, count)
      ensures multiset(items) == multiset(rest) + multiset(Spared(popped, locals, all))
      ensures Tracks(all - Elements(drop), 0)
    {
      var heap, stale, save;
      heap, stale, save, drop, popped := PopCheapest(items, stales, count, locals, all);
      rest := heap;
      LeftAfter(all, drop);
      stales := stale;
      Restore(heap, save);
    }
  }

  lemma LeftAfter(all: set<Tx>, drop: seq<Tx>)
    requires forall t :: t in drop ==> t in all
    ensures |all - Elements(drop)| == |all| - |Elements(drop)|
  {
    assert Elements(drop) <= all;
    assert all == (all - Elements(drop)) + Elements(drop);
    assert |all| == |all - Elements(drop)| + |Elements(drop)|;
  }

  /** The members of a set in whatever order an iteration yields them. */
  method TxSeq(all: set<Tx>) returns (list: seq<Tx>)
    ensures multiset(list) == multiset(all)
    ensures |list| == |all|
  {
    list := [];
    var rest := all;
    while rest != {}
      invariant rest <= all
      invariant multiset(list) == multiset(all - rest)
      invariant |list| + |rest| == |all|
      decreases |rest|
    {
      var t :| t in rest;
      assert all - (rest - {t}) == (all - rest) + {t};
      list := list + [t];
      rest := rest - {t};
    }
    assert all - rest == all;
  }
}
