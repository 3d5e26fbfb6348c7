/**
 The fairness rule of the pending truncation: one level for all remote accounts, as high
 as the global limit allows but never below the per-account guarantee.
 */
module WaterFilling {
  import opened Transactions
  import opened NonceMaps
  import opened TxLists
  import opened PoolModel
  import opened Sums
  import Orders
  import SortedMap

  ghost function Lens(b: Book): map<nat, int> {
    map a | a in b :: |b[a].items|
  }

  /** How many transactions the lists hold together. */
  ghost function TotalLen(b: Book): int {
    Sum(Lens(b))
  }

  /** What an account keeps at level `k`: its `k` lowest nonces, or everything if it is local. */
  ghost function Cut(init: Book, locals: set<Address>, k: nat, a: Address): Items {
    if a in locals then At(init, a) else KeepLowest(At(init, a), k)
  }

  ghost function CutLens(init: Book, locals: set<Address>, k: nat): map<nat, int> {
    map a | a in init :: |Cut(init, locals, k, a)|
  }

  /** How many transactions are left when every remote account is cut to level `k`. */
  ghost function TotalAt(init: Book, locals: set<Address>, k: nat): int {
    Sum(CutLens(init, locals, k))
  }

  /** `p` is `init` cut to level `k`. */
  ghost predicate Leveled(init: Book, p: Book, locals: set<Address>, k: nat) {
    p.Keys == init.Keys && forall a {:trigger At(p, a)} {:trigger Cut(init, locals, k, a)} :: a in init ==> At(p, a) == Cut(init, locals, k, a)
  }

  /** The totals left at each level. */
  ghost function Totals(init: Book, locals: set<Address>): nat -> int {
    (k: nat) => TotalAt(init, locals, k)
  }

  /**
   `k` is the water level: no lower than the guarantee, the next level up is over the
   limit, and this level fits unless it is the guarantee itself.
   */
  ghost predicate WaterLevel(total: nat -> int, slots: nat, limit: nat, k: nat) {
    && slots <= k
    && total(k + 1) > limit
    && (total(k) <= limit || k == slots)
  }

  lemma KeepAll(m: Items, k: nat)
    requires |m| <= k
    ensures KeepLowest(m, k) == m
  {
  }

  lemma LeveledTotal(init: Book, p: Book, locals: set<Address>, k: nat)
    requires Leveled(init, p, locals, k)
    ensures TotalLen(p) == TotalAt(init, locals, k)
  {
    forall a | a in init ensures Lens(p)[a] == CutLens(init, locals, k)[a] {
      assert At(p, a) == Cut(init, locals, k, a);
    }
    assert Lens(p) == CutLens(init, locals, k);
  }

  lemma TotalMonotone(init: Book, locals: set<Address>, j: nat, k: nat)
    requires j <= k
    ensures TotalAt(init, locals, j) <= TotalAt(init, locals, k)
  {
    SumMonotone(CutLens(init, locals, j), CutLens(init, locals, k));
  }

  /** Totals that grow with the level have at most one water level. */
  lemma LevelUnique(total: nat -> int, slots: nat, limit: nat, j: nat, k: nat)
    requires forall x: nat, y: nat :: x <= y ==> total(x) <= total(y)
    requires WaterLevel(total, slots, limit, j) && WaterLevel(total, slots, limit, k)
    ensures j == k
  {
  }

  lemma FilledTotals(total: nat -> int, k: nat, here: int, slots: nat, limit: nat)
    requires slots <= k && total(k) == here && total(k + 1) > limit && (here <= limit || k == slots)
    ensures WaterLevel(total, slots, limit, k)
  {
  }

  lemma TotalsMonotone(init: Book, locals: set<Address>)
    ensures forall x: nat, y: nat :: x <= y ==> Totals(init, locals)(x) <= Totals(init, locals)(y)
  {
    forall x: nat, y: nat | x <= y ensures Totals(init, locals)(x) <= Totals(init, locals)(y) {
      TotalMonotone(init, locals, x, y);
    }
  }

  /** At a level no remote account exceeds, nothing is cut. */
  lemma LeveledAtTop(init: Book, locals: set<Address>, k: nat)
    requires forall a :: a in init && a !in locals ==> |init[a].items| <= k
    ensures Leveled(init, init, locals, k)
  {
    forall a | a in init ensures At(init, a) == Cut(init, locals, k, a) {
      if a !in locals {
        KeepAll(init[a].items, k);
      }
    }
  }

  /** Two levels that no remote account reaches past cut nothing, either of them. */
  lemma LeveledAny(init: Book, p: Book, locals: set<Address>, j: nat, k: nat)
    requires Leveled(init, p, locals, j)
    requires forall a :: a in init && a !in locals ==> |init[a].items| <= j && |init[a].items| <= k
    ensures Leveled(init, p, locals, k)
  {
    forall a | a in init ensures At(p, a) == Cut(init, locals, k, a) {
      assert At(p, a) == Cut(init, locals, j, a);
      if a !in locals {
        KeepAll(init[a].items, k);
        KeepAll(init[a].items, j);
      }
    }
  }

  lemma ShorterBy(m: Items, level: nat, next: nat)
    requires |m| == level == next + 1
    ensures Shorter(m, true) == KeepLowest(m, next)
  {
  }

  /** Dropping the highest nonce of every account above `next` takes the level above it to `next`. */
  lemma LevelStep(init: Book, p: Book, p': Book, locals: set<Address>, level: nat, next: nat, over: set<Address>)
    requires level == next + 1 && Leveled(init, p, locals, level) && Dropped(p, p', over)
    requires forall a :: a in over ==> a in init && a !in locals && |init[a].items| >= level
    requires forall a :: a in init && a !in locals && a !in over ==> |init[a].items| <= next
    ensures Leveled(init, p', locals, next)
  {
    forall a | a in init ensures At(p', a) == Cut(init, locals, next, a) {
      assert At(p, a) == Cut(init, locals, level, a);
      assert At(p', a) == Shorter(At(p, a), a in over);
      if a in over {
        ShorterBy(At(p, a), level, next);
        KeepLowestTwice(init[a].items, level, next);
      } else if a !in locals {
        KeepAll(init[a].items, next);
        KeepAll(init[a].items, level);
      }
    }
  }

  ghost function First(accounts: seq<Address>, i: nat): set<Address>
    requires i <= |accounts|
  {
    set a | a in accounts[..i]
  }

  lemma FirstNext(accounts: seq<Address>, i: nat)
    requires i < |accounts| && AllDifferent(accounts)
    ensures First(accounts, i + 1) == First(accounts, i) + {accounts[i]}
    ensures accounts[i] !in First(accounts, i)
  {
    assert accounts[..i + 1] == accounts[..i] + [accounts[i]];
  }

  /** The accounts in `done` have lost their highest nonce, the others nothing. */
  ghost predicate Dropped(start: Book, p: Book, done: set<Address>) {
    && p.Keys == start.Keys
    && forall a :: a in start ==> At(p, a) == Shorter(At(start, a), a in done)
  }

  ghost function Shorter(m: Items, less: bool): Items {
    if less && |m| > 0 then KeepLowest(m, |m| - 1) else m
  }

  lemma DroppedOne(start: Book, p: Book, done: set<Address>, a: Address, p': Book)
    requires Dropped(start, p, done) && a in p && a !in done && |p[a].items| > 1
    requires p' == p[a := p[a].Capped(|p[a].items| - 1)]
    ensures Dropped(start, p', done + {a})
  {
    assert At(p, a) == Shorter(At(start, a), a in done);
    forall x | x in start ensures At(p', x) == Shorter(At(start, x), x in done + {a}) {
      assert At(p, x) == Shorter(At(start, x), x in done);
    }
  }

  /** Cutting one list by one takes one off the total. */
  lemma OneFewer(p: Book, a: Address, p': Book)
    requires a in p && |p[a].items| > 0 && p' == p[a := p[a].Capped(|p[a].items| - 1)]
    ensures TotalLen(p') == TotalLen(p) - 1
  {
    assert Lens(p') == Lens(p)[a := |p[a].items| - 1];
    SumUpdate(Lens(p), a, |p[a].items| - 1);
  }

  lemma {:induction false} SumNonNegative(m: map<nat, int>)
    requires forall k :: k in m ==> m[k] >= 0
    ensures Sum(m) >= 0
    decreases |m.Keys|
  {
    if m.Keys != {} {
      var k :| k in m.Keys;
      SumRemove(m, k);
      SumNonNegative(m - {k});
    }
  }

  lemma TotalNonNegative(p: Book)
    ensures TotalLen(p) >= 0
  {
    SumNonNegative(Lens(p));
  }

  /** Mid-way: `p` is `init` cut to `level`, and one level higher would be over the limit. */
  ghost predicate Filling(init: Book, p: Book, locals: set<Address>, level: nat, count: int, slots: nat, limit: nat) {
    && Leveled(init, p, locals, level)
    && count == TotalLen(p)
    && slots <= level
    && TotalAt(init, locals, level + 1) > limit
  }

  /** The accounts to cut have at least `level` transactions to begin with, all other remote ones at most `floor`. */
  ghost predicate Offending(init: Book, locals: set<Address>, accounts: seq<Address>, level: nat, floor: nat) {
    && (forall i :: 0 <= i < |accounts| ==> accounts[i] in init && accounts[i] !in locals && |init[accounts[i]].items| >= level)
    && (forall a :: a in init && a !in locals && a !in accounts ==> |init[a].items| <= floor)
  }

  /** An offender's list is as long as the level. */
  lemma AtLevel(init: Book, p: Book, locals: set<Address>, level: nat, accounts: seq<Address>, floor: nat)
    requires Leveled(init, p, locals, level) && Offending(init, locals, accounts, level, floor)
    ensures forall i :: 0 <= i < |accounts| ==> accounts[i] in p && |At(p, accounts[i])| == level
  {
    forall i | 0 <= i < |accounts| ensures accounts[i] in p && |At(p, accounts[i])| == level {
      assert At(p, accounts[i]) == Cut(init, locals, level, accounts[i]);
    }
  }

  /** A round over the offenders lowers the level by one. */
  lemma RoundLevel(init: Book, p: Book, p': Book, locals: set<Address>, level: nat, next: nat, accounts: seq<Address>, floor: nat)
    requires level == next + 1 && floor <= next && Leveled(init, p, locals, level)
    requires Offending(init, locals, accounts, level, floor) && Dropped(p, p', First(accounts, |accounts|))
    ensures Leveled(init, p', locals, next)
    ensures Offending(init, locals, accounts, next, floor)
  {
    var over := First(accounts, |accounts|);
    assert accounts[..|accounts|] == accounts;
    assert forall a :: a in over <==> a in accounts;
    LevelStep(init, p, p', locals, level, next, over);
  }

  lemma NextFilling(init: Book, p: Book, p': Book, locals: set<Address>, level: nat, next: nat, count: int, left: int,
                    slots: nat, limit: nat)
    requires level == next + 1 && slots <= next && left == TotalLen(p')
    requires Filling(init, p, locals, level, count, slots, limit) && count > limit
    requires Leveled(init, p', locals, next)
    ensures Filling(init, p', locals, next, left, slots, limit)
  {
    LeveledTotal(init, p, locals, level);
    assert TotalAt(init, locals, next + 1) == count;
  }

  /** Some number bounds all list lengths. */
  lemma {:induction false} LenBound(b: Book) returns (k: nat)
    ensures forall a :: a in b ==> |b[a].items| <= k
    decreases |b.Keys|
  {
    if b.Keys == {} {
      k := 0;
    } else {
      var a :| a in b.Keys;
      assert (b - {a}).Keys == b.Keys - {a};
      k := LenBound(b - {a});
      k := if k < |b[a].items| then |b[a].items| else k;
      assert forall x :: x in b ==> x == a || x in b - {a};
    }
  }

  /** Before anything is cut, any level above all remote lists is mid-way. */
  lemma FillingStart(init: Book, locals: set<Address>, k: nat, slots: nat, limit: nat)
    requires forall a :: a in init && a !in locals ==> |init[a].items| <= k
    requires slots <= k && TotalLen(init) > limit
    ensures Filling(init, init, locals, k, TotalLen(init), slots, limit)
  {
    LeveledAtTop(init, locals, k);
    LeveledAtTop(init, locals, k + 1);
    LeveledTotal(init, init, locals, k + 1);
  }

  /** How many transactions the lists hold, counted one list at a time. */
  method CountAll(b: Book) returns (n: nat)
    ensures n == TotalLen(b)
  {
    n := 0;
    var todo := b.Keys;
    ghost var rest := Lens(b);
    while todo != {}
      invariant todo <= b.Keys
      invariant rest == map a | a in todo :: |b[a].items|
      invariant n + Sum(rest) == TotalLen(b)
      decreases |todo|
    {
      var a :| a in todo;
      SumRemove(rest, a);
      n := n + |b[a].items|;
      todo := todo - {a};
      rest := rest - {a};
    }
    assert rest == map[];
  }

  /** The account with the highest priority, as the priority queue pops it. */
  method PopMax(spammers: map<Address, nat>) returns (top: Address)
    requires spammers != map[]
    ensures top in spammers && forall a :: a in spammers ==> spammers[a] <= spammers[top]
  {
    var todo := spammers.Keys;
    top :| top in spammers;
    todo := todo - {top};
    while todo != {}
      invariant todo <= spammers.Keys && top in spammers
      invariant forall a :: a in spammers && a !in todo ==> spammers[a] <= spammers[top]
      decreases |todo|
    {
      var a :| a in todo;
      todo := todo - {a};
      if spammers[top] < spammers[a] {
        top := a;
      }
    }
  }

  /**
   The eviction order part-way: every remote account over the guarantee is either an
   offender already or waiting, with its length as its priority.
   */
  ghost predicate Waiting(init: Book, locals: set<Address>, slots: nat, offenders: seq<Address>, spammers: map<Address, nat>) {
    && AllDifferent(offenders)
    && (forall i :: 0 <= i < |offenders| ==> offenders[i] in init && offenders[i] !in locals)
    && (forall a :: a in spammers ==> a in init && a !in locals && a !in offenders
                                      && slots < spammers[a] == |init[a].items|)
    && (forall a :: a in init && a !in locals && |init[a].items| > slots ==> a in offenders || a in spammers)
  }

  /** Nobody who waits is longer than `level`. */
  ghost predicate NoneAbove(spammers: map<Address, nat>, level: nat) {
    forall a :: a in spammers ==> spammers[a] <= level
  }

  /** The offenders all started with at least `level` transactions. */
  ghost predicate Even(init: Book, offenders: seq<Address>, level: nat) {
    forall i :: 0 <= i < |offenders| ==> offenders[i] in init && |init[offenders[i]].items| >= level
  }

  /** The next offender is no longer than the level, and everyone behind it no longer than it. */
  lemma PopOrder(init: Book, locals: set<Address>, slots: nat, offenders: seq<Address>, spammers: map<Address, nat>, level: nat, o: Address)
    requires Waiting(init, locals, slots, offenders, spammers) && Even(init, offenders, level) && NoneAbove(spammers, level)
    requires o in spammers && NoneAbove(spammers, spammers[o])
    ensures slots <= spammers[o] <= level && Offending(init, locals, offenders, level, spammers[o])
  {
  }

  /** Taking the next offender keeps the order; all offenders so far are at least as long as it. */
  lemma PopNext(init: Book, locals: set<Address>, slots: nat, offenders: seq<Address>, spammers: map<Address, nat>, level: nat, o: Address)
    requires Waiting(init, locals, slots, offenders, spammers) && Even(init, offenders, level) && NoneAbove(spammers, level)
    requires o in spammers && NoneAbove(spammers, spammers[o])
    ensures Waiting(init, locals, slots, offenders + [o], spammers - {o})
    ensures Even(init, offenders + [o], spammers[o]) && NoneAbove(spammers - {o}, spammers[o])
  {
    var more := offenders + [o];
    forall i, j | 0 <= i < j < |more| ensures more[i] != more[j] {
      assert more[i] in offenders;
    }
    forall i | 0 <= i < |more| ensures more[i] in init && more[i] !in locals {
    }
    forall a | a in init && a !in locals && |init[a].items| > slots ensures a in more || a in spammers - {o} {
    }
  }

  /** Nothing is cut yet: the level may start anywhere from the longest remote list up. */
  lemma FirstLevel(init: Book, p: Book, locals: set<Address>, j: nat, k: nat, above: nat, count: int, slots: nat, limit: nat)
    requires Filling(init, p, locals, j, count, slots, limit) && count > limit && slots <= k && above == k + 1
    requires forall a :: a in init && a !in locals ==> |init[a].items| <= j && |init[a].items| <= k
    ensures Filling(init, p, locals, k, count, slots, limit)
  {
    LeveledAny(init, p, locals, j, k);
    LeveledAny(init, p, locals, j, above);
    assert count == TotalAt(init, locals, above) by { LeveledTotal(init, p, locals, above); }
  }

  /** The remote accounts over the guarantee, with their lengths as priorities. */
  function Spammers(b: Book, locals: set<Address>, slots: nat): (m: map<Address, nat>) {
    map a | a in b && a !in locals && |b[a].items| > slots :: |b[a].items|
  }

  function Popped(m: map<Address, nat>, a: Address): (r: map<Address, nat>)
    requires a in m
    ensures r == m - {a} && |r.Keys| < |m.Keys|
  {
    assert (m - {a}).Keys == m.Keys - {a};
    m - {a}
  }

  /** Takes the longest list out of the queue of those that wait. */
  method TakeOffender(offenders: seq<Address>, spammers: map<Address, nat>, ghost init: Book, ghost locals: set<Address>,
                      ghost slots: nat, ghost level: nat)
      returns (o: Address, offenders': seq<Address>, spammers': map<Address, nat>)
    requires spammers != map[]
    requires Waiting(init, locals, slots, offenders, spammers) && Even(init, offenders, level) && NoneAbove(spammers, level)
    ensures o in spammers && NoneAbove(spammers, spammers[o])
    ensures offenders' != [] && |spammers'.Keys| < |spammers.Keys|
    ensures Waiting(init, locals, slots, offenders', spammers') && Even(init, offenders', spammers[o])
    ensures NoneAbove(spammers', spammers[o])
  {
    o := PopMax(spammers);
    PopNext(init, locals, slots, offenders, spammers, level, o);
    offenders', spammers' := offenders + [o], Popped(spammers, o);
  }

  /** With nobody waiting, every remote account over the guarantee is an offender. */
  lemma LastOffending(init: Book, locals: set<Address>, slots: nat, offenders: seq<Address>, level: nat)
    requires Waiting(init, locals, slots, offenders, map[]) && Even(init, offenders, level)
    ensures Offending(init, locals, offenders, level, slots)
  {
  }

  /** A mid-way level that fits, or is the guarantee, is the water level. */
  lemma FilledLevel(init: Book, p: Book, locals: set<Address>, level: nat, count: int, slots: nat, limit: nat)
    requires Filling(init, p, locals, level, count, slots, limit)
    requires count <= limit || level == slots
    ensures WaterLevel(Totals(init, locals), slots, limit, level)
  {
    var here := TotalLen(p);
    LeveledTotal(init, p, locals, level);
    FilledTotals(Totals(init, locals), level, here, slots, limit);
  }

  /** The water level of some lists is the only one. */
  lemma OnlyLevel(init: Book, locals: set<Address>, slots: nat, limit: nat, level: nat)
    requires WaterLevel(Totals(init, locals), slots, limit, level)
    ensures forall k: nat :: WaterLevel(Totals(init, locals), slots, limit, k) ==> k == level
  {
    TotalsMonotone(init, locals);
    forall k: nat | WaterLevel(Totals(init, locals), slots, limit, k) ensures k == level {
      LevelUnique(Totals(init, locals), slots, limit, k, level);
    }
  }

  /** The lists fit the limit, or every remote account is down to its guarantee. */
  ghost predicate Fits(p: Book, locals: set<Address>, slots: nat, limit: nat) {
    TotalLen(p) <= limit || forall a :: a !in locals ==> |At(p, a)| <= slots
  }

  lemma LevelFits(init: Book, p: Book, locals: set<Address>, slots: nat, limit: nat, level: nat)
    requires Leveled(init, p, locals, level) && WaterLevel(Totals(init, locals), slots, limit, level)
    ensures Fits(p, locals, slots, limit)
  {
    LeveledTotal(init, p, locals, level);
    if level == slots {
      forall a | a !in locals ensures |At(p, a)| <= slots {
        if a in p {
          assert At(p, a) == KeepLowest(At(init, a), level);
        }
      }
    }
  }

  lemma TotalWithout(b: Book, a: Address)
    ensures TotalLen(b) == Sum(Lens(b) - {a}) + |At(b, a)|
  {
    if a in b {
      SumRemove(Lens(b), a);
    } else {
      assert Lens(b) - {a} == Lens(b);
    }
  }

  /** Changing one list, or deleting it when it is empty, changes the total by the difference. */
  lemma TotalSameBut(b: Book, c: Book, a: Address)
    requires SameBut(c, b, a)
    ensures TotalLen(c) == TotalLen(b) - |At(b, a)| + |At(c, a)|
  {
    TotalWithout(b, a);
    TotalWithout(c, a);
    assert Lens(b) - {a} == Lens(c) - {a};
  }

  // ---------- the queue ----------

  /** `low` is what is left of `m` when some of its highest nonces are gone. */
  ghost predicate LowPart(low: Items, m: Items) {
    SubMap(low, m) && forall x, y :: x in low && y in m && y !in low ==> x < y
  }

  lemma PrefixMembers(txs: seq<Tx>, k: nat)
    requires k <= |txs|
    ensures forall j :: 0 <= j < k ==> txs[j] in txs[..k]
  {
    forall j | 0 <= j < k ensures txs[j] in txs[..k] {
      assert txs[..k][j] == txs[j];
    }
  }

  lemma PrefixLow(txs: seq<Tx>, m: Items, k: nat, low: Items)
    requires Keyed(m) && Flat(txs, m) && k <= |txs| && Flat(txs[..k], low) && SubMap(low, m)
    ensures LowPart(low, m) && |m| == |txs| && |low| == k
  {
    PrefixMembers(txs, k);
    forall x, y | x in low && y in m && y !in low ensures x < y {
      assert low[x] in txs[..k] && m[y] in txs;
      var i :| 0 <= i < k && txs[i] == low[x];
      var j :| 0 <= j < |txs| && txs[j] == m[y];
      assert m[y] !in txs[..k];
    }
    ListsSize(txs, m);
    ListsSize(txs[..k], low);
  }

  /** What is left of an account's queue after its highest nonces went. */
  lemma QueueCut(before: Book, after: Book, a: Address, txs: seq<Tx>, k: nat)
    requires SameBut(after, before, a) && Keyed(At(before, a)) && Flat(txs, At(before, a)) && k <= |txs|
    requires Flat(txs[..k], At(after, a)) && SubMap(At(after, a), At(before, a))
    ensures LowPart(At(after, a), At(before, a)) && |At(before, a)| == |txs| && |At(after, a)| == k
    ensures TotalLen(after) == TotalLen(before) - (|txs| - k)
  {
    PrefixLow(txs, At(before, a), k, At(after, a));
    TotalSameBut(before, after, a);
  }

  /**
   Part-way through dropping queues in the order given: the accounts from `i` on are
   emptied, the others, and those not in the order, untouched.
   */
  ghost predicate Emptied(q0: Book, q: Book, order: seq<Address>, i: nat)
    requires i <= |order|
  {
    && (forall j :: i <= j < |order| ==> At(q, order[j]) == map[])
    && (forall a :: a !in order[i..] ==> At(q, a) == At(q0, a))
  }

  /** The same, with the account at `i` cut from the top rather than emptied. */
  ghost predicate Trimmed(q0: Book, q: Book, order: seq<Address>, i: nat)
    requires i < |order|
  {
    && (forall j :: i < j < |order| ==> At(q, order[j]) == map[])
    && LowPart(At(q, order[i]), At(q0, order[i]))
    && (forall a :: a !in order[i..] ==> At(q, a) == At(q0, a))
  }

  lemma TrimNext(q0: Book, q: Book, q': Book, order: seq<Address>, i: nat)
    requires i < |order| && AllDifferent(order) && Emptied(q0, q, order, i + 1)
    requires SameBut(q', q, order[i]) && LowPart(At(q', order[i]), At(q, order[i]))
    ensures Trimmed(q0, q', order, i)
    ensures At(q', order[i]) == map[] ==> Emptied(q0, q', order, i)
  {
    assert order[i..] == [order[i]] + order[i + 1..];
    forall j | i < j < |order| ensures At(q', order[j]) == map[] {
      assert At(q, order[j]) == map[];
    }
    assert order[i] !in order[i + 1..];
    forall a | a !in order[i..] ensures At(q', a) == At(q0, a) {
      assert At(q, a) == At(q0, a);
    }
  }

  /** With the queues dropped from the end of the order, whoever lost something has everyone after it emptied. */
  ghost predicate LatestFirst(q0: Book, q: Book, locals: set<Address>, beats: map<Address, nat>) {
    forall a, b :: a in q0 && b in q0 && a !in locals && b !in locals && At(q, a) != At(q0, a) && Beat(beats, a) < Beat(beats, b)
      ==> At(q, b) == map[]
  }

  /** The last heartbeat of an account; none counts as the earliest. */
  function Beat(beats: map<Address, nat>, a: Address): (t: nat) {
    if a in beats then beats[a] else 0
  }

  function ByBeat(beats: map<Address, nat>): (le: (Address, Address) -> bool)
    ensures Orders.TotalPreorder(le)
    ensures forall a, b :: le(a, b) <==> Beat(beats, a) <= Beat(beats, b)
  {
    (a: Address, b: Address) => Beat(beats, a) <= Beat(beats, b)
  }

  /** The eviction order of the queues: the remote accounts by heartbeat. */
  ghost predicate EvictionOrder(q0: Book, locals: set<Address>, beats: map<Address, nat>, order: seq<Address>) {
    && AllDifferent(order)
    && (forall a :: a in order <==> a in q0 && a !in locals)
    && (forall i, j :: 0 <= i < j < |order| ==> Beat(beats, order[i]) <= Beat(beats, order[j]))
  }

  method SortByBeat(q0: Book, locals: set<Address>, beats: map<Address, nat>) returns (order: seq<Address>)
    ensures EvictionOrder(q0, locals, beats, order)
  {
    var keys := set a | a in q0 && a !in locals;
    var list := SortedMap.KeyList(keys);
    order := Orders.Sort(list, ByBeat(beats));
    SortedMap.NoDuplicates(order, keys);
    forall a ensures a in order <==> a in keys {
      assert a in order <==> a in multiset(order);
    }
  }

  lemma TrimmedLatest(q0: Book, q: Book, locals: set<Address>, beats: map<Address, nat>, order: seq<Address>, i: nat)
    requires EvictionOrder(q0, locals, beats, order) && i < |order| && Trimmed(q0, q, order, i)
    ensures LatestFirst(q0, q, locals, beats)
    ensures forall a :: a in locals ==> At(q, a) == At(q0, a)
    ensures forall a :: LowPart(At(q, a), At(q0, a))
  {
    forall a, b | a in q0 && b in q0 && a !in locals && b !in locals && At(q, a) != At(q0, a) && Beat(beats, a) < Beat(beats, b)
      ensures At(q, b) == map[]
    {
      assert a in order[i..];
      var j :| i <= j < |order| && order[j] == a;
      assert b in order;
      var k :| 0 <= k < |order| && order[k] == b;
      assert j < k;
    }
    forall a | a in locals ensures At(q, a) == At(q0, a) {
      assert a !in order;
      assert forall x :: x in order[i..] ==> x in order;
    }
    forall a ensures LowPart(At(q, a), At(q0, a)) {
      if a in order[i..] {
        var j :| i <= j < |order| && order[j] == a;
      }
    }
  }

  /** A book whose remote lists are all empty holds only local accounts. */
  lemma OnlyLocals(q0: Book, q: Book, locals: set<Address>, beats: map<Address, nat>, order: seq<Address>)
    requires EvictionOrder(q0, locals, beats, order) && Emptied(q0, q, order, 0)
    ensures forall a :: a !in locals ==> At(q, a) == map[]
  {
    forall a | a !in locals ensures At(q, a) == map[] {
      assert order[0..] == order;
      if a in order {
        var j :| 0 <= j < |order| && order[j] == a;
      }
    }
  }
}
