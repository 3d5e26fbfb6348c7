/**
 Whether a run leaves a transaction queued that could extend its account's pending list. After a new head
 the pending nonces start over, so a run can: exactly when the transaction was not promoted before.
 */
module PoolProgress {
  import opened Transactions
  import opened NonceMaps
  import opened TxLists
  import opened PoolModel
  import opened PoolSteps

  /** The nonce right behind the account's pending run is queued. */
  ghost predicate Overdue(p: Book, q: Book, c: Chain, a: Address) {
    RunEnd(At(p, a).Keys, c.Nonce(a)) in At(q, a)
  }

  lemma RunEndIs(m: Items, lo: nat, hi: nat)
    requires Spans(m, lo, hi)
    ensures RunEnd(m.Keys, lo) == hi
  {
    assert RunEnd(m.Keys, lo) !in m && hi !in m.Keys;
  }

  /** In an executable list that is the pending nonce. */
  lemma OverdueNonce(p: Book, q: Book, noncer: map<Address, nat>, c: Chain, a: Address)
    requires Executable(p, noncer, c, a)
    ensures Overdue(p, q, c, a) <==> PendingNonce(noncer, c, a) in At(q, a)
  {
    RunEndIs(At(p, a), c.Nonce(a), PendingNonce(noncer, c, a));
  }

  /** Taking transactions out of either list does not make one overdue. */
  lemma NoneMoreOverdue(p: Book, q: Book, p': Book, q': Book, c: Chain, a: Address)
    requires At(p', a).Keys <= At(p, a).Keys && At(q', a).Keys <= At(q, a).Keys && At(p, a).Keys !! At(q, a).Keys
    ensures Overdue(p', q', c, a) ==> Overdue(p, q, c, a)
  {
    var e, e' := RunEnd(At(p, a).Keys, c.Nonce(a)), RunEnd(At(p', a).Keys, c.Nonce(a));
    assert e !in At(p', a).Keys;
    assert e' < e ==> e' in At(p, a).Keys;
  }

  /** Seen before a new head: what is pending stays payable and is not all mined, and the next transaction is queued. */
  ghost predicate Late(p: Book, q: Book, pn: nat, c: Chain, a: Address) {
    c.Nonce(a) < pn && pn in UsableOf(q, c, a) && Payable(From(At(p, a), c.Nonce(a)), c, a)
  }

  /** What the demotion of one account leaves pending and puts back into the queue. */
  ghost predicate DemotedAt(p: Book, q: Book, p': Book, q': Book, c: Chain, a: Address) {
    if a in p then At(p', a) == Usable(p[a], c, a).items && At(q', a) == At(q, a) + Stranded(p[a], c, a)
    else At(p', a) == map[] && At(q', a) == At(q, a)
  }

  /** The demotion cuts a gapless list at its first unpayable transaction, and strands none with that nonce. */
  lemma DemotedRun(p: Book, q: Book, p': Book, q': Book, c: Chain, a: Address, hi: nat) returns (cut: nat)
    requires DemotedAt(p, q, p', q', c, a) && (a in p ==> p[a].Ok() && p[a].strict)
    requires Spans(From(At(p, a), c.Nonce(a)), c.Nonce(a), hi)
    ensures c.Nonce(a) <= cut <= hi && Spans(At(p', a), c.Nonce(a), cut)
    ensures cut in At(q', a) <==> cut in At(q, a)
    ensures cut == hi <==> Payable(From(At(p, a), c.Nonce(a)), c, a)
  {
    var s, m := c.Nonce(a), From(At(p, a), c.Nonce(a));
    if a in p {
      var f := p[a].Forwarded(s);
      cut := StrictFilter(f, s, hi, c.Balance(a), c.maxGas);
      assert f.items == m;
      assert cut < hi ==> cut in m && !Payable(m, c, a);
      StrictStranded(f, s, hi, c.Balance(a), c.maxGas, cut);
    } else {
      cut := s;
      assert s !in m;
    }
  }

  lemma StrictStranded(l: AccountList, lo: nat, hi: nat, costLimit: int, gasLimit: nat, cut: nat)
    requires l.Ok() && l.strict && Spans(l.items, lo, hi)
    requires cut == hi || (cut in l.items && Over(costLimit, gasLimit)(l.items[cut]))
    ensures cut !in l.Invalidated(costLimit, gasLimit)
  {
    FilterShortcut(l, costLimit, gasLimit);
  }

  /** So what is overdue after it was so before, and everything behind the chain's nonce was payable. */
  lemma DemotedOverdue(p: Book, q: Book, p': Book, q': Book, c: Chain, a: Address, hi: nat)
    requires DemotedAt(p, q, p', q', c, a) && (a in p ==> p[a].Ok() && p[a].strict)
    requires Spans(From(At(p, a), c.Nonce(a)), c.Nonce(a), hi) && At(p, a).Keys !! At(q, a).Keys
    ensures Overdue(p', q', c, a) <==> Payable(From(At(p, a), c.Nonce(a)), c, a) && hi in At(q, a)
  {
    var cut := DemotedRun(p, q, p', q', c, a, hi);
    RunEndIs(At(p', a), c.Nonce(a), cut);
    if cut < hi {
      assert cut in From(At(p, a), c.Nonce(a));
    }
  }

  /** Promoting a run that starts at the chain's nonce, everything pending before it being mined. */
  lemma RunPromoted(b: Items, m: Items, s0: nat, pn: nat, s: nat, after: Items, queued: Items, cap: Option<nat>) returns (hi: nat)
    requires Spans(b, s0, pn) && s0 <= s && s in m && forall n :: n in m ==> s <= n && n !in b
    requires Moved(m, s, b, after, queued, cap)
    ensures pn <= s && Spans(From(after, s), s, hi) && hi !in queued
  {
    hi := RunEnd(m.Keys, s);
    assert ReadyEnd(m, s) == hi by {
      assert MinKey(m.Keys) == s;
    }
    assert s !in b;
    RunSpans(b, m, s, hi, after);
    assert hi !in From(m, hi) by {
      assert hi !in m.Keys;
    }
  }

  lemma RunSpans(b: Items, m: Items, s: nat, hi: nat, after: Items)
    requires (forall n :: n in b ==> n < s) && (forall n :: n in m ==> s <= n)
    requires hi == RunEnd(m.Keys, s) && after == b + Below(m, hi)
    ensures Spans(From(after, s), s, hi)
  {
    forall n: nat ensures n in From(after, s) <==> s <= n < hi {
      assert s <= n < hi ==> n in m.Keys;
    }
  }

  /** Without the chain's nonce in the queue nothing is promoted, and only the highest nonces are capped. */
  lemma NonePromoted(b: Items, m: Items, s: nat, after: Items, queued: Items, cap: Option<nat>)
    requires s !in m && forall n :: n in m ==> s <= n
    requires Moved(m, s, b, after, queued, cap)
    ensures after == b && queued == CappedTo(m, cap)
  {
    assert ReadyEnd(m, s) == 0 by {
      assert m != map[] ==> MinKey(m.Keys) in m;
    }
    SplitAtZero(b, m);
  }

  lemma SplitAtZero(b: Items, m: Items)
    ensures b + Below(m, 0) == b && From(m, 0) == m
  {
  }

  /** The promotion from the chain's nonce after a new head, `b` being pending before it and `m` the usable part of the queue. */
  lemma PromotedRun(b: Items, m: Items, s0: nat, pn: nat, s: nat, after: Items, queued: Items, cap: Option<nat>) returns (hi: nat)
    requires Spans(b, s0, pn) && s0 <= s && forall n :: n in m ==> s <= n && n !in b
    requires Moved(m, s, b, after, queued, cap) && (cap.Some? ==> cap.value >= 1)
    ensures Spans(From(after, s), s, hi) && (s < pn ==> hi == pn && From(after, s) == From(b, s))
    ensures hi in queued <==> s < pn && pn in m
  {
    if s in m {
      hi := RunPromoted(b, m, s0, pn, s, after, queued, cap);
    } else {
      NonePromoted(b, m, s, after, queued, cap);
      hi := FrontCut(b, s0, pn, s);
      LowestCapped(m, cap, hi);
    }
  }

  lemma FrontCut(b: Items, s0: nat, pn: nat, s: nat) returns (hi: nat)
    requires Spans(b, s0, pn) && s0 <= s
    ensures hi == (if s < pn then pn else s) && Spans(From(b, s), s, hi)
  {
    hi := if s < pn then pn else s;
  }

  lemma LowestCapped(m: Items, cap: Option<nat>, s: nat)
    requires (cap.Some? ==> cap.value >= 1) && forall n :: n in m ==> s <= n
    ensures s in CappedTo(m, cap) <==> s in m
  {
    if cap.Some? && s in m {
      LowestKept(m, cap.value, s);
    }
  }

  /** Keeping at least one of the lowest nonces keeps the lowest. */
  lemma LowestKept(m: Items, k: nat, s: nat)
    requires k >= 1 && s in m && forall n :: n in m ==> s <= n
    ensures s in KeepLowest(m, k)
  {
    assert LowestKeys(m.Keys, k) != {};
  }

  lemma ListsApart(p: Book, q: Book, live: set<Tx>, c: Chain, a: Address)
    requires Consistent(p, q, live)
    ensures At(p, a).Keys !! At(q, a).Keys && (a in p ==> p[a].Ok() && p[a].strict)
    ensures forall n :: n in UsableOf(q, c, a) ==> c.Nonce(a) <= n && n !in At(p, a)
  {
    assert AccountOk(p, q, live, a);
    if a in q {
      QueuedUsable(p, q, live, c, a);
    }
  }

  /** One account from the old head to the new one: promotion, then demotion. */
  lemma OverdueExactly(p0: Book, q0: Book, noncer: map<Address, nat>, c0: Chain, p1: Book, q1: Book, p2: Book, q2: Book, c: Chain,
                       a: Address, live0: set<Tx>, live1: set<Tx>, cap: Option<nat>)
    requires Consistent(p0, q0, live0) && Consistent(p1, q1, live1)
    requires Executable(p0, noncer, c0, a) && c0.Nonce(a) <= c.Nonce(a)
    requires PromotedAt(p0, q0, c.Nonce(a), p1, q1, c, a, cap) && (cap.Some? ==> cap.value >= 1)
    requires DemotedAt(p1, q1, p2, q2, c, a)
    ensures Overdue(p2, q2, c, a) <==> Late(p0, q0, PendingNonce(noncer, c0, a), c, a)
  {
    var s, pn := c.Nonce(a), PendingNonce(noncer, c0, a);
    ListsApart(p0, q0, live0, c, a);
    ListsApart(p1, q1, live1, c, a);
    var hi := PromotedRun(At(p0, a), UsableOf(q0, c, a), c0.Nonce(a), pn, s, At(p1, a), At(q1, a), cap);
    DemotedOverdue(p1, q1, p2, q2, c, a, hi);
  }

  /** All accounts after the demotion, or part-way through it with those in `todo` still to come. */
  ghost predicate Demoting(p: Book, q: Book, p': Book, q': Book, c: Chain, todo: set<Address>) {
    forall a :: if a in todo then StillListed(p, q, p', q', a) else DemotedAt(p, q, p', q', c, a)
  }

  ghost predicate StillListed(p: Book, q: Book, p': Book, q': Book, a: Address) {
    (a in p' <==> a in p) && (a in p ==> p'[a] == p[a]) && At(q', a) == At(q, a)
  }

  lemma DemotedMore(p0: Book, q0: Book, p: Book, q: Book, p': Book, q': Book, c: Chain, a: Address, todo: set<Address>)
    requires Demoting(p0, q0, p, q, c, todo + {a}) && a !in todo
    requires SameBut(p', p, a) && SameBut(q', q, a) && DemotedAt(p, q, p', q', c, a)
    ensures Demoting(p0, q0, p', q', c, todo)
  {
    assert StillListed(p0, q0, p, q, a);
    forall x ensures if x in todo then StillListed(p0, q0, p', q', x) else DemotedAt(p0, q0, p', q', c, x) {
      if x != a {
        assert At(p', x) == At(p, x) && At(q', x) == At(q, x);
        assert if x in todo then StillListed(p0, q0, p, q, x) else DemotedAt(p0, q0, p, q, c, x);
      }
    }
  }

  /** One account's demotion among accounts that settle. */
  lemma OneDemoted(p: Book, noncer: map<Address, nat>, q: Book, p': Book, q': Book, c: Chain, a: Address, gapped: bool, todo: set<Address>)
    requires a in p && p[a].Ok() && p[a].strict && a !in todo && SameBut(p', p, a)
    requires Demotion(Usable(p[a], c, a).items, Stranded(p[a], c, a), q, p', q', c, a, gapped)
    requires SettledBut(p, noncer, c, todo + {a})
    ensures !gapped && SettledBut(p', noncer, c, todo) && DemotedAt(p, q, p', q', c, a)
  {
    DemotionSettles(p, noncer, q, p', q', c, a, gapped);
    OneSettled(p, p', noncer, c, a, todo);
  }

  lemma NothingDemoted(p: Book, q: Book, c: Chain)
    ensures Demoting(p, q, p, q, c, p.Keys)
  {
  }

  ghost predicate FewerOverdue(p: Book, q: Book, p': Book, q': Book, c: Chain) {
    forall a :: Overdue(p', q', c, a) ==> Overdue(p, q, c, a)
  }

  lemma FewerByParts(p: Book, q: Book, p': Book, q': Book, c: Chain, live: set<Tx>)
    requires Consistent(p, q, live)
    requires forall a :: At(p', a).Keys <= At(p, a).Keys && At(q', a).Keys <= At(q, a).Keys
    ensures FewerOverdue(p, q, p', q', c)
  {
    forall a | Overdue(p', q', c, a) ensures Overdue(p, q, c, a) {
      assert AccountOk(p, q, live, a);
      NoneMoreOverdue(p, q, p', q', c, a);
    }
  }

  /** All accounts from the old head to the new one. */
  lemma AllOverdueExactly(p0: Book, q0: Book, n0: map<Address, nat>, c0: Chain, p1: Book, q1: Book, n1: map<Address, nat>, p2: Book, q2: Book,
                          c: Chain, locals: set<Address>, limit: nat, accounts: seq<Address>, live0: set<Tx>, live1: set<Tx>)
    requires Consistent(p0, q0, live0) && Consistent(p1, q1, live1) && limit >= 1
    requires AllExecutable(p0, n0, c0) && forall a :: c0.Nonce(a) <= c.Nonce(a)
    requires Batched(p0, q0, map[], p1, q1, n1, c, locals, limit, accounts)
    requires AllDifferent(accounts) && forall a :: a in accounts <==> a in q0
    requires Demoting(p1, q1, p2, q2, c, {})
    ensures forall a :: Overdue(p2, q2, c, a) <==> Late(p0, q0, PendingNonce(n0, c0, a), c, a)
  {
    forall a ensures Overdue(p2, q2, c, a) <==> Late(p0, q0, PendingNonce(n0, c0, a), c, a) {
      var cap, none: map<Address, nat> := CapOf(locals, limit, a), map[];
      assert Executable(p0, n0, c0, a) && DemotedAt(p1, q1, p2, q2, c, a);
      assert PendingNonce(none, c, a) == c.Nonce(a);
      if a in q0 {
        assert PromotedAt(p0, q0, PendingNonce(none, c, a), p1, q1, c, a, cap);
      } else {
        assert Unmoved(p0, q0, none, p1, q1, n1, c, a);
        NothingQueued(p0, q0, c.Nonce(a), c, a, cap);
      }
      OverdueExactly(p0, q0, n0, c0, p1, q1, p2, q2, c, a, live0, live1, cap);
    }
  }

  /** Without a new head nothing is left behind. */
  lemma CaughtUp(p: Book, q: Book, noncer: map<Address, nat>, p': Book, q': Book, c: Chain, live: set<Tx>)
    requires Consistent(p, q, live) && AllExecutable(p, noncer, c)
    requires forall a :: PendingNonce(noncer, c, a) !in At(q, a)
    requires Demoting(p, q, p', q', c, {})
    ensures forall a :: !Overdue(p', q', c, a)
  {
    forall a ensures !Overdue(p', q', c, a) {
      assert AccountOk(p, q, live, a) && Executable(p, noncer, c, a) && DemotedAt(p, q, p', q', c, a);
      assert From(At(p, a), c.Nonce(a)) == At(p, a);
      DemotedOverdue(p, q, p', q', c, a, PendingNonce(noncer, c, a));
    }
  }

  /**
   A transaction queued right behind the account's only pending one when a new head comes: the pending nonce
   starts over at the chain's, so the run promotes nothing.
   */
  lemma LeftBehind(c: Chain, a: Address, t: Tx, u: Tx, p: Book, q: Book)
    requires c.Nonce(a) == 0 && t.nonce == 0 && u.nonce == 1 && t.from == u.from == a && t.signed && u.signed
    requires !Over(c.Balance(a), c.maxGas)(t) && !Over(c.Balance(a), c.maxGas)(u)
    requires p == map[a := NewList(true).Added(t)] && q == map[a := NewList(false).Added(u)]
    requires forall x :: c.Nonce(x) == 0
    ensures AllExecutable(p, map[a := 1], c) && Late(p, q, 1, c, a) && Overdue(p, q, c, a)
    ensures Moved(UsableOf(q, c, a), PendingNonce(map[], c, a), At(p, a), At(p, a), At(q, a), None)
  {
    var m := At(q, a);
    assert At(p, a) == map[0 := t] && m == map[1 := u];
    RunEndIs(At(p, a), 0, 1);
    FilterShortcut(q[a].Forwarded(0), c.Balance(a), c.maxGas);
    assert UsableOf(q, c, a) == m;
    assert MinKey(m.Keys) == 1;
    assert Below(m, 0) == map[] && From(m, 0) == m;
    assert At(p, a) + map[] == At(p, a);
    forall x ensures Executable(p, map[a := 1], c, x) {
    }
  }
}
