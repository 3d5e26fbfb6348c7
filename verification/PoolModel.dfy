/**
 The pool's data as values: what its five views must agree on, and how one account's
 step keeps them in agreement.
 */
module PoolModel {
  import opened Transactions
  import opened NonceMaps
  import opened TxLists

  /** One list per account that has transactions. */
  type Book = map<Address, AccountList>

  function At(b: Book, a: Address): (m: Items) {
    if a in b then b[a].items else map[]
  }

  function ListOf(b: Book, a: Address, strict: bool): (l: AccountList) {
    if a in b then b[a] else NewList(strict)
  }

  /** Stores a list, or deletes the account's entry when the list is empty. */
  function SetList(b: Book, a: Address, l: AccountList): (r: Book) {
    if l.items == map[] then b - {a} else b[a := l]
  }

  predicate Has(m: Items, t: Tx) {
    t.nonce in m && m[t.nonce] == t
  }

  ghost predicate Owned(m: Items, a: Address) {
    forall n :: n in m ==> m[n].from == a && m[n].signed
  }

  /** A stored list is not empty, has the right mode and bounds, and belongs to its account. */
  ghost predicate ListOk(b: Book, a: Address, strict: bool) {
    a in b ==> b[a].strict == strict && b[a].items != map[] && b[a].Ok() && Owned(b[a].items, a)
  }

  /** Account `a`'s pending and queued lists share no nonce, and together are its live transactions. */
  ghost predicate AccountOk(p: Book, q: Book, live: set<Tx>, a: Address) {
    && ListOk(p, a, true)
    && ListOk(q, a, false)
    && At(p, a).Keys !! At(q, a).Keys
    && (forall t: Tx :: t.from == a ==> (t in live <==> Has(At(p, a), t) || Has(At(q, a), t)))
  }

  /** The lookup table is the disjoint union of pending and queue. */
  ghost predicate Consistent(p: Book, q: Book, live: set<Tx>) {
    forall a :: AccountOk(p, q, live, a)
  }

  /** No account is listed twice. */
  ghost predicate AllDifferent(accounts: seq<Address>) {
    forall i, j :: 0 <= i < j < |accounts| ==> accounts[i] != accounts[j]
  }

  /** The same lists everywhere but at account `a`. */
  ghost predicate SameBut(b: Book, c: Book, a: Address) {
    forall x :: x != a ==> (x in b <==> x in c) && (x in b ==> b[x] == c[x])
  }

  function Txs(m: Items): (s: set<Tx>) {
    m.Values
  }

  /** Filed under distinct nonces, the transactions are as many as the nonces. */
  lemma {:induction false} TxsSize(m: Items)
    requires Keyed(m)
    ensures |Txs(m)| == |m|
    decreases |m.Keys|
  {
    if m.Keys == {} {
      assert m.Values == {};
    } else {
      var n :| n in m.Keys;
      var rest := m - {n};
      TxsSize(rest);
      assert |rest.Keys| == |m.Keys| - 1 by { assert rest.Keys == m.Keys - {n}; }
      forall t ensures t in m.Values <==> t in rest.Values || t == m[n] {
        TxsHas(m, t);
        TxsHas(rest, t);
      }
      TxsHas(rest, m[n]);
      assert m.Values == rest.Values + {m[n]};
    }
  }

  lemma TxsHas(m: Items, t: Tx)
    requires Keyed(m)
    ensures t in Txs(m) <==> Has(m, t)
  {
    if t in m.Values {
      var n :| n in m && m[n] == t;
    }
  }

  /** Whatever is done to one account alone keeps the others consistent. */
  lemma AccountStep(p: Book, q: Book, live: set<Tx>, p': Book, q': Book, live': set<Tx>, a: Address)
    requires Consistent(p, q, live)
    requires SameBut(p, p', a) && SameBut(q, q', a)
    requires forall t: Tx :: t.from != a ==> (t in live <==> t in live')
    requires AccountOk(p', q', live', a)
    ensures Consistent(p', q', live')
  {
    forall x ensures AccountOk(p', q', live', x) {
      assert AccountOk(p, q, live, x);
      if x != a {
        assert At(p', x) == At(p, x) && At(q', x) == At(q, x);
      }
    }
  }

  /** A live transaction is in exactly the list its account and nonce say. */
  lemma WhereIs(p: Book, q: Book, live: set<Tx>, t: Tx)
    requires Consistent(p, q, live)
    ensures t in live <==> Has(At(p, t.from), t) || Has(At(q, t.from), t)
    ensures t in live ==> t.signed
    ensures !(Has(At(p, t.from), t) && Has(At(q, t.from), t))
  {
    assert AccountOk(p, q, live, t.from);
  }

  // ---------- executability ----------

  /** The chain state the pool works against. */
  datatype Chain = Chain(nonces: map<Address, nat>, balances: map<Address, int>, maxGas: nat) {
    function Nonce(a: Address): (n: nat) {
      if a in nonces then nonces[a] else 0
    }

    function Balance(a: Address): (v: int) {
      if a in balances then balances[a] else 0
    }
  }

  /** The pending nonce of an account: the tracked one, else the chain's. */
  function PendingNonce(noncer: map<Address, nat>, c: Chain, a: Address): (n: nat) {
    if a in noncer then noncer[a] else c.Nonce(a)
  }

  /** The account can pay for each transaction on its own. */
  ghost predicate Payable(m: Items, c: Chain, a: Address) {
    forall n :: n in m ==> !Over(c.Balance(a), c.maxGas)(m[n])
  }

  /** No gaps from `lo` up. */
  ghost predicate Steady(m: Items, lo: nat) {
    forall n :: n in m ==> lo <= n && forall k: nat :: lo <= k < n ==> k in m
  }

  /**
   Account `a`'s pending nonces are exactly those from the chain's nonce up to the pending
   nonce, and it can pay for each of them.
   */
  ghost predicate Executable(p: Book, noncer: map<Address, nat>, c: Chain, a: Address) {
    && Spans(At(p, a), c.Nonce(a), PendingNonce(noncer, c, a))
    && Payable(At(p, a), c, a)
  }

  /**
   Between a reset and the demotion: from the new chain nonce up there are no gaps, and
   either nothing was promoted yet or what was promoted is all there is, and payable.
   */
  ghost predicate Settling(p: Book, noncer: map<Address, nat>, c: Chain, a: Address) {
    var live := From(At(p, a), c.Nonce(a));
    && Steady(live, c.Nonce(a))
    && (PendingNonce(noncer, c, a) == c.Nonce(a)
        || (Spans(live, c.Nonce(a), PendingNonce(noncer, c, a)) && Payable(live, c, a)))
  }

  /** After the demotion: no gaps, all payable; the pending nonce is right or still the chain's. */
  ghost predicate Settled(p: Book, noncer: map<Address, nat>, c: Chain, a: Address) {
    && Steady(At(p, a), c.Nonce(a))
    && Payable(At(p, a), c, a)
    && (PendingNonce(noncer, c, a) == c.Nonce(a) || Spans(At(p, a), c.Nonce(a), PendingNonce(noncer, c, a)))
  }

  ghost predicate AllExecutable(p: Book, noncer: map<Address, nat>, c: Chain) {
    forall a :: Executable(p, noncer, c, a)
  }

  ghost predicate AllSettling(p: Book, noncer: map<Address, nat>, c: Chain) {
    forall a :: Settling(p, noncer, c, a)
  }

  ghost predicate AllSettled(p: Book, noncer: map<Address, nat>, c: Chain) {
    forall a :: Settled(p, noncer, c, a)
  }

  /** A head that does not lower any account's nonce leaves executable lists settling. */
  lemma ResetSettles(p: Book, noncer: map<Address, nat>, c: Chain, c': Chain)
    requires AllExecutable(p, noncer, c)
    requires forall a :: c.Nonce(a) <= c'.Nonce(a)
    ensures AllSettling(p, map[], c')
  {
    forall a ensures Settling(p, map[], c', a) {
      assert Executable(p, noncer, c, a);
    }
  }

  lemma ExecutableSettles(p: Book, noncer: map<Address, nat>, c: Chain, a: Address)
    requires Executable(p, noncer, c, a)
    ensures Settling(p, noncer, c, a) && Settled(p, noncer, c, a)
  {
    assert From(At(p, a), c.Nonce(a)) == At(p, a);
  }
}
