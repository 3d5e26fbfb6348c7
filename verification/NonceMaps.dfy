/**
 What an account's transactions look like as a plain map from nonces, and the operations
 the transaction lists are specified by.
 */
module NonceMaps {
  import opened Transactions

  type Items = map<nat, Tx>

  /** Every transaction is filed under its own nonce. */
  ghost predicate Keyed(m: Items) {
    forall n :: n in m ==> m[n].nonce == n
  }

  // ---------- least and greatest nonces ----------

  lemma {:induction false} Least(s: set<nat>) returns (m: nat)
    requires s != {}
    ensures m in s && forall x :: x in s ==> m <= x
    decreases |s|
  {
    m :| m in s;
    var rest := s - {m};
    if rest != {} {
      var y := Least(rest);
      assert forall x :: x in s ==> x == m || x in rest;
      m := if m <= y then m else y;
    } else {
      assert s == {m};
    }
  }

  lemma {:induction false} Greatest(s: set<nat>) returns (m: nat)
    requires s != {}
    ensures m in s && forall x :: x in s ==> x <= m
    decreases |s|
  {
    m :| m in s;
    var rest := s - {m};
    if rest != {} {
      var y := Greatest(rest);
      assert forall x :: x in s ==> x == m || x in rest;
      m := if y <= m then m else y;
    } else {
      assert s == {m};
    }
  }

  function MinKey(s: set<nat>): (m: nat)
    requires s != {}
    ensures m in s && forall x :: x in s ==> m <= x
  {
    assert exists m :: m in s && forall x :: x in s ==> m <= x by { var m := Least(s); }
    var m :| m in s && forall x :: x in s ==> m <= x;
    m
  }

  function MaxKey(s: set<nat>): (m: nat)
    requires s != {}
    ensures m in s && forall x :: x in s ==> x <= m
  {
    assert exists m :: m in s && forall x :: x in s ==> x <= m by { var m := Greatest(s); }
    var m :| m in s && forall x :: x in s ==> x <= m;
    m
  }

  lemma SubsetSize<T>(a: set<T>, b: set<T>)
    requires a <= b
    ensures |a| <= |b|
    ensures |a| == |b| ==> a == b
  {
    assert b == a + (b - a);
    assert |b| == |a| + |b - a|;
  }

  // ---------- nonce order ----------

  /** `txs` holds every transaction of `m` and nothing else. */
  ghost predicate Covers(txs: seq<Tx>, m: Items) {
    forall t {:trigger t in txs} :: t in txs <==> t.nonce in m && m[t.nonce] == t
  }

  /** No nonce comes twice. */
  ghost predicate Distinct(txs: seq<Tx>) {
    forall i, j :: 0 <= i < j < |txs| ==> txs[i].nonce != txs[j].nonce
  }

  ghost predicate Increasing(txs: seq<Tx>) {
    forall i, j :: 0 <= i < j < |txs| ==> txs[i].nonce < txs[j].nonce
  }

  ghost predicate Decreasing(txs: seq<Tx>) {
    forall i, j :: 0 <= i < j < |txs| ==> txs[i].nonce > txs[j].nonce
  }

  /** `txs` lists each transaction of `m` once, in whatever order. */
  ghost predicate Lists(txs: seq<Tx>, m: Items) {
    Covers(txs, m) && Distinct(txs)
  }

  /** `txs` lists the transactions of `m` in nonce order. */
  ghost predicate Flat(txs: seq<Tx>, m: Items) {
    Covers(txs, m) && Increasing(txs)
  }

  lemma {:induction false} ListsSize(txs: seq<Tx>, m: Items)
    requires Keyed(m) && Lists(txs, m)
    ensures |txs| == |m|
    decreases |txs|
  {
    assert forall n :: n in m ==> m[n] in txs;
    if txs == [] {
      assert m.Keys == {};
    } else {
      ListsTail(txs, m);
      ListsSize(txs[1..], m - {txs[0].nonce});
      assert |m.Keys - {txs[0].nonce}| == |m.Keys| - 1;
    }
  }

  lemma ListsTail(txs: seq<Tx>, m: Items)
    requires Lists(txs, m) && txs != []
    ensures txs[0].nonce in m && m[txs[0].nonce] == txs[0]
    ensures Lists(txs[1..], m - {txs[0].nonce})
  {
    assert txs[0] in txs;
    forall t ensures t in txs[1..] <==> t.nonce in m - {txs[0].nonce} && m[t.nonce] == t {
      if t in txs[1..] {
        var i :| 0 <= i < |txs[1..]| && txs[1..][i] == t;
        assert t == txs[i + 1];
      }
      if t in txs && t.nonce != txs[0].nonce {
        var i :| 0 <= i < |txs| && txs[i] == t;
        assert t == txs[1..][i - 1];
      }
    }
  }

  /** There is only one nonce-ordered listing. */
  lemma {:induction false} FlatUnique(a: seq<Tx>, b: seq<Tx>, m: Items)
    requires Flat(a, m) && Flat(b, m)
    ensures a == b
    decreases |a|
  {
    assert forall t :: t in a <==> t in b;
    HasFirst(a);
    HasFirst(b);
    if a != [] && b != [] {
      assert a[0] in a && b[0] in b;
      ListsTail(a, m);
      ListsTail(b, m);
      FlatUnique(a[1..], b[1..], m - {a[0].nonce});
    }
  }

  lemma HasFirst(a: seq<Tx>)
    ensures a == [] || exists t :: t in a
  {
    if a != [] {
      assert a[0] in a;
    }
  }

  /** A nonce-ordered listing can be cut at any nonce. */
  lemma {:induction false} FlatCut(c: seq<Tx>, m: Items, t: nat) returns (k: nat)
    requires Flat(c, m)
    ensures k <= |c|
    ensures Flat(c[..k], Below(m, t)) && Flat(c[k..], From(m, t))
  {
    k := 0;
    while k < |c| && c[k].nonce < t
      invariant 0 <= k <= |c|
      invariant forall i :: 0 <= i < k ==> c[i].nonce < t
    {
      k := k + 1;
    }
    forall x ensures x in c[..k] <==> x.nonce in Below(m, t) && m[x.nonce] == x {
      if x in c && x.nonce < t {
        var i :| 0 <= i < |c| && c[i] == x;
        assert i < k;
        assert c[..k][i] == x;
      }
    }
    forall x ensures x in c[k..] <==> x.nonce in From(m, t) && m[x.nonce] == x {
      if x in c && t <= x.nonce {
        var i :| 0 <= i < |c| && c[i] == x;
        assert k <= i;
        assert c[k..][i - k] == x;
      }
    }
  }

  // ---------- the operations ----------

  /** The transactions below / from a nonce on. */
  function Below(m: Items, t: nat): (r: Items) {
    map n | n in m && n < t :: m[n]
  }

  function From(m: Items, t: nat): (r: Items) {
    map n | n in m && t <= n :: m[n]
  }

  /** The transactions for which `p` holds / does not hold. */
  function Where(m: Items, p: Tx -> bool): (r: Items) {
    map n | n in m && p(m[n]) :: m[n]
  }

  function Except(m: Items, p: Tx -> bool): (r: Items) {
    map n | n in m && !p(m[n]) :: m[n]
  }

  /** The `k` least members of `s`. */
  function LowestKeys(s: set<nat>, k: nat): (r: set<nat>)
    ensures r <= s
    ensures |r| == if |s| <= k then |s| else k
    ensures forall x, y :: x in r && y in s && y !in r ==> x < y
    decreases |s|
  {
    if |s| <= k then s else
    var rest := s - {MaxKey(s)};
    assert forall y :: y in s ==> y == MaxKey(s) || y in rest;
    LowestKeys(rest, k)
  }

  /** The `k` transactions with the lowest nonces. */
  function KeepLowest(m: Items, k: nat): (r: Items)
    ensures r.Keys == LowestKeys(m.Keys, k)
    ensures forall n :: n in r ==> r[n] == m[n]
  {
    map n | n in LowestKeys(m.Keys, k) :: m[n]
  }

  /** The transactions above the `k` lowest. */
  function DropLowest(m: Items, k: nat): (r: Items) {
    m - LowestKeys(m.Keys, k)
  }

  /** The first nonce from `n` on that is not in `keys`. */
  function RunEnd(keys: set<nat>, n: nat): (e: nat)
    ensures n <= e && e !in keys
    ensures forall i: nat :: n <= i < e ==> i in keys
    decreases |keys|
  {
    if n in keys then
      var rest := keys - {n};
      var e := RunEnd(rest, n + 1);
      assert keys == rest + {n};
      e
    else n
  }

  /** Where the executable run starting at the lowest nonce ends; no run if that nonce is above `start`. */
  function ReadyEnd(m: Items, start: nat): (e: nat) {
    if m == map[] || start < MinKey(m.Keys) then 0 else RunEnd(m.Keys, MinKey(m.Keys))
  }

  /** A subset with the size and the order of `LowestKeys` is `LowestKeys`. */
  lemma LowestKeysUnique(s: set<nat>, k: nat, r: set<nat>)
    requires r <= s
    requires |r| == if |s| <= k then |s| else k
    requires forall x, y :: x in r && y in s && y !in r ==> x < y
    ensures r == LowestKeys(s, k)
  {
    var low := LowestKeys(s, k);
    if !(r <= low) {
      var x :| x in r && x !in low;
      assert low <= r - {x};
      SubsetSize(low, r - {x});
    } else {
      SubsetSize(r, low);
    }
  }

  /** Cutting to one less drops the greatest nonce. */
  lemma KeepAllButOne(m: Items)
    requires m != map[]
    ensures KeepLowest(m, |m| - 1) == m - {MaxKey(m.Keys)}
  {
    var top := MaxKey(m.Keys);
    LowestKeysUnique(m.Keys, |m| - 1, m.Keys - {top});
  }

  /** Cutting in two stages is the same as cutting once. */
  lemma KeepLowestTwice(m: Items, j: nat, k: nat)
    requires k <= j
    ensures KeepLowest(KeepLowest(m, j), k) == KeepLowest(m, k)
  {
    var a := LowestKeys(m.Keys, j);
    LowestKeysUnique(m.Keys, k, LowestKeys(a, k));
  }
}
