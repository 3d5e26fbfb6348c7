/** Sums over finite maps: account balances and list lengths. */
module Sums {

  function Get(m: map<nat, int>, k: nat): (v: int) {
    if k in m then m[k] else 0
  }

  ghost function Sum(m: map<nat, int>): int
    decreases |m.Keys|
  {
    if m == map[] then 0 else
    var k :| k in m;
    m[k] + Sum(m - {k})
  }

  /** Any key may be taken out first. */
  lemma {:induction false} SumRemove(m: map<nat, int>, k: nat)
    requires k in m
    ensures Sum(m) == m[k] + Sum(m - {k})
    decreases |m.Keys|
  {
    assert m != map[];
    var j :| j in m && Sum(m) == m[j] + Sum(m - {j});
    if j != k {
      SumRemove(m - {j}, k);
      SumRemove(m - {k}, j);
      assert m - {j} - {k} == m - {k} - {j};
    }
  }

  lemma SumUpdate(m: map<nat, int>, k: nat, v: int)
    ensures Sum(m[k := v]) == Sum(m) - Get(m, k) + v
  {
    SumRemove(m[k := v], k);
    assert m[k := v] - {k} == m - {k};
    if k in m {
      SumRemove(m, k);
    } else {
      assert m - {k} == m;
    }
  }

  /** Pointwise comparison carries over to the sums, strictly if it is strict somewhere. */
  lemma {:induction false} SumMonotone(m: map<nat, int>, n: map<nat, int>)
    requires m.Keys == n.Keys
    requires forall k :: k in m ==> m[k] <= n[k]
    ensures Sum(m) <= Sum(n)
    ensures (exists k :: k in m && m[k] < n[k]) ==> Sum(m) < Sum(n)
    decreases |m.Keys|
  {
    if m == map[] {
      assert n == map[];
    } else {
      var k :| k in m;
      if j :| j in m && m[j] < n[j] {
        SumRemove(m, j);
        SumRemove(n, j);
        SumMonotone(m - {j}, n - {j});
      } else {
        SumRemove(m, k);
        SumRemove(n, k);
        SumMonotone(m - {k}, n - {k});
      }
    }
  }
}
