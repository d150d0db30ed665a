/** Sums over maps and sequences, used to account for every chip on the chain. */
module LedgerSums {

  ghost function SumMap<K(!new)>(m: map<K, nat>): nat
    decreases |m|
  {
    if m == map[] then 0
    else
      var k :| k in m;
      m[k] + SumMap(m - {k})
  }

  /** Any key can be taken out first. */
  lemma {:induction false} SumRemove<K(!new)>(m: map<K, nat>, k: K)
    requires k in m
    ensures SumMap(m) == m[k] + SumMap(m - {k})
    decreases |m|
  {
    var j :| j in m && SumMap(m) == m[j] + SumMap(m - {j});
    if j != k {
      SumRemove(m - {j}, k);
      SumRemove(m - {k}, j);
      assert m - {j} - {k} == m - {k} - {j};
    }
  }

  lemma SumSet<K(!new)>(m: map<K, nat>, k: K, v: nat)
    ensures SumMap(m[k := v]) + (if k in m then m[k] else 0) == SumMap(m) + v
  {
    var n := m[k := v];
    SumRemove(n, k);
    if k in m {
      SumRemove(m, k);
      assert n - {k} == m - {k};
    } else {
      assert n - {k} == m;
    }
  }
}
