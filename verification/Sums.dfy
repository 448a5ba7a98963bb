/** The sum of the values of a map, for byte accounting. */
module Sums {
  ghost function Total<K>(m: map<K, nat>): nat
  {
    if m == map[] then 0 else
    var k :| k in m;
    m[k] + Total(m - {k})
  }

  lemma {:induction false} TotalSplit<K>(m: map<K, nat>, k: K)
    requires k in m
    ensures Total(m) == m[k] + Total(m - {k})
  {
    var j :| j in m && Total(m) == m[j] + Total(m - {j});
    if j != k {
      TotalSplit(m - {j}, k);
      TotalSplit(m - {k}, j);
      assert m - {j} - {k} == m - {k} - {j};
    }
  }

  lemma TotalAdd<K>(m: map<K, nat>, k: K, v: nat)
    requires k !in m
    ensures Total(m[k := v]) == Total(m) + v
  {
    TotalSplit(m[k := v], k);
    assert m[k := v] - {k} == m;
  }
}
