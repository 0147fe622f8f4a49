/** Sums over the values of a map: a book's dollars, in whatever order they are added. */
module Totals {

  ghost function Total<K(!new)>(m: map<K, real>): real {
    if m == map[] then 0.0
    else
      var k :| k in m;
      m[k] + Total(m - {k})
  }

  /** Any key may be the one taken out first. */
  lemma {:induction false} TotalTakes<K(!new)>(m: map<K, real>, k: K)
    requires k in m
    ensures Total(m) == m[k] + Total(m - {k})
    decreases |m|
  {
    var j :| j in m && Total(m) == m[j] + Total(m - {j});
    if j != k {
      TotalTakes(m - {j}, k);
      TotalTakes(m - {k}, j);
      assert m - {j} - {k} == m - {k} - {j};
    }
  }

  lemma TotalPuts<K(!new)>(m: map<K, real>, k: K, v: real)
    ensures Total(m[k := v]) == v + Total(m - {k})
    ensures k in m ==> Total(m[k := v]) == Total(m) - m[k] + v
    ensures k !in m ==> Total(m[k := v]) == Total(m) + v
  {
    TotalTakes(m[k := v], k);
    assert m[k := v] - {k} == m - {k};
    if k in m {
      TotalTakes(m, k);
    } else {
      assert m - {k} == m;
    }
  }
}
