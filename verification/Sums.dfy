/** Sums over the values of a finite map. */
module Sums {

  ghost function Total<K, V>(f: V -> int, m: map<K, V>): int
    decreases |m|
  {
    if m == map[] then 0
    else
      var k :| k in m;
      f(m[k]) + Total(f, m - {k})
  }

  /** The sum does not depend on which key is taken first. */
  lemma {:induction false} TotalRemove<K, V>(f: V -> int, m: map<K, V>, k: K)
    requires k in m
    ensures Total(f, m) == f(m[k]) + Total(f, m - {k})
    decreases |m|
  {
    var j :| j in m && Total(f, m) == f(m[j]) + Total(f, m - {j});
    if j != k {
      TotalRemove(f, m - {j}, k);
      TotalRemove(f, m - {k}, j);
      assert m - {j} - {k} == m - {k} - {j};
    }
  }

  lemma TotalUpdate<K, V>(f: V -> int, m: map<K, V>, k: K, v: V)
    ensures Total(f, m[k := v]) == Total(f, m - {k}) + f(v)
    ensures Total(f, m - {k}) == Total(f, m) - if k in m then f(m[k]) else 0
  {
    TotalRemove(f, m[k := v], k);
    assert m[k := v] - {k} == m - {k};
    if k in m {
      TotalRemove(f, m, k);
    } else {
      assert m - {k} == m;
    }
  }
}
