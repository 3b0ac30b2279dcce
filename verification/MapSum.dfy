/**
 Sums over a finite map of numbers.
 */
module MapSum {

  ghost function Sum<K>(m: map<K, int>): int
    decreases |m|
  {
    if m == map[] then 0
    else
      var k :| k in m;
      m[k] + Sum(m - {k})
  }

  /** The sum splits at any key, not only at the one the definition happens to pick. */
  lemma {:induction false} SumAt<K>(m: map<K, int>, k: K)
    requires k in m
    ensures Sum(m) == m[k] + Sum(m - {k})
    decreases |m|
  {
    var j :| j in m && Sum(m) == m[j] + Sum(m - {j});
    if j != k {
      SumAt(m - {j}, k);
      SumAt(m - {k}, j);
      assert m - {j} - {k} == m - {k} - {j};
    }
  }

  /** Storing a number under a key, whether or not the key was there. */
  lemma SumStore<K>(m: map<K, int>, k: K, v: int)
    ensures Sum(m[k := v]) == Sum(m - {k}) + v
  {
    SumAt(m[k := v], k);
    assert m[k := v] - {k} == m - {k};
  }
}
