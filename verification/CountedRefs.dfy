/** Sums of reference multisets over the entries of a map. */
module CountedRefs {

  ghost function Total<K>(m: map<K, multiset<nat>>): multiset<nat> {
    if m == map[] then multiset{}
    else
      var k :| k in m;
      m[k] + Total(m - {k})
  }

  /** The order in which entries are added does not matter. */
  lemma {:induction false} TotalSplit<K>(m: map<K, multiset<nat>>, k: K)
    requires k in m
    ensures Total(m) == m[k] + Total(m - {k})
  {
    var j :| j in m && Total(m) == m[j] + Total(m - {j});
    if j != k {
      TotalSplit(m - {j}, k);
      TotalSplit(m - {k}, j);
      assert m - {j} - {k} == m - {k} - {j};
    }
  }

  lemma TotalUpdate<K>(m: map<K, multiset<nat>>, k: K, v: multiset<nat>)
    ensures Total(m[k := v]) == v + Total(m - {k})
  {
    TotalSplit(m[k := v], k);
    assert m[k := v] - {k} == m - {k};
  }

  /** A reference is some entry's. */
  lemma {:induction false} TotalHas<K>(m: map<K, multiset<nat>>, x: nat)
    requires Total(m)[x] > 0
    ensures exists k :: k in m && m[k][x] > 0
    decreases m.Keys
  {
    var k :| k in m && Total(m) == m[k] + Total(m - {k});
    if m[k][x] == 0 {
      TotalHas(m - {k}, x);
    }
  }

  lemma TotalAtLeast<K>(m: map<K, multiset<nat>>, k: K, x: nat)
    requires k in m
    ensures Total(m)[x] >= m[k][x]
  {
    TotalSplit(m, k);
  }
}
