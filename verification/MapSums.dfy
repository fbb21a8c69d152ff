/** Sums over finite maps, independent of the order in which a loop visits the keys. */
module MapSums {

  ghost function Sum<K(!new), V>(m: map<K, V>, f: V -> nat): nat {
    if m == map[] then 0
    else
      var k :| k in m;
      f(m[k]) + Sum(m - {k}, f)
  }

  lemma {:induction false} SumWithout<K(!new), V>(m: map<K, V>, f: V -> nat, k: K)
    requires k in m
    ensures Sum(m, f) == f(m[k]) + Sum(m - {k}, f)
    decreases |m|
  {
    var j :| j in m && Sum(m, f) == f(m[j]) + Sum(m - {j}, f);
    if j != k {
      SumWithout(m - {j}, f, k);
      SumWithout(m - {k}, f, j);
      assert m - {j} - {k} == m - {k} - {j};
    }
  }

  lemma SumWith<K(!new), V>(m: map<K, V>, f: V -> nat, k: K, v: V)
    requires k !in m
    ensures Sum(m[k := v], f) == f(v) + Sum(m, f)
  {
    SumWithout(m[k := v], f, k);
    assert m[k := v] - {k} == m;
  }

  lemma SumShrinks<K(!new), V>(m: map<K, V>, f: V -> nat, k: K)
    ensures Sum(m - {k}, f) <= Sum(m, f)
  {
    if k in m {
      SumWithout(m, f, k);
    } else {
      assert m - {k} == m;
    }
  }
}
