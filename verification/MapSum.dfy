/** Sums over finite maps, independent of the order keys are taken in. */
module MapSum {

  ghost function Total<K(!new), V(!new)>(m: map<K, V>, f: (K, V) -> nat): nat
    decreases |m|
  {
    if m == map[] then 0
    else
      var k :| k in m;
      f(k, m[k]) + Total(m - {k}, f)
  }

  /** Any key may be taken out first. */
  lemma {:induction false} TotalTakeOut<K(!new), V(!new)>(m: map<K, V>, f: (K, V) -> nat, k: K)
    requires k in m
    ensures Total(m, f) == f(k, m[k]) + Total(m - {k}, f)
    decreases |m|
  {
    var j :| j in m && Total(m, f) == f(j, m[j]) + Total(m - {j}, f);
    if j != k {
      TotalTakeOut(m - {j}, f, k);
      TotalTakeOut(m - {k}, f, j);
      assert m - {j} - {k} == m - {k} - {j};
    }
  }

  lemma TotalPut<K(!new), V(!new)>(m: map<K, V>, f: (K, V) -> nat, k: K, v: V)
    ensures Total(m[k := v], f) == Total(m - {k}, f) + f(k, v)
    ensures Total(m, f) == Total(m - {k}, f) + (if k in m then f(k, m[k]) else 0)
  {
    TotalTakeOut(m[k := v], f, k);
    assert m[k := v] - {k} == m - {k};
    if k in m {
      TotalTakeOut(m, f, k);
    } else {
      assert m - {k} == m;
    }
  }

  lemma {:induction false} TotalZero<K(!new), V(!new)>(m: map<K, V>, f: (K, V) -> nat)
    requires forall k :: k in m ==> f(k, m[k]) == 0
    ensures Total(m, f) == 0
    decreases |m|
  {
    if m != map[] {
      var k :| k in m;
      TotalTakeOut(m, f, k);
      TotalZero(m - {k}, f);
    }
  }
}
