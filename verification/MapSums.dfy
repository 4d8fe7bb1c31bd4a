/** Totals over finite maps. */
module MapSums {

  ghost function Pick<K, V>(m: map<K, V>): (k: K)
    requires m != map[]
    ensures k in m
  {
    assert m.Keys != {};
    var k :| k in m;
    k
  }

  ghost function Sum<K, V>(m: map<K, V>, f: V -> nat): nat
    decreases |m|
  {
    if m == map[] then 0
    else var k := Pick(m); f(m[k]) + Sum(m - {k}, f)
  }

  /** The order of summation does not matter. */
  lemma {:induction false} SumAny<K, V>(m: map<K, V>, f: V -> nat, k: K)
    requires k in m
    ensures Sum(m, f) == f(m[k]) + Sum(m - {k}, f)
    decreases |m|
  {
    var j := Pick(m);
    if j != k {
      SumAny(m - {j}, f, k);
      SumAny(m - {k}, f, j);
      assert m - {j} - {k} == m - {k} - {j};
    }
  }

  lemma SumUpdate<K, V>(m: map<K, V>, f: V -> nat, k: K, v: V)
    ensures Sum(m[k := v], f) == Sum(m, f) + f(v) - (if k in m then f(m[k]) else 0)
  {
    SumAny(m[k := v], f, k);
    assert m[k := v] - {k} == m - {k};
    if k in m {
      SumAny(m, f, k);
    } else {
      assert m - {k} == m;
    }
  }

  lemma SumRemove<K, V>(m: map<K, V>, f: V -> nat, k: K)
    requires k in m
    ensures Sum(m - {k}, f) == Sum(m, f) - f(m[k])
  {
    SumAny(m, f, k);
  }

  /** Entries that add nothing may come and go. */
  lemma {:induction false} SumSame<K, V>(m: map<K, V>, n: map<K, V>, f: V -> nat)
    requires m.Keys <= n.Keys
    requires forall k :: k in n ==> f(n[k]) == if k in m then f(m[k]) else 0
    ensures Sum(n, f) == Sum(m, f)
    decreases |n|
  {
    if n == map[] {
      assert m == map[];
    } else {
      var k := Pick(n);
      if k in m {
        SumAny(m, f, k);
        SumSame(m - {k}, n - {k}, f);
      } else {
        SumSame(m, n - {k}, f);
      }
    }
  }

  lemma SumEmpty<K, V>(m: map<K, V>, f: V -> nat)
    requires m == map[]
    ensures Sum(m, f) == 0
  {
  }
}
