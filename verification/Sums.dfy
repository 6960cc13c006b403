/** Sums over finite maps, for counters that total what many threads hold. */
module Sums {
  ghost function Sum<K>(m: map<K, nat>): nat
    decreases |m|
  {
    if m == map[] then 0
    else
      var k :| k in m;
      assert |m - {k}| < |m| by { Smaller(m, k); }
      m[k] + Sum(m - {k})
  }

  lemma Smaller<K, V>(m: map<K, V>, k: K)
    requires k in m
    ensures |m - {k}| == |m| - 1
  {
    assert (m - {k}).Keys == m.Keys - {k};
    assert |m.Keys| == |m|;
    assert |(m - {k}).Keys| == |m - {k}|;
  }

  lemma {:induction false} SumWithout<K>(m: map<K, nat>, k: K)
    requires k in m
    ensures Sum(m) == m[k] + Sum(m - {k})
    decreases |m|
  {
    var j :| j in m && Sum(m) == m[j] + Sum(m - {j});
    if j != k {
      Smaller(m, j);
      Smaller(m, k);
      SumWithout(m - {j}, k);
      SumWithout(m - {k}, j);
      assert m - {j} - {k} == m - {k} - {j};
    }
  }

  /** Setting one entry changes the sum by the difference. */
  lemma SumSet<K>(m: map<K, nat>, k: K, v: nat)
    ensures k in m ==> Sum(m[k := v]) == Sum(m) - m[k] + v && m[k] <= Sum(m)
    ensures k !in m ==> Sum(m[k := v]) == Sum(m) + v
  {
    SumWithout(m[k := v], k);
    assert m[k := v] - {k} == m - {k};
    if k in m {
      SumWithout(m, k);
    } else {
      assert m - {k} == m;
    }
  }

  lemma {:induction false} SumOfZeros<K>(m: map<K, nat>)
    requires forall k <- m :: m[k] == 0
    ensures Sum(m) == 0
    decreases |m|
  {
    if m != map[] {
      var k :| k in m;
      Smaller(m, k);
      SumWithout(m, k);
      SumOfZeros(m - {k});
    }
  }
}
