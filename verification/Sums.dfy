/** Adding up the values of a finite map. */
module Sums {
  ghost function Sum<K(!new)>(m: map<K, int>): int {
    if m == map[] then 0
    else
      var k :| k in m;
      m[k] + Sum(m - {k})
  }

  /** The sum does not depend on which key is taken out first. */
  lemma {:induction false} SumWithout<K(!new)>(m: map<K, int>, k: K)
    requires k in m
    ensures Sum(m) == m[k] + Sum(m - {k})
    decreases |m|
  {
    var j :| j in m && Sum(m) == m[j] + Sum(m - {j});
    if j == k {
    } else {
      SumWithout(m - {j}, k);
      SumWithout(m - {k}, j);
      assert m - {j} - {k} == m - {k} - {j};
    }
  }

  /** Changing one entry changes the sum by the difference. */
  lemma SumUpdate<K(!new)>(m: map<K, int>, k: K, v: int)
    ensures Sum(m[k := v]) == Sum(m) + v - (if k in m then m[k] else 0)
  {
    var u := m[k := v];
    SumWithout(u, k);
    assert u - {k} == m - {k};
    if k in m {
      SumWithout(m, k);
    } else {
      assert m - {k} == m;
    }
  }

  /** Dropping non-negative entries never makes the sum larger. */
  lemma {:induction false} SumSubmap<K(!new)>(small: map<K, int>, big: map<K, int>)
    requires forall k :: k in small ==> k in big && small[k] == big[k]
    requires forall k :: k in big ==> big[k] >= 0
    ensures Sum(small) <= Sum(big)
    decreases |big|
  {
    if k :| k in big {
      SumWithout(big, k);
      if k in small {
        SumWithout(small, k);
        SumSubmap(small - {k}, big - {k});
      } else {
        SumSubmap(small, big - {k});
      }
    } else {
      assert small == map[];
    }
  }

  /** A positive sum has a positive entry. */
  lemma {:induction false} SumPositive<K(!new)>(m: map<K, int>) returns (k: K)
    requires Sum(m) > 0
    ensures k in m && m[k] > 0
    decreases |m|
  {
    var j :| j in m && Sum(m) == m[j] + Sum(m - {j});
    if m[j] > 0 {
      k := j;
    } else {
      k := SumPositive(m - {j});
    }
  }
}
