/** Sums over finite maps, for totals of balances and of stakes. */
module Sums {

  function Get<K>(m: map<K, int>, k: K): int {
    if k in m then m[k] else 0
  }

  ghost function Sum<K>(m: map<K, int>): int
    decreases |m|
  {
    if m == map[] then 0
    else
      var k :| k in m;
      m[k] + Sum(m - {k})
  }

  /** The total does not depend on which key is taken first. */
  lemma {:induction false} SumRemove<K>(m: map<K, int>, k: K)
    requires k in m
    ensures Sum(m) == m[k] + Sum(m - {k})
    decreases |m|
  {
    var j :| j in m && Sum(m) == m[j] + Sum(m - {j});
    if j != k {
      SumRemove(m - {j}, k);
      SumRemove(m - {k}, j);
      assert m - {j} - {k} == m - {k} - {j};
    }
  }

  /** Writing one entry moves the total by the change of that entry. */
  lemma SumPut<K>(m: map<K, int>, k: K, v: int)
    ensures Sum(m[k := v]) == Sum(m) - Get(m, k) + v
  {
    SumRemove(m[k := v], k);
    assert m[k := v] - {k} == m - {k};
    if k in m {
      SumRemove(m, k);
    } else {
      assert m - {k} == m;
    }
  }

  /** An entry of a map without negative entries is at most the total. */
  lemma {:induction false} SumBounds<K>(m: map<K, int>)
    requires forall k | k in m :: m[k] >= 0
    ensures Sum(m) >= 0
    ensures forall k | k in m :: m[k] <= Sum(m)
    decreases |m|
  {
    forall k | k in m
      ensures 0 <= m[k] <= Sum(m)
    {
      SumRemove(m, k);
      SumBounds(m - {k});
    }
    if m != map[] {
      var k :| k in m;
      assert m[k] <= Sum(m);
    }
  }

  /** Two entries together are at most the total. */
  lemma SumOfTwo<K>(m: map<K, int>, a: K, b: K)
    requires forall k | k in m :: m[k] >= 0
    requires a != b
    ensures Get(m, a) + Get(m, b) <= Sum(m)
  {
    SumBounds(m);
    if a in m {
      SumRemove(m, a);
      SumBounds(m - {a});
      assert b in m ==> (m - {a})[b] == m[b];
    }
  }
}
