/** Sums of the values of a map. */
module Sums {

  ghost function Sum<K>(m: map<K, int>): int {
    if m == map[] then 0 else var k :| k in m; m[k] + Sum(m - {k})
  }

  lemma {:induction false} SumRemove<K>(m: map<K, int>, k: K)
    requires k in m
    ensures Sum(m) == m[k] + Sum(m - {k})
    decreases |m|
  {
    var j :| j in m && Sum(m) == m[j] + Sum(m - {j});
    if j != k {
      SumRemove(m - {j}, k);
      SumRemove(m - {k}, j);
      assert m - {j} - {k} == m - {k} - {j};
    }
  }

  lemma SumSet<K>(m: map<K, int>, k: K, v: int)
    ensures Sum(m[k := v]) == Sum(m) + v - (if k in m then m[k] else 0)
  {
    SumRemove(m[k := v], k);
    if k in m {
      SumRemove(m, k);
      assert m[k := v] - {k} == m - {k};
    } else {
      assert m[k := v] - {k} == m;
    }
  }

  /** Restricting a map and lowering its non-negative values does not raise the sum. */
  lemma {:induction false} SumAtMost<K>(a: map<K, int>, b: map<K, int>)
    requires a.Keys <= b.Keys && forall k :: k in b ==> b[k] >= 0 && (k in a ==> a[k] <= b[k])
    ensures Sum(a) <= Sum(b)
    decreases |b|
  {
    if b == map[] {
      assert a == map[];
    } else {
      var k :| k in b;
      SumRemove(b, k);
      if k in a {
        SumRemove(a, k);
        SumAtMost(a - {k}, b - {k});
      } else {
        SumAtMost(a, b - {k});
      }
    }
  }

  /** Two parts of a map that share no key add up to no more than the whole. */
  lemma {:induction false} SumDisjoint<K>(a: map<K, int>, b: map<K, int>, m: map<K, int>)
    requires a.Keys !! b.Keys && a.Keys + b.Keys <= m.Keys
    requires forall k :: k in m ==> m[k] >= 0 && (k in a ==> a[k] == m[k]) && (k in b ==> b[k] == m[k])
    ensures Sum(a) + Sum(b) <= Sum(m)
    decreases |a|
  {
    if a == map[] {
      SumAtMost(b, m);
    } else {
      var k :| k in a;
      SumRemove(a, k);
      SumRemove(m, k);
      SumDisjoint(a - {k}, b, m - {k});
    }
  }
}
