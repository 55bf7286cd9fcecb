/** Sums of real values over finite maps, independent of the order of summation. */
module Sums {

  ghost function Total<K(!new)>(m: map<K, real>): real
    decreases |m|
  {
    if m == map[] then 0.0 else
      var k :| k in m;
      m[k] + Total(m - {k})
  }

  /** Any key may be taken out first. */
  lemma {:induction false} TotalRemove<K(!new)>(m: map<K, real>, k: K)
    requires k in m
    ensures Total(m) == m[k] + Total(m - {k})
    decreases |m|
  {
    var first :| first in m && Total(m) == m[first] + Total(m - {first});
    if first != k {
      TotalRemove(m - {first}, k);
      TotalRemove(m - {k}, first);
      assert m - {first} - {k} == m - {k} - {first};
    }
  }

  lemma TotalPut<K(!new)>(m: map<K, real>, k: K, v: real)
    ensures Total(m[k := v]) == Total(m) - (if k in m then m[k] else 0.0) + v
  {
    TotalRemove(m[k := v], k);
    assert m[k := v] - {k} == m - {k};
    if k in m {
      TotalRemove(m, k);
    } else {
      assert m - {k} == m;
    }
  }

  lemma {:induction false} TotalNonNegative<K(!new)>(m: map<K, real>)
    requires forall k :: k in m ==> m[k] >= 0.0
    ensures Total(m) >= 0.0
    decreases |m|
  {
    if m != map[] {
      var k :| k in m;
      TotalRemove(m, k);
      TotalNonNegative(m - {k});
    }
  }

  lemma {:induction false} TotalZero<K(!new)>(m: map<K, real>)
    requires forall k :: k in m ==> m[k] == 0.0
    ensures Total(m) == 0.0
    decreases |m|
  {
    if m != map[] {
      var k :| k in m;
      TotalRemove(m, k);
      TotalZero(m - {k});
    }
  }

  /** No summand of a non-negative sum exceeds the sum. */
  lemma TotalBound<K(!new)>(m: map<K, real>, k: K)
    requires forall j :: j in m ==> m[j] >= 0.0
    requires k in m
    ensures m[k] <= Total(m)
  {
    TotalRemove(m, k);
    TotalNonNegative(m - {k});
  }

  lemma {:induction false} TotalPlus<K(!new)>(a: map<K, real>, b: map<K, real>, c: map<K, real>)
    requires a.Keys == b.Keys == c.Keys
    requires forall k :: k in a ==> c[k] == a[k] + b[k]
    ensures Total(c) == Total(a) + Total(b)
    decreases |a|
  {
    if a == map[] {
      assert b == map[] && c == map[];
    } else {
      var k :| k in a;
      TotalRemove(a, k);
      TotalRemove(b, k);
      TotalRemove(c, k);
      TotalPlus(a - {k}, b - {k}, c - {k});
    }
  }
}
