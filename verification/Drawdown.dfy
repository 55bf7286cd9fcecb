/** Maximum drawdown in one pass (src/advanced-analytics/services/portfolio-risk-scoring.service.ts). */
module Drawdown {

  /** The relative loss from the value on day `i` to the value on day `j`. */
  function Loss(v: seq<real>, i: nat, j: nat): real
    requires i < |v| && j < |v| && v[i] > 0.0
  {
    (v[i] - v[j]) / v[i]
  }

  predicate Positive(v: seq<real>) {
    forall i :: 0 <= i < |v| ==> v[i] > 0.0
  }

  lemma CompareQuotients(a: real, b: real, c: real, d: real)
    requires b > 0.0 && d > 0.0 && a * d <= c * b
    ensures a / b <= c / d
  {
    var p, q := a / b, c / d;
    assert p * b == a && q * d == c;
    assert p * (b * d) == a * d && q * (b * d) == c * b;
    CancelFactor(p, q, b * d);
  }

  lemma CancelFactor(p: real, q: real, f: real)
    requires f > 0.0 && p * f <= q * f
    ensures p <= q
  {
  }

  lemma BelowOne(a: real, f: real)
    requires f > 0.0 && a < f
    ensures a / f < 1.0
  {
    var q := a / f;
    assert q * f == a;
  }

  /** The loss against a higher peak is larger, but never total. */
  lemma HigherPeak(low: real, high: real, x: real)
    requires 0.0 < low <= high && x > 0.0
    ensures (low - x) / low <= (high - x) / high < 1.0
  {
    assert (low - x) * high <= (high - x) * low by {
      assert (high - x) * low - (low - x) * high == x * (high - low);
    }
    CompareQuotients(low - x, low, high - x, high);
    BelowOne(high - x, high);
  }

  /** The result is the largest loss over all pairs of an earlier and a later day, and it lies in [0, 1). */
  method CalculateMaxDrawdown(v: seq<real>) returns (max: real)
    requires Positive(v)
    ensures 0.0 <= max < 1.0
    ensures forall i, j :: 0 <= i <= j < |v| ==> Loss(v, i, j) <= max
    ensures |v| > 0 ==> exists i, j :: 0 <= i <= j < |v| && Loss(v, i, j) == max
  {
    if |v| < 2 {
      if |v| == 1 {
        assert Loss(v, 0, 0) == 0.0;
      }
      return 0.0;
    }
    max := 0.0;
    var peak := v[0];
    ghost var top, from, to := 0, 0, 0;
    var k := 0;
    while k < |v|
      invariant 0 <= k <= |v|
      invariant 0 <= top < |v| && (if k == 0 then top == 0 else top < k) && peak == v[top]
      invariant forall i :: 0 <= i < k ==> v[i] <= peak
      invariant 0.0 <= max < 1.0
      invariant 0 <= from <= to < |v| && Loss(v, from, to) == max
      invariant forall i, j :: 0 <= i <= j < k ==> Loss(v, i, j) <= max
    {
      var value := v[k];
      if value > peak {
        peak := value;
        top := k;
      }
      var drawdown := (peak - value) / peak;
      HigherPeak(peak, peak, value);
      forall i | 0 <= i <= k ensures Loss(v, i, k) <= drawdown {
        HigherPeak(v[i], peak, value);
      }
      if drawdown > max {
        max := drawdown;
        from, to := top, k;
      }
      k := k + 1;
    }
  }
}
