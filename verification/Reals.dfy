/** Order facts about products and quotients of reals. */
module Reals {

  lemma ScaledOrder(k: real, x: real, y: real)
    requires k >= 0.0 && x <= y
    ensures k * x <= k * y
  {
    assert k * (y - x) >= 0.0;
  }

  lemma Cancelled(x: real, y: real, k: real)
    requires k > 0.0 && x * k <= y * k
    ensures x <= y
  {
    assert (y - x) * k >= 0.0;
  }

  lemma CancelledStrictly(x: real, y: real, k: real)
    requires k > 0.0 && x * k < y * k
    ensures x < y
  {
    if x >= y {
      ScaledOrder(k, y, x);
    }
  }

  lemma WeightedSumOrder(a: real, b: real, c: real, d: real,
                         p: real, q: real, r: real, s: real,
                         p': real, q': real, r': real, s': real)
    requires a >= 0.0 && b >= 0.0 && c >= 0.0 && d >= 0.0
    requires p <= p' && q <= q' && r <= r' && s <= s'
    ensures a * p + b * q + c * r + d * s <= a * p' + b * q' + c * r' + d * s'
  {
    ScaledOrder(a, p, p');
    ScaledOrder(b, q, q');
    ScaledOrder(c, r, r');
    ScaledOrder(d, s, s');
  }

  lemma ReciprocalFalls(x: real, y: real)
    requires 0.0 < x <= y
    ensures 1.0 / x >= 1.0 / y
  {
    var u, v := 1.0 / x, 1.0 / y;
    assert u * x == 1.0 && v * y == 1.0;
    ScaledOrder(v, x, y);
    Cancelled(v, u, x);
  }

  /** x / (k + x) grows with x. */
  lemma SaturationRises(k: real, x: real, y: real)
    requires k > 0.0 && 0.0 <= x <= y
    ensures x / (k + x) <= y / (k + y)
  {
    ReciprocalFalls(k + x, k + y);
    ScaledOrder(k, 1.0 / (k + y), 1.0 / (k + x));
    SaturationForm(k, x);
    SaturationForm(k, y);
  }

  lemma SaturationForm(k: real, x: real)
    requires k > 0.0 && x >= 0.0
    ensures x / (k + x) == 1.0 - k * (1.0 / (k + x))
  {
    var d := 1.0 / (k + x);
    assert d * (k + x) == 1.0;
    assert x * d == x / (k + x);
  }

  lemma ProductOrder(x: real, y: real, f: real, g: real, m: real, n: real)
    requires 0.0 < x <= y && 0.0 < f <= g && 0.0 < m <= n
    ensures 0.0 < x * f * m <= y * g * n
  {
    ScaledOrder(f, x, y);
    ScaledOrder(y, f, g);
    var low, high := x * f, y * g;
    assert 0.0 < low <= high;
    ScaledOrder(m, low, high);
    ScaledOrder(high, m, n);
  }

  lemma ScaledStrictly(weight: real, x: real, y: real)
    requires weight > 0.0
    ensures x < y ==> weight * x < weight * y
    ensures x == y ==> weight * x == weight * y
    ensures x <= y ==> weight * x <= weight * y
  {
    if x < y {
      assert weight * (y - x) > 0.0;
    }
  }

  lemma ReciprocalFallsStrictly(low: real, high: real)
    requires 0.0 < low < high
    ensures 1.0 / high < 1.0 / low
  {
    var u, v := 1.0 / low, 1.0 / high;
    assert u * low == 1.0 && v * high == 1.0 && v > 0.0;
    ScaledStrictly(v, low, high);
    assert (u - v) * low > 0.0;
  }

  lemma StrictSum(a: real, b: real, c: real, d: real,
                  p: real, q: real, r: real, s: real,
                  p': real, q': real, r': real, s': real)
    requires a > 0.0 && b > 0.0 && c > 0.0 && d > 0.0
    requires p <= p' && q <= q' && r <= r' && s <= s'
    requires p < p' || q < q' || r < r' || s < s'
    ensures a * p + b * q + c * r + d * s < a * p' + b * q' + c * r' + d * s'
  {
    ScaledStrictly(a, p, p');
    ScaledStrictly(b, q, q');
    ScaledStrictly(c, r, r');
    ScaledStrictly(d, s, s');
  }

  lemma StrictProduct(x: real, y: real, f: real, g: real, m: real, n: real)
    requires 0.0 < x <= y && 0.0 < f <= g && 0.0 < m <= n
    requires x < y || f < g
    ensures x * f * m < y * g * n
  {
    ScaledStrictly(f, x, y);
    ScaledStrictly(y, f, g);
    var low, high := x * f, y * g;
    assert 0.0 < low < high by {
      ScaledStrictly(x, 0.0, f);
    }
    ScaledStrictly(m, low, high);
    ScaledStrictly(high, m, n);
  }

  lemma SaturationRisesStrictly(half: real, low: real, high: real)
    requires half > 0.0 && 0.0 <= low < high
    ensures low / (half + low) < high / (half + high)
  {
    SaturationForm(half, low);
    SaturationForm(half, high);
    ReciprocalFallsStrictly(half + low, half + high);
    ScaledStrictly(half, 1.0 / (half + high), 1.0 / (half + low));
  }
}
