/** Facts about integer multiplication and Euclidean division that the solver does not find
    on its own. */
module Arith {

  /** Euclidean division has exactly one quotient and remainder. */
  lemma DivUnique(x: int, d: int, q: int, m: int)
    requires d > 0 && 0 <= m < d && x == d * q + m
    ensures x / d == q && x % d == m
  {
    var q0, m0 := x / d, x % d;
    assert d * (q0 - q) == m - m0;
    if q0 - q >= 1 {
      MulMonotone(1, q0 - q, d);
    } else if q - q0 >= 1 {
      MulMonotone(1, q - q0, d);
    }
  }

  lemma MulMonotone(a: int, b: int, k: int)
    requires a <= b && k >= 0
    ensures a * k <= b * k
  {
  }

  lemma DivMonotone(x: int, y: int, d: int)
    requires x <= y && d > 0
    ensures x / d <= y / d
  {
    if x / d > y / d {
      MulMonotone(y / d + 1, x / d, d);
    }
  }

  /** A positive factor can be cancelled from both sides of an inequality. */
  lemma MulCancel(k: int, a: int, b: int)
    requires k > 0 && k * a <= k * b
    ensures a <= b
  {
    if a > b {
      MulMonotone(b + 1, a, k);
    }
  }

  /** A quotient of a value below `d * k` is below k. */
  lemma DivBelow(n: int, d: int, k: int)
    requires 0 <= n < d * k && d > 0
    ensures 0 <= n / d < k
  {
    DivMonotone(0, n, d);
    if n / d >= k {
      MulMonotone(k, n / d, d);
    }
  }
}
