/** The product facts the other modules lean on. */
module Arithmetic {

  lemma Distribute(q: int, t: int, d: nat)
    ensures (q + t) * d == q * d + t * d
  {
  }

  /** Multiplying by a natural number keeps an order. */
  lemma Gap(a: int, b: int, d: nat)
    requires a <= b
    ensures a * d <= b * d
  {
    assert (b - a) * d >= 0;
  }

  /** The quotient is the one integer whose multiple lies within a divisor below. */
  lemma QuotientIs(x: int, m: nat, k: int)
    requires m >= 1 && k * m <= x < k * m + m
    ensures x / m == k
  {
    var q := x / m;
    assert q * m <= x < q * m + m;
    Distribute(q, 1, m);
    Distribute(k, 1, m);
    if q < k {
      Gap(q + 1, k, m);
    } else if q > k {
      Gap(k + 1, q, m);
    }
  }
}
