/**
 * The few facts about multiplication and Euclidean division that the
 * converter's and the bit operations' proofs need and the solver does not
 * find on its own.
 */
module Arith {

  /** A positive multiple of d is at least d. */
  lemma MulAtLeast(x: int, d: int)
    requires x >= 1 && d > 0
    ensures x * d >= d
  {
    assert x * d == d + (x - 1) * d;
  }

  /** One more row of m. */
  lemma MulSucc(k: int, m: int)
    ensures (k + 1) * m == k * m + m
  {
  }

  /** Multiplying by a positive number keeps order. */
  lemma MulMonotone(a: int, b: int, n: int)
    requires a <= b && n > 0
    ensures a * n <= b * n
  {
    assert b * n - a * n == (b - a) * n;
  }

  /** Quotient and remainder are the only ones: n == q * d + r with 0 <= r < d fixes both. */
  lemma DivModUnique(n: int, d: int, q: int, r: int)
    requires d > 0 && 0 <= r < d && n == q * d + r
    ensures n / d == q && n % d == r
  {
    var q', r' := n / d, n % d;
    assert (q' - q) * d == r - r';
    if q' - q >= 1 {
      MulAtLeast(q' - q, d);
    } else if q - q' >= 1 {
      MulAtLeast(q - q', d);
    }
  }
}
