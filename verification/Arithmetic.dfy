/** Facts about products and quotients that the models share. */
module Arithmetic {
  lemma MulMonotone(x: int, y: int, d: nat)
    requires x <= y
    ensures x * d <= y * d
  {
  }

  /** Quotient and remainder are determined by the number they make up. */
  lemma QuotientUnique(a: int, b: int, r: int, s: int, d: nat)
    requires 0 <= r < d && 0 <= s < d && a * d + r == b * d + s
    ensures a == b && r == s
  {
    if a < b {
      MulMonotone(a + 1, b, d);
    } else if b < a {
      MulMonotone(b + 1, a, d);
    }
  }

  /** `q` is the Euclidean quotient of `n` by `d` exactly when it brackets it. */
  lemma QuotientIs(n: int, d: nat, q: int, r: int)
    requires 0 <= r < d && n == q * d + r
    ensures n / d == q && n % d == r
  {
    QuotientUnique(n / d, q, n % d, r, d);
  }

  lemma DivMonotone(a: int, b: int, d: nat)
    requires d > 0 && a <= b
    ensures a / d <= b / d
  {
    if a / d > b / d {
      MulMonotone(b / d + 1, a / d, d);
    }
  }

  lemma DivStep(a: int, d: nat)
    requires d > 0
    ensures (a + d) / d == a / d + 1
  {
    assert a + d == (a / d + 1) * d + a % d;
    QuotientIs(a + d, d, a / d + 1, a % d);
  }
}
