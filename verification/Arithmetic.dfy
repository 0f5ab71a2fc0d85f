/** Facts about products, quotients and remainders that the solver does not find on its own. */
module Arithmetic {

  function Min(a: int, b: int): int {
    if a < b then a else b
  }

  function Max(a: int, b: int): int {
    if a > b then a else b
  }

  lemma MulMonotone(a: int, b: int, c: int)
    requires a <= b && c >= 0
    ensures a * c <= b * c && c * a <= c * b
  {
  }

  lemma MulStrict(a: int, b: int, c: int)
    requires a < b && c > 0
    ensures a * c < b * c && c * a < c * b
  {
  }

  lemma CancelStrict(a: int, b: int, c: int)
    requires c > 0 && c * a < c * b
    ensures a < b
  {
    if a >= b {
      MulMonotone(b, a, c);
    }
  }

  /** Quotient and remainder are determined by any one decomposition. */
  lemma Decomposition(v: int, m: int, q: int, r: int)
    requires 0 <= r < m && v == m * q + r
    ensures v / m == q && v % m == r
  {
    assert v == m * (v / m) + v % m;
    if q > v / m {
      MulMonotone(v / m + 1, q, m);
    } else if q < v / m {
      MulMonotone(q + 1, v / m, m);
    }
  }

  lemma QuotientAtMost(a: int, m: int, q: int)
    requires m > 0 && 0 <= a <= m * q
    ensures 0 <= a / m <= q
  {
    if a / m > q {
      MulMonotone(q + 1, a / m, m);
    }
  }

  lemma QuotientBelow(a: int, m: int, q: int)
    requires m > 0 && 0 <= a < m * q
    ensures 0 <= a / m < q
  {
    if a / m >= q {
      MulMonotone(q, a / m, m);
    }
  }

  lemma QuotientMonotone(a: int, b: int, m: int)
    requires m > 0 && a <= b
    ensures a / m <= b / m
  {
    if a / m > b / m {
      MulMonotone(b / m + 1, a / m, m);
    }
  }
}
