/** Division on JavaScript's `bigint`, which truncates towards zero. */
module BigInts {

  function TruncDiv(a: int, b: int): int
    requires b > 0
  {
    if a >= 0 then a / b else -(-a / b)
  }

  function TruncMod(a: int, b: int): int
    requires b > 0
  {
    if a >= 0 then a % b else -(-a % b)
  }

  /**
   * Quotient and remainder make up the dividend, and the remainder is smaller than the divisor and has the
   * dividend's sign.
   */
  lemma TruncatingDivision(a: int, b: int)
    requires b > 0
    ensures a == b * TruncDiv(a, b) + TruncMod(a, b)
    ensures if a >= 0 then 0 <= TruncMod(a, b) < b else -b < TruncMod(a, b) <= 0
  {
    if a < 0 {
      assert -a == b * (-a / b) + -a % b;
      assert b * -(-a / b) == -(b * (-a / b));
    }
  }
}
