/** I80F48 numbers as integers counting units of 2^-48. */
module FixedPoint {

  type Fixed = int

  const ONE: Fixed := 0x1_0000_0000_0000

  function FromNum(n: int): Fixed { n * ONE }

  /** The product, rounded down to a unit. */
  function Mul(a: Fixed, b: Fixed): Fixed { a * b / ONE }

  /** The quotient, rounded towards zero to a unit. */
  function Div(a: Fixed, b: Fixed): Fixed
    requires b != 0
  {
    var n := a * ONE;
    if n >= 0 then (if b > 0 then n / b else -(n / -b))
    else (if b > 0 then -(-n / b) else (-n) / (-b))
  }

  /** The whole number at or below, and the one at or above. */
  function Floor(a: Fixed): int { a / ONE }

  function Ceil(a: Fixed): int { (a + ONE - 1) / ONE }

  lemma TimesOrder(a: int, b: int, k: int)
    requires a <= b && k >= 0
    ensures a * k <= b * k && k * a <= k * b
  {
  }

  lemma QuotientOf(a: int, k: int)
    requires k > 0
    ensures a / k * k <= a < a / k * k + k
  {
  }

  lemma Distribute(a: int, b: int, k: int)
    ensures (a + b) * k == a * k + b * k && k * (a + b) == k * a + k * b
  {
  }

  lemma Negated(a: int, b: int)
    ensures -a * b == -(a * b) && a * -b == -(a * b)
  {
  }

  /** Whole multiples are exact, which is what makes fills, fees and funding conserve bits. */
  lemma MulByNum(n: int, b: Fixed)
    ensures Mul(FromNum(n), b) == n * b == Mul(b, FromNum(n))
  {
    assert n * ONE * b == (n * b) * ONE;
    assert b * (n * ONE) == (n * b) * ONE;
  }

  /** A truncated quotient misses its dividend by less than the divisor. */
  lemma DivByNum(a: Fixed, n: int)
    requires n > 0
    ensures -n < a - Div(a, FromNum(n)) * n < n
  {
    var b := FromNum(n);
    var q := Div(a, b);
    if a >= 0 {
      assert q == (a * ONE) / b;
      CancelUnit(a, n);
    } else {
      assert q == -((-a * ONE) / b);
      CancelUnit(-a, n);
    }
  }

  lemma CancelUnit(a: nat, n: int)
    requires n > 0
    ensures 0 <= a - (a * ONE) / FromNum(n) * n < n
  {
    var b := n * ONE;
    var q := (a * ONE) / b;
    assert q * b <= a * ONE < (q + 1) * b;
    assert q * b == (q * n) * ONE && (q + 1) * b == ((q + 1) * n) * ONE;
    assert q * n <= a < (q + 1) * n;
  }
}
