/** Order and quotients of real numbers. */
module Reals {

  lemma RealTimes(a: real, b: real, k: real)
    requires k >= 0.0 && a <= b
    ensures k * a <= k * b && a * k <= b * k
  {
  }

  lemma RealStrict(a: real, b: real, k: real)
    requires k > 0.0 && a < b
    ensures k * a < k * b && a * k < b * k
  {
  }

  lemma Quotient(a: real, k: real)
    requires k > 0.0
    ensures a / k * k == a && (a >= 0.0 ==> a / k >= 0.0)
  {
  }
}
