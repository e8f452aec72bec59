/** Raising a fixed-point number to a small power by squaring. */
module Powers {
  import opened FixedPoint
  import opened Reals

  function RealPow(x: real, n: nat): real {
    if n == 0 then 1.0 else x * RealPow(x, n - 1)
  }

  function IntPow(x: int, n: nat): int {
    if n == 0 then 1 else x * IntPow(x, n - 1)
  }

  function ToReal(a: Fixed): real { a as real / ONE as real }

  /** What the loop makes of a result, a base and an exponent. */
  function Squared(result: Fixed, base: Fixed, exp: nat): Fixed
    decreases exp
  {
    var result' := if exp % 2 == 1 then Mul(result, base) else result;
    if exp / 2 == 0 then result' else Squared(result', Mul(base, base), exp / 2)
  }

  method PowI80F48(base0: Fixed, exp0: nat) returns (result: Fixed)
    ensures result == Squared(ONE, base0, exp0)
  {
    hide Mul;
    var base, exp := base0, exp0;
    result := ONE;
    while true
      invariant Squared(result, base, exp) == Squared(ONE, base0, exp0)
      decreases exp
    {
      if exp % 2 == 1 { result := Mul(result, base); }
      exp := exp / 2;
      if exp == 0 { return; }
      base := Mul(base, base);
    }
  }

  lemma {:induction false} IntPowHalves(x: int, n: nat)
    ensures IntPow(x, n) == (if n % 2 == 1 then x else 1) * IntPow(x * x, n / 2)
  {
    if n >= 2 {
      IntPowHalves(x, n - 2);
      var y := IntPow(x * x, n / 2 - 1);
      assert IntPow(x, n) == x * (x * IntPow(x, n - 2));
      assert IntPow(x * x, n / 2) == (x * x) * y;
      var odd := if n % 2 == 1 then x else 1;
      Reorder(x, odd, y);
    }
  }

  lemma Reorder(x: int, odd: int, y: int)
    ensures x * (x * (odd * y)) == odd * ((x * x) * y)
  {
  }

  /** Powers of whole numbers are exact. */
  lemma {:induction false} WholePowers(r: int, n: int, exp: nat)
    ensures Squared(FromNum(r), FromNum(n), exp) == FromNum(r * IntPow(n, exp))
    decreases exp
  {
    hide Mul;
    IntPowHalves(n, exp);
    MulByNum(r, FromNum(n));
    MulByNum(n, FromNum(n));
    Scale(r, n);
    Scale(n, n);
    if exp >= 2 {
      var r' := if exp % 2 == 1 then r * n else r;
      WholePowers(r', n * n, exp / 2);
      assert (r * n) * IntPow(n * n, exp / 2) == r * (n * IntPow(n * n, exp / 2));
    }
  }

  lemma Scale(a: int, b: int)
    ensures a * FromNum(b) == FromNum(a * b)
  {
  }

  lemma {:induction false} RealPowHalves(x: real, n: nat)
    ensures RealPow(x, n) == (if n % 2 == 1 then x else 1.0) * RealPow(x * x, n / 2)
  {
    if n >= 2 {
      RealPowHalves(x, n - 2);
      var y := RealPow(x * x, n / 2 - 1);
      assert RealPow(x, n) == x * (x * RealPow(x, n - 2));
      assert RealPow(x * x, n / 2) == (x * x) * y;
      var odd := if n % 2 == 1 then x else 1.0;
      RealReorder(x, odd, y);
    }
  }

  lemma RealReorder(x: real, odd: real, y: real)
    ensures x * (x * (odd * y)) == odd * ((x * x) * y)
  {
  }

  lemma {:induction false} RealPowMonotone(x: real, y: real, n: nat)
    requires 0.0 <= x <= y
    ensures 0.0 <= RealPow(x, n) <= RealPow(y, n)
  {
    if n > 0 {
      RealPowMonotone(x, y, n - 1);
      RealTimes(RealPow(x, n - 1), RealPow(y, n - 1), x);
      RealTimes(x, y, RealPow(y, n - 1));
      RealTimes(0.0, RealPow(x, n - 1), x);
    }
  }

  lemma MulRoundsDown(a: Fixed, b: Fixed)
    requires a >= 0 && b >= 0
    ensures Mul(a, b) >= 0 && ToReal(Mul(a, b)) <= ToReal(a) * ToReal(b)
  {
    var m := Mul(a, b);
    assert a * b >= 0;
    assert m * ONE <= a * b;
    var o := ONE as real;
    assert (m * ONE) as real <= (a * b) as real;
    assert (m as real) * o <= (a as real) * (b as real);
    Quotients(m as real, a as real, b as real, o);
  }

  lemma Quotients(m: real, a: real, b: real, o: real)
    requires o > 0.0 && m * o <= a * b
    ensures m / o <= (a / o) * (b / o)
  {
    var u, v, w := a / o, b / o, m / o;
    assert b == v * o && a == u * o && m == w * o;
    Associate(a, v, o);
    Cancel(m, a * v, o);
    Associate(v, u, o);
    Cancel(w, u * v, o);
  }

  lemma Associate(a: real, v: real, o: real)
    ensures a * (v * o) == (a * v) * o
  {
  }

  lemma Cancel(w: real, z: real, k: real)
    requires k > 0.0 && w * k <= z * k
    ensures w <= z
  {
  }

  /** For other numbers rounding only ever lowers the power, so it never exceeds the exact one. */
  lemma {:induction false} PowersRoundDown(result: Fixed, base: Fixed, exp: nat)
    requires result >= 0 && base >= 0
    ensures 0 <= Squared(result, base, exp)
    ensures ToReal(Squared(result, base, exp)) <= ToReal(result) * RealPow(ToReal(base), exp)
    decreases exp
  {
    hide Mul, ToReal;
    MulRoundsDown(result, base);
    MulRoundsDown(base, base);
    var x, r := ToReal(base), ToReal(result);
    assert x >= 0.0 && r >= 0.0 by { NonNegative(base); NonNegative(result); }
    RealPowHalves(x, exp);
    if exp < 2 {
      assert RealPow(x * x, exp / 2) == 1.0;
    } else {
      var result' := if exp % 2 == 1 then Mul(result, base) else result;
      var r' := if exp % 2 == 1 then r * x else r;
      PowersRoundDown(result', Mul(base, base), exp / 2);
      NonNegative(Mul(base, base));
      RealPowMonotone(ToReal(Mul(base, base)), x * x, exp / 2);
      NonNegative(result');
      Chain(ToReal(result'), r', RealPow(ToReal(Mul(base, base)), exp / 2), RealPow(x * x, exp / 2));
      var z := RealPow(x * x, exp / 2);
      assert (r * x) * z == r * (x * z);
    }
  }

  lemma NonNegative(a: Fixed)
    requires a >= 0
    ensures ToReal(a) >= 0.0
  {
  }

  lemma Chain(a: real, b: real, c: real, d: real)
    requires 0.0 <= a <= b && 0.0 <= c <= d
    ensures a * c <= b * d
  {
    RealTimes(a, b, c);
    RealTimes(c, d, b);
  }

  // ----- Fractions

  lemma MulLosesLittle(a: Fixed, b: Fixed)
    requires a >= 0 && b >= 0
    ensures ToReal(a) * ToReal(b) - 1.0 / ONE as real <= ToReal(Mul(a, b))
  {
    var m, o := Mul(a, b), ONE as real;
    assert a * b <= m * ONE + ONE;
    assert (a * b) as real <= (m * ONE + ONE) as real;
    var x, y, z := a as real / o, b as real / o, m as real / o;
    assert x * o == a as real && y * o == b as real && z * o == m as real;
    assert ((x * y) * o) * o == (x * o) * (y * o) by { Associate(x * o, y, o); Associate(y, x, o); }
    assert (a as real) * (b as real) <= (m as real + 1.0) * o;
    Cancel((x * y) * o, z * o + 1.0, o);
    assert 1.0 / o * o == 1.0;
    assert (z + 1.0 / o) * o == z * o + 1.0;
    Cancel(x * y, z + 1.0 / o, o);
  }

  lemma {:induction false} PowWithin(x: real, n: nat)
    requires 0.0 <= x <= 1.0
    ensures 0.0 <= RealPow(x, n) <= 1.0
  {
    if n > 0 {
      PowWithin(x, n - 1);
      Chain(0.0, x, 0.0, RealPow(x, n - 1));
      Chain(x, 1.0, RealPow(x, n - 1), 1.0);
    }
  }

  /** On the unit interval a power moves no faster than its exponent. */
  lemma {:induction false} PowSlope(x: real, y: real, n: nat)
    requires 0.0 <= y <= x <= 1.0
    ensures RealPow(x, n) - RealPow(y, n) <= n as real * (x - y)
  {
    if n > 0 {
      PowSlope(x, y, n - 1);
      PowWithin(x, n - 1);
      PowWithin(y, n - 1);
      var a, b, d := RealPow(x, n - 1), RealPow(y, n - 1), x - y;
      RealPowMonotone(y, x, n - 1);
      assert x * a - y * b == x * (a - b) + d * b by { Split(x, y, a, b); }
      Chain(x, 1.0, a - b, a - b);
      Chain(d, d, b, 1.0);
      assert (n as real) * d == (n - 1) as real * d + d by { OneMore(n, d); }
    }
  }

  lemma Split(x: real, y: real, a: real, b: real)
    ensures x * a - y * b == x * (a - b) + (x - y) * b
  {
  }

  lemma OneMore(n: nat, d: real)
    requires n > 0
    ensures (n as real) * d == (n - 1) as real * d + d
  {
    assert n as real == (n - 1) as real + 1.0;
  }

  /** Half the exponent on a base that has been squared and rounded loses one unit for every factor. */
  lemma HalfLoses(x: real, y: real, k: nat, u: real)
    requires 0.0 <= y <= x * x <= 1.0 && x * x - y <= u && u >= 0.0
    ensures RealPow(x * x, k) - RealPow(y, k) <= k as real * u
  {
    PowSlope(x * x, y, k);
    RealTimes(x * x - y, u, k as real);
  }

  lemma UpToOne(a: Fixed)
    requires 0 <= a <= ONE
    ensures 0.0 <= ToReal(a) <= 1.0
  {
    var x, o := a as real / ONE as real, ONE as real;
    assert x * o == a as real;
    if x > 1.0 { RealTimes(1.0, x, o); }
  }

  lemma MulUpToOne(a: Fixed, b: Fixed)
    requires 0 <= a <= ONE && 0 <= b <= ONE
    ensures 0 <= Mul(a, b) <= ONE
  {
    TimesOrder(0, a, b);
    TimesOrder(a, ONE, b);
    TimesOrder(b, ONE, ONE);
  }

  /** One unit of 2^-48. */
  function Unit(): real { 1.0 / ONE as real }

  ghost predicate WithinUnits(exact: real, n: nat, c: real) { exact - n as real * Unit() <= c }

  ghost predicate Fraction(a: real) { 0.0 <= a <= 1.0 }

  function Times(a: real, b: real): real { a * b }

  function OddTimes(exp: nat, x: real, p: real): real { if exp % 2 == 1 then x * p else p }

  lemma MulWithin(a: Fixed, b: Fixed)
    requires 0 <= a <= ONE && 0 <= b <= ONE
    ensures 0 <= Mul(a, b) <= ONE && Fraction(ToReal(a)) && Fraction(ToReal(b)) && Fraction(ToReal(Mul(a, b)))
    ensures WithinUnits(Times(ToReal(a), ToReal(b)), 1, ToReal(Mul(a, b)))
            && ToReal(Mul(a, b)) <= Times(ToReal(a), ToReal(b))
    ensures Fraction(Times(ToReal(a), ToReal(b)))
  {
    hide ToReal, Mul;
    UpToOne(a);
    UpToOne(b);
    MulUpToOne(a, b);
    UpToOne(Mul(a, b));
    MulLosesLittle(a, b);
    MulRoundsDown(a, b);
    Chain(0.0, ToReal(a), 0.0, ToReal(b));
    Chain(ToReal(a), 1.0, ToReal(b), 1.0);
  }

  lemma PowOfSquare(x: real, y: real, exp: nat)
    requires Fraction(x) && Fraction(y) && Fraction(Times(x, x)) && y <= Times(x, x) && WithinUnits(Times(x, x), 1, y)
    ensures var p, q := RealPow(Times(x, x), exp / 2), RealPow(y, exp / 2);
      && Fraction(p) && Fraction(q) && WithinUnits(p, exp / 2, q) && RealPow(x, exp) == OddTimes(exp, x, p)
  {
    OneUnit();
    RealPowHalves(x, exp);
    HalfLoses(x, y, exp / 2, Unit());
    PowWithin(x * x, exp / 2);
    PowWithin(y, exp / 2);
  }

  lemma StepLoses(r: real, x: real, r': real, p: real, q: real, c: real, exp: nat)
    requires Fraction(r) && Fraction(x) && Fraction(r') && Fraction(p) && Fraction(q) && WithinUnits(p, exp / 2, q)
    requires if exp % 2 == 1 then WithinUnits(Times(r, x), 1, r') else r' == r
    requires WithinUnits(Times(r', q), exp / 2, c)
    ensures WithinUnits(Times(r, OddTimes(exp, x, p)), exp, c)
  {
    var k, odd, u := exp / 2, exp % 2, Unit();
    OneUnit();
    Lost(r, x, r', p, q, k, odd, u);
    Halves(exp, k, odd, u);
    Add(r * ((if odd == 1 then x else 1.0) * p), (odd as real + k as real) * u, r' * q, k as real * u, c);
  }

  lemma NothingLost(r: real)
    ensures WithinUnits(Times(r, 1.0), 0, r)
  {
  }

  /** For fractions the result is below the exact power by at most one unit for every factor. */
  lemma {:induction false} PowersPrecise(result: Fixed, base: Fixed, exp: nat)
    requires 0 <= result <= ONE && 0 <= base <= ONE
    ensures WithinUnits(Times(ToReal(result), RealPow(ToReal(base), exp)), exp, ToReal(Squared(result, base, exp)))
    decreases exp
  {
    hide Mul, ToReal, WithinUnits, Fraction, Times, OddTimes;
    var result', square := if exp % 2 == 1 then Mul(result, base) else result, Mul(base, base);
    var x, y := ToReal(base), ToReal(square);
    MulWithin(result, base);
    MulWithin(base, base);
    PowOfSquare(x, y, exp);
    var p, q, c := RealPow(Times(x, x), exp / 2), RealPow(y, exp / 2), ToReal(Squared(result, base, exp));
    if exp < 2 { NothingLost(ToReal(result')); } else { PowersPrecise(result', square, exp / 2); }
    StepLoses(ToReal(result), x, ToReal(result'), p, q, c, exp);
  }

  lemma OneUnit()
    ensures Unit() > 0.0
  {
  }

  lemma Add(a: real, o: real, b: real, k: real, c: real)
    requires a - o <= b && b - k <= c
    ensures a - (o + k) <= c
  {
  }

  lemma Halves(exp: nat, k: nat, odd: nat, u: real)
    requires exp == 2 * k + odd
    ensures exp as real * u == (odd as real + k as real) * u + k as real * u
  {
    assert exp as real == (odd as real + k as real) + k as real;
  }

  lemma Lost(r: real, x: real, r': real, p: real, q: real, k: nat, odd: nat, u: real)
    requires 0.0 <= r <= 1.0 && 0.0 <= x <= 1.0 && 0.0 <= r' <= 1.0 && 0.0 <= q <= 1.0 && 0.0 <= p <= 1.0 && u >= 0.0
    requires p - q <= k as real * u && odd <= 1
    requires if odd == 1 then r * x - u <= r' else r' == r
    ensures r * ((if odd == 1 then x else 1.0) * p) - (odd as real + k as real) * u <= r' * q
  {
    var f := if odd == 1 then r * x else r;
    var ku, ou := k as real * u, odd as real * u;
    Factors(r, x, p);
    Chain(0.0, r, 0.0, x);
    Chain(r, 1.0, x, 1.0);
    Chain(0.0, k as real, 0.0, u);
    Chain(0.0, odd as real, 0.0, u);
    Split(f, r', p, q);
    ScaledDown(p - q, ku, f);
    ScaledDown(f - r', ou, q);
    Together(odd as real, k as real, u);
  }

  lemma ScaledDown(a: real, b: real, f: real)
    requires a <= b && 0.0 <= b && 0.0 <= f <= 1.0
    ensures f * a <= b && a * f <= b
  {
    var x, y := f * a, f * b;
    assert x <= y by { RealTimes(a, b, f); }
    assert y <= b by { RealTimes(f, 1.0, b); }
  }

  lemma Together(a: real, b: real, u: real)
    ensures (a + b) * u == a * u + b * u
  {
  }

  lemma Factors(r: real, x: real, p: real)
    ensures r * (x * p) == (r * x) * p && r * (1.0 * p) == r * p
  {
  }
}
