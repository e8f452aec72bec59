/** Order keys and the bit arithmetic the critbit tree does on them. */
module OrderKeys {

  function Pow2(n: nat): (p: nat)
    ensures p > 0
  {
    if n == 0 then 1 else 2 * Pow2(n - 1)
  }

  lemma {:induction false} Pow2Add(a: nat, b: nat)
    ensures Pow2(a + b) == Pow2(a) * Pow2(b)
  {
    if a > 0 { Pow2Add(a - 1, b); }
  }

  /** Keys are non-negative 128-bit integers: prices are positive, so the sign bit is clear. */
  type Key = k: nat | k < Pow2(127) witness (assert Pow2(127) > 0; 0)

  /** `k >> n` */
  function Shr(k: nat, n: nat): nat {
    if n == 0 then k else Shr(k / 2, n - 1)
  }

  /** The top `p` bits of a 128-bit key. */
  function Prefix(k: nat, p: nat): nat
    requires p <= 128
  {
    Shr(k, 128 - p)
  }

  /** The bit below the top `p` bits: `k & (1 << (127 - p)) != 0`. */
  predicate CritBit(k: nat, p: nat)
    requires p < 128
  {
    Shr(k, 127 - p) % 2 == 1
  }

  /** `(a ^ b).leading_zeros()` of two `w`-bit numbers: how many top bits they share. */
  function SharedBits(a: nat, b: nat, w: nat): (s: nat)
    ensures s <= w
  {
    if a == b then w else if w == 0 then 0 else SharedBits(a / 2, b / 2, w - 1)
  }

  function SharedPrefixLen(a: Key, b: Key): (s: nat)
    ensures s <= 128
  {
    SharedBits(a, b, 128)
  }

  lemma {:induction false} ShrStep(k: nat, n: nat)
    ensures Shr(k, n + 1) == Shr(k, n) / 2
  {
    if n > 0 { ShrStep(k / 2, n - 1); }
  }

  lemma {:induction false} ShrMonotone(a: nat, b: nat, n: nat)
    requires a <= b
    ensures Shr(a, n) <= Shr(b, n)
  {
    if n > 0 { ShrMonotone(a / 2, b / 2, n - 1); }
  }

  lemma {:induction false} ShrVanishes(k: nat, n: nat)
    requires k < Pow2(n)
    ensures Shr(k, n) == 0
  {
    if n > 0 { ShrVanishes(k / 2, n - 1); }
  }

  lemma HalfOfSum(a: nat, lo: nat)
    ensures (2 * a + lo) / 2 == a + lo / 2
  {
  }

  lemma TwiceOfProduct(a: nat, b: nat)
    ensures a * (2 * b) == 2 * (a * b)
  {
  }

  lemma {:induction false} ShrOfSum(hi: nat, lo: nat, n: nat)
    requires lo < Pow2(n)
    ensures Shr(hi * Pow2(n) + lo, n) == hi
  {
    if n > 0 {
      TwiceOfProduct(hi, Pow2(n - 1));
      HalfOfSum(hi * Pow2(n - 1), lo);
      ShrOfSum(hi, lo / 2, n - 1);
    }
  }

  /** Two numbers that agree above bit `n` agree above every higher bit. */
  lemma {:induction false} ShrAgree(a: nat, b: nat, n: nat, m: nat)
    requires n <= m && Shr(a, n) == Shr(b, n)
    ensures Shr(a, m) == Shr(b, m)
  {
    if n < m {
      ShrAgree(a, b, n, m - 1);
      ShrStep(a, m - 1);
      ShrStep(b, m - 1);
    }
  }

  lemma PrefixShorter(a: nat, b: nat, p: nat, q: nat)
    requires q <= p <= 128 && Prefix(a, p) == Prefix(b, p)
    ensures Prefix(a, q) == Prefix(b, q)
    ensures q < p ==> CritBit(a, q) == CritBit(b, q)
  {
    ShrAgree(a, b, 128 - p, 128 - q);
    if q < p { ShrAgree(a, b, 128 - p, 127 - q); }
  }

  /** Keys that split at the critical bit are ordered by it. */
  lemma CritBitOrders(a: nat, b: nat, p: nat)
    requires p < 128 && Prefix(a, p) == Prefix(b, p)
    requires !CritBit(a, p) && CritBit(b, p)
    ensures a < b
  {
    ShrStep(a, 127 - p);
    ShrStep(b, 127 - p);
    if b <= a { ShrMonotone(b, a, 127 - p); }
  }

  lemma {:induction false} SharedBitsExact(a: nat, b: nat, w: nat)
    requires a != b && Shr(a, w) == Shr(b, w)
    ensures var s := SharedBits(a, b, w);
      s < w && Shr(a, w - s) == Shr(b, w - s) && Shr(a, w - 1 - s) != Shr(b, w - 1 - s)
  {
    if w > 0 && a / 2 != b / 2 { SharedBitsExact(a / 2, b / 2, w - 1); }
  }

  lemma KeyTopBitsClear(a: Key)
    ensures Shr(a, 128) == 0 && Shr(a, 127) == 0
  {
    ShrVanishes(a, 127);
    ShrStep(a, 127);
  }

  /** Distinct keys share exactly `SharedPrefixLen` bits and differ in the next one. */
  lemma SharedPrefixExact(a: Key, b: Key)
    requires a != b
    ensures var s := SharedPrefixLen(a, b);
      s < 128 && Prefix(a, s) == Prefix(b, s) && CritBit(a, s) != CritBit(b, s)
  {
    KeyTopBitsClear(a);
    KeyTopBitsClear(b);
    SharedBitsExact(a, b, 128);
    var s := SharedPrefixLen(a, b);
    ShrStep(a, 127 - s);
    ShrStep(b, 127 - s);
  }

  /** The test made on the way down, `shared_prefix_len >= prefix_len`, says the prefixes agree. */
  lemma SharedPrefixTest(a: Key, b: Key, p: nat)
    requires p <= 128
    ensures SharedPrefixLen(a, b) >= p <==> Prefix(a, p) == Prefix(b, p)
  {
    if a != b {
      SharedPrefixExact(a, b);
      var s := SharedPrefixLen(a, b);
      if p <= s {
        PrefixShorter(a, b, s, p);
      } else if Prefix(a, p) == Prefix(b, p) {
        PrefixShorter(a, b, p, s);
      }
    }
  }
}
