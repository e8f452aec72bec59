/** Order ids: keys that carry the price and the arrival number of an order. */
module OrderIds {
  import opened OrderKeys
  import opened Types
  import opened OrderLists

  lemma SixtyFour()
    ensures Pow2(64) == U64_MAX + 1 && Pow2(63) == I64_MAX + 1
  {
    assert Pow2(8) == 256;
    Pow2Add(8, 8);
    assert Pow2(16) == 0x1_0000;
    Pow2Add(16, 16);
    assert Pow2(32) == 0x1_0000_0000;
    Pow2Add(32, 32);
  }

  lemma KeyRange(price: int, low: int)
    requires 0 <= price <= I64_MAX && 0 <= low <= U64_MAX
    ensures 0 <= price * (U64_MAX + 1) + low < Pow2(127)
  {
    SixtyFour();
    Pow2Add(63, 64);
    assert price * Pow2(64) <= I64_MAX * Pow2(64);
  }

  function OrderId(side: Side, price: int, seqNum: int): Key
    requires 0 <= price <= I64_MAX && 0 <= seqNum <= U64_MAX
  {
    var low := if side == Bid then U64_MAX - seqNum else seqNum;
    KeyRange(price, low);
    price * (U64_MAX + 1) + low
  }

  /** A key gives its price back. */
  lemma KeyToPrice(side: Side, price: int, seqNum: int)
    requires 0 <= price <= I64_MAX && 0 <= seqNum <= U64_MAX
    ensures Shr(OrderId(side, price, seqNum), 64) == price
  {
    SixtyFour();
    ShrOfSum(price, if side == Bid then U64_MAX - seqNum else seqNum, 64);
  }

  /** Key order is price first and then first come, on both sides; in particular keys never repeat. */
  lemma KeyOrderIsPriceTime(side: Side, p1: int, s1: int, p2: int, s2: int)
    requires 0 <= p1 <= I64_MAX && 0 <= s1 <= U64_MAX && 0 <= p2 <= I64_MAX && 0 <= s2 <= U64_MAX
    ensures Ahead(side, OrderId(side, p1, s1), OrderId(side, p2, s2)) <==>
            (if side == Bid then p1 > p2 else p1 < p2) || (p1 == p2 && s1 < s2)
  {
    var n := U64_MAX + 1;
    if p1 < p2 {
      assert (p1 + 1) * n <= p2 * n;
    } else if p2 < p1 {
      assert (p2 + 1) * n <= p1 * n;
    }
  }

  lemma {:induction false} ShrTimes(k: nat, n: nat)
    ensures Shr(k, n) * Pow2(n) <= k
  {
    if n > 0 {
      ShrTimes(k / 2, n - 1);
      assert Shr(k, n) * Pow2(n) == 2 * (Shr(k / 2, n - 1) * Pow2(n - 1));
    }
  }

  lemma PriceInRange(k: Key)
    ensures Shr(k, 64) <= I64_MAX
  {
    SixtyFour();
    Pow2Add(63, 64);
    ShrTimes(k, 64);
    if Shr(k, 64) >= Pow2(63) { assert Shr(k, 64) * Pow2(64) >= Pow2(63) * Pow2(64); }
  }

  /** The arrival number that a key carries. */
  function KeyAge(side: Side, key: Key): int {
    var low := key % (U64_MAX + 1);
    if side == Bid then U64_MAX - low else low
  }

  lemma KeyAgeOf(side: Side, price: int, seqNum: int)
    requires 0 <= price <= I64_MAX && 0 <= seqNum <= U64_MAX
    ensures KeyAge(side, OrderId(side, price, seqNum)) == seqNum
  {
    var n, low := U64_MAX + 1, if side == Bid then U64_MAX - seqNum else seqNum;
    assert (price * n + low) % n == low;
  }
}
