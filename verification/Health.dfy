/** The value of positions under the worst outcome of their orders, and the cache of weighted sums over them. */
module Health {
  import opened Types
  import opened FixedPoint
  import opened Reals
  import opened PerpState

  datatype HealthType = Maint | Init | Equity

  const NUM_HEALTHS: nat := 3

  function IndexOf(h: HealthType): nat {
    match h case Maint => 0 case Init => 1 case Equity => 2
  }

  datatype Weights = Weights(maintAsset: Fixed, maintLiab: Fixed, initAsset: Fixed, initLiab: Fixed)
  {
    function Asset(h: HealthType): Fixed { match h case Maint => maintAsset case Init => initAsset case Equity => ONE }
    function Liab(h: HealthType): Fixed { match h case Maint => maintLiab case Init => initLiab case Equity => ONE }
  }

  /** Base and quote value of a market, not weighted. */
  datatype Val = Val(base: Fixed, quote: Fixed)

  function Weighted(v: Val, w: Weights, h: HealthType): Fixed {
    Mul(v.base, if v.base < 0 then w.Liab(h) else w.Asset(h)) + v.quote
  }

  // ----- Values of one market

  /** Quote of a position, with funding and with what it has taken but not been paid yet. */
  function QuoteOf(p: PerpPosition, t: MarketTotals): Fixed {
    p.QuotePosition(t.longFunding, t.shortFunding) + FromNum(p.takerQuote * t.quoteLotSize)
  }

  /** A perp position as if all its bids, or all its asks, were filled at `price`, whichever leaves more base. */
  function PerpVal(p: PerpPosition, t: MarketTotals, price: Fixed): Val {
    var current := p.base + p.takerBase;
    var quote := QuoteOf(p, t);
    var withBids, withAsks := current + p.bidsQuantity, current - p.asksQuantity;
    if Abs(withBids) > Abs(withAsks) then
      Val(withBids * t.baseLotSize * price, quote - p.bidsQuantity * t.baseLotSize * price)
    else
      Val(withAsks * t.baseLotSize * price, quote + p.asksQuantity * t.baseLotSize * price)
  }

  /** The position after `fill` lots of its bids less asks have traded at `price`. */
  function FilledVal(p: PerpPosition, t: MarketTotals, price: Fixed, fill: int): Val {
    var quote := QuoteOf(p, t);
    Val((p.base + p.takerBase + fill) * t.baseLotSize * price, quote - fill * t.baseLotSize * price)
  }

  function Exact(v: Val, assetWeight: real, liabWeight: real): real {
    (v.base as real) * (if v.base < 0 then liabWeight else assetWeight) + v.quote as real
  }

  /** Weights that add up to 2 take the same share of the size of a position on either side. */
  lemma ExactIsLinear(base: real, quote: real, aw: real, lw: real)
    requires aw + lw == 2.0
    ensures base * (if base < 0.0 then lw else aw) + quote ==
            base + quote - (1.0 - aw) * (if base < 0.0 then -base else base)
  {
    if base < 0.0 {
      assert base * lw == base * 2.0 - base * aw;
    }
  }

  /**
   * The value reported for a perp position is the least, in exact arithmetic, that any partial fill of its orders can
   * lead to, and it is reached by filling one side completely.
   */
  lemma PerpValIsWorst(p: PerpPosition, t: MarketTotals, price: Fixed, aw: real, lw: real, bidsFilled: int,
                       asksFilled: int)
    requires price >= 0 && t.baseLotSize > 0 && aw <= 1.0 && aw + lw == 2.0
    requires 0 <= bidsFilled <= p.bidsQuantity && 0 <= asksFilled <= p.asksQuantity
    ensures Exact(PerpVal(p, t, price), aw, lw) <= Exact(FilledVal(p, t, price, bidsFilled - asksFilled), aw, lw)
    ensures PerpVal(p, t, price) == FilledVal(p, t, price, p.bidsQuantity)
         || PerpVal(p, t, price) == FilledVal(p, t, price, -p.asksQuantity)
  {
    var current := p.base + p.takerBase;
    var worst := if Abs(current + p.bidsQuantity) > Abs(current - p.asksQuantity) then p.bidsQuantity
      else -p.asksQuantity;
    var fill := bidsFilled - asksFilled;
    assert Abs(current + fill) <= Abs(current + worst);
    assert 0 <= t.baseLotSize * price;
    FilledShape(p, t, price, worst);
    FilledShape(p, t, price, fill);
    WorstShape(p, t, price);
    hide PerpVal, FilledVal, Exact, PerpPosition.QuotePosition;
    BiggerIsWorse(current, worst, fill, t.baseLotSize * price, QuoteOf(p, t), aw, lw);
  }

  lemma FilledShape(p: PerpPosition, t: MarketTotals, price: Fixed, fill: int)
    ensures var unit := t.baseLotSize * price;
      FilledVal(p, t, price, fill) == Val((p.base + p.takerBase + fill) * unit, QuoteOf(p, t) - fill * unit)
  {
    hide PerpPosition.QuotePosition;
    Products(t.baseLotSize, price, p.base + p.takerBase + fill);
    Products(t.baseLotSize, price, fill);
  }

  lemma WorstShape(p: PerpPosition, t: MarketTotals, price: Fixed)
    ensures var current := p.base + p.takerBase;
      PerpVal(p, t, price) == FilledVal(p, t, price,
        if Abs(current + p.bidsQuantity) > Abs(current - p.asksQuantity) then p.bidsQuantity else -p.asksQuantity)
  {
    hide PerpPosition.QuotePosition;
    var a := p.asksQuantity;
    assert -a * t.baseLotSize == -(a * t.baseLotSize);
    assert -(a * t.baseLotSize) * price == -(a * t.baseLotSize * price);
  }

  lemma Products(lot: int, price: int, n: int)
    ensures n * lot * price == n * (lot * price)
  {
  }

  lemma BiggerIsWorse(current: int, worst: int, fill: int, unit: int, quote: int, aw: real, lw: real)
    requires unit >= 0 && aw <= 1.0 && aw + lw == 2.0 && Abs(current + fill) <= Abs(current + worst)
    ensures Exact(Val((current + worst) * unit, quote - worst * unit), aw, lw)
         <= Exact(Val((current + fill) * unit, quote - fill * unit), aw, lw)
  {
    hide Exact;
    ExactSize(current, worst, unit, quote, aw, lw);
    ExactSize(current, fill, unit, quote, aw, lw);
    TimesOrder(Abs(current + fill), Abs(current + worst), unit);
    RealTimes((Abs(current + fill) * unit) as real, (Abs(current + worst) * unit) as real, 1.0 - aw);
  }

  lemma ExactSize(current: int, z: int, unit: int, quote: int, aw: real, lw: real)
    requires unit >= 0 && aw + lw == 2.0
    ensures Exact(Val((current + z) * unit, quote - z * unit), aw, lw)
         == (current * unit + quote) as real - (1.0 - aw) * ((Abs(current + z) * unit) as real)
  {
    var base := (current + z) * unit;
    assert base == current * unit + z * unit;
    SignOf(current + z, unit);
    ExactIsLinear(base as real, (quote - z * unit) as real, aw, lw);
  }

  lemma SignOf(n: int, unit: int)
    requires unit >= 0
    ensures Abs(n * unit) == Abs(n) * unit
  {
    if n < 0 { assert n * unit <= 0; assert -n * unit == -(n * unit); } else { assert n * unit >= 0; }
  }

  /** Totals of the spot open orders of an account: free and locked quote, free and locked base. */
  datatype SpotOrders = SpotOrders(quoteFree: real, quoteLocked: real, baseFree: real, baseLocked: real)

  datatype RealVal = RealVal(base: real, quote: real)

  function RealAbs(x: real): real { if x < 0.0 then -x else x }

  function RealExact(v: RealVal, aw: real, lw: real): real {
    v.base * (if v.base < 0.0 then lw else aw) + v.quote
  }

  /** The same for a token with spot orders, in exact arithmetic. */
  function SpotVal(net: real, o: SpotOrders, price: real): RealVal
    requires price > 0.0
  {
    var withBids, withAsks := net + o.baseFree + o.baseLocked + o.quoteLocked / price, net + o.baseFree;
    if RealAbs(withBids) > RealAbs(withAsks) then RealVal(withBids * price, o.quoteFree)
    else RealVal(withAsks * price, o.baseLocked * price + o.quoteFree + o.quoteLocked)
  }

  /** The value once bids have spent `spent` of the locked quote and asks have sold `sold` of the locked base. */
  function SpotFilled(net: real, o: SpotOrders, price: real, spent: real, sold: real): RealVal
    requires price > 0.0
  {
    RealVal((net + o.baseFree + o.baseLocked - sold + spent / price) * price,
            o.quoteFree + (o.quoteLocked - spent) + sold * price)
  }

  lemma SpotValIsWorst(net: real, o: SpotOrders, price: real, aw: real, lw: real, spent: real, sold: real)
    requires price > 0.0 && aw <= 1.0 && aw + lw == 2.0
    requires 0.0 <= spent <= o.quoteLocked && 0.0 <= sold <= o.baseLocked
    ensures RealExact(SpotVal(net, o, price), aw, lw) <= RealExact(SpotFilled(net, o, price, spent, sold), aw, lw)
    ensures SpotVal(net, o, price) == SpotFilled(net, o, price, o.quoteLocked, 0.0)
         || SpotVal(net, o, price) == SpotFilled(net, o, price, 0.0, o.baseLocked)
  {
    var a, locked, bought := net + o.baseFree, o.quoteLocked / price, spent / price;
    var z, top := o.baseLocked - sold + bought, o.baseLocked + locked;
    QuotientOrder(spent, o.quoteLocked, price);
    QuotientOrder(0.0, spent, price);
    SpotShape(net, o, price, spent, sold);
    SpotShape(net, o, price, o.quoteLocked, 0.0);
    SpotShape(net, o, price, 0.0, o.baseLocked);
    SpotWorst(net, o, price);
    hide SpotVal, SpotFilled, Moved, Rest, RealExact;
    MovedOrder(a, z, top, price, Rest(o, price), aw, lw);
  }

  /** Of what may move, the farthest from zero is the worst. */
  lemma MovedOrder(a: real, z: real, top: real, price: real, rest: real, aw: real, lw: real)
    requires price > 0.0 && aw <= 1.0 && aw + lw == 2.0 && 0.0 <= z <= top
    ensures var worst := if RealAbs(a + top) > RealAbs(a) then top else 0.0;
      RealExact(Moved(a, worst, price, rest), aw, lw) <= RealExact(Moved(a, z, price, rest), aw, lw)
  {
    FartherIsWorse(a, z, if RealAbs(a + top) > RealAbs(a) then top else 0.0, price, rest, aw, lw);
  }

  lemma FartherIsWorse(a: real, z: real, worst: real, price: real, rest: real, aw: real, lw: real)
    requires price > 0.0 && aw <= 1.0 && aw + lw == 2.0 && RealAbs(a + z) <= RealAbs(a + worst)
    ensures RealExact(Moved(a, worst, price, rest), aw, lw) <= RealExact(Moved(a, z, price, rest), aw, lw)
  {
    hide RealExact, Moved, RealAbs;
    MovedSize(a, z, price, rest, aw, lw);
    MovedSize(a, worst, price, rest, aw, lw);
    ShareOrder(RealAbs(a + z), RealAbs(a + worst), price, 1.0 - aw);
  }

  lemma ShareOrder(x: real, y: real, price: real, share: real)
    requires x <= y && price >= 0.0 && share >= 0.0
    ensures share * (x * price) <= share * (y * price)
  {
    RealTimes(x, y, price);
    RealTimes(x * price, y * price, share);
  }

  /** The quote that is left when all orders are sold out. */
  function Rest(o: SpotOrders, price: real): real { o.quoteFree + o.quoteLocked + o.baseLocked * price }

  function Moved(a: real, z: real, price: real, rest: real): RealVal { RealVal((a + z) * price, rest - z * price) }

  lemma SpotShape(net: real, o: SpotOrders, price: real, spent: real, sold: real)
    requires price > 0.0
    ensures SpotFilled(net, o, price, spent, sold) ==
            Moved(net + o.baseFree, o.baseLocked - sold + spent / price, price, Rest(o, price))
  {
    Quotient(spent, price);
    var z := o.baseLocked - sold + spent / price;
    assert z * price == o.baseLocked * price - sold * price + (spent / price) * price;
  }

  lemma SpotWorst(net: real, o: SpotOrders, price: real)
    requires price > 0.0
    ensures var a, top := net + o.baseFree, o.baseLocked + o.quoteLocked / price;
      SpotVal(net, o, price) == Moved(a, if RealAbs(a + top) > RealAbs(a) then top else 0.0, price, Rest(o, price))
  {
    SpotShape(net, o, price, o.quoteLocked, 0.0);
    assert net + o.baseFree + o.baseLocked + o.quoteLocked / price ==
           net + o.baseFree + (o.baseLocked + o.quoteLocked / price);
  }

  lemma QuotientOrder(x: real, y: real, p: real)
    requires p > 0.0 && x <= y
    ensures x / p <= y / p
  {
    Quotient(x, p);
    Quotient(y, p);
  }

  lemma MovedSize(a: real, z: real, price: real, rest: real, aw: real, lw: real)
    requires price > 0.0 && aw + lw == 2.0
    ensures RealExact(Moved(a, z, price, rest), aw, lw) == a * price + rest - (1.0 - aw) * (RealAbs(a + z) * price)
  {
    var base := (a + z) * price;
    assert base == a * price + z * price;
    if a + z < 0.0 { RealStrict(a + z, 0.0, price); } else { RealTimes(0.0, a + z, price); }
    ExactIsLinear(base, rest - z * price, aw, lw);
  }
}
