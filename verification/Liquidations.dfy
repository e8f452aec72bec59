/** How much of a perp position a liquidation takes over: enough to bring health back to zero, and no more. */
module Liquidations {
  import opened Types
  import opened FixedPoint
  import opened PerpState
  import opened Settlements
  import opened Health
  import opened Runs

  /** What taking over one lot does for the initial health of the account, below zero for a short position. */
  function HealthPerLot(base: int, t: MarketTotals, price: Fixed, w: Weights, fee: Fixed): Fixed {
    Mul(t.baseLotSize * price, if base > 0 then ONE - w.initAsset - fee else ONE - w.initLiab + fee)
  }

  /** The lots that bring the initial health back to zero; there must be something to gain. */
  function MaxTransfer(base: int, initHealth: Fixed, perLot: Fixed): Result<int> {
    if perLot == 0 then Err(Panic)
    else if base > 0 then Ok(Ceil(Div(-initHealth, perLot)))
    else Ok(Floor(Div(-initHealth, perLot)))
  }

  /** The health of an account after its position in one market has changed. */
  function HealthWith(before: Fixed, p: PerpPosition, p': PerpPosition, t: MarketTotals, price: Fixed, w: Weights,
                      h: HealthType): Fixed
  {
    before + (Weighted(PerpVal(p', t, price), w, h) - Weighted(PerpVal(p, t, price), w, h))
  }

  /** What becomes of a request to liquidate: no, not any more, or the positions after it. */
  datatype Verdict = Refused | Recovered | Liquidated(y: Pair)

  /**
   * The lots that may be taken over, or none if the account has recovered. An account is liquidated once its
   * maintenance health is below zero, and then until its initial health is above it.
   */
  function LiquidationLimit(base: int, t: MarketTotals, open: bool, already: bool, initHealth: Fixed,
                            maintHealth: Fixed, price: Fixed, w: Weights, fee: Fixed): Result<Option<int>>
  {
    if open then Err(InvalidState)
    else if already && initHealth > 0 then Ok(None)
    else if !already && maintHealth >= 0 then Err(InvalidState)
    else
      match MaxTransfer(base, initHealth, HealthPerLot(base, t, price, w, fee))
      case Err(e) => Err(e)
      case Ok(limit) => Ok(Some(limit))
  }

  function Liquidation(x: Pair, open: bool, already: bool, initHealth: Fixed, maintHealth: Fixed, request: int,
                       price: Fixed, w: Weights, fee: Fixed): Verdict
  {
    match LiquidationLimit(x.p.base, x.t, open, already, initHealth, maintHealth, price, w, fee)
    case Err(_) => Refused
    case Ok(None) => Recovered
    case Ok(Some(limit)) =>
      match LiquidatePosition(x, request, limit, price, fee)
      case Err(_) => Refused
      case Ok(y) => Liquidated(y)
  }

  /** What an account counts as nothing. */
  const DUST_THRESHOLD: Fixed := 281_474_977

  predicate NothingLeft(deposit: Fixed, p: PerpPosition, spotOrders: bool) {
    deposit <= DUST_THRESHOLD && !spotOrders && p.quote <= 0 && p.base == 0
  }

  /** No deposits, no spot orders, no base positions and no profits: nothing is left to take for what is owed. */
  predicate Bankrupt(deposits: seq<Fixed>, perps: seq<PerpPosition>, spotOrders: seq<bool>, quoteToken: nat)
    requires |perps| == |spotOrders| <= |deposits| && quoteToken < |deposits|
  {
    && deposits[quoteToken] <= DUST_THRESHOLD
    && forall i :: 0 <= i < |perps| ==> NothingLeft(deposits[i], perps[i], spotOrders[i])
  }

  /** An account stays bankrupt while anything is owed in tokens or positions. */
  predicate StaysBankrupt(borrows: seq<Fixed>, perps: seq<PerpPosition>, quoteToken: nat)
    requires |perps| <= |borrows| && quoteToken < |borrows|
  {
    || borrows[quoteToken] > DUST_THRESHOLD
    || exists i :: 0 <= i < |perps| && (borrows[i] > DUST_THRESHOLD || perps[i].quote < 0 || perps[i].base != 0)
  }

  function WorthAt(p: PerpPosition, price: nat): int { p.base * price + p.quote }

  /** Nothing is left in a market just if its position is worth the same, and nothing, at every price. */
  lemma NothingLeftMeans(deposit: Fixed, p: PerpPosition, spotOrders: bool)
    ensures NothingLeft(deposit, p, spotOrders) <==>
            deposit <= DUST_THRESHOLD && !spotOrders && forall price :: WorthAt(p, price) == WorthAt(p, 0) <= 0
  {
    assert WorthAt(p, 1) == WorthAt(p, 0) + p.base && WorthAt(p, 0) == p.quote;
  }

  /** An account whose deposits are dust owes more than it has as soon as something is owed beyond that. */
  lemma BankruptMeans(deposits: seq<Fixed>, borrows: seq<Fixed>, perps: seq<PerpPosition>, spotOrders: seq<bool>,
                      quoteToken: nat)
    requires |perps| == |spotOrders| <= |deposits| && |perps| <= |borrows|
    requires quoteToken < |deposits| && quoteToken < |borrows|
    ensures Bankrupt(deposits, perps, spotOrders, quoteToken) <==>
      && (forall i :: (0 <= i < |perps| || i == quoteToken) ==> deposits[i] <= DUST_THRESHOLD)
      && (forall i :: 0 <= i < |perps| ==> !spotOrders[i] && perps[i].base == 0 && perps[i].quote <= 0)
    ensures Bankrupt(deposits, perps, spotOrders, quoteToken) && !StaysBankrupt(borrows, perps, quoteToken) ==>
      forall i :: 0 <= i < |perps| ==> perps[i].quote == 0 && borrows[i] <= DUST_THRESHOLD
    ensures StaysBankrupt(borrows, perps, quoteToken) <==>
      || (exists i :: (0 <= i < |perps| || i == quoteToken) && borrows[i] > DUST_THRESHOLD)
      || (exists i :: 0 <= i < |perps| && (perps[i].quote < 0 || perps[i].base != 0))
  {
  }

  /** A position with no orders and nothing on the way is worth its lots. */
  lemma PlainVal(p: PerpPosition, t: MarketTotals, price: Fixed)
    requires NoOpenOrders(p)
    ensures PerpVal(p, t, price) ==
            Val(p.base * (t.baseLotSize * price), p.QuotePosition(t.longFunding, t.shortFunding))
  {
    hide PerpPosition.QuotePosition;
    Products(t.baseLotSize, price, p.base);
  }

  lemma FloorTimes(n: int, a: int)
    ensures Abs(n * a - n * (a / ONE) * ONE) <= Abs(n) * (ONE - 1)
  {
    var q, r := a / ONE, a % ONE;
    assert a == q * ONE + r;
    assert n * a == n * q * ONE + n * r;
    if n >= 0 {
      TimesOrder(0, r, n);
      TimesOrder(r, ONE - 1, n);
    } else {
      TimesOrder(0, r, -n);
      TimesOrder(r, ONE - 1, -n);
      assert n * r == -(-n * r);
    }
  }

  /** The gain of `n` lots in three rounded products, against `n` times the gain of one in a single product. */
  lemma GainRounds(n: int, unit: int, base: int, weight: int, rate: int)
    ensures
      var gain := Mul((base - n) * unit, weight) - Mul(base * unit, weight) - Mul(-n * unit, rate);
      Abs(gain - n * Mul(unit, rate - weight)) <= Abs(n) + 1
  {
    var lot := unit * (rate - weight);
    var x, y, z := (base - n) * unit * weight, base * unit * weight, -n * unit * rate;
    assert x == y - n * unit * weight && z == -(n * unit * rate);
    assert x - y - z == n * lot by {
      assert n * lot == n * (unit * rate) - n * (unit * weight);
    }
    FloorTimes(n, lot);
    Differences(x, y, z, n * lot, n * (lot / ONE), Abs(n));
  }

  lemma Differences(x: int, y: int, z: int, d: int, k: int, n: nat)
    requires x - y - z == d && Abs(d - k * ONE) <= n * (ONE - 1)
    ensures Abs(x / ONE - y / ONE - z / ONE - k) <= n + 1
  {
    var g := x / ONE - y / ONE - z / ONE;
    assert -ONE < g * ONE - d < 2 * ONE;
  }

  /** The health that such a position brings, by the side it is on. */
  lemma PlainWeighted(p: PerpPosition, t: MarketTotals, price: Fixed, w: Weights, long: bool)
    requires NoOpenOrders(p) && t.baseLotSize * price >= 0 && if long then p.base >= 0 else p.base <= 0
    ensures Weighted(PerpVal(p, t, price), w, Init) ==
            Mul(p.base * (t.baseLotSize * price), if long then w.initAsset else w.initLiab)
            + p.QuotePosition(t.longFunding, t.shortFunding)
  {
    PlainVal(p, t, price);
    hide PerpVal, PerpPosition.QuotePosition;
    var unit := t.baseLotSize * price;
    SignOf(p.base, unit);
    TimesOrder(0, Abs(p.base), unit);
  }

  ghost predicate Liquidates(x: Pair, request: int, maxTransfer: int, price: Fixed, fee: Fixed) {
    && NoOpenOrders(x.p) && x.t.baseLotSize * price >= 0 && LiquidatePosition(x, request, maxTransfer, price, fee).Ok?
    && (if x.p.base > 0 then maxTransfer >= 0 else maxTransfer <= 0)
  }

  /** Every lot moved brings what it was reckoned to bring, to less than one unit a lot. */
  lemma LiquidationGain(x: Pair, request: int, maxTransfer: int, price: Fixed, w: Weights, fee: Fixed, before: Fixed)
    requires Liquidates(x, request, maxTransfer, price, fee)
    ensures
      var y := LiquidatePosition(x, request, maxTransfer, price, fee).value;
      var moved, after := x.p.base - y.p.base, HealthWith(before, x.p, y.p, x.t, price, w, Init);
      Abs(after - before - moved * HealthPerLot(x.p.base, x.t, price, w, fee)) <= Abs(moved) + 1
  {
    LiquidationShrinks(x, request, maxTransfer, price, fee);
    var y := LiquidatePosition(x, request, maxTransfer, price, fee).value;
    var moved, unit, long := x.p.base - y.p.base, x.t.baseLotSize * price, x.p.base > 0;
    var weight, rate := if long then w.initAsset else w.initLiab, if long then ONE - fee else ONE + fee;
    Products(x.t.baseLotSize, price, -moved);
    assert y.p.QuotePosition(x.t.longFunding, x.t.shortFunding) ==
           x.p.QuotePosition(x.t.longFunding, x.t.shortFunding) - Mul(-moved * unit, rate);
    assert NoOpenOrders(y.p) && HealthPerLot(x.p.base, x.t, price, w, fee) == Mul(unit, rate - weight);
    hide LiquidatePosition, PerpPosition.QuotePosition, PerpVal, Mul, NoOpenOrders, Weighted, HealthPerLot;
    PlainWeighted(x.p, x.t, price, w, long);
    PlainWeighted(y.p, x.t, price, w, long);
    assert y.p.base == x.p.base - moved;
    GainRounds(moved, unit, x.p.base, weight, rate);
  }

  /** The lots that bring back `debt`, rounded up, and one lot less. */
  lemma EnoughLots(debt: int, perLot: int)
    requires debt >= 0 && perLot > 0
    ensures var n := Ceil(Div(debt, perLot));
      0 <= n && (n - 1) * perLot < debt && n * perLot >= debt - perLot / ONE
  {
    var d := debt * ONE / perLot;
    var n := Ceil(d);
    QuotientOf(debt * ONE, perLot);
    assert (n - 1) * ONE < d <= n * ONE;
    ScaledLess((n - 1) * ONE, d, perLot);
    TimesOrder(d, n * ONE, perLot);
    Reorder(n - 1, perLot);
    Reorder(n, perLot);
    hide Ceil;
    WholeLots((n - 1) * perLot, n * perLot, debt, perLot);
  }

  lemma Reorder(n: int, k: int)
    ensures n * ONE * k == n * k * ONE
  {
  }

  lemma WholeLots(less: int, enough: int, debt: int, perLot: int)
    requires less * ONE < debt * ONE < enough * ONE + perLot && perLot > 0
    ensures less < debt && enough >= debt - perLot / ONE
  {
  }

  lemma ScaledLess(a: int, b: int, k: int)
    requires a < b && k > 0
    ensures a * k < b * k
  {
  }

  lemma EnoughLotsShort(debt: int, perLot: int)
    requires debt >= 0 && perLot < 0
    ensures Floor(Div(debt, perLot)) == -Ceil(Div(debt, -perLot))
  {
    var d := debt * ONE / -perLot;
    assert debt * ONE >= 0;
  }

  /**
   * Liquidation takes over just what is needed. Health never falls by it, but for one unit, and ends less than one lot
   * above zero; and unless the request or the position is the smaller limit, it is back at zero, to within a unit for
   * every lot moved and the rounding of one quotient. So the threshold of one native unit does clear the flag.
   */
  lemma LiquidationRestores(x: Pair, open: bool, already: bool, initHealth: Fixed, maintHealth: Fixed, request: int,
                            price: Fixed, w: Weights, fee: Fixed)
    requires NoOpenOrders(x.p) && x.t.baseLotSize * price >= 0 && initHealth <= maintHealth
    requires var perLot := HealthPerLot(x.p.base, x.t, price, w, fee); if x.p.base > 0 then perLot > 0 else perLot < 0
    requires Liquidation(x, open, already, initHealth, maintHealth, request, price, w, fee).Liquidated?
    ensures
      var perLot := HealthPerLot(x.p.base, x.t, price, w, fee);
      var y := Liquidation(x, open, already, initHealth, maintHealth, request, price, w, fee).y;
      var after, moved := HealthWith(initHealth, x.p, y.p, x.t, price, w, Init), x.p.base - y.p.base;
      var short := Abs(perLot) / ONE + Abs(moved) + 1;
      && initHealth <= 0 && initHealth - 1 <= after <= Abs(perLot) + Abs(moved)
      && (MaxTransfer(x.p.base, initHealth, perLot) == Ok(moved) ==>
        after >= -short && (short <= ONE ==> after >= -ONE))
  {
    var perLot := HealthPerLot(x.p.base, x.t, price, w, fee);
    LimitOf(x.p.base, initHealth, perLot);
    var limit := MaxTransfer(x.p.base, initHealth, perLot).value;
    var y := LiquidatePosition(x, request, limit, price, fee).value;
    var moved, after := x.p.base - y.p.base, HealthWith(initHealth, x.p, y.p, x.t, price, w, Init);
    LiquidationGain(x, request, limit, price, w, fee, initHealth);
    MovedIs(x, request, limit, price, fee);
    hide LiquidatePosition, HealthWith, HealthPerLot, MaxTransfer;
    SameSigns(moved, perLot);
    Restored(Abs(moved), Abs(limit), Abs(perLot), -initHealth, after - initHealth);
  }

  /** A request that asks for lots of the side the account is on. */
  predicate AsksFor(base: int, request: int) { if base > 0 then request > 0 else request < 0 }

  /**
   * Who is liquidated: without open orders, an account whose maintenance health is below zero, or one under liquidation
   * whose initial health is not above zero, for a request of the right side and something to gain from a lot. One
   * under liquidation whose initial health is above zero has recovered; all others are refused.
   */
  lemma LiquidationVerdict(x: Pair, open: bool, already: bool, initHealth: Fixed, maintHealth: Fixed, request: int,
                           price: Fixed, w: Weights, fee: Fixed)
    ensures
      var v := Liquidation(x, open, already, initHealth, maintHealth, request, price, w, fee);
      && (v.Recovered? <==> !open && already && initHealth > 0)
      && (v.Liquidated? <==>
          && !open && (if already then initHealth <= 0 else maintHealth < 0)
          && AsksFor(x.p.base, request) && HealthPerLot(x.p.base, x.t, price, w, fee) != 0)
  {
    hide HealthPerLot, PerpPosition.QuotePosition;
  }

  /**
   * As many lots change hands as are asked for, as there are and as health needs: one lot less would not do, and if
   * fewer than asked for and than there are, they do.
   */
  lemma LiquidationTakes(x: Pair, open: bool, already: bool, initHealth: Fixed, maintHealth: Fixed, request: int,
                         price: Fixed, w: Weights, fee: Fixed)
    requires NoOpenOrders(x.p) && x.t.baseLotSize * price >= 0 && initHealth <= maintHealth
    requires var perLot := HealthPerLot(x.p.base, x.t, price, w, fee); if x.p.base > 0 then perLot > 0 else perLot < 0
    requires Liquidation(x, open, already, initHealth, maintHealth, request, price, w, fee).Liquidated?
    ensures
      var y := Liquidation(x, open, already, initHealth, maintHealth, request, price, w, fee).y;
      var moved, gain := Abs(x.p.base - y.p.base), Abs(HealthPerLot(x.p.base, x.t, price, w, fee));
      && moved <= Abs(x.p.base) && moved <= Abs(request) && (moved - 1) * gain < -initHealth
      && (moved == Abs(x.p.base) || moved == Abs(request) || moved * gain >= -initHealth - gain / ONE)
      && (if x.p.base > 0 then y.p.base <= x.p.base else y.p.base >= x.p.base)
  {
    var perLot := HealthPerLot(x.p.base, x.t, price, w, fee);
    LimitOf(x.p.base, initHealth, perLot);
    var limit := MaxTransfer(x.p.base, initHealth, perLot).value;
    MovedIs(x, request, limit, price, fee);
    hide LiquidatePosition, HealthPerLot, MaxTransfer;
    var y := Liquidation(x, open, already, initHealth, maintHealth, request, price, w, fee).y;
    OneLess(Abs(x.p.base - y.p.base), Abs(limit), Abs(perLot), -initHealth);
  }

  lemma OneLess(n: nat, c: int, perLot: int, debt: int)
    requires n <= c && perLot > 0 && (c - 1) * perLot < debt
    ensures (n - 1) * perLot < debt
  {
    TimesOrder(n - 1, c - 1, perLot);
  }

  lemma MovedIs(x: Pair, request: int, maxTransfer: int, price: Fixed, fee: Fixed)
    requires Liquidates(x, request, maxTransfer, price, fee)
    ensures var moved := x.p.base - LiquidatePosition(x, request, maxTransfer, price, fee).value.p.base;
      && Abs(moved) == Min(Min(Abs(maxTransfer), Abs(request)), Abs(x.p.base))
      && if x.p.base > 0 then moved >= 0 else moved <= 0
  {
    hide Mul, PerpPosition.QuotePosition;
  }

  /** The limit takes the side of the position; its lots bring back what is missing and one lot less would not. */
  lemma LimitOf(base: int, health: Fixed, perLot: Fixed)
    requires health <= 0 && if base > 0 then perLot > 0 else perLot < 0
    ensures MaxTransfer(base, health, perLot).Ok?
    ensures var limit := MaxTransfer(base, health, perLot).value;
      && (if base > 0 then limit >= 0 else limit <= 0)
      && (Abs(limit) - 1) * Abs(perLot) < -health && Abs(limit) * Abs(perLot) >= -health - Abs(perLot) / ONE
  {
    hide Div, Ceil, Floor;
    EnoughLots(-health, Abs(perLot));
    if base <= 0 { EnoughLotsShort(-health, perLot); }
  }

  lemma SameSigns(a: int, b: int)
    requires (a >= 0 && b > 0) || (a <= 0 && b < 0)
    ensures a * b == Abs(a) * Abs(b)
  {
  }

  lemma Restored(n: nat, c: int, perLot: int, debt: int, gain: int)
    requires n <= c && perLot > 0 && (c - 1) * perLot < debt && c * perLot >= debt - perLot / ONE
    requires Abs(gain - n * perLot) <= n + 1
    ensures -1 <= gain <= debt + perLot + n
    ensures n == c ==> gain >= debt - perLot / ONE - n - 1
  {
    TimesOrder(1, perLot, n);
    TimesOrder(n, c, perLot);
    Distribute(c, -1, perLot);
  }
}
