/** Settlement between two accounts of a market, or an account and the market, on their positions alone. */
module Settlements {
  import opened Types
  import opened FixedPoint
  import opened PerpState

  /** Two positions of different accounts in one market. */
  datatype Pair = Pair(p: PerpPosition, q: PerpPosition, t: MarketTotals)
  {
    function Funded(): Pair {
      this.(p := p.SettleFunding(t.longFunding, t.shortFunding), q := q.SettleFunding(t.longFunding, t.shortFunding))
    }

    /** Moves quote from `p` to `q`. */
    function Transfer(quote: Fixed): Pair {
      this.(p := p.(quote := p.quote - quote), q := q.(quote := q.quote + quote))
    }

    /** Moves base from `p` to `q`. */
    function TransferBase(base: int): Pair {
      Pair(p.(base := p.base - base), q.(base := q.base + base),
           OpenInterestAfter(OpenInterestAfter(t, p.base, -base), q.base, base))
    }
  }

  lemma FundedBase(x: Pair)
    ensures x.Funded().p.base == x.p.base && x.Funded().q.base == x.q.base
  {
  }

  /** Profit against the oracle price; the position is a whole number of native units, so the product is exact. */
  function Pnl(p: PerpPosition, t: MarketTotals, price: Fixed): Fixed {
    p.quote + p.base * t.baseLotSize * price
  }

  /** The quote that settling the profits of two accounts moves from `p` to `q`. */
  function PnlTransfer(x: Pair, price: Fixed): Fixed {
    var a, b := Pnl(x.p, x.t, price), Pnl(x.q, x.t, price);
    if (a > 0 && b < 0) || (a < 0 && b > 0) then (if a > 0 then Min(Abs(a), Abs(b)) else -Min(Abs(a), Abs(b))) else 0
  }

  function SettlePnl(x: Pair, price: Fixed): Pair {
    x.Funded().Transfer(PnlTransfer(x.Funded(), price))
  }

  /** Settling ends one of two opposite profits and turns no sign; otherwise it moves nothing. */
  lemma SettlePnlEndsOne(x: Pair, price: Fixed)
    ensures
      var a, b := Pnl(x.Funded().p, x.t, price), Pnl(x.Funded().q, x.t, price);
      var y := SettlePnl(x, price);
      var a', b' := Pnl(y.p, x.t, price), Pnl(y.q, x.t, price);
      && a' + b' == a + b
      && (a > 0 && b < 0 ==> 0 <= a' <= a && b <= b' <= 0 && (a' == 0 || b' == 0))
      && (a < 0 && b > 0 ==> a <= a' <= 0 && 0 <= b' <= b && (a' == 0 || b' == 0))
      && (!(a > 0 && b < 0) && !(a < 0 && b > 0) ==> y == x.Funded())
  {
  }

  function FloorNum(a: Fixed): Fixed { FromNum(Floor(a)) }

  /** The whole units of accrued fees that a loss is settled against, which leave the bank. */
  function FeesTaken(p: PerpPosition, t: MarketTotals, price: Fixed): Fixed {
    var pnl := Pnl(p.SettleFunding(t.longFunding, t.shortFunding), t, price);
    if pnl < 0 && t.feesAccrued > 0 then FloorNum(Min(Abs(pnl), t.feesAccrued)) else 0
  }

  /** What an account with a loss takes over of the accrued fees: whole units, and in a closing market the dust. */
  function SettleFees(p: PerpPosition, t: MarketTotals, price: Fixed, forceClose: bool): (PerpPosition, MarketTotals) {
    var f := p.SettleFunding(t.longFunding, t.shortFunding);
    var pnl := Pnl(f, t, price);
    if !(pnl < 0 && t.feesAccrued > 0) then (f, t)
    else
      var settlement := FeesTaken(p, t, price);
      var left := t.feesAccrued - settlement;
      var dust := if forceClose && left < ONE then Min(Abs(pnl + settlement), left) else 0;
      (f.(quote := f.quote + settlement + dust), t.(feesAccrued := left - dust))
  }

  /**
   * Fees never go negative, a loss is never turned into a profit, and what remains is dust on one of the two. Outside a
   * closing market whole units are settled, and without a loss nothing is.
   */
  lemma SettleFeesBounds(p: PerpPosition, t: MarketTotals, price: Fixed, forceClose: bool)
    requires t.feesAccrued >= 0
    ensures
      var f := p.SettleFunding(t.longFunding, t.shortFunding);
      var (p', t') := SettleFees(p, t, price, forceClose);
      && p'.quote + t'.feesAccrued == f.quote + t.feesAccrued && t'.feesAccrued >= 0
      && FeesTaken(p, t, price) == FromNum(Floor(p'.quote - f.quote))
      && (Pnl(f, t, price) < 0 ==>
        && Pnl(f, t, price) <= Pnl(p', t, price) <= 0
        && (t'.feesAccrued < ONE || -Pnl(p', t, price) < ONE)
        && (!forceClose ==> p' == f.(quote := f.quote + FromNum(Floor(p'.quote - f.quote))))
        && (forceClose ==> t'.feesAccrued == 0 || t'.feesAccrued >= ONE || Pnl(p', t, price) == 0))
      && (Pnl(f, t, price) >= 0 || t.feesAccrued == 0 ==> (p', t') == (f, t))
  {
  }

  /** Lots a liquidator takes over: no more than asked for, than health needs and than there are. */
  function LiquidatedBase(base: int, request: int, maxTransfer: int): Result<int> {
    if base > 0 then
      if request > 0 then Ok(Min(Min(maxTransfer, request), base)) else Err(InvalidParam)
    else
      if request < 0 then Ok(Max(Max(maxTransfer, request), base)) else Err(InvalidParam)
  }

  /** Moves lots from `p`, the account in trouble, to `q` at the oracle price less, or plus, the fee. */
  function LiquidatePosition(x: Pair, request: int, maxTransfer: int, price: Fixed, fee: Fixed): Result<Pair> {
    var y := x.Funded();
    match LiquidatedBase(y.p.base, request, maxTransfer)
    case Err(e) => Err(e)
    case Ok(base) =>
      var rate := if y.p.base > 0 then ONE - fee else ONE + fee;
      Ok(y.TransferBase(base).Transfer(Mul(-base * x.t.baseLotSize * price, rate)))
  }

  /** Liquidation only ever shrinks the position in trouble and never turns it around. */
  lemma LiquidationShrinks(x: Pair, request: int, maxTransfer: int, price: Fixed, fee: Fixed)
    requires LiquidatePosition(x, request, maxTransfer, price, fee).Ok?
    requires if x.p.base > 0 then maxTransfer >= 0 else maxTransfer <= 0
    ensures
      var y := LiquidatePosition(x, request, maxTransfer, price, fee).value;
      && (x.p.base > 0 ==> 0 <= y.p.base <= x.p.base && x.p.base - y.p.base <= request)
      && (x.p.base <= 0 ==> x.p.base <= y.p.base <= 0 && y.p.base - x.p.base <= -request)
      && x.p.base + x.q.base == y.p.base + y.q.base
  {
  }

  /** At the oracle price the account in trouble pays the fee on what it gives up, to the bit, to the liquidator. */
  lemma LiquidationCosts(x: Pair, request: int, maxTransfer: int, price: Fixed, fee: Fixed)
    requires LiquidatePosition(x, request, maxTransfer, price, fee).Ok?
    requires price >= 0 && x.t.baseLotSize >= 0 && if x.p.base > 0 then maxTransfer >= 0 else maxTransfer <= 0
    ensures
      var f, y := x.Funded(), LiquidatePosition(x, request, maxTransfer, price, fee).value;
      var cost := Mul(Abs(f.p.base - y.p.base) * x.t.baseLotSize * price, fee);
      && Pnl(y.p, x.t, price) == Pnl(f.p, x.t, price) - cost
      && Pnl(y.q, x.t, price) == Pnl(f.q, x.t, price) + cost
  {
    hide Mul;
    var f := x.Funded();
    var base, lot := LiquidatedBase(f.p.base, request, maxTransfer).value, x.t.baseLotSize;
    LotsMoved(f.p.base, -base, lot, price);
    LotsMoved(f.q.base, base, lot, price);
    Negate(base, lot, price);
    if base >= 0 { NonNegative(base, lot, price); } else { NonNegative(-base, lot, price); }
    var v := base * lot * price;
    if f.p.base > 0 { MulShare(v, -fee); MulOpposite(v, fee); } else { MulShare(v, fee); }
  }

  lemma NonNegative(a: int, lot: int, price: int)
    requires a >= 0 && lot >= 0 && price >= 0
    ensures a * lot * price >= 0
  {
    assert a * lot >= 0;
  }

  lemma MulShare(v: Fixed, share: Fixed)
    ensures Mul(-v, ONE + share) == -v + Mul(-v, share)
  {
    assert -v * (ONE + share) == -v * ONE + -v * share;
  }

  lemma MulOpposite(v: Fixed, fee: Fixed)
    ensures Mul(-v, -fee) == Mul(v, fee)
  {
    assert -v * -fee == v * fee;
  }

  /** Closes opposite positions against each other at the oracle price, as far as the smaller one goes. */
  function ForceSettle(x: Pair, price: Fixed): Pair {
    if !((x.p.base > 0 && x.q.base < 0) || (x.p.base < 0 && x.q.base > 0)) then x
    else
      var y := x.Funded();
      var size := Min(Abs(y.p.base), Abs(y.q.base));
      var base := if y.p.base > 0 then size else -size;
      y.TransferBase(base).Transfer(-base * x.t.baseLotSize * price)
  }

  /** Forced settlement closes the smaller position, keeps both profits and lowers open interest by twice its size. */
  lemma ForceSettleCloses(x: Pair, price: Fixed)
    requires (x.p.base > 0 && x.q.base < 0) || (x.p.base < 0 && x.q.base > 0)
    ensures
      var y := ForceSettle(x, price);
      && (y.p.base == 0 || y.q.base == 0) && Abs(y.p.base) <= Abs(x.p.base) && Abs(y.q.base) <= Abs(x.q.base)
      && Pnl(y.p, x.t, price) == Pnl(x.Funded().p, x.t, price) && Pnl(y.q, x.t, price) == Pnl(x.Funded().q, x.t, price)
      && y.t.openInterest == x.t.openInterest - 2 * Min(Abs(x.p.base), Abs(x.q.base))
  {
    var f := x.Funded();
    var size := Min(Abs(f.p.base), Abs(f.q.base));
    var base := if f.p.base > 0 then size else -size;
    LotsMoved(f.p.base, -base, x.t.baseLotSize, price);
    LotsMoved(f.q.base, base, x.t.baseLotSize, price);
    Negate(base, x.t.baseLotSize, price);
  }

  /** The value of a position moves by the value of the lots moved. */
  lemma LotsMoved(a: int, b: int, lot: int, price: int)
    ensures (a + b) * lot * price == a * lot * price + b * lot * price
  {
    Distribute(a, b, lot);
    Distribute(a * lot, b * lot, price);
  }

  lemma Negate(a: int, lot: int, price: int)
    ensures -a * lot * price == -(a * lot * price)
  {
    Negated(a, lot);
    Negated(a * lot, price);
  }

  /** Whole quote units that the insurance fund pays for the debt of a bankrupt account. */
  function Insured(debt: Fixed, maxTransfer: Fixed, insurance: nat): int {
    Min(Ceil(Min(maxTransfer, debt)), insurance)
  }

  /** Whether a debt stays that the exhausted fund leaves to be socialized. */
  predicate Uninsured(quote: Fixed, maxTransfer: Fixed, insurance: nat) {
    Insured(-quote, maxTransfer, insurance) == insurance && quote + FromNum(insurance) < 0
  }

  /** The fund pays first and the liquidator takes that part of the debt; what then stays is spread over the market. */
  function ResolveBankruptcy(x: Pair, maxTransfer: Fixed, insurance: nat): Result<Pair>
    requires x.t.openInterest >= 0
  {
    if maxTransfer <= 0 || x.p.quote >= 0 then Err(InvalidParam)
    else
      var y := x.Transfer(-FromNum(Insured(-x.p.quote, maxTransfer, insurance)));
      if Uninsured(x.p.quote, maxTransfer, insurance) then
        var (p, t) := SocializePosition(y.p, y.t);
        Ok(y.(p := p, t := t))
      else Ok(y)
  }

  /**
   * The fund pays as many whole units as cover the debt, or the part of it that is asked for, but never more than it
   * has. What it has not paid stays a debt, unless the fund is empty: then it is socialized.
   */
  lemma InsuranceBounds(x: Pair, maxTransfer: Fixed, insurance: nat)
    requires x.t.openInterest >= 0
    ensures ResolveBankruptcy(x, maxTransfer, insurance).Ok? <==> maxTransfer > 0 && x.p.quote < 0
    ensures ResolveBankruptcy(x, maxTransfer, insurance).Ok? ==>
      var paid := Insured(-x.p.quote, maxTransfer, insurance);
      var y := ResolveBankruptcy(x, maxTransfer, insurance).value;
      && 0 <= paid <= insurance && FromNum(paid) < -x.p.quote + ONE && FromNum(paid) < maxTransfer + ONE
      && (paid == insurance || FromNum(paid) >= Min(maxTransfer, -x.p.quote))
      && y.q == x.q.(quote := x.q.quote - FromNum(paid))
      && var left := x.p.quote + FromNum(paid);
      if paid == insurance && left < 0 then
        && y.p == x.p.(quote := 0) && (x.t.openInterest == 0 ==> y.t == x.t)
        && (x.t.openInterest > 0 ==>
          var loss := y.t.shortFunding - x.t.shortFunding;
          && y.t == x.t.(longFunding := x.t.longFunding - loss, shortFunding := x.t.shortFunding + loss)
          && -x.t.openInterest < left - loss * x.t.openInterest < x.t.openInterest)
      else y.p == x.p.(quote := left) && y.t == x.t
  {
    var left := x.p.quote + FromNum(Insured(-x.p.quote, maxTransfer, insurance));
    if x.t.openInterest > 0 { DivByNum(left, x.t.openInterest); }
    hide Div;
  }
}
