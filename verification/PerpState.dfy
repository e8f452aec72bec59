/** Perp accounts, order slots and the market totals as values, and what each settlement step does to them. */
module PerpState {
  import opened OrderKeys
  import opened Types
  import opened FixedPoint
  import opened Events

  const MAX_PERP_OPEN_ORDERS: nat := 64

  /** One account in one market. Lots are whole numbers, quote and funding are fixed point. */
  datatype PerpPosition = PerpPosition(
    base: int, quote: Fixed, longSettled: Fixed, shortSettled: Fixed,
    bidsQuantity: int, asksQuantity: int, takerBase: int, takerQuote: int)
  {
    function Quantity(side: Side): int { if side == Bid then bidsQuantity else asksQuantity }

    function AddQuantity(side: Side, q: int): PerpPosition {
      if side == Bid then this.(bidsQuantity := bidsQuantity + q) else this.(asksQuantity := asksQuantity + q)
    }

    /** Funding not yet moved into the quote position, per the side of the position. */
    function FundingDue(longFunding: Fixed, shortFunding: Fixed): Fixed {
      if base > 0 then (longFunding - longSettled) * base
      else if base < 0 then (shortFunding - shortSettled) * base
      else 0
    }

    /** The quote position adjusted for funding. */
    function QuotePosition(longFunding: Fixed, shortFunding: Fixed): Fixed {
      quote - FundingDue(longFunding, shortFunding)
    }

    function SettleFunding(longFunding: Fixed, shortFunding: Fixed): PerpPosition {
      this.(quote := QuotePosition(longFunding, shortFunding), longSettled := longFunding, shortSettled := shortFunding)
    }
  }

  datatype OrderSlot = Free | Used(market: nat, side: Side, orderId: Key, clientOrderId: nat)

  datatype Account = Account(perps: seq<PerpPosition>, slots: seq<OrderSlot>)

  datatype MarketTotals = MarketTotals(
    longFunding: Fixed, shortFunding: Fixed, openInterest: int, feesAccrued: Fixed, seqNum: nat,
    quoteLotSize: int, baseLotSize: int, version: nat, maxDepth: int)

  function FirstFree(slots: seq<OrderSlot>): Option<nat> {
    if slots == [] then None
    else if slots[0].Free? then Some(0)
    else match FirstFree(slots[1..]) case None => None case Some(i) => Some(i + 1)
  }

  lemma {:induction false} FirstFreeIsFree(slots: seq<OrderSlot>)
    ensures match FirstFree(slots)
            case Some(i) => i < |slots| && slots[i].Free? && forall j :: 0 <= j < i ==> slots[j].Used?
            case None => forall j :: 0 <= j < |slots| ==> slots[j].Used?
  {
    if slots != [] && slots[0].Used? { FirstFreeIsFree(slots[1..]); }
  }

  /** An order rests: its quantity is counted and its slot taken. */
  function AddOrder(a: Account, m: nat, side: Side, leaf: LeafNode): Account
    requires m < |a.perps| && leaf.ownerSlot < |a.slots|
  {
    a.(perps := a.perps[m := a.perps[m].AddQuantity(side, leaf.quantity)],
       slots := a.slots[leaf.ownerSlot := Used(m, side, leaf.key, leaf.clientOrderId)])
  }

  /** An order is gone: market and side come from the slot. */
  function RemoveOrderAt(a: Account, slot: nat, quantity: int): Result<Account> {
    if slot >= |a.slots| || a.slots[slot].Free? || a.slots[slot].market >= |a.perps| then Err(Panic)
    else
      var s := a.slots[slot];
      Ok(a.(perps := a.perps[s.market := a.perps[s.market].AddQuantity(s.side, -quantity)],
        slots := a.slots[slot := Free]))
  }

  function OpenInterestAfter(t: MarketTotals, base: int, change: int): MarketTotals {
    t.(openInterest := t.openInterest + Abs(base + change) - Abs(base))
  }

  function ExecuteTaker(a: Account, m: nat, t: MarketTotals, fill: Event): (Account, MarketTotals)
    requires m < |a.perps| && fill.Fill?
  {
    var p := a.perps[m].SettleFunding(t.longFunding, t.shortFunding);
    var (base, quote) := fill.BaseQuoteChange(fill.takerSide);
    var p' := p.(takerBase := p.takerBase - base, takerQuote := p.takerQuote - quote, base := p.base + base,
                 quote := p.quote + FromNum(t.quoteLotSize * quote));
    (a.(perps := a.perps[m := p']), OpenInterestAfter(t, p.base, base))
  }

  /**
   * Maker fees of a fill, a whole number of native quote times the rate, so exact; they reach the account of the maker
   * only when the fill is consumed.
   */
  function MakerFees(t: MarketTotals, fill: Event): Fixed
    requires fill.Fill?
  {
    Abs(t.quoteLotSize * (fill.price * fill.quantity)) * fill.makerFee
  }

  function ExecuteMaker(a: Account, m: nat, t: MarketTotals, fill: Event): Result<(Account, MarketTotals)>
    requires m < |a.perps| && fill.Fill?
  {
    var side := InvertSide(fill.takerSide);
    var p := a.perps[m].SettleFunding(t.longFunding, t.shortFunding);
    var (base, quote) := fill.BaseQuoteChange(side);
    var p' := p.(base := p.base + base, quote := p.quote + FromNum(t.quoteLotSize * quote) - MakerFees(t, fill));
    var t' := OpenInterestAfter(t, p.base, base);
    if fill.makerOut then
      match RemoveOrderAt(a.(perps := a.perps[m := p']), fill.makerSlot, Abs(base))
      case Err(e) => Err(e)
      case Ok(a') => Ok((a', t'))
    else
      Ok((a.(perps := a.perps[m := p'.AddQuantity(side, -Abs(base))]), t'))
  }

  /** The loss of one position spread over all open contracts. */
  function SocializePosition(p: PerpPosition, t: MarketTotals): (PerpPosition, MarketTotals)
    requires t.openInterest >= 0
  {
    var loss := if t.openInterest == 0 then 0 else Div(p.quote, FromNum(t.openInterest));
    (p.(quote := 0), t.(longFunding := t.longFunding - loss, shortFunding := t.shortFunding + loss))
  }

  /** Base lots that queued fills still bring to `pk` as maker. */
  function MakerBase(events: seq<Event>, pk: Pubkey): int {
    if events == [] then 0 else
    var e := events[0];
    (if e.Fill? && e.maker == pk then e.BaseQuoteChange(InvertSide(e.takerSide)).0 else 0) + MakerBase(events[1..], pk)
  }
}
