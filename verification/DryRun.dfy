/** The dry run of an order: what its trades and its posting would change, read off the valid orders it meets. */
module DryRuns {
  import opened Types
  import opened OrderLists
  import opened Matcher
  import opened OrderPlacement

  /** What a dry run over the valid makers leaves of base and quote, and whether a post-only order would have traded. */
  datatype Simulated = Simulated(base: int, quote: int, wouldTake: bool)

  /** What is left of base and quote after one maker, and whether nothing more can be taken then. */
  function SimTake(m: LeafNode, base: int, quote: int): (int, int, bool)
    requires m.Price() > 0
  {
    var most := quote / m.Price();
    var q := Min(Min(base, m.quantity), most);
    (base - q, quote - q * m.Price(), q == most || base - q == 0)
  }

  function SimWalk(o: Incoming, valid: seq<LeafNode>, base: int, quote: int): Simulated
    requires Tradable(valid)
  {
    if valid == [] || !o.Crosses(valid[0].Price()) then Simulated(base, quote, false)
    else if o.postOnly then Simulated(base, quote, true)
    else
      var (base', quote', last) := SimTake(valid[0], base, quote);
      if last then Simulated(base', quote', false) else SimWalk(o, valid[1..], base', quote')
  }

  /** Changes to taker base and quote and to the quantities on order. */
  datatype Changes = Changes(takerBase: int, takerQuote: int, bids: int, asks: int)

  function Posting(side: Side, takerBase: int, takerQuote: int, quantity: int): Changes {
    if side == Bid then Changes(takerBase, takerQuote, quantity, 0) else Changes(takerBase, takerQuote, 0, quantity)
  }

  /** Simulates an order against the valid orders of the other side. */
  function SimOrder(mk: MarketState, rq: Request): Result<Changes>
    requires MarketOk(mk) && rq.Wellformed()
  {
    ResolvedPriceInRange(mk, rq);
    match PriceOf(mk, rq)
    case Err(e) => Err(e)
    case Ok((postOnly, postable, price)) =>
      var makers := mk.Resting(InvertSide(rq.side));
      ValidAtSubset(makers, rq.now);
      var r := SimWalk(IncomingOf(mk, rq, postOnly, price), ValidAt(makers, rq.now), rq.maxBase, rq.maxQuote);
      var (base, quote) := Signed(rq.side, rq.maxBase - r.base, rq.maxQuote - r.quote);
      if r.wouldTake then Ok(Posting(rq.side, base, quote, 0))
      else if price == 0 then Err(Panic)
      else
        var rest := Min(r.base, r.quote / price);
        var posts := postable && WithinPriceLimit(rq, mk.totals, price) && rest > 0;
        Ok(Posting(rq.side, base, quote, if posts then rest else 0))
  }
}
