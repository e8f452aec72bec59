/** Which orders rest on the book, and what exactly is put there, from the request and the book alone. */
module Posting {
  import opened OrderKeys
  import opened Types
  import opened OrderLists
  import opened FixedPoint
  import opened Events
  import opened Matcher
  import opened OrderIds
  import opened PerpState
  import opened OrderPlacement
  import opened Ledger
  import opened Placing
  import opened Conservation
  import opened Crossings
  import opened Simulation

  // ----- The price limit, written out

  /** The price of a lot in native quote per native base, rounded down. */
  function NativePrice(t: MarketTotals, price: int): Fixed
    requires t.baseLotSize > 0
  {
    price * t.quoteLotSize * ONE / t.baseLotSize
  }

  /**
   * A bid may rest up to the weighted oracle price and an ask from there on. In a market that only reduces, a bid may
   * also rest at any price unless one tick is above the oracle price and the bid is above one tick.
   */
  predicate MayRestAt(rq: Request, t: MarketTotals, price: int)
    requires t.baseLotSize > 0
  {
    var native, limit := NativePrice(t, price), rq.maintWeight * rq.oraclePrice;
    if rq.side == Ask then native * ONE >= limit
    else
      || native * ONE <= limit
      || (rq.reduceOnly && (rq.oraclePrice >= NativePrice(t, 1) || native <= NativePrice(t, 1)))
  }

  lemma NativeIs(t: MarketTotals, price: int)
    requires t.baseLotSize > 0 && t.quoteLotSize > 0 && price >= 0
    ensures LotToNativePrice(t, price) == NativePrice(t, price) >= 0
  {
    var lots := price * t.quoteLotSize;
    TimesOrder(0, price, t.quoteLotSize);
    MulByNum(price, FromNum(t.quoteLotSize));
    assert Mul(FromNum(price), FromNum(t.quoteLotSize)) == lots * ONE;
    CancelOne(lots * ONE, t.baseLotSize);
  }

  lemma CancelOne(a: nat, n: int)
    requires n > 0
    ensures Div(a, FromNum(n)) == a / n >= 0
  {
    var q := a / n;
    assert q * n <= a < q * n + n;
    assert q * (n * ONE) <= a * ONE < q * (n * ONE) + n * ONE;
    QuotientIs(a * ONE, n * ONE, q);
  }

  lemma QuotientIs(a: nat, b: int, q: int)
    requires b > 0 && q * b <= a < q * b + b
    ensures a / b == q
  {
    var r := a / b;
    assert r * b <= a < r * b + b;
    if q < r { TimesOrder(q + 1, r, b); } else if r < q { TimesOrder(r + 1, q, b); }
  }

  /** A rounded-down product or quotient is on the same side of a whole number as the exact one. */
  lemma AtMostQuotient(a: int, b: int, n: int)
    requires b > 0
    ensures n <= a / b <==> n * b <= a
  {
    var q := a / b;
    assert q * b <= a < q * b + b;
    if n <= q { TimesOrder(n, q, b); } else { TimesOrder(q + 1, n, b); }
  }

  lemma PriceLimitMeans(rq: Request, t: MarketTotals, price: int)
    requires t.baseLotSize > 0 && t.quoteLotSize > 0 && rq.oraclePrice > 0 && price >= 0
    ensures WithinPriceLimit(rq, t, price) <==> MayRestAt(rq, t, price)
  {
    NativeIs(t, price);
    NativeIs(t, 1);
    hide LotToNativePrice, NativePrice;
    var native := NativePrice(t, price);
    if rq.side == Bid {
      AtMostQuotient(rq.maintWeight * rq.oraclePrice, ONE, native);
    } else {
      assert Div(native, rq.oraclePrice) == native * ONE / rq.oraclePrice;
      AtMostQuotient(native * ONE, rq.oraclePrice, rq.maintWeight);
    }
  }

  // ----- The price and the flags of an order

  /** A valid order of the other side at the price or better. */
  ghost predicate CrossesSome(mk: MarketState, rq: Request, price: int) {
    exists o :: o in mk.Resting(InvertSide(rq.side)) && o.IsValid(rq.now) &&
                if rq.side == Bid then price >= o.Price() else price <= o.Price()
  }

  /**
   * The price at which an order is matched and rests: its own, any at all for a market order, and for one that slides
   * the nearest to its own at which it crosses nothing.
   */
  ghost predicate PricedAt(mk: MarketState, rq: Request, price: int) {
    match rq.orderType
    case Limit => price == rq.price
    case ImmediateOrCancel => price == rq.price
    case PostOnly => price == rq.price
    case Market => price == if rq.side == Bid then I64_MAX else 1
    case PostOnlySlide =>
      && !CrossesSome(mk, rq, price)
      && if rq.side == Bid
         then price <= rq.price && (price == rq.price || CrossesSome(mk, rq, price + 1))
         else rq.price <= price <= I64_MAX && (price == rq.price || CrossesSome(mk, rq, price - 1))
  }

  predicate OnlyPosts(rq: Request) { rq.orderType == PostOnly || rq.orderType == PostOnlySlide }

  predicate NeverPosts(rq: Request) { rq.orderType == ImmediateOrCancel || rq.orderType == Market }

  /** The price limit aside, the type of an order decides all, but for an ask that cannot slide above the top price. */
  lemma PriceOfMeans(mk: MarketState, rq: Request, price: int)
    requires MarketOk(mk) && rq.Wellformed()
    ensures PricedAt(mk, rq, price) <==> PriceOf(mk, rq) == Ok((OnlyPosts(rq), !NeverPosts(rq), price))
  {
    if rq.orderType == PostOnlySlide {
      var makers := mk.Resting(InvertSide(rq.side));
      assert Sorted(InvertSide(rq.side), makers);
      BestIsBest(InvertSide(rq.side), makers, rq.now);
      BestPositive(makers, rq.now);
      hide LeafNode.Price, LeafNode.IsValid, BestPrice;
      CrossesBest(mk, rq, price);
      CrossesBest(mk, rq, price + 1);
      CrossesBest(mk, rq, price - 1);
      ResolvedPriceInRange(mk, rq);
    }
  }

  lemma CrossesBest(mk: MarketState, rq: Request, price: int)
    requires MarketOk(mk)
    ensures
      var best := BestPrice(mk.Resting(InvertSide(rq.side)), rq.now);
      CrossesSome(mk, rq, price) <==> best.Some? && if rq.side == Bid then price >= best.value else price <= best.value
  {
    hide LeafNode.Price, LeafNode.IsValid, BestPrice;
    assert Sorted(InvertSide(rq.side), mk.Resting(InvertSide(rq.side)));
    BestIsBest(InvertSide(rq.side), mk.Resting(InvertSide(rq.side)), rq.now);
  }

  // ----- What rests

  /** The walk of an order that is priced at `price`, with the whole request as its budget. */
  function Matching(mk: MarketState, rq: Request, price: int): Walked
    requires MarketOk(mk) && 0 <= price <= I64_MAX
  {
    var refRate := if rq.referral.Ok? then rq.referral.value.rate else 0;
    Walk(Incoming(rq.side, price, OnlyPosts(rq), rq.now, rq.taker, OrderId(rq.side, price, mk.totals.seqNum + 1),
                  rq.clientOrderId, rq.makerFee, rq.takerFee + refRate),
         mk.Resting(InvertSide(rq.side)), Budget(rq.maxBase, rq.maxQuote, rq.limit, 0, mk.eventSeq))
  }

  /** The base that has not been filled, as far as the quote that has not been spent pays for it. */
  function Remainder(rq: Request, events: seq<Event>, price: int): int
    requires price > 0
  {
    Min(rq.maxBase - BaseOf(events), (rq.maxQuote - QuoteOf(events)) / price)
  }

  /**
   * An order rests unless its type forbids it, the price limit does, matching has ended for want of quote, at the limit
   * on fills or because it would have traded, or nothing is left of it.
   */
  ghost predicate Rests(rq: Request, t: MarketTotals, price: int, w: Walked)
    requires t.baseLotSize > 0 && price > 0
  {
    && !NeverPosts(rq) && MayRestAt(rq, t, price) && Remainder(rq, w.events, price) > 0
    && !w.stop.WouldTake? && !w.stop.LimitReached? && !w.stop.QuoteTooSmall?
  }

  /** An order on the book that is what the request asks for, behind all others at its price. */
  ghost predicate LeafOf(leaf: LeafNode, rq: Request, t: MarketTotals, own: seq<LeafNode>, price: int, quantity: int) {
    && leaf.Price() == price && KeyAge(rq.side, leaf.key) == t.seqNum + 1
    && leaf.quantity == quantity && leaf.owner == rq.taker && leaf.clientOrderId == rq.clientOrderId
    && leaf.orderType == rq.orderType && leaf.timestamp == rq.now && leaf.timeInForce == rq.timeInForce
    && leaf.version == t.version
    && leaf.bestInitial ==
       if t.version > 0 then Min(LotsAtOrBetter(rq.side, ValidAt(own, rq.now), price), t.maxDepth)
       else match BestPrice(own, rq.now) case None => price case Some(best) => best
  }

  /** One order has been added to the side `own`, in the first free slot. */
  ghost predicate Adds(rq: Request, t: MarketTotals, m: nat, price: int, quantity: int, own: seq<LeafNode>,
                       own': seq<LeafNode>, slots: seq<OrderSlot>, slots': seq<OrderSlot>, leaf: LeafNode)
  {
    && LeafOf(leaf, rq, t, own, price, quantity)
    && leaf.key !in ToMap(own) && ToMap(own') == ToMap(own)[leaf.key := leaf]
    && leaf.ownerSlot < |slots| && slots[leaf.ownerSlot].Free?
    && (forall i :: 0 <= i < leaf.ownerSlot ==> slots[i].Used?)
    && slots' == slots[leaf.ownerSlot := Used(m, rq.side, leaf.key, rq.clientOrderId)]
  }

  /** Room has been made, and then the order added. */
  ghost predicate PutOnBook(mk: MarketState, mk': MarketState, a: Account, a': Account, m: nat, rq: Request, price: int,
                            w: Walked)
    requires price > 0
  {
    match Cleared(rq.side, mk.Resting(rq.side), price, rq.now, mk.eventSeq + |w.events|)
    case Err(_) => false
    case Ok((own, es)) =>
      && mk'.queue == mk.queue + w.events + es
      && exists leaf ::
           Adds(rq, mk.totals, m, price, Remainder(rq, w.events, price), own, mk'.Resting(rq.side), a.slots, a'.slots,
                leaf)
  }

  ghost predicate LeavesBook(mk: MarketState, mk': MarketState, a: Account, a': Account, rq: Request, w: Walked) {
    mk'.Resting(rq.side) == mk.Resting(rq.side) && mk'.queue == mk.queue + w.events && a'.slots == a.slots
  }

  lemma NewLeafIs(rq: Request, t: MarketTotals, slot: nat, own: seq<LeafNode>, price: int, quantity: int)
    requires 0 < price <= I64_MAX && t.seqNum + 1 <= U64_MAX && Sorted(rq.side, own) && Tradable(own)
    ensures LeafOf(NewLeaf(rq, t, slot, OrderId(rq.side, price, t.seqNum + 1), own, price, quantity), rq, t, own,
                    price, quantity)
  {
    KeyToPrice(rq.side, price, t.seqNum + 1);
    KeyAgeOf(rq.side, price, t.seqNum + 1);
    ValidSorted(rq.side, own, rq.now);
    ValidAtSubset(own, rq.now);
    hide OrderId, KeyAge, LotsAtOrBetter, Shr;
    SizeAheadExact(rq.side, ValidAt(own, rq.now), price, t.maxDepth, 0);
  }

  /** Making room leaves a sorted part of the side. */
  lemma ClearedPart(mk: MarketState, rq: Request, price: int, seqNum: nat)
    requires MarketOk(mk)
    ensures match Cleared(rq.side, mk.Resting(rq.side), price, rq.now, seqNum)
      case Err(_) => true
      case Ok((own, es)) =>
        && Sorted(rq.side, own) && Tradable(own) && OutsOf(rq.side, es)
        && forall o :: o in own ==> o in mk.Resting(rq.side)
  {
    var all := mk.Resting(rq.side);
    var (own1, dropped) := DropExpired(rq.side, all, rq.now, seqNum);
    DropMakesRoom(rq.side, all, rq.now, seqNum);
    hide DropExpired, Evict, BookClaims, QueueClaims, Sorted, KeysOf;
    if Evict(rq.side, own1, price, rq.now, seqNum + |dropped|).Ok? {
      EvictMakesRoom(rq.side, own1, price, rq.now, seqNum + |dropped|);
    }
  }

  lemma PostAdds(mk: MarketState, t: MarketTotals, a: Account, m: nat, rq: Request, price: int, quantity: int)
    requires MarketOk(mk) && m < |a.perps| && 0 < price <= I64_MAX
    requires mk.totals == t.(seqNum := t.seqNum + 1)
    requires forall o :: o in mk.Resting(rq.side) ==> KeyAge(rq.side, o.key) <= t.seqNum
    requires Post(mk, a, m, rq, price, quantity, OrderId(rq.side, price, mk.totals.seqNum)).Ok?
    ensures Cleared(rq.side, mk.Resting(rq.side), price, rq.now, mk.eventSeq).Ok?
    ensures
      var (mk', a') := Post(mk, a, m, rq, price, quantity, OrderId(rq.side, price, mk.totals.seqNum)).value;
      var (own, es) := Cleared(rq.side, mk.Resting(rq.side), price, rq.now, mk.eventSeq).value;
      && mk'.queue == mk.queue + es && mk'.Resting(InvertSide(rq.side)) == mk.Resting(InvertSide(rq.side))
      && exists leaf :: Adds(rq, t, m, price, quantity, own, mk'.Resting(rq.side), a.slots, a'.slots, leaf)
  {
    var key := OrderId(rq.side, price, mk.totals.seqNum);
    PostClears(mk, a, m, rq, price, quantity, key);
    ClearedPart(mk, rq, price, mk.eventSeq);
    var (own, es) := Cleared(rq.side, mk.Resting(rq.side), price, rq.now, mk.eventSeq).value;
    FirstFreeIsFree(a.slots);
    var slot := FirstFree(a.slots).value;
    var leaf := NewLeaf(rq, t, slot, key, own, price, quantity);
    NewLeafIs(rq, t, slot, own, price, quantity);
    InsertRefinesMap(rq.side, own, leaf);
    hide Post, Cleared, Sorted, Tradable, InsertOrder, OrderId, KeyAge, MarketOk, LeafOf, ToMap;
    assert leaf == NewLeaf(rq, mk.totals, slot, key, own, price, quantity) && leaf.ownerSlot == slot && leaf.key == key;
    assert KeyAge(rq.side, key) == t.seqNum + 1 by { KeyAgeOf(rq.side, price, t.seqNum + 1); }
    AgesBelow(rq.side, own, key);
    ToMapKeys(own);
    var (mk', a') := Post(mk, a, m, rq, price, quantity, key).value;
    assert Adds(rq, t, m, price, quantity, own, mk'.Resting(rq.side), a.slots, a'.slots, leaf);
  }

  lemma MatchingIs(mk: MarketState, rq: Request, price: int)
    requires MarketOk(mk) && 0 <= price <= I64_MAX
    ensures MatchOf(mk, rq, OnlyPosts(rq), price) == Matching(mk, rq, price)
  {
  }

  /** Fees change neither book nor queue nor slots. */
  lemma AfterMatchBook(mk: MarketState, a: Account, m: nat, rq: Request, allowed: bool, price: int, left: Budget)
    requires MarketOk(mk) && 0 < price <= I64_MAX && m < |a.perps|
    ensures var rest, key := Min(left.base, left.quote / price), OrderId(rq.side, price, mk.totals.seqNum);
      if allowed && rest > 0 then
        && (AfterMatch(mk, a, m, rq, allowed, price, left).Ok? <==> Post(mk, a, m, rq, price, rest, key).Ok?)
        && (AfterMatch(mk, a, m, rq, allowed, price, left).Ok? ==>
          var r, posted := AfterMatch(mk, a, m, rq, allowed, price, left).value,
            Post(mk, a, m, rq, price, rest, key).value;
          && r.0.bids == posted.0.bids && r.0.asks == posted.0.asks && r.0.queue == posted.0.queue
          && r.1.slots == posted.1.slots)
      else
        && AfterMatch(mk, a, m, rq, allowed, price, left).Ok?
        && var r := AfterMatch(mk, a, m, rq, allowed, price, left).value;
        r.0.bids == mk.bids && r.0.asks == mk.asks && r.0.queue == mk.queue && r.1.slots == a.slots
  {
    hide Post, OrderId;
  }

  /**
   * Whether an order that succeeds rests, and as what: on its own side room is made and one order added that is what
   * was asked for, or nothing changes; on the other side stand the makers that matching has left.
   */
  lemma OrderRests(mk: MarketState, a: Account, m: nat, rq: Request, price: int)
    requires Placeable(mk, a, m, rq) && PricedAt(mk, rq, price)
    requires forall o :: o in mk.Resting(rq.side) ==> KeyAge(rq.side, o.key) <= mk.totals.seqNum
    ensures 0 < price <= I64_MAX
    ensures
      var (mk', a', _) := NewOrder(mk, a, m, rq).value;
      var w := Matching(mk, rq, price);
      && mk'.Resting(InvertSide(rq.side)) == w.makers
      && if Rests(rq, mk.totals, price, w) then PutOnBook(mk, mk', a, a', m, rq, price, w)
         else LeavesBook(mk, mk', a, a', rq, w)
  {
    PriceOfMeans(mk, rq, price);
    NewOrderParts(mk, a, m, rq);
    MatchingIs(mk, rq, price);
    PriceLimitMeans(rq, mk.totals, price);
    MatchedOk(mk, rq, OnlyPosts(rq), price);
    var w := MatchOf(mk, rq, OnlyPosts(rq), price);
    BudgetsHold(IncomingOf(mk, rq, OnlyPosts(rq), price), mk.Resting(InvertSide(rq.side)), rq.Spendable(mk));
    hide NewOrder, AfterMatch, Walk, WithinPriceLimit, MayRestAt, BestPrice, MarketOk, KeyAge, OrderId, Cleared, Adds;
    hide PricedAt, Resolve, BaseOf, QuoteOf, Fills, Outs, MatchedMarket, TakerState, LeavesBook, PutOnBook, Matching;
    RestsAfterMatch(mk, a, m, rq, price, w);
  }

  /** The market and the account after matching, apart from the makers and the taker sums. */
  ghost predicate Matched(mk: MarketState, mk1: MarketState, a: Account, a1: Account, m: nat, rq: Request, w: Walked) {
    && MarketOk(mk1) && m < |a1.perps| && a1.slots == a.slots && mk1.Resting(rq.side) == mk.Resting(rq.side)
    && mk1.totals == mk.totals.(seqNum := mk.totals.seqNum + 1) && mk1.totals.seqNum <= U64_MAX
    && mk1.queue == mk.queue + w.events && mk1.eventSeq == mk.eventSeq + |w.events|
  }

  lemma PutAfterMatch(mk: MarketState, mk1: MarketState, a: Account, a1: Account, m: nat, rq: Request, price: int,
                      w: Walked, mk2: MarketState, a2: Account)
    requires Matched(mk, mk1, a, a1, m, rq, w) && 0 < price <= I64_MAX
    requires forall o :: o in mk.Resting(rq.side) ==> KeyAge(rq.side, o.key) <= mk.totals.seqNum
    requires Post(mk1, a1, m, rq, price, Remainder(rq, w.events, price), OrderId(rq.side, price, mk1.totals.seqNum)) ==
             Ok((mk2, a2))
    ensures mk2.Resting(InvertSide(rq.side)) == mk1.Resting(InvertSide(rq.side))
    ensures PutOnBook(mk, mk2, a, a2, m, rq, price, w)
  {
    hide Remainder, MarketOk, KeyAge, OrderId, Cleared, Adds, Post;
    PostAdds(mk1, mk.totals, a1, m, rq, price, Remainder(rq, w.events, price));
  }

  /** Only book, queue and slots matter. */
  lemma SamePut(mk: MarketState, mk': MarketState, mk2: MarketState, a: Account, a': Account, a2: Account, m: nat,
                rq: Request, price: int, w: Walked)
    requires price > 0 && PutOnBook(mk, mk2, a, a2, m, rq, price, w)
    requires mk'.bids == mk2.bids && mk'.asks == mk2.asks && mk'.queue == mk2.queue && a'.slots == a2.slots
    ensures PutOnBook(mk, mk', a, a', m, rq, price, w)
  {
    hide Adds, Cleared, Remainder;
    assert mk'.Resting(rq.side) == mk2.Resting(rq.side);
  }

  lemma RestsAfterMatch(mk: MarketState, a: Account, m: nat, rq: Request, price: int, w: Walked)
    requires MarketOk(mk) && MarketOk(MatchedMarket(mk, rq, w)) && m < |a.perps| && 0 < price <= I64_MAX
    requires forall o :: o in mk.Resting(rq.side) ==> KeyAge(rq.side, o.key) <= mk.totals.seqNum
    requires w.left.base == rq.maxBase - BaseOf(w.events) && w.left.quote == rq.maxQuote - QuoteOf(w.events)
    requires
      AfterMatch(MatchedMarket(mk, rq, w), TakerState(a, m, rq.side, rq.Spendable(mk), w.left), m, rq,
                 !NeverPosts(rq) && MayRestAt(rq, mk.totals, price) && w.PostAllowed(), price, w.left).Ok?
    ensures
      var (mk', a', _) :=
        AfterMatch(MatchedMarket(mk, rq, w), TakerState(a, m, rq.side, rq.Spendable(mk), w.left), m, rq,
                   !NeverPosts(rq) && MayRestAt(rq, mk.totals, price) && w.PostAllowed(), price, w.left).value;
      && mk'.Resting(InvertSide(rq.side)) == w.makers
      && if Rests(rq, mk.totals, price, w) then PutOnBook(mk, mk', a, a', m, rq, price, w)
         else LeavesBook(mk, mk', a, a', rq, w)
  {
    var mk1, a1 := MatchedMarket(mk, rq, w), TakerState(a, m, rq.side, rq.Spendable(mk), w.left);
    assert mk1.Resting(InvertSide(rq.side)) == w.makers;
    assert Matched(mk, mk1, a, a1, m, rq, w);
    var allowed := !NeverPosts(rq) && MayRestAt(rq, mk.totals, price) && w.PostAllowed();
    assert Remainder(rq, w.events, price) == Min(w.left.base, w.left.quote / price);
    hide Remainder, AfterMatch, MayRestAt, MarketOk, KeyAge, OrderId, PutOnBook, BaseOf, QuoteOf, MatchedMarket;
    hide TakerState;
    AfterMatchBook(mk1, a1, m, rq, allowed, price, w.left);
    if Rests(rq, mk.totals, price, w) {
      var key := OrderId(rq.side, price, mk1.totals.seqNum);
      var (mk2, a2) := Post(mk1, a1, m, rq, price, Remainder(rq, w.events, price), key).value;
      var (mk', a', _) := AfterMatch(mk1, a1, m, rq, allowed, price, w.left).value;
      PutAfterMatch(mk, mk1, a, a1, m, rq, price, w, mk2, a2);
      SamePut(mk, mk', mk2, a, a', a2, m, rq, price, w);
    }
  }

  // ----- When an order succeeds

  /** For an order that rests there is a place on its side, a free slot and room for what making room sends. */
  ghost predicate HasPlace(mk: MarketState, a: Account, rq: Request, price: int, w: Walked)
    requires mk.totals.baseLotSize > 0 && price > 0
  {
    Rests(rq, mk.totals, price, w) ==>
      match Cleared(rq.side, mk.Resting(rq.side), price, rq.now, mk.eventSeq + |w.events|)
      case Err(_) => false
      case Ok((own, es)) =>
        |mk.queue| + |w.events| + |es| <= mk.capacity && exists slot :: slot in a.slots && slot.Free?
  }

  /** Room for the events, the referral terms for its fills and, if it rests, a place. */
  ghost predicate Fits(mk: MarketState, a: Account, rq: Request, price: int)
    requires MarketOk(mk) && 0 < price <= I64_MAX
  {
    var w := Matching(mk, rq, price);
    && |mk.queue| + |w.events| <= mk.capacity && (Fills(w.events) != [] ==> rq.referral.Ok?)
    && HasPlace(mk, a, rq, price, w)
  }

  lemma PostSucceeds(mk: MarketState, a: Account, m: nat, rq: Request, price: int, quantity: int, key: Key)
    requires m < |a.perps|
    ensures Post(mk, a, m, rq, price, quantity, key).Ok? <==>
      match Cleared(rq.side, mk.Resting(rq.side), price, rq.now, mk.eventSeq)
      case Err(_) => false
      case Ok((own, es)) => |mk.queue| + |es| <= mk.capacity && exists slot :: slot in a.slots && slot.Free?
  {
    PostClears(mk, a, m, rq, price, quantity, key);
    FirstFreeIsFree(a.slots);
    hide Post, Cleared, FirstFree;
    if FirstFree(a.slots).Some? { assert a.slots[FirstFree(a.slots).value] in a.slots; }
  }

  lemma MatchedFits(mk: MarketState, a: Account, m: nat, rq: Request, price: int, w: Walked)
    requires MarketOk(mk) && MarketOk(MatchedMarket(mk, rq, w)) && m < |a.perps| && 0 < price <= I64_MAX
    requires w.left.base == rq.maxBase - BaseOf(w.events) && w.left.quote == rq.maxQuote - QuoteOf(w.events)
    ensures
      var allowed := !NeverPosts(rq) && MayRestAt(rq, mk.totals, price) && w.PostAllowed();
      var r := AfterMatch(MatchedMarket(mk, rq, w), TakerState(a, m, rq.side, rq.Spendable(mk), w.left), m, rq, allowed,
                          price, w.left);
      r.Ok? <==> HasPlace(mk, a, rq, price, w)
  {
    var mk1, a1 := MatchedMarket(mk, rq, w), TakerState(a, m, rq.side, rq.Spendable(mk), w.left);
    var allowed := !NeverPosts(rq) && MayRestAt(rq, mk.totals, price) && w.PostAllowed();
    assert Matched(mk, mk1, a, a1, m, rq, w) && mk1.capacity == mk.capacity;
    assert Remainder(rq, w.events, price) == Min(w.left.base, w.left.quote / price);
    hide Remainder, AfterMatch, MayRestAt, MarketOk, HasPlace, BaseOf, QuoteOf, MatchedMarket, TakerState;
    PlaceFits(mk, mk1, a, a1, m, rq, price, w, allowed);
  }

  lemma PlaceFits(mk: MarketState, mk1: MarketState, a: Account, a1: Account, m: nat, rq: Request, price: int,
                  w: Walked, allowed: bool)
    requires mk.totals.baseLotSize > 0 && Matched(mk, mk1, a, a1, m, rq, w) && mk1.capacity == mk.capacity
    requires 0 < price <= I64_MAX && Remainder(rq, w.events, price) == Min(w.left.base, w.left.quote / price)
    requires Rests(rq, mk.totals, price, w) <==> allowed && Remainder(rq, w.events, price) > 0
    ensures AfterMatch(mk1, a1, m, rq, allowed, price, w.left).Ok? <==> HasPlace(mk, a, rq, price, w)
  {
    hide Remainder, AfterMatch, MarketOk, OrderId, Cleared, Post, Rests;
    AfterMatchBook(mk1, a1, m, rq, allowed, price, w.left);
    PostSucceeds(mk1, a1, m, rq, price, Remainder(rq, w.events, price), OrderId(rq.side, price, mk1.totals.seqNum));
  }

  /** An order succeeds exactly when it has a price, which an ask that cannot slide has not, and fits. */
  lemma OrderSucceeds(mk: MarketState, a: Account, m: nat, rq: Request)
    requires MarketOk(mk) && rq.Wellformed() && m < |a.perps| && mk.totals.seqNum + 1 < U64_MAX
    ensures NewOrder(mk, a, m, rq).Ok? <==>
            exists price :: PricedAt(mk, rq, price) && 0 < price <= I64_MAX && Fits(mk, a, rq, price)
  {
    ResolvedPriceInRange(mk, rq);
    forall price
      ensures PricedAt(mk, rq, price) <==> PriceOf(mk, rq) == Ok((OnlyPosts(rq), !NeverPosts(rq), price))
    {
      PriceOfMeans(mk, rq, price);
    }
    if PriceOf(mk, rq).Ok? && PriceOf(mk, rq).value.2 > 0 { PricedSucceeds(mk, a, m, rq, PriceOf(mk, rq).value.2); }
    hide Resolve, BestPrice, MatchOf, AfterMatch, WithinPriceLimit, Fits, PricedAt, MatchedMarket, TakerState, Fills;
  }

  lemma NewOrderIs(mk: MarketState, a: Account, m: nat, rq: Request, postOnly: bool, postable: bool, price: int)
    requires MarketOk(mk) && rq.Wellformed() && m < |a.perps| && 0 < price <= I64_MAX
    requires PriceOf(mk, rq) == Ok((postOnly, postable, price))
    ensures
      var w := MatchOf(mk, rq, postOnly, price);
      if |mk.queue| + |w.events| > mk.capacity || (Fills(w.events) != [] && rq.referral.Err?) then
        NewOrder(mk, a, m, rq).Err?
      else
        NewOrder(mk, a, m, rq) ==
        AfterMatch(MatchedMarket(mk, rq, w), TakerState(a, m, rq.side, rq.Spendable(mk), w.left), m, rq,
                   postable && WithinPriceLimit(rq, mk.totals, price) && w.PostAllowed(), price, w.left)
  {
    ResolvedPriceInRange(mk, rq);
    hide Resolve, MatchOf, WithinPriceLimit, BestPrice, TakerState, Fills, AfterMatch;
  }

  lemma PricedSucceeds(mk: MarketState, a: Account, m: nat, rq: Request, price: int)
    requires MarketOk(mk) && rq.Wellformed() && m < |a.perps| && mk.totals.seqNum + 1 < U64_MAX
    requires PriceOf(mk, rq) == Ok((OnlyPosts(rq), !NeverPosts(rq), price)) && 0 < price <= I64_MAX
    ensures NewOrder(mk, a, m, rq).Ok? <==> Fits(mk, a, rq, price)
  {
    MatchingIs(mk, rq, price);
    PriceLimitMeans(rq, mk.totals, price);
    MatchedOk(mk, rq, OnlyPosts(rq), price);
    var w := MatchOf(mk, rq, OnlyPosts(rq), price);
    BudgetsHold(IncomingOf(mk, rq, OnlyPosts(rq), price), mk.Resting(InvertSide(rq.side)), rq.Spendable(mk));
    NewOrderIs(mk, a, m, rq, OnlyPosts(rq), !NeverPosts(rq), price);
    hide Resolve, BestPrice, Walk, AfterMatch, WithinPriceLimit, MayRestAt, Cleared, MatchedMarket, TakerState, BaseOf;
    hide QuoteOf, Fills, Outs, MarketOk, OrderId, Matching, NewOrder, Rests, HasPlace, PricedAt;
    MatchedFits(mk, a, m, rq, price, w);
  }

  // ----- What an order does to the account, the fees and the referrer

  /** The rate of the referral part; one that is not positive is not charged. */
  function PartRate(rq: Request): Fixed { if rq.referral.Ok? then Max(rq.referral.value.rate, 0) else 0 }

  lemma FeesAre(a: Account, m: nat, t: MarketTotals, rq: Request, taken: int, ref: Referral)
    requires m < |a.perps| && rq.referral == Ok(ref)
    ensures
      var (a', t', credit) := ApplyFees(a, m, t, rq, taken, ref);
      var native := t.quoteLotSize * taken;
      && a'.perps == a.perps[m := a'.perps[m]]
      && t' == t.(feesAccrued := t.feesAccrued + native * rq.takerFee + native * rq.makerFee
                                 + (if rq.Referred() then 0 else native * PartRate(rq)))
      && credit == (if rq.Referred() then native * PartRate(rq) else 0)
      && FeesOf(rq, t, taken) == if taken > 0 then native * rq.takerFee + native * PartRate(rq) else 0
  {
  }

  /** Only the position in this market changes, and the market books fees for what was taken. */
  lemma AfterMatchFees(mk: MarketState, a: Account, m: nat, rq: Request, allowed: bool, price: int, left: Budget)
    requires MarketOk(mk) && 0 < price <= I64_MAX && m < |a.perps|
    requires left.quote < rq.maxQuote ==> rq.referral.Ok?
    requires AfterMatch(mk, a, m, rq, allowed, price, left).Ok? && left.quote <= rq.maxQuote
    ensures
      var r := AfterMatch(mk, a, m, rq, allowed, price, left).value;
      var native := mk.totals.quoteLotSize * (rq.maxQuote - left.quote);
      && |r.1.perps| == |a.perps| && r.1.perps == a.perps[m := r.1.perps[m]]
      && r.0.totals == mk.totals.(feesAccrued := mk.totals.feesAccrued + native * rq.takerFee + native * rq.makerFee
                                                 + (if rq.Referred() then 0 else native * PartRate(rq)))
      && r.2 == (if rq.Referred() then native * PartRate(rq) else 0)
  {
    assert mk.totals.seqNum <= U64_MAX;
    hide Post, ApplyFees, MarketOk, OrderId, Request.Referred, PartRate;
    var rest, key := Min(left.base, left.quote / price), OrderId(rq.side, price, mk.totals.seqNum);
    var posts := allowed && rest > 0;
    if posts { PostPerps(mk, a, m, rq, price, rest, key); }
    var (mk2, a2) := if posts then Post(mk, a, m, rq, price, rest, key).value else (mk, a);
    assert a.perps == a.perps[m := a.perps[m]];
    if left.quote < rq.maxQuote {
      FeesAre(a2, m, mk2.totals, rq, rq.maxQuote - left.quote, rq.referral.value);
    } else {
      assert mk.totals.quoteLotSize * (rq.maxQuote - left.quote) == 0;
    }
  }

  lemma PostPerps(mk: MarketState, a: Account, m: nat, rq: Request, price: int, quantity: int, key: Key)
    requires m < |a.perps| && Post(mk, a, m, rq, price, quantity, key).Ok?
    ensures var r := Post(mk, a, m, rq, price, quantity, key).value;
      r.0.totals == mk.totals && |r.1.perps| == |a.perps| && r.1.perps == a.perps[m := r.1.perps[m]]
  {
    hide DropExpired, Evict, InsertOrder, NewLeaf, FirstFree;
    FirstFreeIsFree(a.slots);
  }

  /** The position of a taker that has been filled for `base` and `quote` lots, rests `rest` lots and pays the fees. */
  function Taken(p: PerpPosition, t: MarketTotals, rq: Request, base: int, quote: int, rest: int): PerpPosition {
    var native := t.quoteLotSize * quote;
    var p1 := if rq.side == Bid then p.(takerBase := p.takerBase + base, takerQuote := p.takerQuote - quote)
      else p.(takerBase := p.takerBase - base, takerQuote := p.takerQuote + quote);
    p1.AddQuantity(rq.side, rest).(quote := p.quote - native * rq.takerFee - native * PartRate(rq))
  }

  /**
   * What an order that succeeds does to its account, the fees of the market and the referrer: base and quote of its
   * fills are on the way, what rests is on order, and fees are charged on the quote that has been taken.
   */
  lemma OrderTakes(mk: MarketState, a: Account, m: nat, rq: Request, price: int)
    requires Placeable(mk, a, m, rq) && PricedAt(mk, rq, price)
    ensures 0 < price <= I64_MAX
    ensures
      var r, w, t := NewOrder(mk, a, m, rq).value, Matching(mk, rq, price), mk.totals;
      var rest := if Rests(rq, t, price, w) then Remainder(rq, w.events, price) else 0;
      var native := t.quoteLotSize * QuoteOf(w.events);
      && r.1.perps == a.perps[m := Taken(a.perps[m], t, rq, BaseOf(w.events), QuoteOf(w.events), rest)]
      && r.0.totals == t.(seqNum := t.seqNum + 1,
                          feesAccrued := t.feesAccrued + native * rq.takerFee + native * rq.makerFee
                                         + (if rq.Referred() then 0 else native * PartRate(rq)))
      && r.2 == (if rq.Referred() then native * PartRate(rq) else 0)
  {
    PriceOfMeans(mk, rq, price);
    NewOrderParts(mk, a, m, rq);
    MatchingIs(mk, rq, price);
    PriceLimitMeans(rq, mk.totals, price);
    MatchedOk(mk, rq, OnlyPosts(rq), price);
    WalkTaken(mk, rq, price);
    RealOutcome(mk, a, m, rq);
    var w := MatchOf(mk, rq, OnlyPosts(rq), price);
    hide NewOrder, AfterMatch, Walk, WithinPriceLimit, MayRestAt, BestPrice, MarketOk, OrderId, PricedAt, Resolve;
    hide BaseOf, QuoteOf, Fills, Outs, MatchedMarket, TakerState, Matching, Request.Referred, Rests, Outcome, FeesOf;
    hide RealChanges, PaysFees, Remainder, PartRate, Taken;
    TakesAfterMatch(mk, a, m, rq, price, w, NewOrder(mk, a, m, rq).value);
  }

  /** What the walk of an order takes off its budget; quote is taken only with referral terms. */
  lemma WalkTaken(mk: MarketState, rq: Request, price: int)
    requires MarketOk(mk) && rq.Wellformed() && 0 <= price <= I64_MAX
    ensures
      var w := MatchOf(mk, rq, OnlyPosts(rq), price);
      && rq.maxBase - w.left.base == BaseOf(w.events) && rq.maxQuote - w.left.quote == QuoteOf(w.events) >= 0
      && (Fills(w.events) == [] ==> QuoteOf(w.events) == 0)
  {
    var w := MatchOf(mk, rq, OnlyPosts(rq), price);
    var o, makers := IncomingOf(mk, rq, OnlyPosts(rq), price), mk.Resting(InvertSide(rq.side));
    hide Walk, OrderId, BaseOf, QuoteOf, Fills, Outs;
    BudgetsHold(o, makers, rq.Spendable(mk));
    WalkSpends(o, makers, rq.Spendable(mk));
    if Fills(w.events) == [] { NoFillsNoQuote(w.events); }
  }

  lemma TakesAfterMatch(mk: MarketState, a: Account, m: nat, rq: Request, price: int, w: Walked,
                        r: (MarketState, Account, Fixed))
    requires MarketOk(mk) && MarketOk(MatchedMarket(mk, rq, w)) && m < |a.perps| && 0 < price <= I64_MAX
    requires rq.maxBase - w.left.base == BaseOf(w.events) && rq.maxQuote - w.left.quote == QuoteOf(w.events) >= 0
    requires QuoteOf(w.events) > 0 ==> rq.referral.Ok?
    requires
      Ok(r) == AfterMatch(MatchedMarket(mk, rq, w), TakerState(a, m, rq.side, rq.Spendable(mk), w.left), m, rq,
                          !NeverPosts(rq) && MayRestAt(rq, mk.totals, price) && w.PostAllowed(), price, w.left)
    requires m < |r.1.perps|
    requires RealChanges(a, r.1, m) ==
             Outcome(mk, rq, w, price, !NeverPosts(rq) && MayRestAt(rq, mk.totals, price) && w.PostAllowed())
    requires PaysFees(a, r.1, m, FeesOf(rq, mk.totals, rq.maxQuote - w.left.quote))
    ensures
      var t := mk.totals;
      var rest := if Rests(rq, t, price, w) then Remainder(rq, w.events, price) else 0;
      var native := t.quoteLotSize * QuoteOf(w.events);
      && r.1.perps == a.perps[m := Taken(a.perps[m], t, rq, BaseOf(w.events), QuoteOf(w.events), rest)]
      && r.0.totals == t.(seqNum := t.seqNum + 1,
                          feesAccrued := t.feesAccrued + native * rq.takerFee + native * rq.makerFee
                                         + (if rq.Referred() then 0 else native * PartRate(rq)))
      && r.2 == (if rq.Referred() then native * PartRate(rq) else 0)
  {
    var mk1, a1 := MatchedMarket(mk, rq, w), TakerState(a, m, rq.side, rq.Spendable(mk), w.left);
    var allowed := !NeverPosts(rq) && MayRestAt(rq, mk.totals, price) && w.PostAllowed();
    assert mk1.totals == mk.totals.(seqNum := mk.totals.seqNum + 1);
    assert a1.perps == a.perps[m := a1.perps[m]] && |a1.perps| == |a.perps|;
    assert Rests(rq, mk.totals, price, w) == (allowed && Remainder(rq, w.events, price) > 0);
    hide AfterMatch, MayRestAt, MarketOk, BaseOf, QuoteOf, MatchedMarket, TakerState, Request.Referred, Rests, Outcome;
    hide FeesOf, RealChanges, PaysFees, Remainder, PartRate, Taken;
    AfterMatchFees(mk1, a1, m, rq, allowed, price, w.left);
    PositionTaken(a, r.1, m, mk, rq, w, price, allowed);
    assert a1.perps[m := r.1.perps[m]] == a.perps[m := r.1.perps[m]];
  }

  lemma PositionTaken(a: Account, a': Account, m: nat, mk: MarketState, rq: Request, w: Walked, price: int,
                      allowed: bool)
    requires m < |a.perps| && m < |a'.perps| && price > 0
    requires rq.maxQuote - w.left.quote == QuoteOf(w.events) >= 0 && rq.maxBase - w.left.base == BaseOf(w.events)
    requires QuoteOf(w.events) > 0 ==> rq.referral.Ok?
    requires RealChanges(a, a', m) == Outcome(mk, rq, w, price, allowed)
    requires PaysFees(a, a', m, FeesOf(rq, mk.totals, rq.maxQuote - w.left.quote))
    ensures a'.perps[m] == Taken(a.perps[m], mk.totals, rq, BaseOf(w.events), QuoteOf(w.events),
                                 if allowed && Remainder(rq, w.events, price) > 0
                                 then Remainder(rq, w.events, price) else 0)
  {
    hide BaseOf, QuoteOf;
    if QuoteOf(w.events) == 0 { assert mk.totals.quoteLotSize * QuoteOf(w.events) == 0; }
  }
}
