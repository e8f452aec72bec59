/** What placing an order does to a market and to the account that places it. */
module OrderPlacement {
  import opened OrderKeys
  import opened Types
  import opened OrderLists
  import opened FixedPoint
  import opened Events
  import opened Matcher
  import opened OrderIds
  import opened PerpState

  /** A perp market: its totals, both sides of the book in priority order and the event queue. */
  datatype MarketState = MarketState(
    totals: MarketTotals, bids: seq<LeafNode>, asks: seq<LeafNode>, queue: seq<Event>, capacity: nat, eventSeq: nat)
  {
    function Resting(side: Side): seq<LeafNode> { if side == Bid then bids else asks }

    function WithResting(side: Side, s: seq<LeafNode>): MarketState {
      if side == Bid then this.(bids := s) else this.(asks := s)
    }

    function Push(es: seq<Event>): MarketState {
      this.(queue := queue + es, eventSeq := eventSeq + |es|)
    }
  }

  /** The share of the taker fee that goes to a referrer or, without one, to the market. */
  datatype Referral = Referral(rate: Fixed, referred: bool)

  datatype Request = Request(
    side: Side, price: int, maxBase: int, maxQuote: int, orderType: OrderType, timeInForce: nat, clientOrderId: nat,
    now: nat, limit: nat, taker: Pubkey, makerFee: Fixed, takerFee: Fixed, oraclePrice: Fixed, maintWeight: Fixed,
    reduceOnly: bool, referral: Result<Referral>)
  {
    function Spendable(mk: MarketState): Budget { Budget(maxBase, maxQuote, limit, 0, mk.eventSeq) }

    predicate Referred() { referral.Ok? && referral.value.referred }

    ghost predicate Wellformed() {
      && 0 < price <= I64_MAX && 0 < maxBase && 0 < maxQuote <= I64_MAX && oraclePrice > 0
    }
  }

  function BestPrice(s: seq<LeafNode>, now: nat): Option<int> {
    if ValidAt(s, now) == [] then None else Some(ValidAt(s, now)[0].Price())
  }

  /** Post-only flag, posting flag and price of an order type; `best` is the best valid price of the other side. */
  function Resolve(side: Side, orderType: OrderType, price: int, best: Option<int>): Result<(bool, bool, int)> {
    match orderType
    case Limit => Ok((false, true, price))
    case ImmediateOrCancel => Ok((false, false, price))
    case PostOnly => Ok((true, true, price))
    case Market => Ok((false, false, if side == Bid then I64_MAX else 1))
    case PostOnlySlide =>
      match best
      case None => Ok((true, true, price))
      case Some(b) =>
        if side == Bid then Ok((true, true, Min(price, b - 1)))
        else if b == I64_MAX then Err(MathError)
        else Ok((true, true, Max(price, b + 1)))
  }

  function LotToNativePrice(t: MarketTotals, price: int): Fixed
    requires t.baseLotSize > 0
  {
    Div(Mul(FromNum(price), FromNum(t.quoteLotSize)), FromNum(t.baseLotSize))
  }

  /** Orders too far above or below the oracle price may take but not rest. */
  function WithinPriceLimit(rq: Request, t: MarketTotals, price: int): bool
    requires t.baseLotSize > 0 && rq.oraclePrice > 0
  {
    var native := LotToNativePrice(t, price);
    if rq.side == Bid then
      native <= Mul(rq.maintWeight, rq.oraclePrice)
      || (rq.reduceOnly && !(rq.oraclePrice < LotToNativePrice(t, 1) && native > LotToNativePrice(t, 1)))
    else
      Div(native, rq.oraclePrice) >= rq.maintWeight
  }

  /** A bid may rest at any price below one at which it may, and an ask at any price above. */
  lemma PriceLimitMonotone(rq: Request, t: MarketTotals, price: int, milder: int)
    requires t.baseLotSize > 0 && t.quoteLotSize > 0 && rq.oraclePrice > 0
    requires 0 < price && 0 < milder && WithinPriceLimit(rq, t, price)
    requires if rq.side == Bid then milder <= price else price <= milder
    ensures WithinPriceLimit(rq, t, milder)
  {
    hide Mul, Div;
    NativePriceMonotone(t, Min(price, milder), Max(price, milder));
    if rq.side == Ask { DivMonotone(LotToNativePrice(t, price), LotToNativePrice(t, milder), rq.oraclePrice); }
  }

  lemma NativePriceMonotone(t: MarketTotals, p: int, q: int)
    requires t.baseLotSize > 0 && t.quoteLotSize > 0 && 0 < p <= q
    ensures 0 <= LotToNativePrice(t, p) <= LotToNativePrice(t, q)
  {
    hide Mul, Div;
    MulByNum(p, FromNum(t.quoteLotSize));
    MulByNum(q, FromNum(t.quoteLotSize));
    assert 0 <= p * FromNum(t.quoteLotSize) <= q * FromNum(t.quoteLotSize);
    DivMonotone(p * FromNum(t.quoteLotSize), q * FromNum(t.quoteLotSize), FromNum(t.baseLotSize));
  }

  lemma DivMonotone(a: Fixed, b: Fixed, d: Fixed)
    requires 0 <= a <= b && d > 0
    ensures 0 <= Div(a, d) <= Div(b, d)
  {
    var x, y := (a * ONE) / d, (b * ONE) / d;
    if y < x {
      assert (y + 1) * d <= x * d;
    }
  }

  /** Valid lots at `price` or better, up to `maxDepth`. */
  function SizeAhead(side: Side, s: seq<LeafNode>, price: int, maxDepth: int, sum: int): int {
    if s == [] || (if side == Bid then price > s[0].Price() else price < s[0].Price()) || sum >= maxDepth
    then Min(sum, maxDepth)
    else SizeAhead(side, s[1..], price, maxDepth, sum + s[0].quantity)
  }

  /** Lots at `price` or better. */
  function LotsAtOrBetter(side: Side, s: seq<LeafNode>, price: int): int {
    if s == [] then 0
    else (if Better(side, price, s[0].Price()) then 0 else s[0].quantity) + LotsAtOrBetter(side, s[1..], price)
  }

  lemma {:induction false} WorseToTheEnd(side: Side, s: seq<LeafNode>, price: int)
    requires Sorted(side, s) && s != [] && Better(side, price, s[0].Price())
    ensures LotsAtOrBetter(side, s, price) == 0
  {
    hide LeafNode.Price;
    if |s| > 1 {
      SortedTail(side, s);
      assert Ahead(side, s[0].key, s[1].key);
      PriceInOrder(side, s[0], s[1]);
      WorseToTheEnd(side, s[1..], price);
    }
  }

  lemma {:induction false} LotsNonNegative(side: Side, s: seq<LeafNode>, price: int)
    requires Tradable(s)
    ensures LotsAtOrBetter(side, s, price) >= 0
  {
    hide LeafNode.Price;
    if s != [] {
      assert s[0] in s;
      LotsNonNegative(side, s[1..], price);
    }
  }

  /** Stopping at the first worse price, or once the depth is reached, misses nothing. */
  lemma {:induction false} SizeAheadExact(side: Side, s: seq<LeafNode>, price: int, maxDepth: int, sum: int)
    requires Sorted(side, s) && Tradable(s)
    ensures SizeAhead(side, s, price, maxDepth, sum) == Min(sum + LotsAtOrBetter(side, s, price), maxDepth)
  {
    hide LeafNode.Price;
    LotsNonNegative(side, s, price);
    if s != [] {
      assert s[0] in s;
      SortedTail(side, s);
      if Better(side, price, s[0].Price()) {
        WorseToTheEnd(side, s, price);
      } else if sum < maxDepth {
        SizeAheadExact(side, s[1..], price, maxDepth, sum + s[0].quantity);
      }
    }
  }

  function BestInitial(side: Side, t: MarketTotals, own: seq<LeafNode>, price: int, now: nat): int {
    if t.version == 0 then match BestPrice(own, now) case None => price case Some(p) => p
    else SizeAhead(side, ValidAt(own, now), price, t.maxDepth, 0)
  }

  predicate Better(side: Side, price: int, other: int) {
    if side == Bid then price > other else price < other
  }

  /** Drops one order that has expired, if there is one. */
  function DropExpired(side: Side, own: seq<LeafNode>, now: nat, seqNum: nat): (seq<LeafNode>, seq<Event>) {
    if own != [] && Soonest(side, own).Expiry() < now then
      var x := Soonest(side, own);
      (RemoveOrder(own, x.key), [Out(side, x.ownerSlot, now, seqNum, x.owner, x.quantity)])
    else (own, [])
  }

  /** Makes room on a full side by evicting the worst order, which must be worse than the new one. */
  function Evict(side: Side, own: seq<LeafNode>, price: int, now: nat, seqNum: nat):
    Result<(seq<LeafNode>, seq<Event>)>
  {
    if |own| != SIDE_CAPACITY then Ok((own, []))
    else
      var x := own[|own| - 1];
      if !Better(side, price, x.Price()) then Err(OutOfSpace)
      else Ok((own[..|own| - 1], [Out(side, x.ownerSlot, now, seqNum, x.owner, x.quantity)]))
  }

  /** An order is dropped exactly when one has expired, and it is one that no other expired before. */
  lemma DropsFirstExpired(side: Side, own: seq<LeafNode>, now: nat, seqNum: nat)
    requires Sorted(side, own)
    ensures var (own', es) := DropExpired(side, own, now, seqNum);
      if exists o :: o in own && o.Expiry() < now then
        && |es| == 1
        && exists x :: (x in own && x.Expiry() < now && (forall o :: o in own ==> x.Expiry() <= o.Expiry())
             && ToMap(own') == ToMap(own) - {x.key} && FindOrder(own, x.key) == Some(x)
             && es[0] == Out(side, x.ownerSlot, now, seqNum, x.owner, x.quantity))
      else own' == own && es == []
  {
    hide ToMap, RemoveOrder, Soonest, FindOrder, LeafNode.Expiry;
    if own != [] {
      SoonestIsSoonest(side, own);
      var x := Soonest(side, own);
      RemoveRefinesMap(side, own, x.key);
      FindMember(side, own, x);
    }
  }

  /** A full side takes a new order only in place of the worst one, which must have a worse price. */
  lemma EvictsWorst(side: Side, own: seq<LeafNode>, price: int, now: nat, seqNum: nat)
    requires Sorted(side, own) && |own| <= SIDE_CAPACITY
    ensures match Evict(side, own, price, now, seqNum)
      case Err(_) => |own| == SIDE_CAPACITY && forall o :: o in own ==> !Better(side, price, o.Price())
      case Ok((own', es)) =>
        if |own| < SIDE_CAPACITY then own' == own && es == []
        else exists x :: (own == own' + [x] && Better(side, price, x.Price())
               && (forall o :: o in own' ==> !Better(side, x.Price(), o.Price()))
               && es == [Out(side, x.ownerSlot, now, seqNum, x.owner, x.quantity)])
  {
    hide LeafNode.Price;
    if |own| == SIDE_CAPACITY {
      var x := own[|own| - 1];
      assert own == own[..|own| - 1] + [x];
      forall o | o in own
        ensures !Better(side, x.Price(), o.Price())
      {
        var i :| 0 <= i < |own| && own[i] == o;
        if i < |own| - 1 { PriceInOrder(side, o, x); }
      }
    }
  }

  lemma PriceInOrder(side: Side, a: LeafNode, b: LeafNode)
    requires Ahead(side, a.key, b.key)
    ensures !Better(side, b.Price(), a.Price())
  {
    PriceFollowsKey(side, a.key, b.key);
  }

  function NewLeaf(rq: Request, t: MarketTotals, slot: nat, key: Key, own: seq<LeafNode>, price: int, quantity: int):
    LeafNode
  {
    LeafNode(slot, rq.orderType, t.version, rq.timeInForce, key, rq.taker, quantity, rq.clientOrderId,
             BestInitial(rq.side, t, own, price, rq.now), rq.now)
  }

  function Post(mk: MarketState, a: Account, m: nat, rq: Request, price: int, quantity: int, key: Key):
    (r: Result<(MarketState, Account)>)
    requires m < |a.perps|
    ensures r.Ok? ==>
      && |r.value.1.perps| == |a.perps| && r.value.0.totals == mk.totals && r.value.0.capacity == mk.capacity
      && r.value.0.Resting(InvertSide(rq.side)) == mk.Resting(InvertSide(rq.side))
  {
    var (own1, dropped) := DropExpired(rq.side, mk.Resting(rq.side), rq.now, mk.eventSeq);
    match Evict(rq.side, own1, price, rq.now, mk.eventSeq + |dropped|)
    case Err(e) => Err(e)
    case Ok((own2, evicted)) =>
      match FirstFree(a.slots)
      case None => Err(TooManyOpenOrders)
      case Some(slot) =>
        FirstFreeIsFree(a.slots);
        var leaf := NewLeaf(rq, mk.totals, slot, key, own2, price, quantity);
        if |mk.queue| + |dropped + evicted| > mk.capacity then Err(Panic)
        else Ok((mk.WithResting(rq.side, InsertOrder(rq.side, own2, leaf)).Push(dropped + evicted),
                 AddOrder(a, m, rq.side, leaf)))
  }

  /** What is left of the own side, and what is sent, once there is room for a new order. */
  ghost function Cleared(side: Side, own: seq<LeafNode>, price: int, now: nat, seqNum: nat):
    Result<(seq<LeafNode>, seq<Event>)>
  {
    var (own1, dropped) := DropExpired(side, own, now, seqNum);
    match Evict(side, own1, price, now, seqNum + |dropped|)
    case Err(e) => Err(e)
    case Ok((own2, evicted)) => Ok((own2, dropped + evicted))
  }

  lemma PostClears(mk: MarketState, a: Account, m: nat, rq: Request, price: int, quantity: int, key: Key)
    requires m < |a.perps|
    ensures FirstFree(a.slots).Some? ==> FirstFree(a.slots).value < |a.slots|
    ensures
      match Cleared(rq.side, mk.Resting(rq.side), price, rq.now, mk.eventSeq)
      case Err(_) => Post(mk, a, m, rq, price, quantity, key).Err?
      case Ok((own, es)) =>
        match FirstFree(a.slots)
        case None => Post(mk, a, m, rq, price, quantity, key).Err?
        case Some(slot) =>
          var leaf := NewLeaf(rq, mk.totals, slot, key, own, price, quantity);
          if |mk.queue| + |es| > mk.capacity then Post(mk, a, m, rq, price, quantity, key).Err?
          else Post(mk, a, m, rq, price, quantity, key) ==
               Ok((mk.WithResting(rq.side, InsertOrder(rq.side, own, leaf)).Push(es), AddOrder(a, m, rq.side, leaf)))
  {
    hide DropExpired, Evict, NewLeaf, InsertOrder, FirstFree, AddOrder;
    FirstFreeIsFree(a.slots);
  }

  /** Signed base and quote lots of a taker on `side`. */
  function Signed(side: Side, base: int, quote: int): (int, int) {
    if side == Bid then (base, -quote) else (-base, quote)
  }

  function AddTaker(a: Account, m: nat, base: int, quote: int): Account
    requires m < |a.perps|
  {
    var p := a.perps[m];
    a.(perps := a.perps[m := p.(takerBase := p.takerBase + base, takerQuote := p.takerQuote + quote)])
  }

  /** The taker once it has been given what `b0` has lost down to `b`. */
  function TakerState(a: Account, m: nat, side: Side, b0: Budget, b: Budget): (r: Account)
    requires m < |a.perps|
    ensures |r.perps| == |a.perps|
  {
    var (base, quote) := Signed(side, b0.base - b.base, b0.quote - b.quote);
    AddTaker(a, m, base, quote)
  }

  /** Taker fees paid now, maker fees booked now but paid on consumption, and the credit of the referrer. */
  function ApplyFees(a: Account, m: nat, t: MarketTotals, rq: Request, quoteTaken: int, ref: Referral):
    (Account, MarketTotals, Fixed)
    requires m < |a.perps|
  {
    var native := t.quoteLotSize * quoteTaken;
    var refFees := if ref.rate > 0 then native * ref.rate else 0;
    var takerFees, makerFees := native * rq.takerFee, native * rq.makerFee;
    var p := a.perps[m];
    (a.(perps := a.perps[m := p.(quote := p.quote - refFees - takerFees)]),
     t.(feesAccrued := t.feesAccrued + takerFees + makerFees + (if ref.referred then 0 else refFees)),
     if ref.referred then refFees else 0)
  }

  ghost predicate MarketOk(mk: MarketState) {
    && mk.totals.baseLotSize > 0 && mk.totals.quoteLotSize > 0 && mk.totals.seqNum < U64_MAX
    && Tradable(mk.bids) && Tradable(mk.asks) && Sorted(Bid, mk.bids) && Sorted(Ask, mk.asks)
    && |mk.bids| <= SIDE_CAPACITY && |mk.asks| <= SIDE_CAPACITY
  }

  /** A request as the matching loop sees it, with the next order id. */
  function IncomingOf(mk: MarketState, rq: Request, postOnly: bool, price: int): Incoming
    requires 0 <= price <= I64_MAX && 0 <= mk.totals.seqNum < U64_MAX
  {
    var refRate := if rq.referral.Ok? then rq.referral.value.rate else 0;
    Incoming(rq.side, price, postOnly, rq.now, rq.taker, OrderId(rq.side, price, mk.totals.seqNum + 1),
             rq.clientOrderId, rq.makerFee, rq.takerFee + refRate)
  }

  /** The walk of a request over the other side, once its type is resolved to a price. */
  function MatchOf(mk: MarketState, rq: Request, postOnly: bool, price: int): Walked
    requires MarketOk(mk) && 0 <= price <= I64_MAX
  {
    Walk(IncomingOf(mk, rq, postOnly, price), mk.Resting(InvertSide(rq.side)), rq.Spendable(mk))
  }

  lemma BestPositive(s: seq<LeafNode>, now: nat)
    requires Tradable(s)
    ensures BestPrice(s, now).Some? ==> BestPrice(s, now).value > 0
  {
    ValidAtSubset(s, now);
  }

  lemma {:induction false} ValidAtSubset(s: seq<LeafNode>, now: nat)
    ensures forall o :: o in ValidAt(s, now) <==> o in s && o.IsValid(now)
  {
    if s != [] {
      ValidAtSubset(s[1..], now);
      assert s == [s[0]] + s[1..];
    }
  }

  /** The best price is that of a valid order, and no valid order has a better one. */
  lemma BestIsBest(side: Side, s: seq<LeafNode>, now: nat)
    requires Sorted(side, s)
    ensures match BestPrice(s, now)
      case None => forall o :: o in s ==> !o.IsValid(now)
      case Some(best) =>
        && (exists o :: o in s && o.IsValid(now) && o.Price() == best)
        && (forall o :: o in s && o.IsValid(now) ==> !Better(side, o.Price(), best))
  {
    hide LeafNode.Price, LeafNode.IsValid;
    ValidSorted(side, s, now);
    ValidAtSubset(s, now);
    var v := ValidAt(s, now);
    if v != [] {
      assert v[0] in v;
      forall o | o in v
        ensures !Better(side, o.Price(), v[0].Price())
      {
        var i :| 0 <= i < |v| && v[i] == o;
        if i > 0 { PriceInOrder(side, v[0], v[i]); }
      }
    }
  }

  lemma ResolvedPriceInRange(mk: MarketState, rq: Request)
    requires MarketOk(mk) && rq.Wellformed()
    ensures var r := Resolve(rq.side, rq.orderType, rq.price, BestPrice(mk.Resting(InvertSide(rq.side)), rq.now));
      r.Ok? ==> 0 <= r.value.2 <= I64_MAX
  {
    BestPositive(mk.asks, rq.now);
    BestPositive(mk.bids, rq.now);
    if ValidAt(mk.bids, rq.now) != [] { PriceInRange(ValidAt(mk.bids, rq.now)[0].key); }
  }

  /** The flags and the price of a request. */
  function PriceOf(mk: MarketState, rq: Request): Result<(bool, bool, int)> {
    Resolve(rq.side, rq.orderType, rq.price, BestPrice(mk.Resting(InvertSide(rq.side)), rq.now))
  }

  /** What an order that succeeds has gone through. */
  lemma NewOrderParts(mk: MarketState, a: Account, m: nat, rq: Request)
    requires MarketOk(mk) && rq.Wellformed() && m < |a.perps| && NewOrder(mk, a, m, rq).Ok?
    ensures PriceOf(mk, rq).Ok? && 0 < PriceOf(mk, rq).value.2 <= I64_MAX
    ensures
      var (postOnly, postable, price) := PriceOf(mk, rq).value;
      var w := MatchOf(mk, rq, postOnly, price);
      && |mk.queue| + |w.events| <= mk.capacity && (Fills(w.events) != [] ==> rq.referral.Ok?)
      && NewOrder(mk, a, m, rq) ==
         AfterMatch(MatchedMarket(mk, rq, w), TakerState(a, m, rq.side, rq.Spendable(mk), w.left), m, rq,
                    postable && WithinPriceLimit(rq, mk.totals, price) && w.PostAllowed(), price, w.left)
  {
    ResolvedPriceInRange(mk, rq);
    hide Resolve, MatchOf, WithinPriceLimit, BestPrice, TakerState, Fills, AfterMatch;
  }

  /** Places an order: matches it, posts what remains and settles the fees; an error changes nothing. */
  function NewOrder(mk: MarketState, a: Account, m: nat, rq: Request): Result<(MarketState, Account, Fixed)>
    requires MarketOk(mk) && rq.Wellformed() && m < |a.perps|
  {
    ResolvedPriceInRange(mk, rq);
    match Resolve(rq.side, rq.orderType, rq.price, BestPrice(mk.Resting(InvertSide(rq.side)), rq.now))
    case Err(e) => Err(e)
    case Ok((postOnly, postable, price)) =>
      var allowed := postable && WithinPriceLimit(rq, mk.totals, price);
      var w := MatchOf(mk, rq, postOnly, price);
      if |mk.queue| + |w.events| > mk.capacity || (Fills(w.events) != [] && rq.referral.Err?) || price == 0
      then Err(Panic)
      else
        AfterMatch(MatchedMarket(mk, rq, w), TakerState(a, m, rq.side, rq.Spendable(mk), w.left), m, rq,
                   allowed && w.PostAllowed(), price, w.left)
  }

  /** The market with the makers matched, the events queued and an order number used. */
  function MatchedMarket(mk: MarketState, rq: Request, w: Walked): MarketState {
    mk.(totals := mk.totals.(seqNum := mk.totals.seqNum + 1)).WithResting(InvertSide(rq.side), w.makers).Push(w.events)
  }

  function AfterMatch(mk: MarketState, a: Account, m: nat, rq: Request, allowed: bool, price: int, left: Budget):
    Result<(MarketState, Account, Fixed)>
    requires 0 < price <= I64_MAX && 0 <= mk.totals.seqNum <= U64_MAX && m < |a.perps|
  {
    var rest := Min(left.base, left.quote / price);
    var posted :=
      if allowed && rest > 0 then Post(mk, a, m, rq, price, rest, OrderId(rq.side, price, mk.totals.seqNum))
      else Ok((mk, a));
    if posted.Err? then Err(posted.error)
    else
      var (mk2, a2) := posted.value;
      var taken := rq.maxQuote - left.quote;
      if taken > 0 && rq.referral.Ok? then
        var (a3, t3, credit) := ApplyFees(a2, m, mk2.totals, rq, taken, rq.referral.value);
        Ok((mk2.(totals := t3), a3, credit))
      else Ok((mk2, a2, 0))
  }
}
