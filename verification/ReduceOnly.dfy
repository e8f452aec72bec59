/** Reduce-only orders: a position only goes down, whatever fills at once, later or against oneself. */
module ReduceOnly {
  import opened OrderKeys
  import opened Types
  import opened OrderLists
  import opened Events
  import opened Matcher
  import opened OrderIds
  import opened PerpState
  import opened OrderPlacement
  import opened Ledger
  import opened Exchange
  import opened Placing
  import opened Conservation
  import opened Runs
  import opened Safety
  import opened Crossings
  import opened Simulation

  /**
   * The quantity of a reduce-only order. In a market that is itself reduce-only the lots that the account has on order
   * on that side, `onOrders`, are taken off first.
   */
  function ReducingQuantity(side: Side, basePos: int, onOrders: Option<int>, quantity: int): int {
    if (side == Bid && basePos > 0) || (side == Ask && basePos < 0) then 0
    else
      match onOrders
      case None => Min(Abs(basePos), quantity)
      case Some(n) => Max(Min(Abs(basePos) - n, quantity), 0)
  }

  /** The lots that orders of a side can fill before they turn a position round. */
  function Room(side: Side, basePos: int): int { if side == Bid then -basePos else basePos }

  /** What the program calls the complete base position. */
  function CompleteBase(mk: MarketState, a: Account, m: nat, i: Pubkey): int
    requires m < |a.perps|
  {
    a.perps[m].base + a.perps[m].takerBase + MakerBase(mk.queue, i)
  }

  /** It is as much as was asked for or as fits, whichever is less, and nothing for an order that would add. */
  lemma ReducingIsMost(side: Side, basePos: int, onOrders: Option<int>, quantity: nat)
    ensures
      var r, counted := ReducingQuantity(side, basePos, onOrders, quantity),
        if onOrders.Some? then onOrders.value else 0;
      && 0 <= r <= quantity && (r > 0 ==> r <= Room(side, basePos) - counted)
      && (r < quantity && Room(side, basePos) >= 0 ==> r + 1 > Room(side, basePos) - counted)
  {
  }

  // ----- What an order does to the complete position

  lemma MeetSelf(o: Incoming, m: LeafNode, b: Budget, i: Pubkey)
    requires m.Price() > 0 && m.quantity > 0 && Ready(b)
    ensures var x := Meet(o, m, b); -(b.base - x.left.base) <= Room(o.side, -MakerBase(x.sent, i)) <= 0
  {
    hide LeafNode.Price, LeafNode.IsValid, Meet;
    MeetSends(o, m, b);
    var x := Meet(o, m, b);
    if x.sent != [] { assert x.sent == [x.sent[0]] && x.sent[1..] == []; }
  }

  /** Fills against oneself give as maker part of what they take as taker. */
  lemma {:induction false} SelfFills(o: Incoming, makers: seq<LeafNode>, b: Budget, i: Pubkey)
    requires Tradable(makers) && Ready(b)
    ensures var w := Walk(o, makers, b); -(b.base - w.left.base) <= Room(o.side, -MakerBase(w.events, i)) <= 0
  {
    hide LeafNode.Price, LeafNode.IsValid, Meet, Trades, BaseOf, QuoteOf, Fills, Outs;
    if makers != [] {
      var x := Meet(o, makers[0], b);
      MeetFacts(o, makers[0], b);
      MeetSelf(o, makers[0], b, i);
      var events := if x.stop.None? then Walk(o, makers[1..], x.left).events else [];
      if x.stop.None? { SelfFills(o, makers[1..], x.left, i); }
      MakerBaseConcat(x.sent, events, i);
    }
  }

  lemma {:induction false} OutsGiveNothing(side: Side, es: seq<Event>, i: Pubkey)
    requires OutsOf(side, es)
    ensures MakerBase(es, i) == 0
  {
    if es != [] {
      assert es[0] in es;
      OutsGiveNothing(side, es[1..], i);
    }
  }

  /** Posting and fees leave the maker fills of the queue as they are. */
  lemma AfterMatchQueue(mk: MarketState, a: Account, m: nat, rq: Request, allowed: bool, price: int, left: Budget,
                        i: Pubkey)
    requires MarketOk(mk) && 0 < price <= I64_MAX && m < |a.perps|
    requires AfterMatch(mk, a, m, rq, allowed, price, left).Ok?
    ensures MakerBase(AfterMatch(mk, a, m, rq, allowed, price, left).value.0.queue, i) == MakerBase(mk.queue, i)
  {
    assert mk.totals.seqNum <= U64_MAX;
    hide Post, ApplyFees, MarketOk, OrderId, MakerBase;
    var rest := Min(left.base, left.quote / price);
    if allowed && rest > 0 { PostQueue(mk, a, m, rq, price, rest, OrderId(rq.side, price, mk.totals.seqNum), i); }
  }

  lemma PostQueue(mk: MarketState, a: Account, m: nat, rq: Request, price: int, quantity: int, key: Key, i: Pubkey)
    requires MarketOk(mk) && m < |a.perps| && Post(mk, a, m, rq, price, quantity, key).Ok?
    ensures MakerBase(Post(mk, a, m, rq, price, quantity, key).value.0.queue, i) == MakerBase(mk.queue, i)
  {
    hide Post, RoomMade, BookClaims, QueueClaims, InsertOrder, MakerBase;
    var own, es, leaf := PostParts(mk, a, m, rq, price, quantity, key);
    assert OutsOf(rq.side, es) by { RoomOuts(rq.side, mk.Resting(rq.side), own, es); }
    OutsGiveNothing(rq.side, es, i);
    MakerBaseConcat(mk.queue, es, i);
  }

  /** An order moves the complete position by at most what it takes, and towards its own side. */
  lemma OrderMoves(mk: MarketState, a: Account, m: nat, rq: Request)
    requires Placeable(mk, a, m, rq)
    ensures m < |NewOrder(mk, a, m, rq).value.1.perps|
    ensures
      var (mk', a', _) := NewOrder(mk, a, m, rq).value;
      var moved := Room(rq.side, CompleteBase(mk, a, m, rq.taker)) - Room(rq.side, CompleteBase(mk', a', m, rq.taker));
      var posted := a'.perps[m].Quantity(rq.side) - a.perps[m].Quantity(rq.side);
      0 <= moved && 0 <= posted && moved + posted <= rq.maxBase
  {
    hide NewOrder, Resolve, WithinPriceLimit, BestPrice, TakerState, AfterMatch, FeesOf, Walk, MakerBase;
    NewOrderParts(mk, a, m, rq);
    RealOutcome(mk, a, m, rq);
    var (postOnly, postable, price) := PriceOf(mk, rq).value;
    MatchedOk(mk, rq, postOnly, price);
    var w, b := MatchOf(mk, rq, postOnly, price), rq.Spendable(mk);
    var o, makers := IncomingOf(mk, rq, postOnly, price), mk.Resting(InvertSide(rq.side));
    SelfFills(o, makers, b, rq.taker);
    BudgetsHold(o, makers, b);
    MakerBaseConcat(mk.queue, w.events, rq.taker);
    hide MarketOk;
    var mk1, a1 := MatchedMarket(mk, rq, w), TakerState(a, m, rq.side, b, w.left);
    var allowed := postable && WithinPriceLimit(rq, mk.totals, price) && w.PostAllowed();
    AfterMatchQueue(mk1, a1, m, rq, allowed, price, w.left, rq.taker);
  }

  /**
   * Whatever a reduce-only order fills at once, the complete position stays between zero and what it was, and what it
   * posts still fits. With the orders already there counted they all fit together.
   */
  lemma OrderReduces(mk: MarketState, a: Account, m: nat, rq: Request, onOrders: Option<int>, quantity: int)
    requires Placeable(mk, a, m, rq)
    requires rq.maxBase == ReducingQuantity(rq.side, CompleteBase(mk, a, m, rq.taker), onOrders, quantity)
    requires onOrders.Some? ==> onOrders.value == a.perps[m].Quantity(rq.side) && onOrders.value >= 0
    ensures m < |NewOrder(mk, a, m, rq).value.1.perps|
    ensures
      var (mk', a', _) := NewOrder(mk, a, m, rq).value;
      var before, after := CompleteBase(mk, a, m, rq.taker), CompleteBase(mk', a', m, rq.taker);
      && 0 <= Room(rq.side, after) <= Room(rq.side, before)
      && a'.perps[m].Quantity(rq.side) - a.perps[m].Quantity(rq.side) <= Room(rq.side, after)
      && (onOrders.Some? ==> a'.perps[m].Quantity(rq.side) <= Room(rq.side, after))
  {
    assert rq.Wellformed();
    hide NewOrder, CompleteBase, PerpPosition.Quantity;
    OrderMoves(mk, a, m, rq);
  }

  // ----- In the exchange

  /** A reduce-only order of account `rq.taker` that succeeds. */
  ghost predicate PlacesReducing(s: State, m: nat, rq: Request, referrer: Pubkey, onOrders: Option<int>, quantity: int)
  {
    && Inv(s) && m < |s.markets| && Apply(s, Place(m, rq, referrer)).Ok? && rq.taker < |s.accounts|
    && m < |s.accounts[rq.taker].perps|
    && (onOrders.Some? ==> onOrders.value == s.accounts[rq.taker].perps[m].Quantity(rq.side))
    && rq.maxBase == ReducingQuantity(rq.side, CompleteBase(s.markets[m], s.accounts[rq.taker], m, rq.taker), onOrders,
                                      quantity)
  }

  lemma PlacedTaker(s: State, m: nat, rq: Request, referrer: Pubkey)
    requires Inv(s) && m < |s.markets| && Apply(s, Place(m, rq, referrer)).Ok?
    ensures rq.taker < |s.accounts| && Placeable(s.markets[m], s.accounts[rq.taker], m, rq)
    ensures
      var s' := Apply(s, Place(m, rq, referrer)).value;
      && |s'.markets| == |s.markets| && |s'.accounts| == |s.accounts|
      && (s'.markets[m], s'.accounts[rq.taker]) ==
         (NewOrder(s.markets[m], s.accounts[rq.taker], m, rq).value.0,
          NewOrder(s.markets[m], s.accounts[rq.taker], m, rq).value.1)
  {
    var mk, a := s.markets[m], s.accounts[rq.taker];
    assert Sound(mk, |s.accounts|);
    ShapeOf(s, m);
    hide NewOrder, PositionsOk;
  }

  /**
   * Once its fills are settled, a reduce-only order has left the base position between zero and the complete position
   * there was. In a reduce-only market not even all resting orders of the account on that side can turn it round.
   */
  lemma ReduceOnlyReduces(s: State, m: nat, rq: Request, referrer: Pubkey, onOrders: Option<int>, quantity: int)
    requires PlacesReducing(s, m, rq, referrer, onOrders, quantity)
    ensures LedgerOk(Apply(s, Place(m, rq, referrer)).value) && m < |Apply(s, Place(m, rq, referrer)).value.markets|
    ensures
      var s', i := Apply(s, Place(m, rq, referrer)).value, rq.taker;
      var end := Drain(s', m);
      && |end.accounts| == |s.accounts| && m < |end.accounts[i].perps|
      && var before, after := CompleteBase(s.markets[m], s.accounts[i], m, i), end.accounts[i].perps[m].base;
      && 0 <= Room(rq.side, after) <= Room(rq.side, before)
      && (onOrders.Some? ==> BookClaims(OnLots, i, s'.markets[m].Resting(rq.side)) <= Room(rq.side, after))
  {
    var mk, a, i := s.markets[m], s.accounts[rq.taker], rq.taker;
    var st := Place(m, rq, referrer);
    QuantitiesExact(s, m, i, rq.side);
    PlacedTaker(s, m, rq, referrer);
    StepKeeps(s, st);
    hide Apply, NewOrder, Drain, BookClaims, QueueClaims, CompleteBase, PositionsOk;
    var s' := Apply(s, st).value;
    OrderReduces(mk, a, m, rq, onOrders, quantity);
    DrainCompletes(s', m, i);
    ClaimsOf(s', m, i, OnLots, rq.side);
    QuantitiesExact(s', m, i, rq.side);
  }
}
