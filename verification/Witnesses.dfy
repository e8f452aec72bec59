/** States of the exchange in which documented intentions fail. */
module Witnesses {
  import opened Types
  import opened FixedPoint
  import opened Events
  import opened Matcher
  import opened OrderIds
  import opened PerpState
  import opened OrderPlacement
  import opened Ledger
  import opened Exchange
  import opened Placing
  import opened Conservation
  import opened Runs
  import opened Crossings
  import opened NeverCrossed
  import opened DryRuns
  import opened Simulation

  const NOTHING := PerpPosition(0, 0, 0, 0, 0, 0, 0, 0)

  /** The slots of an account of which the first two are as given. */
  function Slots(a: OrderSlot, b: OrderSlot): (s: seq<OrderSlot>)
    ensures |s| == MAX_PERP_OPEN_ORDERS && s[0] == a && s[1] == b && forall i :: 2 <= i < |s| ==> s[i].Free?
  {
    seq(MAX_PERP_OPEN_ORDERS, i => if i == 0 then a else if i == 1 then b else Free)
  }

  lemma TotalOfTwo(x: Account, y: Account, m: nat, t: MarketTotals)
    ensures Total([x, y], m, t) == PartOf(x, m, t).Plus(PartOf(y, m, t))
  {
    hide PartOf;
    assert [x, y][1..] == [y] && [y][1..] == [];
    assert Total([y], m, t) == PartOf(y, m, t).Plus(Total([], m, t));
  }

  /** Accounts without a position have no part in the totals. */
  lemma NoPart(a: Account, m: nat, t: MarketTotals)
    requires m < |a.perps| && a.perps[m].base == 0 && a.perps[m].quote == 0
    ensures PartOf(a, m, t) == Sum(0, 0, 0)
  {
  }

  /** Two accounts without positions that agree with one market. */
  ghost predicate TwoAgree(s: State) {
    && |s.accounts| == 2 && |s.markets| == 1 && Sound(s.markets[0], 2) && s.markets[0].totals.openInterest == 0
    && forall i :: 0 <= i < 2 ==>
         && |s.accounts[i].perps| == 1 && |s.accounts[i].slots| == MAX_PERP_OPEN_ORDERS
         && s.accounts[i].perps[0].base == 0 && s.accounts[i].perps[0].quote == 0
         && Agrees(s.markets[0], 0, s.accounts[i], i)
  }

  lemma TwoLedger(s: State)
    requires TwoAgree(s)
    ensures LedgerOk(s)
  {
    hide Sound, Agrees;
    forall m, i | 0 <= m < |s.markets| && 0 <= i < |s.accounts|
      ensures Agrees(s.markets[m], m, s.accounts[i], i)
    {
      assert m == 0;
    }
  }

  lemma TwoPositions(s: State)
    requires TwoAgree(s)
    ensures PositionsOk(s.markets[0], 0, s.accounts)
  {
    hide Sound, Agrees, Total, PartOf;
    var x, y, t := s.accounts[0], s.accounts[1], s.markets[0].totals;
    assert s.accounts == [x, y];
    TotalOfTwo(x, y, 0, t);
    NoPart(x, 0, t);
    NoPart(y, 0, t);
  }

  lemma TwoInv(s: State)
    requires TwoAgree(s)
    ensures Inv(s)
  {
    TwoLedger(s);
    TwoPositions(s);
    hide LedgerOk, PositionsOk;
  }

  // ----- Unprocessed fills behind the four zeros

  /** Account 0 has bought a lot from account 1 and sold it one back at the same price. */
  function Bought(): Event {
    Fill(Bid, 0, true, 0, 0, 1, OrderId(Ask, 5, 1), 0, 0, 0, 0, 0, OrderId(Bid, 5, 2), 0, 0, 5, 1, 0)
  }

  function Sold(): Event {
    Fill(Ask, 1, true, 0, 1, 1, OrderId(Bid, 5, 3), 0, 0, 0, 0, 0, OrderId(Ask, 5, 4), 0, 0, 5, 1, 0)
  }

  function HidingMarket(): MarketState {
    MarketState(MarketTotals(0, 0, 0, 0, 4, 1, 1, 0, 0), [], [], [Bought(), Sold()], 256, 2)
  }

  function HidingState(): State {
    State([Account([NOTHING], Slots(Free, Free)),
           Account([NOTHING.(bidsQuantity := 1, asksQuantity := 1)],
                   Slots(Used(0, Ask, OrderId(Ask, 5, 1), 0), Used(0, Bid, OrderId(Bid, 5, 3), 0)))],
          [HidingMarket()])
  }

  lemma HidingClaims(c: Claim, side: Side, owner: Pubkey)
    ensures var a := if owner == 1 then HidingState().accounts[1] else HidingState().accounts[0];
      owner <= 1 ==> Held(HidingMarket(), c, side, owner) == Recorded(a, 0, c, side)
  {
    hide OrderId;
    var q := HidingMarket().queue;
    assert q == [Bought(), Sold()] && q[1..] == [Sold()] && q[1..][1..] == [];
    assert HidingMarket().Resting(side) == [];
    assert QueueClaims(c, side, owner, q) ==
           EventClaim(c, side, owner, Bought()) + EventClaim(c, side, owner, Sold()) by {
      assert QueueClaims(c, side, owner, [Sold()]) == EventClaim(c, side, owner, Sold());
    }
  }

  lemma HidingSums(owner: Pubkey)
    ensures TakerBase(HidingMarket().queue, owner) == 0 && TakerQuote(HidingMarket().queue, owner) == 0
  {
    hide OrderId;
    OneEvent(Bought());
    OneEvent(Sold());
    assert HidingMarket().queue == [Bought()] + [Sold()];
    QueueSumsConcat(HidingMarket().totals, owner, [Bought()], [Sold()]);
  }

  lemma HidingAgrees(i: nat)
    requires i < 2
    ensures Agrees(HidingMarket(), 0, HidingState().accounts[i], i)
  {
    var a, mk := HidingState().accounts[i], HidingMarket();
    KeyAgeOf(Ask, 5, 1);
    KeyAgeOf(Bid, 5, 3);
    assert OrderId(Ask, 5, 1) != OrderId(Bid, 5, 3);
    hide OrderId, KeyAge, BookClaims, QueueClaims, TakerBase, TakerQuote;
    HidingSums(i);
    forall c, side
      ensures Held(mk, c, side, i) == Recorded(a, 0, c, side)
    {
      HidingClaims(c, side, i);
    }
    assert forall side :: mk.Resting(side) == [];
    assert forall slot :: slot in a.slots ==> slot.Free? || slot == a.slots[0] || slot == a.slots[1];
  }

  lemma HidingSound()
    ensures Sound(HidingMarket(), 2)
  {
    hide OrderId;
    assert forall side :: HidingMarket().Resting(side) == [];
  }

  lemma HidingInv()
    ensures Inv(HidingState())
  {
    HidingSound();
    HidingAgrees(0);
    HidingAgrees(1);
    hide Sound, Agrees;
    TwoInv(HidingState());
  }

  /** An account with the four zeros and two unprocessed fills, in a state that keeps every invariant. */
  lemma FillsCanHide()
    ensures exists s, m: nat, i: nat, e ::
      (Inv(s) && m < |s.markets| && i < |s.accounts| && m < |s.accounts[i].perps|
        && NoOpenOrders(s.accounts[i].perps[m])
       && e in s.markets[m].queue && e.Fill? && e.taker == i)
  {
    HidingInv();
    hide Inv, OrderId;
    var s := HidingState();
    assert Bought() in s.markets[0].queue && Bought().taker == 0;
    assert NoOpenOrders(s.accounts[0].perps[0]);
  }

  // ----- A bid of 5 at 10 and asks that run out of quote

  function RestingBid(): LeafNode {
    LeafNode(0, Limit, 1, 0, OrderId(Bid, 10, 1), 0, 5, 0, 0, 0)
  }

  function BidMarket(): MarketState {
    MarketState(MarketTotals(0, 0, 0, 0, 1, 1, 1, 1, 0), [RestingBid()], [], [], 256, 0)
  }

  /** Account 0 has the bid; account 1 has nothing. */
  function BidState(): State {
    State([Account([NOTHING.(bidsQuantity := 5)], Slots(Used(0, Bid, OrderId(Bid, 10, 1), 0), Free)),
           Account([NOTHING], Slots(Free, Free))],
          [BidMarket()])
  }

  lemma BidPrice()
    ensures RestingBid().Price() == 10 && MarketOk(BidMarket())
  {
    KeyToPrice(Bid, 10, 1);
  }

  lemma BidAgrees(i: nat)
    requires i < 2
    ensures Agrees(BidMarket(), 0, BidState().accounts[i], i)
  {
    var a, mk := BidState().accounts[i], BidMarket();
    KeyAgeOf(Bid, 10, 1);
    hide OrderId, KeyAge;
    var bid := RestingBid();
    forall c, side
      ensures Held(mk, c, side, i) == Recorded(a, 0, c, side)
    {
      assert [bid][1..] == [];
      assert BookClaims(c, i, [bid]) == LeafClaim(c, i, bid);
      assert mk.Resting(side) == if side == Bid then [bid] else [];
    }
    assert forall slot :: slot in a.slots ==> slot.Free? || slot == a.slots[0];
  }

  lemma BidSound()
    ensures Sound(BidMarket(), 2)
  {
    BidPrice();
    KeyAgeOf(Bid, 10, 1);
    hide OrderId, KeyAge, LeafNode.Price;
    assert forall side, o :: o in BidMarket().Resting(side) ==> side == Bid && o == RestingBid();
  }

  lemma BidInv()
    ensures Inv(BidState())
  {
    BidSound();
    BidAgrees(0);
    BidAgrees(1);
    hide Sound, Agrees;
    TwoInv(BidState());
  }

  /** An ask of account 1 for 4 at 3 with a quote budget. */
  function AskFor(quote: int): Request {
    Request(Ask, 3, 4, quote, Limit, 0, 0, 0, 20, 1, 0, 0, ONE, 0, false, Ok(Referral(0, false)))
  }

  /** The walk of the ask: with quote for one lot it takes one, with less it takes none. */
  lemma AskWalk(quote: int)
    requires quote == 13 || quote == 9
    ensures MarketOk(BidMarket())
    ensures
      var o, w := IncomingOf(BidMarket(), AskFor(quote), false, 3), MatchOf(BidMarket(), AskFor(quote), false, 3);
      && Crossing(o, [RestingBid()]) == [RestingBid()]
      && if quote == 13 then
           w.stop.Done? && w.left == Budget(3, 3, 19, 0, 1) && |w.events| == 1
             && LeavesCrossing(o, [RestingBid()], Budget(4, 13, 20, 0, 0))
         else w == Walked(Budget(4, 9, 20, 0, 0), QuoteTooSmall, [RestingBid()], [])
  {
    BidPrice();
    hide OrderId, LeafNode.Price;
    var bid, b := RestingBid(), AskFor(quote).Spendable(BidMarket());
    var o := IncomingOf(BidMarket(), AskFor(quote), false, 3);
    assert b.quote / 10 == if quote == 13 then 1 else 0;
    assert [bid][1..] == [];
    assert Crossing(o, [bid]) == [bid] + Crossing(o, []);
  }

  lemma AskPlaced(quote: int)
    requires quote == 13 || quote == 9
    ensures Placeable(BidMarket(), BidState().accounts[1], 0, AskFor(quote))
    ensures PriceOf(BidMarket(), AskFor(quote)) == Ok((false, true, 3))
  {
    BidPrice();
    AskPrice(quote);
    AskFits(quote);
    hide Walk, OrderId, LeafNode.Price, MarketOk, WithinPriceLimit, Resolve, AfterMatch, BestPrice;
  }

  /** With quote for 13 the ask rests across the book. */
  lemma AskRestsAcross()
    ensures MarketOk(BidMarket()) && AskFor(13).Wellformed() && RestsAcross(BidMarket(), AskFor(13))
  {
    BidPrice();
    AskWalk(13);
    AskPrice(13);
    hide Walk, OrderId, LeafNode.Price, LeavesCrossing, MarketOk, WithinPriceLimit, Resolve, BestPrice, RestsAcross;
    RestsIsPosts(BidMarket(), AskFor(13));
  }

  /** With quote for 9 it is stopped short of what its dry run promises. */
  lemma AskStopsShort()
    ensures MarketOk(BidMarket()) && PriceOf(BidMarket(), AskFor(9)).Ok?
    ensures StopsShort(BidMarket(), AskFor(9)) && !HitsLimit(BidMarket(), AskFor(9))
  {
    BidPrice();
    AskPrice(9);
    hide OrderId, LeafNode.Price, MarketOk, WithinPriceLimit, Resolve, BestPrice, HitsLimit;
    LimitSuffices(BidMarket(), AskFor(9));
  }

  lemma AskPrice(quote: int)
    requires quote == 13 || quote == 9
    ensures PriceOf(BidMarket(), AskFor(quote)) == Ok((false, true, 3)) && BestPrice(BidMarket().bids, 0) == Some(10)
    ensures WithinPriceLimit(AskFor(quote), BidMarket().totals, 3)
  {
    BidPrice();
    hide OrderId, LeafNode.Price;
  }

  lemma AskFits(quote: int)
    requires quote == 13 || quote == 9
    ensures MarketOk(BidMarket())
    ensures
      var mk, rq, a := BidMarket(), AskFor(quote), BidState().accounts[1];
      var w := MatchOf(mk, rq, false, 3);
      AfterMatch(MatchedMarket(mk, rq, w), TakerState(a, 0, Ask, rq.Spendable(mk), w.left), 0, rq, w.PostAllowed(), 3,
        w.left).Ok?
  {
    var mk, rq, a := BidMarket(), AskFor(quote), BidState().accounts[1];
    AskWalk(quote);
    var w := MatchOf(mk, rq, false, 3);
    hide Walk, OrderId, LeafNode.Price, LeavesCrossing, MarketOk;
    var mk1, a1 := MatchedMarket(mk, rq, w), TakerState(a, 0, Ask, rq.Spendable(mk), w.left);
    assert mk1.Resting(Ask) == [];
    assert FirstFree(a1.slots) == Some(0);
    assert Post(mk1, a1, 0, rq, 3, 1, OrderId(Ask, 3, 2)).Ok?;
    hide Post;
  }

  lemma PlaceApplies(s: State, m: nat, rq: Request)
    requires Inv(s) && m < |s.markets| && rq.taker < |s.accounts| && !rq.Referred()
    requires Placeable(s.markets[m], s.accounts[rq.taker], m, rq)
    ensures var r := Apply(s, Place(m, rq, 0));
      && r.Ok? && |r.value.markets| == |s.markets|
      && r.value.markets[m] == NewOrder(s.markets[m], s.accounts[rq.taker], m, rq).value.0
  {
    hide LedgerOk, PositionsOk, NewOrder, MarketOk;
    assert MayPlace(s, m, rq, 0);
  }

  /** A step of a sound exchange that places an order and leaves an uncrossed book crossed. */
  ghost predicate CrossesBook(s: State, st: Step) {
    && Inv(s) && st.Place? && st.m < |s.markets| && Uncrossed(s.markets[st.m], st.rq.now) && Apply(s, st).Ok?
    && st.m < |Apply(s, st).value.markets| && !Uncrossed(Apply(s, st).value.markets[st.m], st.rq.now)
  }

  lemma AcrossCrosses(s: State, m: nat, rq: Request)
    requires Inv(s) && m < |s.markets| && rq.taker < |s.accounts| && !rq.Referred()
    requires Placeable(s.markets[m], s.accounts[rq.taker], m, rq) && Uncrossed(s.markets[m], rq.now)
    requires RestsAcross(s.markets[m], rq)
    ensures CrossesBook(s, Place(m, rq, 0))
  {
    hide Inv, NewOrder, RestsAcross, MarketOk, Uncrossed, Apply, PriceOf;
    PlaceApplies(s, m, rq);
    PlaceUncrossed(s.markets[m], s.accounts[rq.taker], m, rq);
  }

  /** Account 1 places its ask with quote for 13: it takes one lot at 10 and rests at 3, below the bid. */
  lemma AskCanPostAcross()
    ensures exists s, st :: CrossesBook(s, st)
  {
    BidInv();
    AskPlaced(13);
    AskRestsAcross();
    assert BidMarket().asks == [] && Uncrossed(BidMarket(), 0);
    hide Inv, Placeable, RestsAcross, MarketOk, Uncrossed, CrossesBook, PriceOf;
    assert BidState().markets[0] == BidMarket() && !AskFor(13).Referred();
    AcrossCrosses(BidState(), 0, AskFor(13));
  }

  /** A sound exchange and an order, within its limit on fills, whose dry run is not what it does. */
  ghost predicate DryRunWrong(s: State, m: nat, rq: Request) {
    && Inv(s) && m < |s.markets| && rq.taker < |s.accounts|
    && var mk, a := s.markets[m], s.accounts[rq.taker];
    && Placeable(mk, a, m, rq) && PriceOf(mk, rq).Ok? && !HitsLimit(mk, rq)
    && m < |NewOrder(mk, a, m, rq).value.1.perps|
    && SimOrder(mk, rq) != Ok(RealChanges(a, NewOrder(mk, a, m, rq).value.1, m))
  }

  lemma ShortIsWrong(s: State, m: nat, rq: Request)
    requires Inv(s) && m < |s.markets| && rq.taker < |s.accounts|
             && Placeable(s.markets[m], s.accounts[rq.taker], m, rq)
    requires PriceOf(s.markets[m], rq).Ok? && PriceOf(s.markets[m], rq).value.2 > 0
    requires StopsShort(s.markets[m], rq) && !HitsLimit(s.markets[m], rq)
    ensures DryRunWrong(s, m, rq)
  {
    hide Inv, NewOrder, StopsShort, SimOrder, RealChanges, MarketOk, HitsLimit, PriceOf;
    SimPredicts(s.markets[m], s.accounts[rq.taker], m, rq);
  }

  /** The dry run of an ask with quote for 9 promises three lots on the book; the order itself posts none. */
  lemma DryRunCanPromiseTooMuch()
    ensures exists s, m: nat, rq :: DryRunWrong(s, m, rq)
  {
    BidInv();
    AskPlaced(9);
    AskStopsShort();
    assert BidMarket().totals.baseLotSize > 0 && MarketOk(BidMarket()) && AskFor(9).Wellformed();
    hide Inv, Placeable, StopsShort, MarketOk, HitsLimit, PriceOf, DryRunWrong;
    assert BidState().markets[0] == BidMarket();
    ShortIsWrong(BidState(), 0, AskFor(9));
  }
}
