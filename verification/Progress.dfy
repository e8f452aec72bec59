/** When the instructions of the exchange succeed, and what orders and cancels then do to its books. */
module Progress {
  import opened OrderKeys
  import opened Types
  import opened OrderLists
  import opened FixedPoint
  import opened Events
  import opened OrderIds
  import opened PerpState
  import opened OrderPlacement
  import opened Ledger
  import opened Exchange
  import opened Cancels
  import opened CancelOutcomes
  import opened Settlements
  import opened Liquidations
  import opened Health
  import opened Runs
  import opened Safety
  import opened Posting
  import opened ReduceOnly

  /** An order id in a slot of the account that is still on the book, with a best price if price incentives need one. */
  ghost predicate Cancellable(mk: MarketState, a: Account, m: nat, orderId: Key, now: nat) {
    var found := FindSlot(a.slots, m, orderId);
    FindSlotFinds(a.slots, m, orderId);
    && found.Some?
    && (exists o :: o in mk.Resting(a.slots[found.value].side) && o.key == orderId)
    && (mk.totals.version == 0 ==> exists o :: o in mk.Resting(a.slots[found.value].side) && o.IsValid(now))
  }

  ghost predicate DealMay(s: State, m: nat, a: Pubkey, b: Pubkey, d: Dealing)
    requires Two(s, m, a, b)
  {
    var p, open, mk := s.accounts[a].perps[m], exists x :: x in s.accounts[a].perps && !NoOpenOrders(x), s.markets[m];
    match d
    case Profits(_) => true
    case CloseOut(_) => true
    case LiquidateQuote(_) => !open && p.base == 0
    case LiquidateBase(request, _, _, _, _) => !open && AsksFor(p.base, request) && |mk.queue| < mk.capacity
    case Bankruptcy(maxTransfer, _) => maxTransfer > 0 && p.quote < 0
  }

  ghost predicate May(s: State, st: Step)
    requires Inv(s)
  {
    && st.m < |s.markets|
    && match st
    case Place(m, rq, referrer) =>
      && rq.Wellformed() && rq.taker < |s.accounts| && s.markets[m].totals.seqNum + 1 < U64_MAX
      && (rq.Referred() ==> referrer < |s.accounts| && referrer != rq.taker)
      && MarketOk(s.markets[m])
      && exists price ::
           PricedAt(s.markets[m], rq, price) && 0 < price <= I64_MAX
           && Fits(s.markets[m], s.accounts[rq.taker], rq, price)
    case Consume(_) => true
    case UpdateFunding(_, _) => true
    case Cancel(m, who, orderId, now) =>
      who < |s.accounts| && Cancellable(s.markets[m], s.accounts[who], m, orderId, now)
    case CancelAll(_, who, _) => who < |s.accounts|
    case CancelOneSide(_, who, _, _, _, _) => who < |s.accounts|
    case Fees(_, who, _, _) => who < |s.accounts|
    case Between(m, a, b, d) => Two(s, m, a, b) && DealMay(s, m, a, b, d)
  }

  lemma CancelMay(mk: MarketState, m: nat, accounts: seq<Account>, who: Pubkey, orderId: Key, now: nat)
    requires InStep(mk, m, accounts) && who < |accounts|
    ensures CancelOrder(mk, accounts[who], m, who, orderId, now).Ok? <==>
            Cancellable(mk, accounts[who], m, orderId, now)
  {
    var a := accounts[who];
    CancelOrderExact(mk, m, accounts, who, orderId, now);
    FindSlotFinds(a.slots, m, orderId);
    hide InStep, CancelOrder, KeysOf;
    if FindSlot(a.slots, m, orderId).Some? {
      var own := mk.Resting(a.slots[FindSlot(a.slots, m, orderId).value].side);
      FindOrderIn(own, orderId);
      KeysOfIn(own);
      ValidAtSubset(own, now);
      if BestPrice(own, now).Some? { assert ValidAt(own, now)[0] in ValidAt(own, now); }
    }
  }

  lemma DealSucceeds(s: State, m: nat, a: Pubkey, b: Pubkey, d: Dealing)
    requires Two(s, m, a, b) && s.markets[m].totals.openInterest >= 0
    ensures Deal(s, m, a, b, d).Ok? <==> DealMay(s, m, a, b, d)
  {
    hide PerpPosition.SettleFunding, Mul, Div, Insured, PnlTransfer, SettlePnl, ForceSettle;
    FundedBase(PairOf(s, m, a, b));
  }

  /** Exactly when an instruction succeeds; consuming, funding, cancelling all and settling never fail. */
  lemma StepSucceeds(s: State, st: Step)
    requires Inv(s)
    ensures Apply(s, st).Ok? <==> May(s, st)
  {
    if st.m < |s.markets| {
      OpenInterestCounts(s, st.m);
      InStepOf(s, st.m);
      ShapeOf(s, st.m);
      assert Sound(s.markets[st.m], |s.accounts|);
      var mk := s.markets[st.m];
      hide Deal, DealMay, NewOrder, CancelOrder, CancelFrom, CancelSide, SettleFees, Cancellable, InStep;
      hide PricedAt, Fits;
      match st
      case Place(m, rq, referrer) =>
        if rq.Wellformed() && rq.taker < |s.accounts| && mk.totals.seqNum + 1 < U64_MAX {
          OrderSucceeds(mk, s.accounts[rq.taker], m, rq);
        }
      case Consume(m) => ConsumeKeepsLedger(s, m);
      case Cancel(m, who, orderId, now) =>
        if who < |s.accounts| { CancelMay(mk, m, s.accounts, who, orderId, now); }
      case CancelAll(m, who, limit) =>
        if who < |s.accounts| { CancelFromKeeps(mk, m, s.accounts, who, 0, limit); }
      case CancelOneSide(m, who, side, maxDepth, now, limit) =>
        if who < |s.accounts| { CancelSideKeeps(mk, m, s.accounts, who, side, maxDepth, now, limit); }
      case UpdateFunding(_, _) =>
      case Fees(_, _, _, _) =>
      case Between(m, a, b, d) => if Two(s, m, a, b) { DealSucceeds(s, m, a, b, d); }
    }
  }

  /** In a sound exchange an order that succeeds rests just as its type, the price limit and its matching say. */
  lemma PlacedRests(s: State, m: nat, rq: Request, referrer: Pubkey, price: int)
    requires Inv(s) && m < |s.markets| && Apply(s, Place(m, rq, referrer)).Ok? && PricedAt(s.markets[m], rq, price)
    ensures 0 < price <= I64_MAX && rq.taker < |s.accounts| && MarketOk(s.markets[m])
    ensures
      var s', w := Apply(s, Place(m, rq, referrer)).value, Matching(s.markets[m], rq, price);
      && |s'.markets| == |s.markets| && |s'.accounts| == |s.accounts|
      && var (mk, a, mk', a') := (s.markets[m], s.accounts[rq.taker], s'.markets[m], s'.accounts[rq.taker]);
      && mk'.Resting(InvertSide(rq.side)) == w.makers
      && if Rests(rq, mk.totals, price, w) then PutOnBook(mk, mk', a, a', m, rq, price, w)
         else LeavesBook(mk, mk', a, a', rq, w)
  {
    var mk, a := s.markets[m], s.accounts[rq.taker];
    PlacedTaker(s, m, rq, referrer);
    assert Sound(mk, |s.accounts|);
    assert forall o :: o in mk.Resting(rq.side) ==> SoundOrder(rq.side, o, mk.totals.seqNum, |s.accounts|);
    hide Apply, NewOrder, Inv, PricedAt, Matching, Rests, PutOnBook, LeavesBook, Sound, KeyAge;
    OrderRests(mk, a, m, rq, price);
  }

  /** In a sound exchange cancelling all with a limit for every slot leaves nothing of the account on either side. */
  lemma AllCancelled(s: State, m: nat, who: Pubkey, limit: nat)
    requires Inv(s) && m < |s.markets| && who < |s.accounts| && limit < 256
    ensures Apply(s, CancelAll(m, who, limit)).Ok?
    ensures
      var s' := Apply(s, CancelAll(m, who, limit)).value;
      var names := NamesIn(s.accounts[who].slots, m);
      && |s'.markets| == |s.markets|
      && GoneAre(s.markets[m], s'.markets[m], First(names, Tries(limit)))
      && OthersStay(s.markets[m], s'.markets[m], who)
      && (|names| <= Tries(limit) ==> NothingRests(s'.markets[m], who, Bid) && NothingRests(s'.markets[m], who, Ask))
  {
    InStepOf(s, m);
    assert |s.accounts[who].slots| == MAX_PERP_OPEN_ORDERS;
    hide InStep, CancelFrom, GoneAre, OthersStay, NothingRests, NamesIn, First;
    CancelAllExact(s.markets[m], m, s.accounts, who, limit);
  }

  /** A funding update charges every account its base position times the change, and changes nothing else. */
  lemma FundingCharges(s: State, m: nat, delta: Fixed, i: nat)
    requires Inv(s) && m < |s.markets| && i < |s.accounts|
    ensures Apply(s, UpdateFunding(m, delta)).Ok? && m < |s.accounts[i].perps|
    ensures
      var s', t := Apply(s, UpdateFunding(m, delta)).value, s.markets[m].totals;
      && s'.accounts == s.accounts && |s'.markets| == |s.markets|
      && (forall k :: 0 <= k < |s.markets| && k != m ==> s'.markets[k] == s.markets[k])
      && s'.markets[m].bids == s.markets[m].bids && s'.markets[m].asks == s.markets[m].asks
      && s'.markets[m].queue == s.markets[m].queue
      && QuoteNow(s'.accounts, m, s'.markets[m].totals, i) ==
         QuoteNow(s.accounts, m, t, i) - delta * s.accounts[i].perps[m].base
  {
    ShapeOf(s, m);
    OpenInterestCounts(s, m);
    var p, t := s.accounts[i].perps[m], s.markets[m].totals;
    Distribute(t.longFunding - p.longSettled, delta, p.base);
    Distribute(t.shortFunding - p.shortSettled, delta, p.base);
    hide Inv;
  }

  /** What a dealing makes of the two positions and of the market. */
  ghost predicate Dealt(x: Pair, y: Pair, d: Dealing)
    requires x.t.openInterest >= 0
  {
    match d
    case Profits(price) => y == SettlePnl(x, price)
    case LiquidateQuote(quote) =>
      y == x.(p := x.p.(quote := x.p.quote - quote), q := x.q.(quote := x.q.quote + quote))
    case LiquidateBase(request, maxTransfer, price, fee, _) =>
      LiquidatePosition(x, request, maxTransfer, price, fee) == Ok(y)
    case CloseOut(price) => y == ForceSettle(x, price)
    case Bankruptcy(maxTransfer, insurance) => ResolveBankruptcy(x, maxTransfer, insurance) == Ok(y)
  }

  /** What a dealing leaves in the queue: of a liquidation the price, the lots taken over and the fee. */
  ghost function Records(s: State, s': State, m: nat, a: Pubkey, b: Pubkey, d: Dealing): seq<Event>
    requires Two(s, m, a, b) && Two(s', m, a, b)
  {
    match d
    case LiquidateBase(_, _, price, fee, now) =>
      [Event.Liquidate(now, s.markets[m].eventSeq, a, b, price,
                       s'.accounts[b].perps[m].base - s.accounts[b].perps[m].base, fee)]
    case _ => []
  }

  /** A dealing that succeeds settles between the two accounts by its rule and touches nothing else but the queue. */
  lemma DealSettles(s: State, m: nat, a: Pubkey, b: Pubkey, d: Dealing)
    requires Two(s, m, a, b) && s.markets[m].totals.openInterest >= 0 && Deal(s, m, a, b, d).Ok?
    ensures
      var s' := Deal(s, m, a, b, d).value;
      && Two(s', m, a, b) && Dealt(PairOf(s, m, a, b), PairOf(s', m, a, b), d)
      && |s'.accounts| == |s.accounts| && |s'.markets| == |s.markets|
      && (forall i :: 0 <= i < |s.accounts| && i != a && i != b ==> s'.accounts[i] == s.accounts[i])
      && (forall i :: 0 <= i < |s.accounts| ==>
           SameElsewhere(s.accounts[i], s'.accounts[i], m) && s'.accounts[i].slots == s.accounts[i].slots)
      && (forall k :: 0 <= k < |s.markets| && k != m ==> s'.markets[k] == s.markets[k])
      && s'.markets[m].bids == s.markets[m].bids && s'.markets[m].asks == s.markets[m].asks
      && s'.markets[m].queue == s.markets[m].queue + Records(s, s', m, a, b, d)
  {
    hide SettlePnl, LiquidatePosition, ForceSettle, ResolveBankruptcy;
  }

  // ----- Health before and after fills are processed

  /** Consuming changes neither the book nor the totals but for open interest. */
  lemma {:induction false} DrainKeepsBook(s: State, m: nat)
    requires LedgerOk(s) && m < |s.markets|
    ensures
      var s', mk := Drain(s, m), s.markets[m];
      && |s'.markets| == |s.markets| && s'.markets[m].bids == mk.bids && s'.markets[m].asks == mk.asks
      && s'.markets[m].totals == mk.totals.(openInterest := s'.markets[m].totals.openInterest)
    decreases |s.markets[m].queue|
  {
    if s.markets[m].queue != [] {
      var e := s.markets[m].queue[0];
      ShapeOf(s, m);
      assert e in s.markets[m].queue && SoundEvent(e, |s.accounts|) by { assert Sound(s.markets[m], |s.accounts|); }
      ConsumeKeepsLedger(s, m);
      TotalsKept(s.accounts, m, s.markets[m].totals, e);
      hide LedgerOk, MarketStep, ConsumeAccounts;
      DrainKeepsBook(ConsumeEvent(s, m).value, m);
    }
  }

  /** No event takes an order of the account off its records: neither a maker fill nor an Out event. */
  ghost predicate NotMaking(q: seq<Event>, i: Pubkey) {
    forall e :: e in q ==> (e.Fill? ==> e.maker != i) && (e.Out? ==> e.owner != i)
  }

  lemma {:induction false} NothingMade(q: seq<Event>, t: MarketTotals, i: Pubkey)
    requires NotMaking(q, i)
    ensures MakerBase(q, i) == 0 && MakerPay(q, t, i) == 0
    ensures forall side :: QueueClaims(OnLots, side, i, q) == 0
  {
    hide MakerFees, FromNum, Event.BaseQuoteChange;
    if q != [] {
      assert q[0] in q;
      NothingMade(q[1..], t, i);
    }
  }

  lemma OnOrder(s: State, m: nat, i: nat, side: Side)
    requires LedgerOk(s) && m < |s.markets| && i < |s.accounts|
    ensures m < |s.accounts[i].perps|
    ensures s.accounts[i].perps[m].Quantity(side) ==
            BookClaims(OnLots, i, s.markets[m].Resting(side)) + QueueClaims(OnLots, side, i, s.markets[m].queue)
  {
    assert Agrees(s.markets[m], m, s.accounts[i], i);
    assert Held(s.markets[m], OnLots, side, i) == Recorded(s.accounts[i], m, OnLots, side);
  }

  /** Health values what an account has taken just as it will be settled. */
  lemma HealthCountsTaken(s: State, m: nat, i: nat, price: Fixed)
    requires LedgerOk(s) && m < |s.markets| && i < |s.accounts| && NotMaking(s.markets[m].queue, i)
    ensures m < |s.accounts[i].perps| && m < |Drain(s, m).markets|
    ensures i < |Drain(s, m).accounts| && m < |Drain(s, m).accounts[i].perps|
    ensures PerpVal(Drain(s, m).accounts[i].perps[m], Drain(s, m).markets[m].totals, price) ==
            PerpVal(s.accounts[i].perps[m], s.markets[m].totals, price)
  {
    DrainCompletes(s, m, i);
    DrainPays(s, m, i);
    DrainKeepsBook(s, m);
    var s', mk := Drain(s, m), s.markets[m];
    NothingMade(mk.queue, mk.totals, i);
    NothingMade([], mk.totals, i);
    OnOrder(s, m, i, Bid);
    OnOrder(s, m, i, Ask);
    OnOrder(s', m, i, Bid);
    OnOrder(s', m, i, Ask);
    hide LedgerOk, Drain, BookClaims, QueueClaims, MakerBase, MakerPay;
    SameVals(s.accounts[i].perps[m], s'.accounts[i].perps[m], mk.totals, s'.markets[m].totals, price);
  }

  lemma SameVals(p: PerpPosition, p': PerpPosition, t: MarketTotals, t': MarketTotals, price: Fixed)
    requires t' == t.(openInterest := t'.openInterest) && p'.takerBase == 0 && p'.takerQuote == 0
    requires p'.base == p.base + p.takerBase && p'.bidsQuantity == p.bidsQuantity && p'.asksQuantity == p.asksQuantity
    requires p'.QuotePosition(t.longFunding, t.shortFunding) ==
             p.QuotePosition(t.longFunding, t.shortFunding) + FromNum(t.quoteLotSize * p.takerQuote)
    ensures PerpVal(p', t', price) == PerpVal(p, t, price)
  {
    hide PerpPosition.QuotePosition;
    assert p.takerQuote * t.quoteLotSize == t.quoteLotSize * p.takerQuote;
  }
}
