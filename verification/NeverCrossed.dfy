/** The best valid bid stays below the best valid ask, but for one way of posting an ask. */
module NeverCrossed {
  import opened OrderKeys
  import opened Types
  import opened OrderLists
  import opened FixedPoint
  import opened Matcher
  import opened PerpState
  import opened OrderPlacement
  import opened Ledger
  import opened Exchange
  import opened Placing
  import opened SizeIncentives
  import opened Cancels
  import opened Settlements
  import opened Runs
  import opened Safety
  import opened Crossings
  import opened DryRuns
  import opened Simulation

  // ----- When placing an order crosses the book

  /**
   * The dry run of the ask rests, and it trades something but less than the valid bids at its price or better have; and
   * it meets no more of them than it may fill.
   */
  ghost predicate RestsAcross(mk: MarketState, rq: Request)
    requires MarketOk(mk) && rq.Wellformed()
  {
    && rq.side == Ask && PriceOf(mk, rq).Ok? && SimOrder(mk, rq).Ok? && !HitsLimit(mk, rq)
    && var price, c := PriceOf(mk, rq).value.2, SimOrder(mk, rq).value;
    c.asks > 0 && 0 < -c.takerBase < LotsAtOrBetter(Bid, ValidAt(mk.bids, rq.now), price)
  }

  /** The orders that cross are the valid ones at the price or better. */
  lemma {:induction false} CrossingIsAtOrBetter(o: Incoming, s: seq<LeafNode>)
    requires Sorted(InvertSide(o.side), s)
    ensures Lots(Crossing(o, s)) == LotsAtOrBetter(InvertSide(o.side), ValidAt(s, o.now), o.price)
  {
    hide LeafNode.Price, LeafNode.IsValid;
    if s != [] {
      SortedTail(InvertSide(o.side), s);
      CrossingIsAtOrBetter(o, s[1..]);
      if s[0].IsValid(o.now) && !o.Crosses(s[0].Price()) {
        ValidSorted(InvertSide(o.side), s, o.now);
        WorseToTheEnd(InvertSide(o.side), ValidAt(s, o.now), o.price);
      }
    }
  }

  /** Matching that ends without spending a budget has taken all there was to take. */
  lemma {:induction false} TakesAll(o: Incoming, makers: seq<LeafNode>, b: Budget)
    requires Tradable(makers) && Ready(b)
    requires Walk(o, makers, b).stop.Exhausted? || Walk(o, makers, b).stop.PriceReached?
    ensures b.base - Walk(o, makers, b).left.base == Lots(Crossing(o, makers))
  {
    hide LeafNode.Price, LeafNode.IsValid, Meet;
    if makers != [] {
      var x := Meet(o, makers[0], b);
      MeetFacts(o, makers[0], b);
      MeetStops(o, makers[0], b);
      MeetLeaves(o, makers[0], b);
      if x.stop.None? { TakesAll(o, makers[1..], x.left); }
    }
  }

  lemma {:induction false} TakesSome(o: Incoming, makers: seq<LeafNode>, b: Budget)
    requires Tradable(makers) && Ready(b)
    ensures Walk(o, makers, b).left.base <= b.base
    ensures Walk(o, makers, b).stop.Done? ==> Walk(o, makers, b).left.base < b.base
  {
    hide LeafNode.Price, LeafNode.IsValid, Meet;
    if makers != [] {
      var x := Meet(o, makers[0], b);
      MeetFacts(o, makers[0], b);
      MeetStops(o, makers[0], b);
      MeetSends(o, makers[0], b);
      if x.stop.None? { TakesSome(o, makers[1..], x.left); }
    }
  }

  /** What stops an ask short of the lots at its price, once it has traded and may rest, is its quote budget. */
  lemma AskLeavesCrossing(o: Incoming, makers: seq<LeafNode>, b: Budget)
    requires Tradable(makers) && Ready(b) && o.side == Ask && Sorted(Bid, makers)
    ensures
      var w := Walk(o, makers, b);
      (w.stop.Done? && LeavesCrossing(o, makers, b)) <==>
      (!w.stop.WouldTake? && !w.stop.LimitReached? &&
       0 < b.base - w.left.base < LotsAtOrBetter(Bid, ValidAt(makers, o.now), o.price))
  {
    hide Walk, Crossing, LotsAtOrBetter, ValidAt;
    var w := Walk(o, makers, b);
    CrossingIsAtOrBetter(o, makers);
    TakesSome(o, makers, b);
    TooSmallAtOnce(o, makers, b);
    if w.stop.Exhausted? || w.stop.PriceReached? { TakesAll(o, makers, b); }
  }

  lemma RestsIsPosts(mk: MarketState, rq: Request)
    requires MarketOk(mk) && rq.Wellformed() && PriceOf(mk, rq).Ok? && PriceOf(mk, rq).value.2 > 0 && rq.side == Ask
    ensures RestsAcross(mk, rq) <==> PostsAcross(mk, rq)
  {
    ResolvedPriceInRange(mk, rq);
    var (postOnly, postable, price) := PriceOf(mk, rq).value;
    var o, b := IncomingOf(mk, rq, postOnly, price), rq.Spendable(mk);
    assert mk.Resting(InvertSide(rq.side)) == mk.bids && Tradable(mk.bids) && Sorted(Bid, mk.bids);
    hide Resolve, Walk, LeavesCrossing, WithinPriceLimit, BestPrice, MarketOk, SimOrder, HitsLimit;
    var w := MatchOf(mk, rq, postOnly, price);
    AskLeavesCrossing(o, mk.bids, b);
    LimitMeans(mk, rq);
    if !HitsLimit(mk, rq) { SimOutcome(mk, rq); }
    QuotientPositive(w.left.quote, price);
  }

  /**
   * Placing an order leaves the book uncrossed exactly unless it is an ask whose dry run rests with lots at its price
   * left over; a bid never crosses it.
   */
  lemma PlaceUncrossed(mk: MarketState, a: Account, m: nat, rq: Request)
    requires Placeable(mk, a, m, rq) && Uncrossed(mk, rq.now)
    ensures Uncrossed(NewOrder(mk, a, m, rq).value.0, rq.now) <==> !RestsAcross(mk, rq)
    ensures rq.side == Bid ==> Uncrossed(NewOrder(mk, a, m, rq).value.0, rq.now)
  {
    assert rq.side == Bid ==> !RestsAcross(mk, rq);
    hide NewOrder, Uncrossed, PostsAcross, RestsAcross, PriceOf, MarketOk;
    UncrossedByWalk(mk, a, m, rq);
    if rq.side == Ask { RestsIsPosts(mk, rq); }
  }

  // ----- Guards that a caller can check

  /**
   * A limit ask is guarded if no valid bid is at its price or better, or if it has quote for all its base at the best
   * one. Other orders always are.
   */
  predicate Guarded(mk: MarketState, rq: Request) {
    rq.side == Bid || rq.orderType != Limit ||
    match BestPrice(mk.bids, rq.now)
    case None => true
    case Some(best) => best < rq.price || rq.maxBase * best <= rq.maxQuote
  }

  lemma BestIsTop(s: seq<LeafNode>, now: nat)
    requires Sorted(Bid, s) && Tradable(s)
    ensures match BestPrice(s, now)
      case None => ValidAt(s, now) == []
      case Some(top) => top > 0 && forall o :: o in s && o.IsValid(now) ==> o.Price() <= top
  {
    hide LeafNode.Price, LeafNode.IsValid;
    BestIsBest(Bid, s, now);
    BestPositive(s, now);
  }

  /** A guarded order never rests across the book. */
  lemma GuardedNeverRestsAcross(mk: MarketState, rq: Request)
    requires MarketOk(mk) && rq.Wellformed() && Guarded(mk, rq)
    ensures !RestsAcross(mk, rq)
  {
    if RestsAcross(mk, rq) && PriceOf(mk, rq).value.2 > 0 {
      ResolvedPriceInRange(mk, rq);
      var (postOnly, postable, price) := PriceOf(mk, rq).value;
      var o, b := IncomingOf(mk, rq, postOnly, price), rq.Spendable(mk);
      assert mk.Resting(InvertSide(rq.side)) == mk.bids && Tradable(mk.bids) && Sorted(Bid, mk.bids);
      assert rq.orderType == Limit ==> price == rq.price;
      hide Walk, LeavesCrossing, WithinPriceLimit, MarketOk, SimOrder, HitsLimit, LotsAtOrBetter;
      RestsIsPosts(mk, rq);
      if postOnly {
        PostOnlyTakesNothing(o, mk.bids, b);
      } else {
        BestIsTop(mk.bids, rq.now);
        ValidSorted(Bid, mk.bids, rq.now);
        assert BestPrice(mk.bids, rq.now).Some?;
        var best := BestPrice(mk.bids, rq.now).value;
        if best < price {
          WorseToTheEnd(Bid, ValidAt(mk.bids, rq.now), price);
        } else {
          EnoughNeverWants(o, mk.bids, b, best);
        }
      }
    }
  }

  /** An ask with quote for all its base at a price no valid bid exceeds keeps the book uncrossed. */
  lemma EnoughQuoteNeverAcross(mk: MarketState, a: Account, m: nat, rq: Request, top: int)
    requires Placeable(mk, a, m, rq) && Uncrossed(mk, rq.now) && rq.side == Ask
    requires forall o :: o in mk.bids && o.IsValid(rq.now) ==> o.Price() <= top
    requires top > 0 && rq.maxBase * top <= rq.maxQuote
    ensures Uncrossed(NewOrder(mk, a, m, rq).value.0, rq.now)
  {
    hide NewOrder, Uncrossed, RestsAcross, LeafNode.IsValid, LeafNode.Price;
    var best := BestPrice(mk.bids, rq.now);
    BestIsTop(mk.bids, rq.now);
    if best.Some? {
      ValidAtSubset(mk.bids, rq.now);
      assert ValidAt(mk.bids, rq.now)[0] in ValidAt(mk.bids, rq.now);
      TimesOrder(best.value, top, rq.maxBase);
    }
    GuardedNeverRestsAcross(mk, rq);
    PlaceUncrossed(mk, a, m, rq);
  }

  // ----- Runs

  /** The time of the book of market `k` after a step. */
  function TimeAfter(st: Step, now: nat, k: nat): nat {
    if st.Place? && st.m == k then st.rq.now else now
  }

  /** A step that keeps to the time and, if it places an order in market `k`, does not rest across the book. */
  ghost predicate InTime(s: State, st: Step, now: nat, k: nat)
    requires Inv(s)
  {
    && now <= TimeAfter(st, now, k)
    && (st.Place? && st.m == k && Apply(s, st).Ok? ==> CleanOrder(s.markets[k], st.rq))
  }

  ghost predicate CleanOrder(mk: MarketState, rq: Request) {
    MarketOk(mk) && rq.Wellformed() ==> !RestsAcross(mk, rq)
  }

  ghost predicate AllInTime(s: State, steps: seq<Step>, now: nat, k: nat)
    requires Inv(s)
    decreases steps
  {
    steps != [] ==>
      InTime(s, steps[0], now, k) && AllInTime(After(s, steps[0]), steps[1..], TimeAfter(steps[0], now, k), k)
  }

  function TimeOf(steps: seq<Step>, now: nat, k: nat): nat {
    if steps == [] then now else TimeOf(steps[1..], TimeAfter(steps[0], now, k), k)
  }

  lemma ShrunkTwice(s: seq<LeafNode>, s1: seq<LeafNode>, s2: seq<LeafNode>)
    requires Shrunk(s, s1) && Shrunk(s1, s2)
    ensures Shrunk(s, s2)
  {
    forall o | o in s2
      ensures OnceThere(s, o)
    {
      assert OnceThere(s1, o);
      var y :| y in s1 && o == y.(quantity := o.quantity);
      assert OnceThere(s, y);
      var z :| z in s && y == z.(quantity := y.quantity);
      assert o == z.(quantity := o.quantity);
    }
  }

  ghost predicate BookShrunk(mk: MarketState, mk': MarketState) {
    Shrunk(mk.bids, mk'.bids) && Shrunk(mk.asks, mk'.asks)
  }

  lemma CancelAtShrinks(mk: MarketState, a: Account, i: nat)
    requires i < |a.slots| && a.slots[i].Used? && CancelAt(mk, a, i).Ok?
    ensures BookShrunk(mk, CancelAt(mk, a, i).value.0)
  {
    hide FindOrder, RemoveOrderAt, RemoveOrder;
    var slot := a.slots[i];
    RemoveKeepsOthers(mk.Resting(slot.side), slot.orderId);
    SameShrunk(mk.bids);
    SameShrunk(mk.asks);
  }

  lemma {:induction false} CancelFromShrinks(mk: MarketState, a: Account, m: nat, i: nat, limit: nat)
    requires CancelFrom(mk, a, m, i, limit).Ok?
    ensures BookShrunk(mk, CancelFrom(mk, a, m, i, limit).value.0)
    decreases MAX_PERP_OPEN_ORDERS - i
  {
    hide CancelAt, Shrunk;
    SameShrunk(mk.bids);
    SameShrunk(mk.asks);
    if i < MAX_PERP_OPEN_ORDERS && i < |a.slots| {
      if a.slots[i].Free? || a.slots[i].market != m {
        CancelFromShrinks(mk, a, m, i + 1, limit);
      } else {
        CancelAtShrinks(mk, a, i);
        var (mk', a') := CancelAt(mk, a, i).value;
        var left := (limit + 255) % 256;
        if left != 0 {
          CancelFromShrinks(mk', a', m, i + 1, left);
          var mk2 := CancelFrom(mk', a', m, i + 1, left).value.0;
          ShrunkTwice(mk.bids, mk'.bids, mk2.bids);
          ShrunkTwice(mk.asks, mk'.asks, mk2.asks);
        }
      }
    }
  }

  lemma {:induction false} CancelKeysShrinks(mk: MarketState, a: Account, side: Side, keys: seq<Key>, limit: nat)
    requires CancelKeys(mk, a, side, keys, limit).Ok?
    ensures BookShrunk(mk, CancelKeys(mk, a, side, keys, limit).value.0)
    decreases |keys|
  {
    hide RemoveOrderAt, FindOrder, RemoveOrder, Shrunk;
    SameShrunk(mk.bids);
    SameShrunk(mk.asks);
    if keys != [] && limit > 0 {
      var own, key := mk.Resting(side), keys[0];
      var o := FindOrder(own, key);
      if o.None? {
        CancelKeysShrinks(mk, a, side, keys[1..], limit - 1);
      } else {
        RemovedShrunk(own, key);
        var mk' := mk.WithResting(side, RemoveOrder(own, key));
        var a' := RemoveOrderAt(a, o.value.ownerSlot, o.value.quantity).value;
        CancelKeysShrinks(mk', a', side, keys[1..], limit - 1);
        var mk2 := CancelKeys(mk', a', side, keys[1..], limit - 1).value.0;
        ShrunkTwice(mk.bids, mk'.bids, mk2.bids);
        ShrunkTwice(mk.asks, mk'.asks, mk2.asks);
      }
    }
  }

  lemma RemovedShrunk(s: seq<LeafNode>, key: Key)
    ensures Shrunk(s, RemoveOrder(s, key))
  {
    hide RemoveOrder;
    RemoveKeepsOthers(s, key);
    SameShrunk(s);
  }

  lemma OthersShrinkHere(s: State, st: Step)
    requires Inv(s) && Apply(s, st).Ok? && !st.Place?
    ensures st.m < |s.markets| == |Apply(s, st).value.markets|
    ensures BookShrunk(s.markets[st.m], Apply(s, st).value.markets[st.m])
  {
    hide LedgerOk, CancelFrom, CancelAt, CancelKeys, Merge, RankKeys, OwnKeys, SettleFees, ConsumeAccounts;
    hide SettlePnl, ForceSettle, LiquidatePosition, ResolveBankruptcy;
    var k, mk := st.m, s.markets[st.m];
    SameShrunk(mk.bids);
    SameShrunk(mk.asks);
    match st
    case Cancel(_, who, orderId, now) =>
      FindSlotFinds(s.accounts[who].slots, k, orderId);
      CancelAtShrinks(mk, s.accounts[who], FindSlot(s.accounts[who].slots, k, orderId).value);
    case CancelAll(_, who, limit) =>
      CancelFromShrinks(mk, s.accounts[who], k, 0, limit);
    case CancelOneSide(_, who, side, maxDepth, now, limit) =>
      var mine := RankKeys(side, OwnKeys(s.accounts[who].slots, k, side));
      var keys := KeysReported(Merge(side, mk.Resting(side), mine, maxDepth, now, 0));
      CancelKeysShrinks(mk, s.accounts[who], side, keys, limit);
    case _ =>
  }

  /** No instruction but placing an order adds to a book. */
  lemma OthersShrink(s: State, st: Step, k: nat)
    requires Inv(s) && Apply(s, st).Ok? && k < |s.markets| && !(st.Place? && st.m == k)
    ensures k < |Apply(s, st).value.markets|
    ensures BookShrunk(s.markets[k], Apply(s, st).value.markets[k])
  {
    if st.m == k {
      OthersShrinkHere(s, st);
    } else {
      StepOutcome(s, st);
      hide Inv, LedgerOk, Apply, Change;
      SameShrunk(s.markets[k].bids);
      SameShrunk(s.markets[k].asks);
    }
  }

  /** A run in time from an uncrossed book, with no ask that rests across it, never crosses it. */
  lemma {:induction false} RunNeverCrosses(s: State, steps: seq<Step>, now: nat, k: nat)
    requires Inv(s) && k < |s.markets| && Uncrossed(s.markets[k], now) && AllInTime(s, steps, now, k)
    ensures k < |Run(s, steps).markets| && Uncrossed(Run(s, steps).markets[k], TimeOf(steps, now, k))
    decreases steps
  {
    hide Inv, Apply, Uncrossed, InTime;
    if steps != [] {
      StepUncrossed(s, steps[0], now, k);
      RunNeverCrosses(After(s, steps[0]), steps[1..], TimeAfter(steps[0], now, k), k);
    }
  }

  lemma StepUncrossed(s: State, st: Step, now: nat, k: nat)
    requires Inv(s) && k < |s.markets| && Uncrossed(s.markets[k], now) && InTime(s, st, now, k)
    ensures Uncrossed(After(s, st).markets[k], TimeAfter(st, now, k))
  {
    hide Inv, Uncrossed, Shrunk, RestsAcross;
    var mk, later := s.markets[k], TimeAfter(st, now, k);
    LaterStaysUncrossed(mk, now, later);
    if Apply(s, st).Ok? {
      if st.Place? && st.m == k {
        PlacedUncrossed(s, st);
      } else {
        OthersShrink(s, st, k);
        ShrinkingStaysUncrossed(mk, Apply(s, st).value.markets[k], later);
      }
    }
  }

  lemma PlacedUncrossed(s: State, st: Step)
    requires Inv(s) && st.Place? && Apply(s, st).Ok? && CleanOrder(s.markets[st.m], st.rq)
    requires Uncrossed(s.markets[st.m], st.rq.now)
    ensures st.m < |Apply(s, st).value.markets| && Uncrossed(Apply(s, st).value.markets[st.m], st.rq.now)
  {
    var mk, rq := s.markets[st.m], st.rq;
    assert Sound(mk, |s.accounts|);
    hide Uncrossed, RestsAcross, NewOrder;
    PlaceUncrossed(mk, s.accounts[rq.taker], st.m, rq);
  }

  /** All orders of the run in market `k` are guarded and keep to the time. */
  ghost predicate AllGuarded(s: State, steps: seq<Step>, now: nat, k: nat)
    requires Inv(s)
    decreases steps
  {
    steps != [] ==>
      && now <= TimeAfter(steps[0], now, k)
      && (steps[0].Place? && steps[0].m == k && k < |s.markets| ==> Guarded(s.markets[k], steps[0].rq))
      && AllGuarded(After(s, steps[0]), steps[1..], TimeAfter(steps[0], now, k), k)
  }

  /** Whatever happens in a run, the book never crosses as long as its limit asks are guarded. */
  lemma {:induction false} GuardedRunNeverCrosses(s: State, steps: seq<Step>, now: nat, k: nat)
    requires Inv(s) && k < |s.markets| && Uncrossed(s.markets[k], now) && AllGuarded(s, steps, now, k)
    ensures k < |Run(s, steps).markets| && Uncrossed(Run(s, steps).markets[k], TimeOf(steps, now, k))
    decreases steps
  {
    GuardedInTime(s, steps, now, k);
    hide Inv, Uncrossed, AllInTime, AllGuarded;
    RunNeverCrosses(s, steps, now, k);
  }

  lemma {:induction false} GuardedInTime(s: State, steps: seq<Step>, now: nat, k: nat)
    requires Inv(s) && k < |s.markets| && AllGuarded(s, steps, now, k)
    ensures AllInTime(s, steps, now, k)
    decreases steps
  {
    hide Inv, Apply, RestsAcross, Guarded, MarketOk;
    if steps != [] {
      var mk := s.markets[k];
      if steps[0].Place? && steps[0].m == k && MarketOk(mk) && steps[0].rq.Wellformed() {
        GuardedNeverRestsAcross(mk, steps[0].rq);
      }
      GuardedInTime(After(s, steps[0]), steps[1..], TimeAfter(steps[0], now, k), k);
    }
  }
}
