/** A triggered order: its dry run, the order itself, and the check that the two agree. */
module TriggeredOrders {
  import opened Types
  import opened OrderLists
  import opened FixedPoint
  import opened Events
  import opened EventQueues
  import opened BookSides
  import opened PerpState
  import opened MangoAccounts
  import opened OrderPlacement
  import opened Books
  import opened Crossings
  import opened DryRuns
  import opened Simulation
  import opened ReduceOnly
  import opened Health
  import opened HealthCaches
  import opened Referrals

  /** The health predicted by the cache is what the cache is updated to after the order. */
  lemma SimHealthIsPosted(hc: HealthCache, mk: MarketState, a: Account, m: nat, rq: Request, g: RefTerms,
                          deposits: Fixed,
                          cacheValid: bool, price: Fixed, h: HealthType)
    requires hc.Valid() && m < |hc.perp|
    requires Placeable(mk, a, m, rq) && rq.referral == DetermineRefVars(g, deposits, None, cacheValid)
    requires PriceOf(mk, rq).Ok? && PriceOf(mk, rq).value.2 > 0 && !HitsLimit(mk, rq) && !StopsShort(mk, rq)
    ensures SimOrder(mk, rq).Ok? && m < |NewOrder(mk, a, m, rq).value.1.perps|
    ensures
      var c, (mk', a', _) := SimOrder(mk, rq).value, NewOrder(mk, a, m, rq).value;
      hc.HealthAfterSim(m, Added(a.perps[m], c), mk.totals, price, h,
                        SimFees(g, deposits, rq.takerFee, mk.totals.quoteLotSize, c.takerQuote))
      == Shifted(hc.health[IndexOf(h)], Weighted(PerpVal(a'.perps[m], mk'.totals, price), hc.perpWeights[m], h)
                                        - Weighted(hc.perp[m], hc.perpWeights[m], h))
  {
    hide NewOrder, SimOrder, HitsLimit, StopsShort, PerpVal, Weighted, SimFees, DetermineRefVars, MarketOk;
    SimHealthIsReal(mk, a, m, rq, g, deposits, cacheValid, price, hc.perpWeights[m], h);
  }

  /** The health that the cache predicts for an order without a referrer. */
  ghost function SimHealth(hc: HealthCache, m: nat, p: PerpPosition, t: MarketTotals, price: Fixed, rq: Request,
                           c: Changes, g: RefTerms, deposits: Fixed): Option<Fixed>
    requires hc.Valid() && m < |hc.perp|
    reads hc
  {
    hc.HealthAfterSim(m, Added(p, c), t, price, Init,
                      SimFees(g, deposits, rq.takerFee, t.quoteLotSize, c.takerQuote))
  }

  /** The same as a number, from a health computed before. */
  ghost function HealthBy(hc: HealthCache, before: Fixed, vals: seq<Val>, p: PerpPosition, m: nat, t: MarketTotals,
                          price: Fixed, rq: Request, c: Changes, g: RefTerms, deposits: Fixed): Fixed
    requires m < |hc.perpWeights| && m < |vals|
  {
    var w := hc.perpWeights[m];
    before + (Weighted(PerpVal(Added(p, c), t, price), w, Init) - Weighted(vals[m], w, Init)
              - SimFees(g, deposits, rq.takerFee, t.quoteLotSize, c.takerQuote))
  }

  /** Book, market, queue, account and the terms of an order fit together. */
  ghost predicate Triggerable(hc: HealthCache, book: Book, market: PerpMarket, account: MangoAccount, m: nat,
                              queue: Queue<Event>, rq: Request, g: RefTerms, deposits: Fixed, cacheValid: bool)
    reads hc, book, book.bids, book.bids.nodes, book.asks, book.asks.nodes, market, account, queue, queue.buf
  {
    && hc.Valid() && book.Valid() && queue.Valid() && m < |hc.perp| && m < |account.perps|
    && MarketOk(book.Snapshot(market, queue)) && market.seqNum + 1 < U64_MAX
    && rq.Wellformed() && rq.maxQuote == I64_MAX && rq.referral == DetermineRefVars(g, deposits, None, cacheValid)
  }

  /**
   * Places a triggered order, updates the cache and compares with what its dry run has predicted. The order has no
   * limit on quote and no referrer; unless it runs into the limit on fills, or fails itself, the comparison succeeds.
   */
  method CheckTriggered(hc: HealthCache, book: Book, market: PerpMarket, account: MangoAccount, m: nat,
                        queue: Queue<Event>, rq: Request, g: RefTerms, deposits: Fixed, ghost cacheValid: bool,
                        price: Fixed, predicted: Changes, simHealth: Fixed)
    returns (ok: bool)
    requires Triggerable(hc, book, market, account, m, queue, rq, g, deposits, cacheValid)
    requires SimOrder(book.Snapshot(market, queue), rq) == Ok(predicted)
    requires SimHealth(hc, m, account.perps[m], market.Totals(), price, rq, predicted, g, deposits) == Some(simHealth)
    modifies hc`perp, hc`health, book.bids, book.bids.nodes, book.asks, book.asks.nodes, account`perps, account`slots,
      market, queue`count, queue`seqNum, queue.buf
    ensures
      var mk, a := old(book.Snapshot(market, queue)), old(account.State());
      && (NewOrder(mk, a, m, rq).Ok? && !HitsLimit(mk, rq) ==> ok)
      && (ok ==> NewOrder(mk, a, m, rq).Ok?
                 && book.Placed(NewOrder(mk, a, m, rq), ok, rq, market, account, m, queue, null, []))
    ensures ok ==>
      && hc.Valid() && m < |account.perps|
      && hc.perp == old(hc.perp)[m := PerpVal(account.perps[m], market.Totals(), price)]
      && (old(hc.UpToDate()) && hc.perpActive[m] ==> hc.UpToDate())
  {
    ghost var mk, a, fees := book.Snapshot(market, queue), account.State(),
      SimFees(g, deposits, rq.takerFee, market.quoteLotSize, predicted.takerQuote);
    TiersAgree(g, deposits, cacheValid, rq.takerFee, market.quoteLotSize, predicted.takerQuote);
    if NewOrder(mk, a, m, rq).Ok? {
      UnlimitedPredicts(mk, a, m, rq);
      if !HitsLimit(mk, rq) { SimHealthIsPosted(hc, mk, a, m, rq, g, deposits, cacheValid, price, Init); }
    }
    hide NewOrder, SimOrder, HitsLimit, StopsShort, PerpVal, Weighted, SimFees, DetermineRefVars, MarketOk, RealChanges;
    hide Placeable, HealthCache.UpToDate, HealthCache.HealthOf, Book.Valid, Queue.Valid, BookSide.Resting;
    hide Queue.Contents;
    var before := account.State();
    ok := book.PlaceOrder(rq, market, account, m, queue, null);
    if !ok {
      return;
    }
    var health := UpdateHealth(hc, m, account.perps[m], market.Totals(), price, Init);
    ok := simHealth == health && predicted == RealChanges(before, account.State(), m);
  }

  /** The order is let through: it leaves health, or raises one that is below zero already. */
  predicate Healthy(before: Fixed, after: Fixed) { after >= 0 || (before < 0 && after >= before) }

  /**
   * Executes a triggered order: a reduce-only one for as much as reduces the position, and only if its dry run leaves
   * the account healthy. It changes nothing when there is nothing to reduce or health would not do; otherwise it
   * succeeds just as the order does, unless that runs into its limit on fills.
   */
  method ExecuteTriggered(hc: HealthCache, book: Book, market: PerpMarket, account: MangoAccount, m: nat,
                          queue: Queue<Event>, order: Request, reduceOnly: bool, g: RefTerms, deposits: Fixed,
                          ghost cacheValid: bool, price: Fixed)
    returns (ok: bool)
    requires Triggerable(hc, book, market, account, m, queue, order, g, deposits, cacheValid) && hc.UpToDate()
    modifies hc`perp, hc`health, book.bids, book.bids.nodes, book.asks, book.asks.nodes, account`perps, account`slots,
      market, queue`count, queue`seqNum, queue.buf
    ensures
      var mk, a := old(book.Snapshot(market, queue)), old(account.State());
      var base := CompleteBase(mk, a, m, order.taker);
      var q := if reduceOnly then ReducingQuantity(order.side, base, None, order.maxBase) else order.maxBase;
      var rq := order.(maxBase := q);
      if q == 0 then ok && book.Valid() && queue.Valid() && book.Snapshot(market, queue) == mk && account.State() == a
      else if SimOrder(mk, rq).Err? then !ok
      else
        var before, sim := old(hc.HealthOf(Init)), HealthBy(hc, old(hc.HealthOf(Init)), old(hc.perp), a.perps[m], m,
                                                            mk.totals, price, rq, SimOrder(mk, rq).value, g, deposits);
        if !(sim >= 0 || (before < 0 && sim >= before))
        then ok && book.Valid() && queue.Valid() && book.Snapshot(market, queue) == mk && account.State() == a
        else
          && (NewOrder(mk, a, m, rq).Ok? && !HitsLimit(mk, rq) ==> ok)
          && (ok ==> NewOrder(mk, a, m, rq).Ok?
                     && book.Placed(NewOrder(mk, a, m, rq), ok, rq, market, account, m, queue, null, []))
  {
    hide NewOrder, SimOrder, HitsLimit, PerpVal, Weighted, SimFees, DetermineRefVars, HealthCache.UpToDate;
    hide Sum, Book.Valid, Queue.Valid, BookSide.Resting, Queue.Contents, Book.Placed, MakerBase;
    ghost var mk := book.Snapshot(market, queue);
    var preHealth := hc.GetHealth(Init);
    var quantity := order.maxBase;
    if reduceOnly {
      var basePos := account.GetCompleteBasePos(m, queue, order.taker);
      quantity := ReducingQuantity(order.side, basePos, None, order.maxBase);
    }
    if quantity == 0 {
      return true;
    }
    var rq := order.(maxBase := quantity);
    var predicted := book.SimulateOrder(rq, market, mk);
    if predicted.Err? {
      return false;
    }
    var c, p := predicted.value, account.perps[m];
    var fees := SimFees(g, deposits, rq.takerFee, market.quoteLotSize, c.takerQuote);
    var simHealth := hc.HealthAfterSim(m, Added(p, c), market.Totals(), price, Init, fees).value;
    if !Healthy(preHealth, simHealth) {
      return true;
    }
    ok := CheckTriggered(hc, book, market, account, m, queue, rq, g, deposits, cacheValid, price, c, simHealth);
  }

  /** Takes the new value of a perp position into the cache and reads one health. */
  method UpdateHealth(hc: HealthCache, m: nat, p: PerpPosition, t: MarketTotals, price: Fixed, h: HealthType)
    returns (health: Fixed)
    requires hc.Valid() && m < |hc.perp| && hc.health[IndexOf(h)].Some?
    modifies hc`perp, hc`health
    ensures hc.Valid() && hc.perp == old(hc.perp)[m := PerpVal(p, t, price)]
    ensures Some(health) == Shifted(old(hc.health[IndexOf(h)]), Weighted(PerpVal(p, t, price), hc.perpWeights[m], h)
                                                                - Weighted(old(hc.perp[m]), hc.perpWeights[m], h))
    ensures old(hc.UpToDate()) && hc.perpActive[m] ==> hc.UpToDate() && health == hc.HealthOf(h)
  {
    hide PerpVal, Weighted;
    hc.UpdatePerpVal(m, p, t, price);
    assert TypeAt(IndexOf(h)) == h;
    health := hc.GetHealth(h);
  }

  lemma UnlimitedPredicts(mk: MarketState, a: Account, m: nat, rq: Request)
    requires Placeable(mk, a, m, rq) && rq.maxQuote == I64_MAX
    ensures MarketOk(mk) && rq.Wellformed() && m < |a.perps|
    ensures PriceOf(mk, rq).Ok? && PriceOf(mk, rq).value.2 > 0 && !StopsShort(mk, rq) && SimOrder(mk, rq).Ok?
    ensures NewOrder(mk, a, m, rq).Ok? && m < |NewOrder(mk, a, m, rq).value.1.perps|
    ensures !HitsLimit(mk, rq) ==> SimOrder(mk, rq) == Ok(RealChanges(a, NewOrder(mk, a, m, rq).value.1, m))
  {
    UnlimitedNeverShort(mk, rq);
    hide NewOrder, SimOrder, HitsLimit, StopsShort, MarketOk, RealChanges;
    SimPredicts(mk, a, m, rq);
    SimOrderPrices(mk, rq);
  }

  lemma SimOrderPrices(mk: MarketState, rq: Request)
    requires MarketOk(mk) && rq.Wellformed() && PriceOf(mk, rq).Ok? && PriceOf(mk, rq).value.2 > 0
    ensures SimOrder(mk, rq).Ok?
  {
    hide SimWalk, Resolve, BestPrice, WithinPriceLimit, ValidAt;
  }
}
