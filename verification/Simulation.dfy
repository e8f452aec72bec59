/** The dry run of an order: what it predicts, and when the order does just that. */
module Simulation {
  import opened OrderKeys
  import opened Types
  import opened OrderLists
  import opened FixedPoint
  import opened Matcher
  import opened OrderIds
  import opened PerpState
  import opened OrderPlacement
  import opened DryRuns
  import opened Ledger
  import opened Placing
  import opened Conservation
  import opened Crossings
  import opened Health
  import opened Referrals

  /** How many valid makers a dry run tries to trade with. */
  function SimMeets(o: Incoming, valid: seq<LeafNode>, base: int, quote: int): nat
    requires Tradable(valid)
  {
    if valid == [] || !o.Crosses(valid[0].Price()) || o.postOnly then 0
    else
      var (base', quote', last) := SimTake(valid[0], base, quote);
      1 + if last then 0 else SimMeets(o, valid[1..], base', quote')
  }

  lemma MeetIsSim(o: Incoming, m: LeafNode, b: Budget)
    requires m.Price() > 0 && m.quantity > 0 && Ready(b) && m.IsValid(o.now)
    ensures var x, (base, quote, last) := Meet(o, m, b), SimTake(m, b.base, b.quote);
      && (!o.Crosses(m.Price()) <==> x.stop == Some(PriceReached))
      && (x.stop.Some? && x.stop.value.Done? ==> !o.postOnly && last && (x.left.base, x.left.quote) == (base, quote))
      && (x.stop.None? ==>
        o.Crosses(m.Price()) && !o.postOnly && !last && (x.left.base, x.left.quote) == (base, quote))
      && (x.stop == Some(WouldTake) ==> o.Crosses(m.Price()) && o.postOnly && x.left == b)
      && (x.stop == Some(PriceReached) ==> x.left == b)
      && (x.stop == Some(QuoteTooSmall) ==>
        o.Crosses(m.Price()) && !o.postOnly && x.left == b && last && (base, quote) == (b.base, b.quote))
      && x.stop != Some(Exhausted)
  {
    hide LeafNode.Price, LeafNode.IsValid;
  }

  /** Unless it runs into the limit on fills, matching ends with what the dry run leaves. */
  lemma {:induction false} SimIsWalk(o: Incoming, makers: seq<LeafNode>, b: Budget)
    requires Tradable(makers) && Ready(b) && !Walk(o, makers, b).stop.LimitReached?
    ensures Tradable(ValidAt(makers, o.now))
    ensures var w := Walk(o, makers, b);
      SimWalk(o, ValidAt(makers, o.now), b.base, b.quote) == Simulated(w.left.base, w.left.quote, w.stop.WouldTake?)
  {
    hide LeafNode.Price, LeafNode.IsValid, Meet;
    ValidAtSubset(makers, o.now);
    if makers != [] {
      var m, x, rest := makers[0], Meet(o, makers[0], b), makers[1..];
      MeetFacts(o, m, b);
      MeetStops(o, m, b);
      ValidAtSubset(rest, o.now);
      if m.IsValid(o.now) {
        MeetIsSim(o, m, b);
        assert ValidAt(makers, o.now)[1..] == ValidAt(rest, o.now);
      } else {
        MeetExpired(o, m, b);
      }
      if x.stop.None? { SimIsWalk(o, rest, x.left); }
    }
  }

  /** What the order has really changed. */
  function RealChanges(a: Account, a': Account, m: nat): Changes
    requires m < |a.perps| && m < |a'.perps|
  {
    var p, p' := a.perps[m], a'.perps[m];
    Changes(p'.takerBase - p.takerBase, p'.takerQuote - p.takerQuote, p'.bidsQuantity - p.bidsQuantity,
      p'.asksQuantity - p.asksQuantity)
  }

  /** An order touches the quantities on order, the taker sums and, for `fees`, the quote. */
  ghost predicate PaysFees(a: Account, a': Account, m: nat, fees: Fixed)
    requires m < |a.perps| && m < |a'.perps|
  {
    a'.perps[m] == Added(a.perps[m], RealChanges(a, a', m)).(quote := a.perps[m].quote - fees)
  }

  function Added(p: PerpPosition, c: Changes): PerpPosition {
    p.(takerBase := p.takerBase + c.takerBase, takerQuote := p.takerQuote + c.takerQuote,
       bidsQuantity := p.bidsQuantity + c.bids, asksQuantity := p.asksQuantity + c.asks)
  }

  /** Taker and referral fees of an order that has taken `taken` quote lots. */
  function FeesOf(rq: Request, t: MarketTotals, taken: int): Fixed {
    var native := t.quoteLotSize * taken;
    if taken > 0 && rq.referral.Ok? then
      native * rq.takerFee + (if rq.referral.value.rate > 0 then native * rq.referral.value.rate else 0)
    else 0
  }

  /** The dry run, which has no limit on fills, meets more makers than the order may fill. */
  ghost predicate HitsLimit(mk: MarketState, rq: Request)
    requires MarketOk(mk) && rq.Wellformed() && PriceOf(mk, rq).Ok?
  {
    ResolvedPriceInRange(mk, rq);
    var (postOnly, _, price) := PriceOf(mk, rq).value;
    var makers := mk.Resting(InvertSide(rq.side));
    ValidAtSubset(makers, rq.now);
    SimMeets(IncomingOf(mk, rq, postOnly, price), ValidAt(makers, rq.now), rq.maxBase, rq.maxQuote) > rq.limit
  }

  /** Just then matching ends at its limit. */
  lemma LimitMeans(mk: MarketState, rq: Request)
    requires MarketOk(mk) && rq.Wellformed() && PriceOf(mk, rq).Ok?
    ensures 0 <= PriceOf(mk, rq).value.2 <= I64_MAX
    ensures HitsLimit(mk, rq) <==> MatchOf(mk, rq, PriceOf(mk, rq).value.0, PriceOf(mk, rq).value.2).stop.LimitReached?
  {
    ResolvedPriceInRange(mk, rq);
    var (postOnly, _, price) := PriceOf(mk, rq).value;
    hide Resolve, Walk, SimMeets, BestPrice, ValidAt, OrderId;
    MeetsAreWalked(IncomingOf(mk, rq, postOnly, price), mk.Resting(InvertSide(rq.side)), rq.Spendable(mk));
  }

  lemma {:induction false} MeetsAreWalked(o: Incoming, makers: seq<LeafNode>, b: Budget)
    requires Tradable(makers) && Ready(b)
    ensures Tradable(ValidAt(makers, o.now))
    ensures Walk(o, makers, b).stop.LimitReached? <==>
            SimMeets(o, ValidAt(makers, o.now), b.base, b.quote) > b.limit
  {
    hide LeafNode.Price, LeafNode.IsValid, Meet;
    ValidAtSubset(makers, o.now);
    if makers != [] {
      var m, x, rest := makers[0], Meet(o, makers[0], b), makers[1..];
      MeetFacts(o, m, b);
      MeetStops(o, m, b);
      ValidAtSubset(rest, o.now);
      if m.IsValid(o.now) {
        MeetIsSim(o, m, b);
        MeetLimit(o, m, b);
        assert ValidAt(makers, o.now)[1..] == ValidAt(rest, o.now);
      } else {
        MeetExpired(o, m, b);
      }
      if x.stop.None? { MeetsAreWalked(o, rest, x.left); }
    }
  }

  lemma MeetLimit(o: Incoming, m: LeafNode, b: Budget)
    requires m.Price() > 0 && m.IsValid(o.now)
    ensures var x := Meet(o, m, b);
      && (x.stop == Some(LimitReached) <==> o.Crosses(m.Price()) && !o.postOnly && b.limit == 0)
      && (x.stop.None? ==> x.left.limit == b.limit - 1)
  {
    hide LeafNode.Price, LeafNode.IsValid;
  }

  /** An ask with less quote than one lot of the best valid bid costs, but enough to rest at its own price. */
  ghost predicate StopsShort(mk: MarketState, rq: Request)
    requires mk.totals.baseLotSize > 0 && rq.Wellformed()
  {
    && rq.side == Ask && rq.limit > 0 && PriceOf(mk, rq).Ok?
    && var (postOnly, postable, price) := PriceOf(mk, rq).value;
    && postable && !postOnly && WithinPriceLimit(rq, mk.totals, price)
    && BestPrice(mk.bids, rq.now).Some? && price <= rq.maxQuote < BestPrice(mk.bids, rq.now).value
  }

  lemma PostChanges(mk: MarketState, a: Account, m: nat, rq: Request, price: int, quantity: int, key: Key)
    requires m < |a.perps| && MarketOk(mk) && Post(mk, a, m, rq, price, quantity, key).Ok?
    ensures RealChanges(a, Post(mk, a, m, rq, price, quantity, key).value.1, m) == Posting(rq.side, 0, 0, quantity)
    ensures PaysFees(a, Post(mk, a, m, rq, price, quantity, key).value.1, m, 0)
  {
    hide Post, InsertOrder, RoomMade, BookClaims, QueueClaims;
    var own, es, leaf := PostParts(mk, a, m, rq, price, quantity, key);
  }

  lemma TakerChanges(a: Account, m: nat, side: Side, b0: Budget, b: Budget)
    requires m < |a.perps|
    ensures var (base, quote) := Signed(side, b0.base - b.base, b0.quote - b.quote);
      && RealChanges(a, TakerState(a, m, side, b0, b), m) == Changes(base, quote, 0, 0)
      && PaysFees(a, TakerState(a, m, side, b0, b), m, 0)
  {
  }

  lemma FeeChanges(a: Account, m: nat, t: MarketTotals, rq: Request, taken: int, ref: Referral)
    requires m < |a.perps|
    requires taken > 0 && rq.referral == Ok(ref)
    ensures RealChanges(a, ApplyFees(a, m, t, rq, taken, ref).0, m) == Changes(0, 0, 0, 0)
    ensures PaysFees(a, ApplyFees(a, m, t, rq, taken, ref).0, m, FeesOf(rq, t, taken))
  {
  }

  /**
   * An order that succeeds within its limit on fills does what the dry run said, exactly unless it stops short. A bid
   * never does.
   */
  lemma SimPredicts(mk: MarketState, a: Account, m: nat, rq: Request)
    requires Placeable(mk, a, m, rq)
    ensures PriceOf(mk, rq).Ok? && PriceOf(mk, rq).value.2 > 0 && m < |NewOrder(mk, a, m, rq).value.1.perps|
    ensures !HitsLimit(mk, rq) ==>
      (SimOrder(mk, rq) == Ok(RealChanges(a, NewOrder(mk, a, m, rq).value.1, m)) <==> !StopsShort(mk, rq))
    ensures rq.side == Bid ==> !StopsShort(mk, rq)
  {
    ResolvedPriceInRange(mk, rq);
    var (postOnly, postable, price) := PriceOf(mk, rq).value;
    var w := MatchOf(mk, rq, postOnly, price);
    ShortOnQuote(mk, rq);
    hide Resolve, Walk, MarketOk, WithinPriceLimit, BestPrice, NewOrder, SimOrder, IncomingOf, FeesOf, PaysFees;
    hide RealChanges, StopsShort, HitsLimit;
    LimitMeans(mk, rq);
    RealOutcome(mk, a, m, rq);
    if !HitsLimit(mk, rq) { SimOutcome(mk, rq); }
    QuotientPositive(w.left.quote, price);
    Postings(rq.side);
  }

  /** What stopping short means for the walk. */
  lemma ShortOnQuote(mk: MarketState, rq: Request)
    requires MarketOk(mk) && rq.Wellformed() && PriceOf(mk, rq).Ok? && PriceOf(mk, rq).value.2 > 0
    ensures PriceOf(mk, rq).value.2 <= I64_MAX
    ensures
      var (postOnly, postable, price) := PriceOf(mk, rq).value;
      var w := MatchOf(mk, rq, postOnly, price);
      && (w.stop.QuoteTooSmall? ==> w.left.base > 0)
      && (StopsShort(mk, rq) <==>
          w.stop.QuoteTooSmall? && postable && WithinPriceLimit(rq, mk.totals, price) && w.left.quote >= price)
  {
    ResolvedPriceInRange(mk, rq);
    var (postOnly, postable, price) := PriceOf(mk, rq).value;
    hide Resolve, Walk, WithinPriceLimit, BestPrice, LeafNode.Price, LeafNode.IsValid, OrderId, Crossing;
    var o, makers, b := IncomingOf(mk, rq, postOnly, price), mk.Resting(InvertSide(rq.side)), rq.Spendable(mk);
    TooSmall(o, makers, b);
    if rq.side == Ask {
      TooSmallAtOnce(o, makers, b);
      FirstValidCrosses(o, makers);
    }
  }

  lemma Postings(side: Side)
    ensures forall a, b, q, q' :: (Posting(side, a, b, q) == Posting(side, a, b, q') <==> q == q')
  {
  }

  /** The outcome of matching with `rest` put on the book if `posts`. */
  function Outcome(mk: MarketState, rq: Request, w: Walked, price: int, posts: bool): Changes
    requires price > 0
  {
    var (base, quote) := Signed(rq.side, rq.maxBase - w.left.base, rq.maxQuote - w.left.quote);
    var rest := Min(w.left.base, w.left.quote / price);
    Posting(rq.side, base, quote, if posts && rest > 0 then rest else 0)
  }

  lemma SimOutcome(mk: MarketState, rq: Request)
    requires MarketOk(mk) && rq.Wellformed() && PriceOf(mk, rq).Ok? && PriceOf(mk, rq).value.2 > 0 && !HitsLimit(mk, rq)
    ensures 0 <= PriceOf(mk, rq).value.2 <= I64_MAX
    ensures var (postOnly, postable, price) := PriceOf(mk, rq).value;
      var w := MatchOf(mk, rq, postOnly, price);
      var posts := postable && WithinPriceLimit(rq, mk.totals, price) && !w.stop.WouldTake?;
      SimOrder(mk, rq) == Ok(Outcome(mk, rq, w, price, posts))
  {
    ResolvedPriceInRange(mk, rq);
    var (postOnly, postable, price) := PriceOf(mk, rq).value;
    var o, makers := IncomingOf(mk, rq, postOnly, price), mk.Resting(InvertSide(rq.side));
    assert 0 <= price <= I64_MAX;
    hide Resolve, Walk, SimWalk, WithinPriceLimit, BestPrice, ValidAt, OrderId, HitsLimit, Sorted, LeafNode.Price;
    hide IncomingOf;
    LimitMeans(mk, rq);
    SimIsWalk(o, makers, rq.Spendable(mk));
    hide MarketOk, Tradable;
  }

  lemma MatchedTotals(mk: MarketState, rq: Request, postOnly: bool, price: int)
    requires MarketOk(mk) && 0 <= price <= I64_MAX
    ensures MatchedMarket(mk, rq, MatchOf(mk, rq, postOnly, price)).totals == mk.totals.(seqNum := mk.totals.seqNum + 1)
    ensures forall taken ::
      (FeesOf(rq, MatchedMarket(mk, rq, MatchOf(mk, rq, postOnly, price)).totals, taken) ==
        FeesOf(rq, mk.totals, taken))
  {
  }

  lemma RealOutcome(mk: MarketState, a: Account, m: nat, rq: Request)
    requires Placeable(mk, a, m, rq)
    ensures PriceOf(mk, rq).Ok? && 0 < PriceOf(mk, rq).value.2 <= I64_MAX && m < |NewOrder(mk, a, m, rq).value.1.perps|
    ensures var (postOnly, postable, price) := PriceOf(mk, rq).value;
      var w := MatchOf(mk, rq, postOnly, price);
      && RealChanges(a, NewOrder(mk, a, m, rq).value.1, m) ==
      Outcome(mk, rq, w, price, postable && WithinPriceLimit(rq, mk.totals, price) && w.PostAllowed())
      && PaysFees(a, NewOrder(mk, a, m, rq).value.1, m, FeesOf(rq, mk.totals, rq.maxQuote - w.left.quote))
  {
    hide NewOrder, Resolve, MatchOf, WithinPriceLimit, BestPrice, TakerState, AfterMatch, Fills, FeesOf, MatchedMarket;
    NewOrderParts(mk, a, m, rq);
    var (postOnly, postable, price) := PriceOf(mk, rq).value;
    MatchedOk(mk, rq, postOnly, price);
    hide MarketOk;
    MatchedTotals(mk, rq, postOnly, price);
    var w := MatchOf(mk, rq, postOnly, price);
    var mk1, a1 := MatchedMarket(mk, rq, w), TakerState(a, m, rq.side, rq.Spendable(mk), w.left);
    TakerChanges(a, m, rq.side, rq.Spendable(mk), w.left);
    var allowed := postable && WithinPriceLimit(rq, mk.totals, price) && w.PostAllowed();
    AfterMatchChanges(mk1, a1, m, rq, allowed, price, w.left);
  }

  lemma AfterMatchChanges(mk: MarketState, a: Account, m: nat, rq: Request, allowed: bool, price: int, left: Budget)
    requires MarketOk(mk) && 0 < price <= I64_MAX && m < |a.perps|
    requires AfterMatch(mk, a, m, rq, allowed, price, left).Ok?
    ensures var a' := AfterMatch(mk, a, m, rq, allowed, price, left).value.1;
      var rest := Min(left.base, left.quote / price);
      && m < |a'.perps| && RealChanges(a, a', m) == Posting(rq.side, 0, 0, if allowed && rest > 0 then rest else 0)
      && PaysFees(a, a', m, FeesOf(rq, mk.totals, rq.maxQuote - left.quote))
  {
    assert mk.totals.seqNum <= U64_MAX;
    hide Post, ApplyFees, MarketOk, OrderId;
    var rest := Min(left.base, left.quote / price);
    var posts := allowed && rest > 0;
    var key := OrderId(rq.side, price, mk.totals.seqNum);
    if posts { PostChanges(mk, a, m, rq, price, rest, key); }
    var (mk2, a2) := if posts then Post(mk, a, m, rq, price, rest, key).value else (mk, a);
    var taken := rq.maxQuote - left.quote;
    if taken > 0 && rq.referral.Ok? {
      FeeChanges(a2, m, mk2.totals, rq, taken, rq.referral.value);
      FeesMoveQuote(a2, m, mk2.totals, rq, taken, rq.referral.value);
    }
  }

  /** When quote is too small for the next maker, a bid has too little for its own price as well. */
  lemma TooSmall(o: Incoming, makers: seq<LeafNode>, b: Budget)
    requires Tradable(makers) && Ready(b)
    ensures var w := Walk(o, makers, b);
      w.stop.QuoteTooSmall? ==> w.left.base > 0 && (o.side == Bid ==> w.left.quote < o.price)
  {
    StopsOnlyWhenSpent(o, makers, b);
    CrossingCrosses(o, makers);
    if Walk(o, makers, b).stop.QuoteTooSmall? { TooSmallHasBase(o, makers, b); }
  }

  /** Bids get cheaper down the book, so an ask that can pay for a lot can pay for one of the next bid too. */
  lemma {:induction false} TooSmallAtOnce(o: Incoming, makers: seq<LeafNode>, b: Budget)
    requires Tradable(makers) && Ready(b) && o.side == Ask && Sorted(Bid, makers)
    ensures
      var w, c := Walk(o, makers, b), Crossing(o, makers);
      && (w.stop.QuoteTooSmall? <==> c != [] && !o.postOnly && b.limit > 0 && b.quote < c[0].Price())
      && (w.stop.QuoteTooSmall? ==> w.left.base == b.base && w.left.quote == b.quote)
  {
    hide LeafNode.Price, LeafNode.IsValid, Meet;
    if makers != [] {
      var m, x, rest := makers[0], Meet(o, makers[0], b), makers[1..];
      SortedTail(Bid, makers);
      MeetTooSmall(o, m, b);
      if x.stop.None? {
        TooSmallAtOnce(o, rest, x.left);
        CrossingFrom(o, rest);
        KeysOfIn(rest);
        if m.IsValid(o.now) && Crossing(o, rest) != [] {
          var next := Crossing(o, rest)[0];
          assert next in Crossing(o, rest) && next in rest;
          PriceInOrder(Bid, m, next);
        }
      }
    }
  }

  lemma MeetTooSmall(o: Incoming, m: LeafNode, b: Budget)
    requires m.Price() > 0 && m.quantity > 0 && Ready(b)
    ensures var x := Meet(o, m, b);
      && (x.stop.Some? ==> m.IsValid(o.now))
      && (x.stop == Some(QuoteTooSmall) <==>
          m.IsValid(o.now) && o.Crosses(m.Price()) && !o.postOnly && b.limit > 0 && b.quote < m.Price())
      && (x.stop.Some? && x.stop.value.QuoteTooSmall? ==> x.left == b)
      && (x.stop.Some? && !o.Crosses(m.Price()) ==> x.stop.value.PriceReached?)
      && (x.stop.None? && !m.IsValid(o.now) ==> (x.left.base, x.left.quote, x.left.limit) == (b.base, b.quote, b.limit))
      && (x.stop.None? && m.IsValid(o.now) ==>
          o.Crosses(m.Price()) && !o.postOnly && b.limit > 0 && b.quote >= m.Price() && x.left.quote >= m.Price())
      && (x.stop.None? ==> Ready(x.left))
  {
    hide LeafNode.Price, LeafNode.IsValid;
    MeetFacts(o, m, b);
    QuoteLeft(MatchQuantity(m, b), m.Price(), b.quote);
  }

  lemma QuoteLeft(q: int, p: int, budget: nat)
    requires p > 0
    ensures budget / p == 0 <==> budget < p
    ensures q < budget / p ==> budget - q * p >= p
  {
    var n := budget / p;
    assert n * p <= budget;
    if q < n { assert (q + 1) * p <= n * p; }
  }

  /** With quote for one lot of the best valid bid an ask does what its dry run said. */
  lemma EnoughQuotePredicts(mk: MarketState, a: Account, m: nat, rq: Request)
    requires Placeable(mk, a, m, rq) && PriceOf(mk, rq).Ok? && PriceOf(mk, rq).value.2 > 0 && !HitsLimit(mk, rq)
    requires rq.side == Bid || BestPrice(mk.bids, rq.now).None? || BestPrice(mk.bids, rq.now).value <= rq.maxQuote
    ensures m < |NewOrder(mk, a, m, rq).value.1.perps|
    ensures SimOrder(mk, rq) == Ok(RealChanges(a, NewOrder(mk, a, m, rq).value.1, m))
  {
    hide NewOrder, SimOrder, HitsLimit, MarketOk, RealChanges;
    SimPredicts(mk, a, m, rq);
  }

  /** A triggered order has no limit on quote, so it never stops short. */
  lemma UnlimitedNeverShort(mk: MarketState, rq: Request)
    requires mk.totals.baseLotSize > 0 && rq.Wellformed() && rq.maxQuote == I64_MAX
    ensures !StopsShort(mk, rq)
  {
    if ValidAt(mk.bids, rq.now) != [] { PriceInRange(ValidAt(mk.bids, rq.now)[0].key); }
  }

  /** With no more valid crossing makers than fills allowed an order does not run into its limit. */
  lemma LimitSuffices(mk: MarketState, rq: Request)
    requires MarketOk(mk) && rq.Wellformed() && PriceOf(mk, rq).Ok?
    requires |ValidAt(mk.Resting(InvertSide(rq.side)), rq.now)| <= rq.limit
    ensures !HitsLimit(mk, rq)
  {
    ResolvedPriceInRange(mk, rq);
    var (postOnly, _, price) := PriceOf(mk, rq).value;
    var makers := mk.Resting(InvertSide(rq.side));
    hide Resolve, OrderId, ValidAt;
    ValidAtSubset(makers, rq.now);
    MeetsAreValid(IncomingOf(mk, rq, postOnly, price), ValidAt(makers, rq.now), rq.maxBase, rq.maxQuote);
  }

  lemma {:induction false} MeetsAreValid(o: Incoming, valid: seq<LeafNode>, base: int, quote: int)
    requires Tradable(valid)
    ensures SimMeets(o, valid, base, quote) <= |valid|
  {
    hide LeafNode.Price;
    if valid != [] {
      assert valid[0] in valid;
      var (base', quote', _) := SimTake(valid[0], base, quote);
      MeetsAreValid(o, valid[1..], base', quote');
    }
  }

  lemma {:induction false} TooSmallHasBase(o: Incoming, makers: seq<LeafNode>, b: Budget)
    requires Tradable(makers) && Ready(b) && Walk(o, makers, b).stop.QuoteTooSmall?
    ensures Walk(o, makers, b).left.base > 0
  {
    hide LeafNode.Price, LeafNode.IsValid;
    if makers != [] {
      MeetFacts(o, makers[0], b);
      if Meet(o, makers[0], b).stop.None? { TooSmallHasBase(o, makers[1..], Meet(o, makers[0], b).left); }
    }
  }

  // ----- Health

  /** Quote taken shows in the taker quote of the account, whichever the side. */
  lemma TakenIs(rq: Request, w: Walked, mk: MarketState, price: int, posts: bool)
    requires price > 0 && rq.maxQuote >= w.left.quote
    ensures Abs(Outcome(mk, rq, w, price, posts).takerQuote) == rq.maxQuote - w.left.quote
  {
  }

  /** Fees only lower the quote value, and by their full amount. */
  lemma FeesLowerVal(p: PerpPosition, t: MarketTotals, price: Fixed, fees: Fixed)
    ensures var v := PerpVal(p, t, price); PerpVal(p.(quote := p.quote - fees), t, price) == v.(quote := v.quote - fees)
  {
  }

  lemma ValAfter(p: PerpPosition, t: MarketTotals, t': MarketTotals, price: Fixed)
    requires SameFunding(t, t') && t'.baseLotSize == t.baseLotSize
    ensures PerpVal(p, t', price) == PerpVal(p, t, price)
  {
  }

  /**
   * The health that the dry run predicts for an order without a referrer is, to the bit, the health after the order:
   * the check that a triggered order makes afterwards cannot fail.
   */
  lemma SimHealthIsReal(mk: MarketState, a: Account, m: nat, rq: Request, g: RefTerms, deposits: Fixed,
                        cacheValid: bool,
                        price: Fixed, w: Weights, h: HealthType)
    requires Placeable(mk, a, m, rq) && rq.referral == DetermineRefVars(g, deposits, None, cacheValid)
    requires PriceOf(mk, rq).Ok? && PriceOf(mk, rq).value.2 > 0 && !HitsLimit(mk, rq) && !StopsShort(mk, rq)
    ensures SimOrder(mk, rq).Ok?
    ensures
      var (mk', a', _) := NewOrder(mk, a, m, rq).value;
      var c := SimOrder(mk, rq).value;
      && m < |a'.perps|
      && Weighted(PerpVal(a'.perps[m], mk'.totals, price), w, h) ==
         Weighted(PerpVal(Added(a.perps[m], c), mk.totals, price), w, h)
         - SimFees(g, deposits, rq.takerFee, mk.totals.quoteLotSize, c.takerQuote)
  {
    hide NewOrder, SimOrder, Resolve, Around, PerpVal, WithinPriceLimit, BestPrice, MarketOk, DetermineRefVars, SimFees;
    hide HitsLimit, StopsShort;
    SimPaysFees(mk, a, m, rq);
    NewOrderAround(mk, a, m, rq);
    NewOrderLots(mk, a, m, rq);
    var (mk', a', _) := NewOrder(mk, a, m, rq).value;
    var c := SimOrder(mk, rq).value;
    var fees := FeesOf(rq, mk.totals, Abs(c.takerQuote));
    FeesLowerVal(Added(a.perps[m], c), mk.totals, price, fees);
    ValAfter(a'.perps[m], mk.totals, mk'.totals, price);
    TiersAgree(g, deposits, cacheValid, rq.takerFee, mk.totals.quoteLotSize, c.takerQuote);
  }

  /** What the order has changed is what was predicted, less the fees for the predicted quote. */
  lemma SimPaysFees(mk: MarketState, a: Account, m: nat, rq: Request)
    requires Placeable(mk, a, m, rq)
    requires PriceOf(mk, rq).Ok? && PriceOf(mk, rq).value.2 > 0 && !HitsLimit(mk, rq) && !StopsShort(mk, rq)
    ensures var a' := NewOrder(mk, a, m, rq).value.1;
      && m < |a'.perps| && SimOrder(mk, rq) == Ok(RealChanges(a, a', m))
      && PaysFees(a, a', m, FeesOf(rq, mk.totals, Abs(RealChanges(a, a', m).takerQuote)))
  {
    hide NewOrder, SimOrder, Resolve, WithinPriceLimit, BestPrice, StopsShort, Walk, PaysFees, FeesOf;
    SimPredicts(mk, a, m, rq);
    RealOutcome(mk, a, m, rq);
    ResolvedPriceInRange(mk, rq);
    var (postOnly, postable, p) := PriceOf(mk, rq).value;
    var wk := MatchOf(mk, rq, postOnly, p);
    WalkSpends(IncomingOf(mk, rq, postOnly, p), mk.Resting(InvertSide(rq.side)), rq.Spendable(mk));
    TakenIs(rq, wk, mk, p, postable && WithinPriceLimit(rq, mk.totals, p) && wk.PostAllowed());
  }

  lemma NewOrderLots(mk: MarketState, a: Account, m: nat, rq: Request)
    requires Placeable(mk, a, m, rq)
    ensures NewOrder(mk, a, m, rq).value.0.totals.baseLotSize == mk.totals.baseLotSize
  {
    ResolvedPriceInRange(mk, rq);
    hide Resolve, Walk, WithinPriceLimit, BestPrice, Post, TakerState, Fills;
  }
}
