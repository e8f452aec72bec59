/** When an order that is placed leaves the book crossed, in terms of the walk that matches it. */
module Crossings {
  import opened OrderKeys
  import opened Types
  import opened OrderLists
  import opened FixedPoint
  import opened Matcher
  import opened OrderIds
  import opened PerpState
  import opened OrderPlacement
  import opened Ledger
  import opened Placing
  import opened Conservation

  ghost predicate Uncrossed(mk: MarketState, now: nat) {
    forall b, a :: b in mk.bids && a in mk.asks && b.IsValid(now) && a.IsValid(now) ==> b.Price() < a.Price()
  }

  /** Time only invalidates orders. */
  lemma LaterStaysUncrossed(mk: MarketState, now: nat, later: nat)
    requires Uncrossed(mk, now) && now <= later
    ensures Uncrossed(mk, later)
  {
    hide LeafNode.Price;
  }

  /** Orders may go or shrink. */
  ghost predicate Shrunk(s: seq<LeafNode>, s': seq<LeafNode>) {
    forall o :: o in s' ==> OnceThere(s, o)
  }

  lemma ShrinkingStaysUncrossed(mk: MarketState, mk': MarketState, now: nat)
    requires Uncrossed(mk, now) && Shrunk(mk.bids, mk'.bids) && Shrunk(mk.asks, mk'.asks)
    ensures Uncrossed(mk', now)
  {
    hide LeafNode.Price;
    forall b, a | b in mk'.bids && a in mk'.asks && b.IsValid(now) && a.IsValid(now)
      ensures b.Price() < a.Price()
    {
      assert OnceThere(mk.bids, b) && OnceThere(mk.asks, a);
      var b0 :| b0 in mk.bids && b == b0.(quantity := b.quantity);
      var a0 :| a0 in mk.asks && a == a0.(quantity := a.quantity);
      SamePrice(b0, b.quantity);
      SamePrice(a0, a.quantity);
    }
  }

  lemma SamePrice(o: LeafNode, q: int)
    ensures o.(quantity := q).Price() == o.Price()
  {
  }

  // ----- What matching leaves of the crossing orders

  function Lots(s: seq<LeafNode>): int {
    if s == [] then 0 else s[0].quantity + Lots(s[1..])
  }

  /** The taker has had fewer lots than there were at its price. */
  predicate LeavesCrossing(o: Incoming, makers: seq<LeafNode>, b: Budget)
    requires Tradable(makers)
  {
    b.base - Walk(o, makers, b).left.base < Lots(Crossing(o, makers))
  }

  lemma {:induction false} CrossingMeans(o: Incoming, s: seq<LeafNode>)
    requires Sorted(InvertSide(o.side), s)
    ensures Crossing(o, s) != [] <==> exists m :: m in s && m.IsValid(o.now) && o.Crosses(m.Price())
  {
    hide LeafNode.Price, LeafNode.IsValid;
    if s != [] {
      SortedTail(InvertSide(o.side), s);
      CrossingMeans(o, s[1..]);
      assert s == [s[0]] + s[1..];
      forall m | m in s[1..] && o.Crosses(m.Price())
        ensures o.Crosses(s[0].Price())
      {
        KeysOfIn(s[1..]);
        AheadCrosses(o, s[0], m);
      }
    }
  }

  lemma AheadCrosses(o: Incoming, a: LeafNode, b: LeafNode)
    requires Ahead(InvertSide(o.side), a.key, b.key) && o.Crosses(b.Price())
    ensures o.Crosses(a.Price())
  {
    PriceFollowsKey(InvertSide(o.side), a.key, b.key);
  }

  lemma {:induction false} CrossingTradable(o: Incoming, s: seq<LeafNode>)
    requires Tradable(s)
    ensures Lots(Crossing(o, s)) >= 0 && (Crossing(o, s) != [] <==> Lots(Crossing(o, s)) > 0)
  {
    hide LeafNode.Price, LeafNode.IsValid;
    if s != [] {
      assert s[0] in s;
      CrossingTradable(o, s[1..]);
    }
  }

  lemma LotsCons(o: Incoming, kept: seq<LeafNode>, rest: seq<LeafNode>)
    requires |kept| <= 1
    ensures Lots(Crossing(o, kept + rest)) ==
      if kept == [] || !kept[0].IsValid(o.now) then Lots(Crossing(o, rest))
      else if o.Crosses(kept[0].Price()) then kept[0].quantity + Lots(Crossing(o, rest))
      else 0
  {
    hide LeafNode.Price, LeafNode.IsValid;
    if kept == [] {
      assert kept + rest == rest;
    } else {
      assert (kept + rest)[0] == kept[0] && (kept + rest)[1..] == rest;
      assert ([kept[0]] + Crossing(o, rest))[1..] == Crossing(o, rest);
    }
  }

  /** When matching ends with a fill, the lots that still cross are those that have not been filled. */
  lemma {:induction false} CrossingLeft(o: Incoming, makers: seq<LeafNode>, b: Budget)
    requires Tradable(makers) && Ready(b) && Walk(o, makers, b).stop.Done?
    ensures var w := Walk(o, makers, b);
      Lots(Crossing(o, w.makers)) == Lots(Crossing(o, makers)) - (b.base - w.left.base)
  {
    hide LeafNode.Price, LeafNode.IsValid, Meet, Lots, Crossing, Trades;
    if makers != [] {
      var m, x, rest := makers[0], Meet(o, makers[0], b), makers[1..];
      MeetFacts(o, m, b);
      MeetStops(o, m, b);
      MeetLeaves(o, m, b);
      if x.stop.None? { CrossingLeft(o, rest, x.left); }
      var w := if x.stop.Some? then Walked(x.left, x.stop.value, rest, []) else Walk(o, rest, x.left);
      LotsCons(o, x.kept, w.makers);
      LotsCons(o, [m], rest);
      assert [m] + rest == makers;
    }
  }

  /** What a meeting leaves of the maker. */
  lemma MeetLeaves(o: Incoming, m: LeafNode, b: Budget)
    requires m.Price() > 0 && m.quantity > 0 && Ready(b)
    ensures var x := Meet(o, m, b);
      var taken := b.base - x.left.base;
      && |x.kept| <= 1
      && (x.stop.None? && !m.IsValid(o.now) ==> taken == 0 && (x.kept == [] || x.kept[0] == m))
      && (x.stop.None? && m.IsValid(o.now) ==> o.Crosses(m.Price()) && x.kept == [] && taken == m.quantity)
      && (x.stop == Some(Done) ==>
        && m.IsValid(o.now) && o.Crosses(m.Price())
        && (x.kept == [] ==> taken == m.quantity)
        && (x.kept != [] ==>
          && x.kept[0] == m.(quantity := m.quantity - taken)
          && x.kept[0].IsValid(o.now) && x.kept[0].Price() == m.Price()))
  {
    MeetFacts(o, m, b);
    var x := Meet(o, m, b);
    if x.sent != [] { assert x.sent[1..] == []; }
  }

  // ----- Placing

  ghost predicate Placeable(mk: MarketState, a: Account, m: nat, rq: Request) {
    && MarketOk(mk) && rq.Wellformed() && m < |a.perps| && mk.totals.seqNum + 1 < U64_MAX
    && NewOrder(mk, a, m, rq).Ok?
  }

  /** The order posts a remainder although matching ended for want of quote with orders left that it crosses. */
  ghost predicate PostsAcross(mk: MarketState, rq: Request)
    requires MarketOk(mk) && rq.Wellformed() && PriceOf(mk, rq).Ok? && PriceOf(mk, rq).value.2 > 0
  {
    ResolvedPriceInRange(mk, rq);
    var (postOnly, postable, price) := PriceOf(mk, rq).value;
    var o, makers := IncomingOf(mk, rq, postOnly, price), mk.Resting(InvertSide(rq.side));
    var w := MatchOf(mk, rq, postOnly, price);
    && postable && WithinPriceLimit(rq, mk.totals, price)
    && w.stop.Done? && w.left.base > 0 && w.left.quote >= price
    && LeavesCrossing(o, makers, rq.Spendable(mk))
  }

  lemma {:induction false} InsertHas(side: Side, s: seq<LeafNode>, leaf: LeafNode)
    ensures leaf in InsertOrder(side, s, leaf)
  {
    if s != [] && s[0].key != leaf.key && !Ahead(side, leaf.key, s[0].key) { InsertHas(side, s[1..], leaf); }
  }

  /** What posting does to the book. */
  lemma PostedBook(mk: MarketState, a: Account, m: nat, rq: Request, price: int, quantity: int)
    returns (leaf: LeafNode)
    requires MarketOk(mk) && m < |a.perps| && 0 < price <= I64_MAX
    requires Post(mk, a, m, rq, price, quantity, OrderId(rq.side, price, mk.totals.seqNum)).Ok?
    ensures var mk' := Post(mk, a, m, rq, price, quantity, OrderId(rq.side, price, mk.totals.seqNum)).value.0;
      && mk'.Resting(InvertSide(rq.side)) == mk.Resting(InvertSide(rq.side))
      && leaf in mk'.Resting(rq.side) && leaf.Price() == price && leaf.IsValid(rq.now)
      && (forall o :: o in mk'.Resting(rq.side) ==> o == leaf || o in mk.Resting(rq.side))
  {
    hide Post, Sorted, Tradable, InsertOrder, OrderId, Shr;
    var key := OrderId(rq.side, price, mk.totals.seqNum);
    var own, es;
    own, es, leaf := PostParts(mk, a, m, rq, price, quantity, key);
    KeyToPrice(rq.side, price, mk.totals.seqNum);
    InsertHas(rq.side, own, leaf);
    InsertKeepsOthers(rq.side, own, leaf);
  }

  /** Posting at a price leaves the book uncrossed exactly when no valid order of the other side is at that price. */
  lemma PostUncrossed(mk: MarketState, mk': MarketState, rq: Request, leaf: LeafNode, price: int)
    requires Uncrossed(mk, rq.now) && mk'.Resting(InvertSide(rq.side)) == mk.Resting(InvertSide(rq.side))
    requires leaf in mk'.Resting(rq.side) && leaf.Price() == price && leaf.IsValid(rq.now)
    requires forall o :: o in mk'.Resting(rq.side) ==> o == leaf || o in mk.Resting(rq.side)
    ensures Uncrossed(mk', rq.now) <==> forall o :: o in mk.Resting(InvertSide(rq.side)) && o.IsValid(rq.now) ==>
      (if rq.side == Bid then price < o.Price() else o.Price() < price)
  {
    hide LeafNode.Price, LeafNode.IsValid;
  }

  /** Matching alone only takes orders away. */
  lemma MatchUncrossed(mk: MarketState, rq: Request, postOnly: bool, price: int)
    requires MarketOk(mk) && rq.Wellformed() && 0 <= price <= I64_MAX && Uncrossed(mk, rq.now)
    ensures Uncrossed(MatchedMarket(mk, rq, MatchOf(mk, rq, postOnly, price)), rq.now)
  {
    hide Walk, Tradable, Sorted, OrderId, Uncrossed;
    var w := MatchOf(mk, rq, postOnly, price);
    var makers := mk.Resting(InvertSide(rq.side));
    MakersWereThere(IncomingOf(mk, rq, postOnly, price), makers, rq.Spendable(mk));
    var mk1 := MatchedMarket(mk, rq, w);
    assert forall o :: o in w.makers ==> OnceThere(makers, o);
    SameShrunk(mk.Resting(rq.side));
    ShrinkingStaysUncrossed(mk, mk1, rq.now);
  }

  lemma SameShrunk(s: seq<LeafNode>)
    ensures Shrunk(s, s)
  {
    forall o | o in s
      ensures OnceThere(s, o)
    {
      assert o == o.(quantity := o.quantity);
    }
  }

  /** When a remainder may be posted, what still crosses it is what matching left for want of quote. */
  lemma CrossingAfterMatch(o: Incoming, makers: seq<LeafNode>, b: Budget)
    requires Tradable(makers) && Ready(b) && Sorted(InvertSide(o.side), makers) && Walk(o, makers, b).PostAllowed()
    ensures var w := Walk(o, makers, b);
      (exists m :: m in w.makers && m.IsValid(o.now) && o.Crosses(m.Price())) <==>
      (w.stop.Done? && LeavesCrossing(o, makers, b))
  {
    hide Walk, LeafNode.Price, LeafNode.IsValid, Sorted;
    var w := Walk(o, makers, b);
    MakersStaySorted(o, makers, b);
    CrossingMeans(o, w.makers);
    CrossingTradable(o, w.makers);
    if w.stop.Done? { CrossingLeft(o, makers, b); } else { NothingLeftToTake(o, makers, b); }
  }

  /** Matching that ends with a fill has spent the base, or has less quote than the price of the last maker. */
  lemma {:induction false} DoneMeans(o: Incoming, makers: seq<LeafNode>, b: Budget)
    requires Tradable(makers) && Ready(b) && Walk(o, makers, b).stop.Done?
    ensures var w := Walk(o, makers, b); w.left.base == 0 || (o.side == Bid ==> w.left.quote < o.price)
  {
    FillsArePrefix(o, makers, b);
    StopsOnlyWhenSpent(o, makers, b);
    CrossingCrosses(o, makers);
  }

  lemma {:induction false} CrossingCrosses(o: Incoming, makers: seq<LeafNode>)
    ensures forall m :: m in Crossing(o, makers) ==> o.Crosses(m.Price()) && m.IsValid(o.now)
  {
    hide LeafNode.Price, LeafNode.IsValid;
    if makers != [] { CrossingCrosses(o, makers[1..]); }
  }

  /** In terms of the walk, placing an order keeps the book uncrossed unless it posts across; a bid never does. */
  lemma UncrossedByWalk(mk: MarketState, a: Account, m: nat, rq: Request)
    requires Placeable(mk, a, m, rq) && Uncrossed(mk, rq.now)
    ensures PriceOf(mk, rq).Ok? && PriceOf(mk, rq).value.2 > 0
    ensures Uncrossed(NewOrder(mk, a, m, rq).value.0, rq.now) <==> !PostsAcross(mk, rq)
    ensures rq.side == Bid ==> !PostsAcross(mk, rq)
  {
    NewOrderParts(mk, a, m, rq);
    var (postOnly, postable, price) := PriceOf(mk, rq).value;
    var o, makers, b := IncomingOf(mk, rq, postOnly, price), mk.Resting(InvertSide(rq.side)), rq.Spendable(mk);
    hide NewOrder, AfterMatch, Resolve, Uncrossed, LeavesCrossing, WithinPriceLimit, BestPrice, TakerState;
    hide LeafNode.Price;
    hide LeafNode.IsValid, BaseOf, QuoteOf, Fills, Outs;
    MatchUncrossed(mk, rq, postOnly, price);
    MatchedOk(mk, rq, postOnly, price);
    var w := MatchOf(mk, rq, postOnly, price);
    if w.PostAllowed() { CrossingAfterMatch(o, makers, b); }
    if w.stop.Done? { DoneMeans(o, makers, b); }
    BudgetsHold(o, makers, b);
    hide Walk, MarketOk;
    var mk1, a1 := MatchedMarket(mk, rq, w), TakerState(a, m, rq.side, b, w.left);
    var allowed := postable && WithinPriceLimit(rq, mk.totals, price) && w.PostAllowed();
    AfterMatchUncrossed(mk1, a1, m, rq, allowed, price, w.left);
    QuotientPositive(w.left.quote, price);
  }

  lemma QuotientPositive(a: int, b: int)
    requires b > 0
    ensures a / b > 0 <==> a >= b
  {
  }

  /** After matching, only a posted remainder can cross, and it does when a valid order is left at its price. */
  lemma AfterMatchUncrossed(mk: MarketState, a: Account, m: nat, rq: Request, allowed: bool, price: int, left: Budget)
    requires MarketOk(mk) && 0 < price <= I64_MAX && m < |a.perps| && Uncrossed(mk, rq.now)
    requires AfterMatch(mk, a, m, rq, allowed, price, left).Ok?
    ensures Uncrossed(AfterMatch(mk, a, m, rq, allowed, price, left).value.0, rq.now) <==>
      !(allowed && Min(left.base, left.quote / price) > 0
        && exists o :: o in mk.Resting(InvertSide(rq.side)) && o.IsValid(rq.now)
                  && (if rq.side == Bid then price >= o.Price() else price <= o.Price()))
  {
    assert mk.totals.seqNum <= U64_MAX;
    hide Post, ApplyFees, Uncrossed, LeafNode.Price, LeafNode.IsValid, OrderId, MarketOk;
    var rest := Min(left.base, left.quote / price);
    var mk' := AfterMatch(mk, a, m, rq, allowed, price, left).value.0;
    if allowed && rest > 0 {
      var leaf := PostedBook(mk, a, m, rq, price, rest);
      var mk2 := Post(mk, a, m, rq, price, rest, OrderId(rq.side, price, mk.totals.seqNum)).value.0;
      assert mk'.bids == mk2.bids && mk'.asks == mk2.asks;
      assert forall side :: mk'.Resting(side) == mk2.Resting(side);
      PostUncrossed(mk, mk', rq, leaf, price);
    } else {
      SameBook(mk, mk', rq.now);
    }
  }

  lemma SameBook(mk: MarketState, mk': MarketState, now: nat)
    requires mk'.bids == mk.bids && mk'.asks == mk.asks
    ensures Uncrossed(mk', now) <==> Uncrossed(mk, now)
  {
  }

  /** An order that slides is priced so that it crosses nothing valid, so it rests instead of trading. */
  lemma SlideCrossesNothing(mk: MarketState, rq: Request)
    requires MarketOk(mk) && rq.Wellformed() && rq.orderType == PostOnlySlide && PriceOf(mk, rq).Ok?
    ensures 0 <= PriceOf(mk, rq).value.2 <= I64_MAX
    ensures
      var (postOnly, postable, price) := PriceOf(mk, rq).value;
      var makers := mk.Resting(InvertSide(rq.side));
      && postOnly && postable && Crossing(IncomingOf(mk, rq, postOnly, price), makers) == []
      && (BestPrice(makers, rq.now).None? ==> price == rq.price)
  {
    ResolvedPriceInRange(mk, rq);
    var (postOnly, postable, price) := PriceOf(mk, rq).value;
    var o, makers := IncomingOf(mk, rq, postOnly, price), mk.Resting(InvertSide(rq.side));
    FirstValidCrosses(o, makers);
  }

  /** Only the best valid price decides whether anything crosses. */
  lemma {:induction false} FirstValidCrosses(o: Incoming, makers: seq<LeafNode>)
    ensures Crossing(o, makers) == [] <==>
      (BestPrice(makers, o.now).None? || !o.Crosses(BestPrice(makers, o.now).value))
    ensures Crossing(o, makers) != [] ==> BestPrice(makers, o.now) == Some(Crossing(o, makers)[0].Price())
  {
    hide LeafNode.Price, LeafNode.IsValid;
    if makers != [] && !makers[0].IsValid(o.now) { FirstValidCrosses(o, makers[1..]); }
  }

  // ----- Enough quote

  /** With quote for all its base at the best price, matching never ends for want of quote. */
  lemma {:induction false} EnoughQuote(o: Incoming, makers: seq<LeafNode>, b: Budget, top: int)
    requires Tradable(makers) && Ready(b) && b.base * top <= b.quote
    requires forall m :: m in makers && m.IsValid(o.now) ==> m.Price() <= top
    ensures var w := Walk(o, makers, b); w.left.base * top <= w.left.quote
  {
    hide LeafNode.Price, LeafNode.IsValid, Meet;
    if makers != [] {
      var x := Meet(o, makers[0], b);
      MeetFacts(o, makers[0], b);
      MeetSpends(o, makers[0], b, top);
      if x.stop.None? { EnoughQuote(o, makers[1..], x.left, top); }
    }
  }

  lemma SpendsWithin(base: int, q: nat, price: int, top: int)
    requires price <= top
    ensures (base - q) * top <= base * top - price * q
  {
    Distribute(base - q, q, top);
    TimesOrder(price, top, q);
  }

  lemma MeetSpends(o: Incoming, m: LeafNode, b: Budget, top: int)
    requires m.Price() > 0 && m.quantity > 0 && Ready(b) && b.base * top <= b.quote
             && (m.IsValid(o.now) ==> m.Price() <= top)
    ensures var x := Meet(o, m, b); x.left.base * top <= x.left.quote
  {
    hide Meet, LeafNode.Price, LeafNode.IsValid;
    MeetSends(o, m, b);
    var x := Meet(o, m, b);
    if x.sent != [] && x.sent[0].Fill? {
      var q, price := x.sent[0].quantity, x.sent[0].price;
      SpendsWithin(b.base, q, price, top);
    }
  }

  lemma EnoughNeverWants(o: Incoming, makers: seq<LeafNode>, b: Budget, top: int)
    requires Tradable(makers) && Ready(b) && top > 0 && b.base * top <= b.quote
    requires forall m :: m in makers && m.IsValid(o.now) ==> m.Price() <= top
    ensures Walk(o, makers, b).stop.Done? ==> Walk(o, makers, b).left.base <= 0
  {
    hide Walk, LeafNode.IsValid, LeafNode.Price;
    var w := Walk(o, makers, b);
    EnoughQuote(o, makers, b, top);
    if w.stop.Done? && w.left.base > 0 {
      DoneSpends(o, makers, b, top);
      TimesOrder(1, w.left.base, top);
    }
  }

  lemma DoneSpends(o: Incoming, makers: seq<LeafNode>, b: Budget, top: int)
    requires Tradable(makers) && Ready(b) && Walk(o, makers, b).stop.Done?
    requires forall m :: m in makers && m.IsValid(o.now) ==> m.Price() <= top
    ensures var w := Walk(o, makers, b); w.left.base == 0 || w.left.quote < top
  {
    FillsArePrefix(o, makers, b);
    StopsOnlyWhenSpent(o, makers, b);
    CrossingFrom(o, makers);
  }

  lemma {:induction false} CrossingFrom(o: Incoming, makers: seq<LeafNode>)
    ensures forall m :: m in Crossing(o, makers) ==> m in makers && m.IsValid(o.now)
  {
    hide LeafNode.Price, LeafNode.IsValid;
    if makers != [] {
      CrossingFrom(o, makers[1..]);
      assert makers == [makers[0]] + makers[1..];
    }
  }
}
