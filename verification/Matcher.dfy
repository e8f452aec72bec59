/** The matching rules on the price-time ordered list of the other side: what an incoming order does to it. */
module Matcher {
  import opened OrderKeys
  import opened Types
  import opened OrderLists
  import opened FixedPoint
  import opened Events

  const DROP_EXPIRED_ORDER_LIMIT: nat := 5

  /** An incoming order after its type has been resolved to a price and flags. */
  datatype Incoming = Incoming(
    side: Side, price: int, postOnly: bool, now: nat, taker: Pubkey, orderId: Key, clientOrderId: nat,
    makerFee: Fixed, takerFee: Fixed)
  {
    predicate Crosses(makerPrice: int) {
      if side == Bid then price >= makerPrice else price <= makerPrice
    }

    function OutEvent(m: LeafNode, seqNum: nat): Event {
      Out(InvertSide(side), m.ownerSlot, now, seqNum, m.owner, m.quantity)
    }

    function FillEvent(m: LeafNode, q: int, seqNum: nat): Event {
      Fill(side, m.ownerSlot, q == m.quantity, now, seqNum, m.owner, m.key, m.clientOrderId, makerFee, m.bestInitial,
           m.timestamp, taker, orderId, clientOrderId, takerFee, m.Price(), q, m.version)
    }
  }

  /** Why matching ended. */
  datatype Stop = Exhausted | PriceReached | WouldTake | LimitReached | QuoteTooSmall | Done

  /** What an order may still trade, how many expired orders it has dropped and the next event number. */
  datatype Budget = Budget(base: int, quote: int, limit: nat, dropped: nat, seqNum: nat)

  /** Meeting one maker: whether matching ends here, what stays of the maker and what is sent. */
  datatype Met = Met(stop: Option<Stop>, kept: seq<LeafNode>, sent: seq<Event>, left: Budget)

  datatype Walked = Walked(left: Budget, stop: Stop, makers: seq<LeafNode>, events: seq<Event>)
  {
    /** Whether the remainder may go on the book. */
    predicate PostAllowed() { stop.Exhausted? || stop.PriceReached? || stop.Done? }
  }

  ghost predicate Tradable(makers: seq<LeafNode>) {
    forall m :: m in makers ==> m.Price() > 0 && m.quantity > 0
  }

  /** The most lots of a maker that the quote budget buys, and what lots of it cost. */
  function Affordable(m: LeafNode, b: Budget): int
    requires m.Price() > 0
  {
    b.quote / m.Price()
  }

  function Cost(m: LeafNode, q: int): int { q * m.Price() }

  function MatchQuantity(m: LeafNode, b: Budget): int
    requires m.Price() > 0
  {
    Min(Min(b.base, m.quantity), Affordable(m, b))
  }

  function Meet(o: Incoming, m: LeafNode, b: Budget): Met
    requires m.Price() > 0
  {
    if !m.IsValid(o.now) then
      if b.dropped < DROP_EXPIRED_ORDER_LIMIT then
        Met(None, [], [o.OutEvent(m, b.seqNum)], b.(dropped := b.dropped + 1, seqNum := b.seqNum + 1))
      else Met(None, [m], [], b)
    else if !o.Crosses(m.Price()) then Met(Some(PriceReached), [m], [], b)
    else if o.postOnly then Met(Some(WouldTake), [m], [], b)
    else if b.limit == 0 then Met(Some(LimitReached), [m], [], b)
    else if Affordable(m, b) == 0 then Met(Some(QuoteTooSmall), [m], [], b)
    else
      var q := MatchQuantity(m, b);
      Met(if q == Affordable(m, b) || q == b.base then Some(Done) else None,
          if q == m.quantity then [] else [m.(quantity := m.quantity - q)],
          [o.FillEvent(m, q, b.seqNum)],
          b.(base := b.base - q, quote := b.quote - Cost(m, q), limit := b.limit - 1, seqNum := b.seqNum + 1))
  }

  lemma MeetExpired(o: Incoming, m: LeafNode, b: Budget)
    requires m.Price() > 0 && !m.IsValid(o.now)
    ensures Meet(o, m, b) ==
      if b.dropped < DROP_EXPIRED_ORDER_LIMIT
      then Met(None, [], [o.OutEvent(m, b.seqNum)], b.(dropped := b.dropped + 1, seqNum := b.seqNum + 1))
      else Met(None, [m], [], b)
  {
  }

  /** Walks the makers in priority order until one of them ends the matching. */
  function Walk(o: Incoming, makers: seq<LeafNode>, b: Budget): Walked
    requires Tradable(makers)
  {
    if makers == [] then Walked(b, Exhausted, [], []) else
    var x := Meet(o, makers[0], b);
    var w := if x.stop.Some? then Walked(x.left, x.stop.value, makers[1..], []) else Walk(o, makers[1..], x.left);
    w.(makers := x.kept + w.makers, events := x.sent + w.events)
  }

  // ----- What the fills are

  /** The fills among events, in order. */
  function Fills(events: seq<Event>): seq<Event> {
    if events == [] then [] else (if events[0].Fill? then [events[0]] else []) + Fills(events[1..])
  }

  /** The number of orders dropped for having expired. */
  function Outs(events: seq<Event>): nat {
    if events == [] then 0 else (if events[0].Out? then 1 else 0) + Outs(events[1..])
  }

  lemma EventsRegroup(a: seq<Event>, b: seq<Event>, c: seq<Event>)
    ensures a + b + c == a + (b + c)
  {
  }

  lemma {:induction false} EventsConcat(a: seq<Event>, b: seq<Event>)
    ensures Fills(a + b) == Fills(a) + Fills(b) && Outs(a + b) == Outs(a) + Outs(b)
  {
    if a == [] {
      assert a + b == b;
    } else {
      assert (a + b)[1..] == a[1..] + b;
      EventsConcat(a[1..], b);
      EventsRegroup(if a[0].Fill? then [a[0]] else [], Fills(a[1..]), Fills(b));
    }
  }

  function BaseOf(fills: seq<Event>): int {
    if fills == [] then 0 else (if fills[0].Fill? then fills[0].quantity else 0) + BaseOf(fills[1..])
  }

  function QuoteOf(fills: seq<Event>): int {
    if fills == [] then 0 else (if fills[0].Fill? then fills[0].price * fills[0].quantity else 0) + QuoteOf(fills[1..])
  }

  lemma {:induction false} TotalsConcat(a: seq<Event>, b: seq<Event>)
    ensures BaseOf(a + b) == BaseOf(a) + BaseOf(b) && QuoteOf(a + b) == QuoteOf(a) + QuoteOf(b)
  {
    if a == [] {
      assert a + b == b;
    } else {
      assert (a + b)[1..] == a[1..] + b;
      TotalsConcat(a[1..], b);
    }
  }

  /** The orders the incoming one may trade with: valid, and at a price no worse than its own. */
  function Crossing(o: Incoming, makers: seq<LeafNode>): seq<LeafNode> {
    if makers == [] then []
    else if !makers[0].IsValid(o.now) then Crossing(o, makers[1..])
    else if o.Crosses(makers[0].Price()) then [makers[0]] + Crossing(o, makers[1..])
    else []
  }

  /** A fill against maker `m`, at the price of the maker, with what is on record about both orders. */
  ghost predicate Trades(o: Incoming, f: Event, m: LeafNode) {
    && f.Fill? && f.takerSide == o.side && f.taker == o.taker && f.price == m.Price()
    && f.maker == m.owner && f.makerSlot == m.ownerSlot && f.makerOrderId == m.key
    && 0 < f.quantity <= m.quantity && (f.makerOut <==> f.quantity == m.quantity)
    && f.timestamp == o.now && f.takerOrderId == o.orderId && f.takerClientOrderId == o.clientOrderId
    && f.takerFee == o.takerFee && f.makerFee == o.makerFee && f.makerClientOrderId == m.clientOrderId
    && f.bestInitial == m.bestInitial && f.makerTimestamp == m.timestamp && f.version == m.version
  }

  /** An Out event for an expired maker. */
  ghost predicate Expires(o: Incoming, e: Event, m: LeafNode) {
    && !m.IsValid(o.now) && e.Out? && e.side == InvertSide(o.side) && e.slot == m.ownerSlot && e.timestamp == o.now
    && e.owner == m.owner && e.quantity == m.quantity
  }

  ghost predicate Ready(b: Budget) { b.base > 0 && b.quote >= 0 }

  lemma QuoteBudget(q: int, p: int, budget: nat)
    requires p > 0 && 0 < q <= budget / p
    ensures 0 < q * p <= budget && (q == budget / p ==> budget - q * p < p)
  {
    var n := budget / p;
    assert n * p <= budget < n * p + p;
    assert (n - q) * p >= 0;
    assert q * p >= p by { assert (q - 1) * p >= 0; }
  }

  lemma CostFacts(m: LeafNode, b: Budget, q: int)
    requires m.Price() > 0 && Ready(b)
    ensures Affordable(m, b) >= 0 && (Affordable(m, b) == 0 ==> b.quote < m.Price())
    ensures Cost(m, q) == m.Price() * q
    ensures 0 < q <= Affordable(m, b) ==>
      0 < Cost(m, q) <= b.quote && (q == Affordable(m, b) ==> b.quote - Cost(m, q) < m.Price())
  {
    hide LeafNode.Price;
    var p := m.Price();
    if 0 < q <= b.quote / p { QuoteBudget(q, p, b.quote); }
  }

  /** What can be matched with a maker, once its price is affordable at all. */
  lemma MatchFacts(m: LeafNode, b: Budget)
    requires m.Price() > 0 && m.quantity > 0 && Ready(b)
    ensures Affordable(m, b) >= 0 && (Affordable(m, b) == 0 ==> b.quote < m.Price())
    ensures var q := MatchQuantity(m, b);
      Affordable(m, b) > 0 ==>
        && 0 < q <= m.quantity && q <= b.base && q <= Affordable(m, b)
        && (q == m.quantity || q == b.base || q == Affordable(m, b))
        && 0 < Cost(m, q) <= b.quote && Cost(m, q) == m.Price() * q
        && (q == Affordable(m, b) ==> b.quote - Cost(m, q) < m.Price())
  {
    hide LeafNode.Price, Affordable, Cost;
    CostFacts(m, b, MatchQuantity(m, b));
  }

  /** Everything one meeting does, apart from what becomes of the maker. */
  lemma MeetFacts(o: Incoming, m: LeafNode, b: Budget)
    requires m.Price() > 0 && m.quantity > 0 && Ready(b)
    ensures var x := Meet(o, m, b);
      && x.left.base >= 0 && x.left.quote >= 0 && (x.stop.None? ==> Ready(x.left))
      && b.base == x.left.base + BaseOf(x.sent) && b.quote == x.left.quote + QuoteOf(x.sent)
      && b.limit == x.left.limit + |Fills(x.sent)| && x.left.dropped == b.dropped + Outs(x.sent)
      && x.left.seqNum == b.seqNum + |x.sent|
      && (Fills(x.sent) == [] || |Fills(x.sent)| == 1)
    ensures var x := Meet(o, m, b);
      if Fills(x.sent) == [] then (m.IsValid(o.now) ==> x.stop.Some?)
      else
        && m.IsValid(o.now) && o.Crosses(m.Price()) && Trades(o, Fills(x.sent)[0], m)
        && (x.stop.None? ==> Fills(x.sent)[0].quantity == m.quantity)
  {
    hide LeafNode.Price, LeafNode.IsValid, Affordable, Cost, MatchQuantity;
    var x := Meet(o, m, b);
    MatchFacts(m, b);
    if x.sent != [] { assert x.sent == [x.sent[0]] && x.sent[1..] == []; }
  }

  /** Fills that take the orders of `c` one by one, all but the last completely. */
  ghost predicate TakesInTurn(o: Incoming, fs: seq<Event>, c: seq<LeafNode>) {
    && |fs| <= |c|
    && (forall i :: 0 <= i < |fs| ==> Trades(o, fs[i], c[i]))
    && (forall i :: 0 <= i < |fs| - 1 ==> fs[i].quantity == c[i].quantity)
  }

  lemma TakesNext(o: Incoming, f: Event, m: LeafNode, fs: seq<Event>, c: seq<LeafNode>)
    requires Trades(o, f, m) && TakesInTurn(o, fs, c) && (fs != [] ==> f.quantity == m.quantity)
    ensures TakesInTurn(o, [f] + fs, [m] + c)
  {
    hide Trades;
    forall i | 0 <= i < |fs| + 1
      ensures Trades(o, ([f] + fs)[i], ([m] + c)[i])
    {
      if i > 0 { assert Trades(o, fs[i - 1], c[i - 1]); }
    }
  }

  /**
   * Price-time priority: the fills meet the crossing makers one by one from the best on, each at the price of
   * the maker, and all but the last take the whole maker.
   */
  lemma {:induction false} FillsArePrefix(o: Incoming, makers: seq<LeafNode>, b: Budget)
    requires Tradable(makers) && Ready(b)
    ensures TakesInTurn(o, Fills(Walk(o, makers, b).events), Crossing(o, makers))
  {
    hide LeafNode.Price, LeafNode.IsValid, Meet, TakesInTurn;
    if makers != [] {
      var m, x, rest := makers[0], Meet(o, makers[0], b), makers[1..];
      MeetFacts(o, m, b);
      var events := if x.stop.None? then Walk(o, rest, x.left).events else [];
      EventsConcat(x.sent, events);
      if x.stop.None? { FillsArePrefix(o, rest, x.left); } else { NoTurn(o, Crossing(o, rest)); }
      if Fills(x.sent) == [] {
        assert [] + Fills(events) == Fills(events);
        NoTurn(o, Crossing(o, makers));
      } else {
        assert Fills(x.sent) == [Fills(x.sent)[0]];
        TakesNext(o, Fills(x.sent)[0], m, Fills(events), Crossing(o, rest));
      }
    } else {
      NoTurn(o, []);
    }
  }

  lemma NoTurn(o: Incoming, c: seq<LeafNode>)
    ensures TakesInTurn(o, [], c)
  {
  }

  /**
   * Base, quote and fill budgets are spent exactly by the fills and never exceeded, so with 64-bit budgets no
   * product of a fill overflows; at most five expired orders are dropped.
   */
  lemma {:induction false} BudgetsHold(o: Incoming, makers: seq<LeafNode>, b: Budget)
    requires Tradable(makers) && Ready(b) && b.dropped <= DROP_EXPIRED_ORDER_LIMIT
    ensures var w := Walk(o, makers, b);
      && b.base == w.left.base + BaseOf(w.events) && w.left.base >= 0
      && b.quote == w.left.quote + QuoteOf(w.events) && w.left.quote >= 0
      && b.limit == w.left.limit + |Fills(w.events)|
      && w.left.dropped == b.dropped + Outs(w.events) <= DROP_EXPIRED_ORDER_LIMIT
      && w.left.seqNum == b.seqNum + |w.events|
  {
    hide LeafNode.Price, LeafNode.IsValid, Trades, BaseOf, QuoteOf, Fills, Outs;
    if makers != [] {
      var x := Meet(o, makers[0], b);
      MeetFacts(o, makers[0], b);
      if x.stop.None? {
        BudgetsHold(o, makers[1..], x.left);
        EventsConcat(x.sent, Walk(o, makers[1..], x.left).events);
        TotalsConcat(x.sent, Walk(o, makers[1..], x.left).events);
      } else {
        EventsConcat(x.sent, []);
        TotalsConcat(x.sent, []);
        assert x.sent + [] == x.sent;
      }
    } else {
      assert BaseOf([]) == 0 == QuoteOf([]) by { NoEvents(); }
      NoEvents();
    }
  }

  lemma NoEvents()
    ensures BaseOf([]) == 0 == QuoteOf([]) && Fills([]) == [] && Outs([]) == 0
  {
  }

  /** Matching ends before the crossing makers are used up only when a budget is spent or nothing may be taken. */
  ghost predicate StopsFor(o: Incoming, w: Walked, fs: seq<Event>, c: seq<LeafNode>) {
    match w.stop
    case Exhausted => |fs| == |c|
    case PriceReached => |fs| == |c|
    case WouldTake => o.postOnly && fs == [] && c != []
    case LimitReached => w.left.limit == 0 && |fs| < |c|
    case QuoteTooSmall => |fs| < |c| && w.left.quote < c[|fs|].Price()
    case Done => 0 < |fs| <= |c| && (w.left.base == 0 || w.left.quote < c[|fs| - 1].Price())
  }

  lemma MeetStops(o: Incoming, m: LeafNode, b: Budget)
    requires m.Price() > 0 && m.quantity > 0 && Ready(b)
    ensures var x := Meet(o, m, b);
      match x.stop
      case None => o.postOnly ==> !m.IsValid(o.now)
      case Some(PriceReached) => x.sent == [] && m.IsValid(o.now) && !o.Crosses(m.Price())
      case Some(WouldTake) => o.postOnly && x.sent == [] && m.IsValid(o.now) && o.Crosses(m.Price())
      case Some(LimitReached) => x.left.limit == 0 && x.sent == [] && m.IsValid(o.now) && o.Crosses(m.Price())
      case Some(QuoteTooSmall) =>
        x.left.quote < m.Price() && x.sent == [] && m.IsValid(o.now) && o.Crosses(m.Price())
      case Some(Done) => |Fills(x.sent)| == 1 && (x.left.base == 0 || x.left.quote < m.Price())
      case Some(Exhausted) => false
    ensures !m.IsValid(o.now) ==> Meet(o, m, b).stop.None? && Fills(Meet(o, m, b).sent) == []
  {
    hide LeafNode.Price, LeafNode.IsValid, Affordable, Cost, MatchQuantity;
    var x := Meet(o, m, b);
    MatchFacts(m, b);
    if x.sent != [] { assert x.sent == [x.sent[0]] && x.sent[1..] == []; }
  }

  lemma {:induction false} StopsOnlyWhenSpent(o: Incoming, makers: seq<LeafNode>, b: Budget)
    requires Tradable(makers) && Ready(b)
    ensures var w := Walk(o, makers, b); StopsFor(o, w, Fills(w.events), Crossing(o, makers))
  {
    hide LeafNode.Price, LeafNode.IsValid, Meet, Trades, BaseOf, QuoteOf, Outs;
    if makers != [] {
      var x := Meet(o, makers[0], b);
      MeetFacts(o, makers[0], b);
      MeetStops(o, makers[0], b);
      if x.stop.None? {
        StopsOnlyWhenSpent(o, makers[1..], x.left);
        EventsConcat(x.sent, Walk(o, makers[1..], x.left).events);
      } else {
        EventsConcat(x.sent, []);
      }
    }
  }

  /** An order that is only to be posted trades nothing: it spends no budget and sends Out events alone. */
  lemma {:induction false} PostOnlyTakesNothing(o: Incoming, makers: seq<LeafNode>, b: Budget)
    requires Tradable(makers) && Ready(b) && o.postOnly
    ensures var w := Walk(o, makers, b);
      && Fills(w.events) == [] && (w.left.base, w.left.quote, w.left.limit) == (b.base, b.quote, b.limit)
      && (w.PostAllowed() <==> Crossing(o, makers) == [])
  {
    hide LeafNode.Price, LeafNode.IsValid;
    if makers != [] {
      var m, x, rest := makers[0], Meet(o, makers[0], b), makers[1..];
      MeetFacts(o, m, b);
      if x.stop.None? {
        PostOnlyTakesNothing(o, rest, x.left);
        EventsConcat(x.sent, Walk(o, rest, x.left).events);
        if x.sent != [] { assert x.sent[1..] == []; }
      }
    }
  }

  /** Events are numbered one after the other from `n` on, and all but the fills are for makers that have expired. */
  ghost predicate InOrder(o: Incoming, makers: seq<LeafNode>, es: seq<Event>, n: nat) {
    && (forall i :: 0 <= i < |es| ==> es[i].seqNum == n + i)
    && (forall e :: e in es ==> e.Fill? || exists m :: m in makers && Expires(o, e, m))
  }

  lemma OneMoreInOrder(o: Incoming, makers: seq<LeafNode>, sent: seq<Event>, es: seq<Event>, n: nat)
    requires makers != [] && |sent| <= 1 && InOrder(o, makers[1..], es, n + |sent|)
    requires sent != [] ==> sent[0].seqNum == n && (sent[0].Fill? || Expires(o, sent[0], makers[0]))
    ensures InOrder(o, makers, sent + es, n)
  {
    hide Expires;
    assert makers == [makers[0]] + makers[1..];
  }

  lemma {:induction false} EventsInOrder(o: Incoming, makers: seq<LeafNode>, b: Budget)
    requires Tradable(makers) && Ready(b)
    ensures InOrder(o, makers, Walk(o, makers, b).events, b.seqNum)
  {
    hide LeafNode.Price, LeafNode.IsValid, Trades, BaseOf, QuoteOf, Fills, Outs, Meet;
    if makers != [] {
      var x := Meet(o, makers[0], b);
      MeetFacts(o, makers[0], b);
      MeetSent(o, makers[0], b);
      if x.stop.None? {
        EventsInOrder(o, makers[1..], x.left);
        OneMoreInOrder(o, makers, x.sent, Walk(o, makers[1..], x.left).events, b.seqNum);
      } else {
        OneMoreInOrder(o, makers, x.sent, [], b.seqNum);
      }
    }
  }

  lemma MeetSent(o: Incoming, m: LeafNode, b: Budget)
    requires m.Price() > 0
    ensures var x := Meet(o, m, b);
      && |x.sent| <= 1
      && (x.sent != [] ==> x.sent[0].seqNum == b.seqNum && (x.sent[0].Fill? || Expires(o, x.sent[0], m)))
  {
    hide LeafNode.Price, LeafNode.IsValid;
  }

  /**
   * Expired orders are dropped as they are met: while fewer than five have been, matching that does not end with a fill
   * leaves a valid maker in front.
   */
  lemma {:induction false} DropsAsMet(o: Incoming, makers: seq<LeafNode>, b: Budget)
    requires Tradable(makers) && Ready(b)
    ensures var w := Walk(o, makers, b);
      && w.left.dropped >= b.dropped
      && (w.left.dropped < 5 && !w.stop.Done? ==>
           w.makers == [] || w.makers[0].IsValid(o.now))
  {
    hide LeafNode.Price, LeafNode.IsValid;
    if makers != [] {
      var x := Meet(o, makers[0], b);
      MeetFacts(o, makers[0], b);
      if x.stop.None? {
        DropsAsMet(o, makers[1..], x.left);
        assert [] + Walk(o, makers[1..], x.left).makers == Walk(o, makers[1..], x.left).makers;
      }
    }
  }

  // ----- What is left of the makers

  lemma PriceFollowsKey(side: Side, a: Key, b: Key)
    requires Ahead(side, a, b)
    ensures if side == Bid then Shr(a, 64) >= Shr(b, 64) else Shr(a, 64) <= Shr(b, 64)
  {
    if side == Bid { ShrMonotone(b, a, 64); } else { ShrMonotone(a, b, 64); }
  }

  /** The makers stay a sorted list of the same orders, some gone and some reduced. */
  lemma {:induction false} MakersStaySorted(o: Incoming, makers: seq<LeafNode>, b: Budget)
    requires Tradable(makers) && Ready(b) && Sorted(InvertSide(o.side), makers)
    ensures var w := Walk(o, makers, b);
      && Sorted(InvertSide(o.side), w.makers) && KeysOf(w.makers) <= KeysOf(makers) && Tradable(w.makers)
  {
    if makers != [] {
      var side, x, rest := InvertSide(o.side), Meet(o, makers[0], b), makers[1..];
      SortedTail(side, makers);
      MeetFacts(o, makers[0], b);
      MeetKeeps(o, makers[0], b);
      if x.stop.None? {
        MakersStaySorted(o, rest, x.left);
        var w := Walk(o, rest, x.left);
        SortedConcat(side, x.kept, w.makers);
        KeysOfConcat(x.kept, w.makers);
      } else {
        SortedConcat(side, x.kept, rest);
        KeysOfConcat(x.kept, rest);
      }
    }
  }

  lemma MeetKeeps(o: Incoming, m: LeafNode, b: Budget)
    requires m.Price() > 0 && m.quantity > 0 && Ready(b)
    ensures var x := Meet(o, m, b);
      && |x.kept| <= 1 && KeysOf(x.kept) <= {m.key} && Tradable(x.kept)
      && (x.kept == [] || x.kept[0] == m.(quantity := x.kept[0].quantity))
  {
    var x := Meet(o, m, b);
    MeetFacts(o, m, b);
    if x.kept != [] { assert x.kept == [x.kept[0]]; }
  }

  /**
   * When the remainder may be posted and something of it is left, no valid maker is left at its price. For asks
   * this needs matching not to have ended for lack of quote, which is no obstacle to posting below the bid.
   */
  lemma {:induction false} NothingLeftToTake(o: Incoming, makers: seq<LeafNode>, b: Budget)
    requires Tradable(makers) && Ready(b) && Sorted(InvertSide(o.side), makers)
    requires Walk(o, makers, b).stop.Exhausted? || Walk(o, makers, b).stop.PriceReached?
    ensures forall m :: m in Walk(o, makers, b).makers && m.IsValid(o.now) ==> !o.Crosses(m.Price())
  {
    if makers != [] {
      var side, m, x, rest := InvertSide(o.side), makers[0], Meet(o, makers[0], b), makers[1..];
      SortedTail(side, makers);
      MeetFacts(o, m, b);
      MeetStops(o, m, b);
      if x.stop.None? {
        NothingLeftToTake(o, rest, x.left);
        assert forall k :: k in x.kept ==> k == m.(quantity := k.quantity) by { MeetKeeps(o, m, b); }
        KeptOnlyExpired(o, m, b);
      } else {
        forall k | k in rest
          ensures !o.Crosses(k.Price())
        {
          KeysOfIn(rest);
          PriceFollowsKey(side, m.key, k.key);
        }
      }
    }
  }

  lemma KeptOnlyExpired(o: Incoming, m: LeafNode, b: Budget)
    requires m.Price() > 0 && m.quantity > 0 && Ready(b) && Meet(o, m, b).stop.None?
    ensures forall k :: k in Meet(o, m, b).kept ==> !k.IsValid(o.now)
  {
    MeetFacts(o, m, b);
    if Meet(o, m, b).sent != [] { assert Meet(o, m, b).sent[1..] == []; }
  }

  /** Every maker that is left was there before, with at least its quantity. */
  lemma {:induction false} MakersWereThere(o: Incoming, makers: seq<LeafNode>, b: Budget)
    requires Tradable(makers) && Ready(b)
    ensures var w := Walk(o, makers, b);
      |w.makers| <= |makers| && forall k :: k in w.makers ==> exists m :: m in makers && k == m.(quantity := k.quantity)
  {
    if makers != [] {
      var x, rest := Meet(o, makers[0], b), makers[1..];
      MeetFacts(o, makers[0], b);
      MeetKeeps(o, makers[0], b);
      if x.stop.None? { MakersWereThere(o, rest, x.left); }
      assert makers == [makers[0]] + rest;
    }
  }
}
