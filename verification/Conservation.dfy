/** What no instruction can create or destroy: base, quote and open interest, summed over all accounts. */
module Conservation {
  import opened OrderKeys
  import opened Types
  import opened FixedPoint
  import opened Events
  import opened OrderLists
  import opened Matcher
  import opened OrderIds
  import opened PerpState
  import opened OrderPlacement
  import opened Ledger
  import opened Exchange
  import opened Placing

  /** Quote adjusted for funding, base lots, and base lots regardless of sign. */
  datatype Sum = Sum(quote: Fixed, base: int, gross: int)
  {
    function Plus(o: Sum): Sum { Sum(quote + o.quote, base + o.base, gross + o.gross) }
    function Minus(o: Sum): Sum { Sum(quote - o.quote, base - o.base, gross - o.gross) }
  }

  function Part(p: PerpPosition, t: MarketTotals): Sum {
    Sum(p.QuotePosition(t.longFunding, t.shortFunding), p.base, Abs(p.base))
  }

  function PartOf(a: Account, m: nat, t: MarketTotals): Sum {
    if m < |a.perps| then Part(a.perps[m], t) else Sum(0, 0, 0)
  }

  function Total(accounts: seq<Account>, m: nat, t: MarketTotals): Sum {
    if accounts == [] then Sum(0, 0, 0) else PartOf(accounts[0], m, t).Plus(Total(accounts[1..], m, t))
  }

  lemma {:induction false} TotalUpdate(accounts: seq<Account>, i: nat, a: Account, m: nat, t: MarketTotals)
    requires i < |accounts|
    ensures Total(accounts[i := a], m, t) ==
            Total(accounts, m, t).Minus(PartOf(accounts[i], m, t)).Plus(PartOf(a, m, t))
  {
    hide PartOf;
    var accounts' := accounts[i := a];
    if i == 0 {
      assert accounts'[1..] == accounts[1..];
    } else {
      assert accounts'[1..] == accounts[1..][i - 1 := a];
      TotalUpdate(accounts[1..], i - 1, a, m, t);
    }
  }

  lemma {:induction false} TotalSame(accounts: seq<Account>, accounts': seq<Account>, m: nat, t: MarketTotals,
                                     t': MarketTotals)
    requires |accounts'| == |accounts|
    requires forall i :: 0 <= i < |accounts| ==> PartOf(accounts'[i], m, t') == PartOf(accounts[i], m, t)
    ensures Total(accounts', m, t') == Total(accounts, m, t)
  {
    if accounts != [] {
      assert PartOf(accounts'[0], m, t') == PartOf(accounts[0], m, t);
      forall i | 0 <= i < |accounts[1..]|
        ensures PartOf(accounts'[1..][i], m, t') == PartOf(accounts[1..][i], m, t)
      {
        assert PartOf(accounts'[i + 1], m, t') == PartOf(accounts[i + 1], m, t);
      }
      TotalSame(accounts[1..], accounts'[1..], m, t, t');
    }
  }

  lemma {:induction false} GrossNonNegative(accounts: seq<Account>, m: nat, t: MarketTotals)
    ensures Total(accounts, m, t).gross >= 0
  {
    if accounts != [] { GrossNonNegative(accounts[1..], m, t); }
  }

  /** A funding change moves quote from longs to shorts; its common part pays what the base positions sum to. */
  lemma {:induction false} TotalFunding(accounts: seq<Account>, m: nat, t: MarketTotals, t': MarketTotals,
                                        common: Fixed, spread: Fixed)
    requires t'.longFunding == t.longFunding + common - spread && t'.shortFunding == t.shortFunding + common + spread
    ensures var x, x' := Total(accounts, m, t), Total(accounts, m, t');
      && x'.base == x.base && x'.gross == x.gross
      && x'.quote == x.quote - common * x.base + spread * x.gross
  {
    hide PerpPosition.QuotePosition;
    if accounts != [] {
      TotalFunding(accounts[1..], m, t, t', common, spread);
      var x := Total(accounts[1..], m, t);
      if m < |accounts[0].perps| {
        var p := accounts[0].perps[m];
        PartFunding(p, t, t', common, spread);
        Distribute(p.base, x.base, common);
        Distribute(Abs(p.base), x.gross, spread);
      }
    }
  }

  lemma PartFunding(p: PerpPosition, t: MarketTotals, t': MarketTotals, common: Fixed, spread: Fixed)
    requires t'.longFunding == t.longFunding + common - spread && t'.shortFunding == t.shortFunding + common + spread
    ensures p.QuotePosition(t'.longFunding, t'.shortFunding) ==
            p.QuotePosition(t.longFunding, t.shortFunding) - common * p.base + spread * Abs(p.base)
  {
    if p.base > 0 {
      var d := t.longFunding - p.longSettled;
      assert (d + common - spread) * p.base == d * p.base + common * p.base - spread * p.base;
    } else if p.base < 0 {
      var d := t.shortFunding - p.shortSettled;
      assert (d + common + spread) * p.base == d * p.base + common * p.base + spread * p.base;
      assert spread * -p.base == -(spread * p.base);
    }
  }

  // ----- What is conserved

  /** All quote in a market: of the accounts, accrued as fees, less the maker fees that fills in the queue still owe. */
  function Value(mk: MarketState, m: nat, accounts: seq<Account>): Fixed {
    Total(accounts, m, mk.totals).quote + mk.totals.feesAccrued - FeesDue(mk.totals, mk.queue)
  }

  /** Base positions cancel out and open interest counts both sides. */
  ghost predicate PositionsOk(mk: MarketState, m: nat, accounts: seq<Account>) {
    Total(accounts, m, mk.totals).base == 0 && mk.totals.openInterest == Total(accounts, m, mk.totals).gross
  }

  /** A step moved base, quote and fees about but neither made nor lost any. */
  ghost predicate Conserves(mk: MarketState, mk': MarketState, m: nat, accounts: seq<Account>,
                            accounts': seq<Account>) {
    var x, x' := Total(accounts, m, mk.totals), Total(accounts', m, mk'.totals);
    && x'.base == x.base && mk'.totals.openInterest - x'.gross == mk.totals.openInterest - x.gross
    && Value(mk', m, accounts') == Value(mk, m, accounts)
  }

  lemma {:induction false} FeesDueOf(t: MarketTotals, t': MarketTotals, q: seq<Event>)
    requires t'.quoteLotSize == t.quoteLotSize
    ensures FeesDue(t', q) == FeesDue(t, q)
  {
    if q != [] { FeesDueOf(t, t', q[1..]); }
  }

  // ----- Consuming

  lemma Settled(p: PerpPosition, t: MarketTotals)
    ensures var s := p.SettleFunding(t.longFunding, t.shortFunding); Part(s, t) == Part(p, t)
    ensures forall base, quote :: Part(p.SettleFunding(t.longFunding, t.shortFunding).(base := base, quote := quote), t)
                                  == Sum(quote, base, Abs(base))
  {
  }

  lemma MakerPart(a: Account, m: nat, t: MarketTotals, e: Event)
    requires m < |a.perps| && e.Fill? && ExecuteMaker(a, m, t, e).Ok?
    ensures var (a', t') := ExecuteMaker(a, m, t, e).value;
      var (base, quote) := e.BaseQuoteChange(InvertSide(e.takerSide));
      var x, x' := PartOf(a, m, t), PartOf(a', m, t);
      && t' == t.(openInterest := t'.openInterest) && t'.openInterest - t.openInterest == x'.gross - x.gross
      && x'.base == x.base + base && x'.quote == x.quote + FromNum(t.quoteLotSize * quote) - MakerFees(t, e)
      && |a'.perps| == |a.perps|
  {
    hide MakerFees, FromNum, Event.BaseQuoteChange;
    Settled(a.perps[m], t);
  }

  lemma TakerPart(a: Account, m: nat, t: MarketTotals, e: Event)
    requires m < |a.perps| && e.Fill?
    ensures var (a', t') := ExecuteTaker(a, m, t, e);
      var (base, quote) := e.BaseQuoteChange(e.takerSide);
      var x, x' := PartOf(a, m, t), PartOf(a', m, t);
      && t' == t.(openInterest := t'.openInterest) && t'.openInterest - t.openInterest == x'.gross - x.gross
      && x'.base == x.base + base && x'.quote == x.quote + FromNum(t.quoteLotSize * quote)
  {
    hide FromNum, Event.BaseQuoteChange;
    Settled(a.perps[m], t);
  }

  lemma OppositeSides(e: Event, lot: int)
    requires e.Fill?
    ensures
      var (b1, q1) := e.BaseQuoteChange(InvertSide(e.takerSide));
      var (b2, q2) := e.BaseQuoteChange(e.takerSide);
      b1 + b2 == 0 && FromNum(lot * q1) + FromNum(lot * q2) == 0
  {
    var x := e.price * e.quantity;
    assert lot * -x == -(lot * x);
  }

  lemma TotalOi(accounts: seq<Account>, m: nat, t: MarketTotals, t': MarketTotals)
    requires t'.longFunding == t.longFunding && t'.shortFunding == t.shortFunding
    ensures Total(accounts, m, t') == Total(accounts, m, t)
  {
    TotalSame(accounts, accounts, m, t, t');
  }

  /**
   * Consuming an event moves base between maker and taker, and maker fees from the account into what has been booked.
   */
  lemma ConsumeConserves(s: State, m: nat)
    requires LedgerOk(s) && m < |s.markets|
    ensures ConsumeEvent(s, m).Ok?
    ensures var s' := ConsumeEvent(s, m).value;
      Conserves(s.markets[m], s'.markets[m], m, s.accounts, s'.accounts)
  {
    hide ConsumeAccounts, Total, FeesDue, Balanced, Named, SameElsewhere, Numbered;
    ConsumeKeepsLedger(s, m);
    var mk := s.markets[m];
    if mk.queue != [] {
      var e := mk.queue[0];
      assert e in mk.queue;
      EventConserves(s.accounts, m, mk.totals, e);
      var (accounts, t) := ConsumeAccounts(s.accounts, m, mk.totals, e).value;
      assert mk.queue == [e] + mk.queue[1..];
      QueueSumsConcat(mk.totals, 0, [e], mk.queue[1..]);
      FeesDueOf(mk.totals, t, mk.queue[1..]);
      TotalOi(accounts, m, mk.totals, t);
    }
  }

  lemma EventConserves(accounts: seq<Account>, m: nat, t: MarketTotals, e: Event)
    requires SoundEvent(e, |accounts|) && forall i :: 0 <= i < |accounts| ==> m < |accounts[i].perps|
    requires ConsumeAccounts(accounts, m, t, e).Ok?
    ensures var (accounts', t') := ConsumeAccounts(accounts, m, t, e).value;
      var x, x' := Total(accounts, m, t), Total(accounts', m, t);
      && t' == t.(openInterest := t'.openInterest) && t'.openInterest - t.openInterest == x'.gross - x.gross
      && x'.base == x.base && x'.quote == x.quote - FeesDue(t, [e])
  {
    hide ExecuteMaker, ExecuteTaker, FromNum, MakerFees, PartOf, Total, Event.BaseQuoteChange;
    assert [e][1..] == [];
    match e
    case Fill(_, _, _, _, _, maker, _, _, _, _, _, taker, _, _, _, _, _, _) =>
      MakerPart(accounts[maker], m, t, e);
      var (a, t1) := ExecuteMaker(accounts[maker], m, t, e).value;
      TotalUpdate(accounts, maker, a, m, t);
      var after := accounts[maker := a];
      TakerPart(after[taker], m, t1, e);
      var (b, t2) := ExecuteTaker(after[taker], m, t1, e);
      PartOi(after[taker], m, t, t1);
      PartOi(b, m, t, t1);
      TotalUpdate(after, taker, b, m, t);
      OppositeSides(e, t.quoteLotSize);
    case Out(side, slot, _, _, owner, quantity) =>
      var a := RemoveOrderAt(accounts[owner], slot, quantity).value;
      RemovalPart(accounts[owner], m, t, slot, quantity);
      TotalUpdate(accounts, owner, a, m, t);
    case Liquidate(_, _, _, _, _, _, _) =>
  }

  lemma PartOi(a: Account, m: nat, t: MarketTotals, t': MarketTotals)
    requires t'.longFunding == t.longFunding && t'.shortFunding == t.shortFunding
    ensures PartOf(a, m, t') == PartOf(a, m, t)
  {
  }

  lemma RemovalPart(a: Account, m: nat, t: MarketTotals, slot: nat, quantity: int)
    requires RemoveOrderAt(a, slot, quantity).Ok?
    ensures PartOf(RemoveOrderAt(a, slot, quantity).value, m, t) == PartOf(a, m, t)
  {
  }

  // ----- Placing

  /** The quote that an order can change: its account, the fees, the queue, and the credit it pays to a referrer. */
  function Around(mk: MarketState, a: Account, m: nat, credit: Fixed): Fixed {
    PartOf(a, m, mk.totals).quote + mk.totals.feesAccrued - FeesDue(mk.totals, mk.queue) + credit
  }

  ghost predicate SameFunding(t: MarketTotals, t': MarketTotals) {
    && t'.longFunding == t.longFunding && t'.shortFunding == t.shortFunding && t'.openInterest == t.openInterest
    && t'.quoteLotSize == t.quoteLotSize
  }

  lemma {:induction false} NoFillsNoQuote(events: seq<Event>)
    requires Fills(events) == []
    ensures QuoteOf(events) == 0
  {
    if events != [] { NoFillsNoQuote(events[1..]); }
  }

  lemma {:induction false} WalkSpends(o: Incoming, makers: seq<LeafNode>, b: Budget)
    requires Tradable(makers) && Ready(b)
    ensures Walk(o, makers, b).left.quote <= b.quote
  {
    if makers != [] {
      var m, x := makers[0], Meet(o, makers[0], b);
      MeetFacts(o, m, b);
      if m.IsValid(o.now) && x.left.quote != b.quote { QuoteBudget(MatchQuantity(m, b), m.Price(), b.quote); }
      if x.stop.None? { WalkSpends(o, makers[1..], x.left); }
    }
  }

  /** Matching leaves the account alone and promises the market the maker fees of what was taken. */
  lemma MatchAround(mk: MarketState, a: Account, m: nat, rq: Request, postOnly: bool, price: int)
    requires MarketOk(mk) && rq.Wellformed() && m < |a.perps| && 0 <= price <= I64_MAX
    ensures var w := MatchOf(mk, rq, postOnly, price);
      var mk1, a1 := MatchedMarket(mk, rq, w), TakerState(a, m, rq.side, rq.Spendable(mk), w.left);
      var taken := rq.maxQuote - w.left.quote;
      && PartOf(a1, m, mk1.totals) == PartOf(a, m, mk.totals) && SameFunding(mk.totals, mk1.totals)
      && Around(mk1, a1, m, 0) == Around(mk, a, m, 0) - mk.totals.quoteLotSize * taken * rq.makerFee
      && taken >= 0 && (taken > 0 ==> Fills(w.events) != [])
  {
    hide Walk, Tradable, Sorted, OrderId, FeesDue, Fills, TakerBase, TakerQuote;
    var w := MatchOf(mk, rq, postOnly, price);
    var o := IncomingOf(mk, rq, postOnly, price);
    var makers, b := mk.Resting(InvertSide(rq.side)), rq.Spendable(mk);
    var mk1 := MatchedMarket(mk, rq, w);
    WalkSums(o, makers, b, mk.totals, 0);
    QueueSumsConcat(mk.totals, 0, mk.queue, w.events);
    FeesDueOf(mk.totals, mk1.totals, mk1.queue);
    BudgetsHold(o, makers, b);
    if Fills(w.events) == [] { NoFillsNoQuote(w.events); }
    WalkSpends(o, makers, b);
  }

  lemma PostAround(mk: MarketState, a: Account, m: nat, rq: Request, price: int, quantity: int, key: Key)
    requires MarketOk(mk) && m < |a.perps| && Post(mk, a, m, rq, price, quantity, key).Ok?
    ensures var (mk', a') := Post(mk, a, m, rq, price, quantity, key).value;
      && PartOf(a', m, mk'.totals) == PartOf(a, m, mk.totals) && mk'.totals == mk.totals
      && Around(mk', a', m, 0) == Around(mk, a, m, 0)
  {
    hide Post, FeesDue, RoomMade, BookClaims, QueueClaims, TakerBase, TakerQuote, InsertOrder, Sorted, Tradable;
    hide NewLeaf;
    var own, es, leaf := PostParts(mk, a, m, rq, price, quantity, key);
    assert OutsOf(rq.side, es) by { RoomOuts(rq.side, mk.Resting(rq.side), own, es); }
    OutsAreInert(rq.side, es, mk.totals, OnLots, 0);
    QueueSumsConcat(mk.totals, 0, mk.queue, es);
  }

  lemma RoomOuts(side: Side, own: seq<LeafNode>, own': seq<LeafNode>, es: seq<Event>)
    requires RoomMade(side, own, own', es)
    ensures OutsOf(side, es)
  {
  }

  /** Fees leave the account; the makers' share is booked before it is paid. */
  lemma FeesAround(mk: MarketState, a: Account, m: nat, rq: Request, taken: int, ref: Referral)
    requires m < |a.perps|
    ensures var (a', t', credit) := ApplyFees(a, m, mk.totals, rq, taken, ref);
      && PartOf(a', m, t').base == PartOf(a, m, mk.totals).base && SameFunding(mk.totals, t')
      && Around(mk.(totals := t'), a', m, credit) ==
         Around(mk, a, m, 0) + mk.totals.quoteLotSize * taken * rq.makerFee
  {
    var (a', t', credit) := ApplyFees(a, m, mk.totals, rq, taken, ref);
    FeesDueOf(mk.totals, t', mk.queue);
  }

  lemma NewOrderAround(mk: MarketState, a: Account, m: nat, rq: Request)
    requires MarketOk(mk) && rq.Wellformed() && m < |a.perps| && mk.totals.seqNum + 1 < U64_MAX
    requires NewOrder(mk, a, m, rq).Ok?
    ensures var (mk', a', credit) := NewOrder(mk, a, m, rq).value;
      && PartOf(a', m, mk'.totals).base == PartOf(a, m, mk.totals).base && SameFunding(mk.totals, mk'.totals)
      && Around(mk', a', m, credit) == Around(mk, a, m, 0) && (!rq.Referred() ==> credit == 0)
  {
    hide NewOrder, Resolve, MatchOf, TakerState, WithinPriceLimit, MatchedMarket, BestPrice, Around, PartOf, Post;
    hide ApplyFees, Fills;
    hide OrderId;
    NewOrderParts(mk, a, m, rq);
    var (postOnly, postable, price) := PriceOf(mk, rq).value;
    var w := MatchOf(mk, rq, postOnly, price);
    var allowed := postable && WithinPriceLimit(rq, mk.totals, price) && w.PostAllowed();
    var mk1, a1 := MatchedMarket(mk, rq, w), TakerState(a, m, rq.side, rq.Spendable(mk), w.left);
    MatchAround(mk, a, m, rq, postOnly, price);
    MatchedOk(mk, rq, postOnly, price);
    var rest := Min(w.left.base, w.left.quote / price);
    var posts := allowed && rest > 0;
    if posts { PostAround(mk1, a1, m, rq, price, rest, OrderId(rq.side, price, mk1.totals.seqNum)); }
    var key := OrderId(rq.side, price, mk1.totals.seqNum);
    var (mk2, a2) := if posts then Post(mk1, a1, m, rq, price, rest, key).value else (mk1, a1);
    var taken := rq.maxQuote - w.left.quote;
    if taken > 0 && rq.referral.Ok? {
      FeesAround(mk2, a2, m, rq, taken, rq.referral.value);
      NoReferrerNoCredit(a2, m, mk2.totals, rq, taken, rq.referral.value);
    } else {
      assert taken == 0;
    }
  }

  lemma NoReferrerNoCredit(a: Account, m: nat, t: MarketTotals, rq: Request, taken: int, ref: Referral)
    requires m < |a.perps|
    ensures !ref.referred ==> ApplyFees(a, m, t, rq, taken, ref).2 == 0
  {
  }

  lemma MatchedOk(mk: MarketState, rq: Request, postOnly: bool, price: int)
    requires MarketOk(mk) && rq.Wellformed() && 0 <= price <= I64_MAX && mk.totals.seqNum + 1 < U64_MAX
    ensures MarketOk(MatchedMarket(mk, rq, MatchOf(mk, rq, postOnly, price)))
  {
    hide Walk;
    var o, makers := IncomingOf(mk, rq, postOnly, price), mk.Resting(InvertSide(rq.side));
    MakersStaySorted(o, makers, rq.Spendable(mk));
    MakersWereThere(o, makers, rq.Spendable(mk));
  }

  /** Placing an order makes no quote: what the taker pays in fees the market books and the referrer gets. */
  lemma PlaceConserves(s: State, m: nat, rq: Request, referrer: Pubkey)
    requires MayPlace(s, m, rq, referrer) && PlaceOrder(s, m, rq, referrer).Ok?
    ensures Conserves(s.markets[m], PlaceOrder(s, m, rq, referrer).value.markets[m], m,
                      s.accounts, PlaceOrder(s, m, rq, referrer).value.accounts)
  {
    hide LedgerOk, NewOrder, MarketOk, PartOf, Around, Conserves;
    MayPlaceShape(s, m, rq, referrer);
    var mk, a := s.markets[m], s.accounts[rq.taker];
    NewOrderAround(mk, a, m, rq);
    var (mk', a', credit) := NewOrder(mk, a, m, rq).value;
    PlacedConserves(mk, mk', m, s.accounts, rq.taker, a', if rq.Referred() then Some(referrer) else None, credit);
  }

  lemma MayPlaceShape(s: State, m: nat, rq: Request, referrer: Pubkey)
    requires MayPlace(s, m, rq, referrer)
    ensures MarketOk(s.markets[m]) && forall i :: 0 <= i < |s.accounts| ==> m < |s.accounts[i].perps|
  {
    assert Sound(s.markets[m], |s.accounts|);
  }

  lemma PlacedConserves(mk: MarketState, mk': MarketState, m: nat, accounts: seq<Account>, i: nat, a': Account,
                        referrer: Option<nat>, credit: Fixed)
    requires i < |accounts| && SameFunding(mk.totals, mk'.totals)
    requires PartOf(a', m, mk'.totals).base == PartOf(accounts[i], m, mk.totals).base
    requires Around(mk', a', m, credit) == Around(mk, accounts[i], m, 0)
    requires if referrer.Some? then
               referrer.value < |accounts| && referrer.value != i && m < |accounts[referrer.value].perps|
             else credit == 0
    ensures
      var after := accounts[i := a'];
      var after' := if referrer.None? then after
                    else after[referrer.value := Credit(after[referrer.value], m, credit)];
      Conserves(mk, mk', m, accounts, after')
  {
    hide Total, PartOf, Around, FeesDue;
    TakerConserves(mk, mk', m, accounts, i, a', credit);
    if referrer.Some? { CreditTotals(accounts[i := a'], m, mk'.totals, referrer.value, credit); }
  }

  lemma CreditTotals(accounts: seq<Account>, m: nat, t: MarketTotals, i: nat, credit: Fixed)
    requires i < |accounts| && m < |accounts[i].perps|
    ensures Total(accounts[i := Credit(accounts[i], m, credit)], m, t) == Total(accounts, m, t).Plus(Sum(credit, 0, 0))
  {
    hide Total, PartOf;
    CreditPart(accounts[i], m, t, credit);
    TotalUpdate(accounts, i, Credit(accounts[i], m, credit), m, t);
  }

  lemma TakerConserves(mk: MarketState, mk': MarketState, m: nat, accounts: seq<Account>, i: nat, a': Account,
                       credit: Fixed)
    requires i < |accounts| && SameFunding(mk.totals, mk'.totals)
    requires PartOf(a', m, mk'.totals).base == PartOf(accounts[i], m, mk.totals).base
    requires Around(mk', a', m, credit) == Around(mk, accounts[i], m, 0)
    ensures
      var x, x' := Total(accounts, m, mk.totals), Total(accounts[i := a'], m, mk'.totals);
      && x'.base == x.base && x'.gross == x.gross
      && Value(mk', m, accounts[i := a']) + credit == Value(mk, m, accounts)
  {
    hide Total, FeesDue, PartOf;
    TotalUpdate(accounts, i, a', m, mk.totals);
    PartOi(a', m, mk.totals, mk'.totals);
    TotalOi(accounts[i := a'], m, mk.totals, mk'.totals);
    GrossOf(accounts[i], a', m, mk.totals, mk'.totals);
  }

  lemma GrossOf(a: Account, a': Account, m: nat, t: MarketTotals, t': MarketTotals)
    requires PartOf(a, m, t).base == PartOf(a', m, t').base
    ensures PartOf(a, m, t).gross == PartOf(a', m, t').gross
  {
  }

  lemma CreditPart(a: Account, m: nat, t: MarketTotals, credit: Fixed)
    requires m < |a.perps|
    ensures PartOf(Credit(a, m, credit), m, t) == PartOf(a, m, t).Plus(Sum(credit, 0, 0))
  {
  }
}
