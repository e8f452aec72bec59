/** What holds after any run of instructions, from an exchange that starts out empty. */
module Safety {
  import opened Types
  import opened FixedPoint
  import opened Events
  import opened Matcher
  import opened PerpState
  import opened OrderPlacement
  import opened Ledger
  import opened Exchange
  import opened Conservation
  import opened OrderIds
  import opened SizeIncentives
  import opened Cancels
  import opened Settlements
  import opened Runs

  // ----- Runs

  /** A failed instruction leaves everything as it was. */
  ghost function After(s: State, st: Step): (s': State)
    requires Inv(s)
    ensures Inv(s') && |s'.markets| == |s.markets|
  {
    if Apply(s, st).Err? then s else StepKeeps(s, st); Apply(s, st).value
  }

  ghost function Run(s: State, steps: seq<Step>): (s': State)
    requires Inv(s)
    ensures Inv(s') && |s'.markets| == |s.markets|
    decreases steps
  {
    if steps == [] then s else Run(After(s, steps[0]), steps[1..])
  }

  /** The rounding of all losses that a run socializes in market `k`. */
  ghost function Changes(s: State, steps: seq<Step>, k: nat): Fixed
    requires Inv(s)
    decreases steps
  {
    if steps == [] then 0
    else (if Apply(s, steps[0]).Ok? then Change(s, steps[0], k) else 0) + Changes(After(s, steps[0]), steps[1..], k)
  }

  /** Over any run the quote in a market changes by the rounding of socialized losses and by nothing else. */
  lemma {:induction false} RunConserves(s: State, steps: seq<Step>, k: nat)
    requires Inv(s) && k < |s.markets|
    ensures var s' := Run(s, steps);
      Value(s'.markets[k], k, s'.accounts) == Value(s.markets[k], k, s.accounts) + Changes(s, steps, k)
    decreases steps
  {
    hide Inv, Value, Apply, Change;
    if steps != [] {
      if Apply(s, steps[0]).Ok? { StepKeeps(s, steps[0]); }
      RunConserves(After(s, steps[0]), steps[1..], k);
    }
  }

  /** The open interest that a step finds when it socializes a loss in market `k`. */
  ghost function Spread(s: State, st: Step, k: nat): int
    requires Inv(s) && k < |s.markets|
  {
    if Socializes(s, st) && st.m == k then s.markets[k].totals.openInterest else 0
  }

  ghost predicate SpreadsOverSomeone(s: State, steps: seq<Step>, k: nat)
    requires Inv(s) && k < |s.markets|
    decreases steps
  {
    steps != [] ==>
      && (Socializes(s, steps[0]) && steps[0].m == k ==> s.markets[k].totals.openInterest > 0)
      && SpreadsOverSomeone(After(s, steps[0]), steps[1..], k)
  }

  ghost function Spreads(s: State, steps: seq<Step>, k: nat): int
    requires Inv(s) && k < |s.markets|
    decreases steps
  {
    if steps == [] then 0 else Spread(s, steps[0], k) + Spreads(After(s, steps[0]), steps[1..], k)
  }

  /** While losses are spread over open contracts, quote is conserved to one unit of 2^-48 per contract and loss. */
  lemma {:induction false} RunConservesToDust(s: State, steps: seq<Step>, k: nat)
    requires Inv(s) && k < |s.markets| && SpreadsOverSomeone(s, steps, k)
    ensures Abs(Changes(s, steps, k)) <= Spreads(s, steps, k)
    decreases steps
  {
    hide Inv, Apply, Created;
    if steps != [] {
      RunConservesToDust(After(s, steps[0]), steps[1..], k);
      var st := steps[0];
      if Socializes(s, st) && st.m == k {
        var debt := s.accounts[st.a].perps[k].quote + FromNum(st.dealing.insurance);
        CreatedIsDust(debt, s.markets[k].totals.openInterest);
      }
    }
  }

  lemma RunOfTwo(s: State, x: Step, y: Step)
    requires Inv(s)
    ensures Run(s, [x, y]) == After(After(s, x), y)
  {
    hide Inv, Apply;
    var s1 := After(s, x);
    assert [x, y][1..] == [y] && [y][1..] == [];
    assert Run(s, [x, y]) == Run(s1, [y]) == Run(After(s1, y), []);
  }

  lemma CancelSideStep(s: State, m: nat, who: Pubkey, side: Side, maxDepth: int, now: nat, limit: nat)
    requires Inv(s) && m < |s.markets| && who < |s.accounts|
    ensures CancelSide(s.markets[m], s.accounts[who], m, side, maxDepth, now, limit).Ok?
    ensures
      var (mk, a) := CancelSide(s.markets[m], s.accounts[who], m, side, maxDepth, now, limit).value;
      After(s, CancelOneSide(m, who, side, maxDepth, now, limit)) == With(s, m, who, mk, a)
  {
    InStepOf(s, m);
    CancelSideKeeps(s.markets[m], m, s.accounts, who, side, maxDepth, now, limit);
    hide CancelSide, InStep, Inv, LedgerOk, PositionsOk;
  }

  function With(s: State, m: nat, who: Pubkey, mk: MarketState, a: Account): State
    requires m < |s.markets| && who < |s.accounts|
  {
    State(s.accounts[who := a], s.markets[m := mk])
  }

  lemma WithTwice(s: State, m: nat, who: Pubkey, mk: MarketState, a: Account)
    requires m < |s.markets| && who < |s.accounts|
    ensures
      var s1 := With(s, m, who, mk, a);
      && |s1.markets| == |s.markets| && |s1.accounts| == |s.accounts|
      && s1.markets[m] == mk && s1.accounts[who] == a
      && forall mk2, a2 :: (With(s1, m, who, mk2, a2) == With(s, m, who, mk2, a2))
  {
  }

  /** Cancelling both sides on one limit is a run of two steps, so what runs keep it keeps as well. */
  lemma CancelBothIsRun(s: State, m: nat, who: Pubkey, maxDepth: int, now: nat, limit: nat)
    requires Inv(s) && m < |s.markets| && who < |s.accounts|
    ensures
      var mk, a := s.markets[m], s.accounts[who];
      var tried := |Merge(Bid, mk.bids, RankKeys(Bid, OwnKeys(a.slots, m, Bid)), maxDepth, now, 0)|;
      One(s, m, who, CancelBoth(mk, a, m, maxDepth, now, limit)) ==
      Ok(Run(s, [CancelOneSide(m, who, Bid, maxDepth, now, limit),
                 CancelOneSide(m, who, Ask, maxDepth, now, LeftOf(limit, tried))]))
  {
    var mk, a := s.markets[m], s.accounts[who];
    InStepOf(s, m);
    CancelBothKeeps(mk, m, s.accounts, who, maxDepth, now, limit);
    hide CancelBoth, CancelSide, InStep, Merge, RankKeys, OwnKeys, Run, After, Inv, Apply;
    var tried := |Merge(Bid, mk.bids, RankKeys(Bid, OwnKeys(a.slots, m, Bid)), maxDepth, now, 0)|;
    var first := CancelOneSide(m, who, Bid, maxDepth, now, limit);
    var second := CancelOneSide(m, who, Ask, maxDepth, now, LeftOf(limit, tried));
    RunOfTwo(s, first, second);
    CancelSideStep(s, m, who, Bid, maxDepth, now, limit);
    var (mk1, a1) := CancelSide(mk, a, m, Bid, maxDepth, now, limit).value;
    WithTwice(s, m, who, mk1, a1);
    assert forall mk2, a2 :: (One(s, m, who, Ok((mk2, a2))) == Ok(With(s, m, who, mk2, a2)));
    hide With, One;
    CancelSideStep(After(s, first), m, who, Ask, maxDepth, now, LeftOf(limit, tried));
  }

  // ----- The start

  /** An exchange with `n` accounts and the given markets, before the first order. */
  function Start(n: nat, markets: seq<MarketTotals>): State {
    var nothing := PerpPosition(0, 0, 0, 0, 0, 0, 0, 0);
    var account := Account(seq(|markets|, _ => nothing), seq(MAX_PERP_OPEN_ORDERS, _ => Free));
    State(seq(n, _ => account),
          seq(|markets|, i requires 0 <= i < |markets| => MarketState(markets[i], [], [], [], 256, 0)))
  }

  ghost predicate Fresh(t: MarketTotals) {
    t.baseLotSize > 0 && t.quoteLotSize > 0 && t.openInterest == 0 && t.seqNum == 0
  }

  lemma {:induction false} NoPositions(accounts: seq<Account>, m: nat, t: MarketTotals)
    requires forall a :: a in accounts ==> forall p :: p in a.perps ==> p.base == 0 && p.quote == 0
    ensures Total(accounts, m, t) == Sum(0, 0, 0)
  {
    if accounts != [] {
      assert accounts[0] in accounts;
      NoPositions(accounts[1..], m, t);
    }
  }

  lemma StartInv(n: nat, markets: seq<MarketTotals>)
    requires forall t :: t in markets ==> Fresh(t)
    ensures Inv(Start(n, markets))
    ensures forall k :: 0 <= k < |markets| ==>
      Value(Start(n, markets).markets[k], k, Start(n, markets).accounts) == markets[k].feesAccrued
  {
    var s := Start(n, markets);
    forall k | 0 <= k < |s.markets|
      ensures Sound(s.markets[k], n) && PositionsOk(s.markets[k], k, s.accounts)
      ensures Value(s.markets[k], k, s.accounts) == markets[k].feesAccrued
    {
      assert Fresh(markets[k]);
      NoPositions(s.accounts, k, s.markets[k].totals);
    }
    forall k, i | 0 <= k < |s.markets| && 0 <= i < |s.accounts|
      ensures Agrees(s.markets[k], k, s.accounts[i], i)
    {
    }
  }

  // ----- What the invariant says

  /** Claims of orders and events on one slot or on lots, none of which can be negative. */
  lemma ClaimsOf(s: State, m: nat, i: nat, c: Claim, side: Side)
    requires Inv(s) && m < |s.markets| && i < |s.accounts|
    ensures m < |s.accounts[i].perps|
    ensures
      var mk := s.markets[m];
      var resting, queued := BookClaims(c, i, mk.Resting(side)), QueueClaims(c, side, i, mk.queue);
      resting >= 0 && queued >= 0 && resting + queued == Recorded(s.accounts[i], m, c, side)
  {
    hide PositionsOk, Named, Numbered, BookClaims, QueueClaims;
    var mk := s.markets[m];
    assert Agrees(mk, m, s.accounts[i], i);
    assert Sound(mk, |s.accounts|);
    ClaimsNonNegative(c, side, i, mk.Resting(side), mk.queue, |s.accounts|);
    assert Held(mk, c, side, i) == Recorded(s.accounts[i], m, c, side);
  }

  /**
   * Every slot in use belongs to one thing only: an order on the book, a queued fill that used one up, or a queued
   * Out event. A free slot belongs to none.
   */
  lemma SlotsExact(s: State, m: nat, i: nat, slot: nat, side: Side)
    requires Inv(s) && m < |s.markets| && i < |s.accounts| && slot < |s.accounts[i].slots|
    ensures
      var mk, used := s.markets[m], s.accounts[i].slots[slot];
      var resting, queued := BookClaims(OnSlot(slot), i, mk.Resting(side)),
        QueueClaims(OnSlot(slot), side, i, mk.queue);
      if used.Used? && used.market == m && used.side == side
      then (resting == 1 && queued == 0) || (resting == 0 && queued == 1)
      else resting == 0 && queued == 0
  {
    hide Inv, BookClaims, QueueClaims;
    ClaimsOf(s, m, i, OnSlot(slot), side);
  }

  /** Quantities on order are the lots that rest, that fills still have to pay out and that have been thrown out. */
  lemma QuantitiesExact(s: State, m: nat, i: nat, side: Side)
    requires Inv(s) && m < |s.markets| && i < |s.accounts|
    ensures m < |s.accounts[i].perps|
    ensures s.accounts[i].perps[m].Quantity(side) ==
            BookClaims(OnLots, i, s.markets[m].Resting(side)) + QueueClaims(OnLots, side, i, s.markets[m].queue)
    ensures s.accounts[i].perps[m].Quantity(side) >= 0
  {
    hide Inv, BookClaims, QueueClaims;
    ClaimsOf(s, m, i, OnLots, side);
  }

  /** An account that has nothing on order has no order on the book, and no maker fill or Out event in the queue. */
  lemma NothingOnOrder(s: State, m: nat, i: nat, side: Side)
    requires Inv(s) && m < |s.markets| && i < |s.accounts| && m < |s.accounts[i].perps|
    ensures s.accounts[i].perps[m].Quantity(side) == 0 <==>
      && (forall o :: o in s.markets[m].Resting(side) ==> o.owner != i)
      && (forall e :: e in s.markets[m].queue ==>
           (e.Fill? && e.maker == i ==> e.takerSide == side) && (e.Out? && e.owner == i ==> e.side != side))
  {
    var mk := s.markets[m];
    QuantitiesExact(s, m, i, side);
    assert Sound(mk, |s.accounts|);
    BookLotsZero(i, mk.Resting(side));
    QueueLotsZero(i, side, mk.queue, |s.accounts|);
    ClaimsOf(s, m, i, OnLots, side);
  }

  lemma {:induction false} BookLotsZero(i: Pubkey, s: seq<LeafNode>)
    requires Tradable(s)
    ensures BookClaims(OnLots, i, s) >= 0
    ensures BookClaims(OnLots, i, s) == 0 <==> forall o :: o in s ==> o.owner != i
  {
    if s != [] {
      assert s == [s[0]] + s[1..];
      assert s[0] in s;
      BookLotsZero(i, s[1..]);
    }
  }

  predicate Untouched(i: Pubkey, side: Side, e: Event) {
    (e.Fill? && e.maker == i ==> e.takerSide == side) && (e.Out? && e.owner == i ==> e.side != side)
  }

  lemma {:induction false} QueueLotsZero(i: Pubkey, side: Side, q: seq<Event>, n: nat)
    requires forall e :: e in q ==> SoundEvent(e, n)
    ensures QueueClaims(OnLots, side, i, q) >= 0
    ensures QueueClaims(OnLots, side, i, q) == 0 <==> forall e :: e in q ==> Untouched(i, side, e)
  {
    if q != [] {
      assert q == [q[0]] + q[1..];
      assert q[0] in q;
      QueueLotsZero(i, side, q[1..], n);
    }
  }

  /** Longs and shorts of a market in base lots. */
  function Longs(accounts: seq<Account>, m: nat): int {
    if accounts == [] then 0
    else (if m < |accounts[0].perps| then Max(accounts[0].perps[m].base, 0) else 0) + Longs(accounts[1..], m)
  }

  function Shorts(accounts: seq<Account>, m: nat): int {
    if accounts == [] then 0
    else (if m < |accounts[0].perps| then Max(-accounts[0].perps[m].base, 0) else 0) + Shorts(accounts[1..], m)
  }

  lemma {:induction false} LongsAndShorts(accounts: seq<Account>, m: nat, t: MarketTotals)
    ensures Total(accounts, m, t).base == Longs(accounts, m) - Shorts(accounts, m)
    ensures Total(accounts, m, t).gross == Longs(accounts, m) + Shorts(accounts, m)
  {
    if accounts != [] { LongsAndShorts(accounts[1..], m, t); }
  }

  /** Every contract has a long and a short, and open interest counts both. */
  lemma LongsEqualShorts(s: State, m: nat)
    requires Inv(s) && m < |s.markets|
    ensures Longs(s.accounts, m) == Shorts(s.accounts, m)
    ensures s.markets[m].totals.openInterest == 2 * Longs(s.accounts, m)
  {
    LongsAndShorts(s.accounts, m, s.markets[m].totals);
    hide LedgerOk;
    assert PositionsOk(s.markets[m], m, s.accounts);
  }

  /**
   * The program takes these four zeros for no orders and no unprocessed fills. They do mean no order on the book and
   * no maker fill or Out event in the queue, but of taker fills only that their sums are zero.
   */
  lemma NoOpenOrdersMeans(s: State, m: nat, i: nat)
    requires Inv(s) && m < |s.markets| && i < |s.accounts|
    ensures m < |s.accounts[i].perps|
    ensures NoOpenOrders(s.accounts[i].perps[m]) <==>
      && (forall side, o :: o in s.markets[m].Resting(side) ==> o.owner != i)
      && (forall e :: e in s.markets[m].queue ==> (e.Fill? ==> e.maker != i) && (e.Out? ==> e.owner != i))
      && TakerBase(s.markets[m].queue, i) == 0 && TakerQuote(s.markets[m].queue, i) == 0
  {
    var mk := s.markets[m];
    QuantitiesExact(s, m, i, Bid);
    NothingOnOrder(s, m, i, Bid);
    NothingOnOrder(s, m, i, Ask);
    assert Agrees(mk, m, s.accounts[i], i);
    hide Inv, NoOpenOrders;
    assert mk.Resting(Bid) == mk.bids && mk.Resting(Ask) == mk.asks;
    QuantityZeros(s.accounts[i].perps[m]);
    if forall e :: e in mk.queue ==> (e.Fill? ==> e.maker != i) && (e.Out? ==> e.owner != i) {
    } else {
      var e :| e in mk.queue && !((e.Fill? ==> e.maker != i) && (e.Out? ==> e.owner != i));
      assert !Untouched(i, if e.Fill? then InvertSide(e.takerSide) else e.side, e);
    }
  }

  lemma QuantityZeros(p: PerpPosition)
    ensures NoOpenOrders(p) <==> p.Quantity(Bid) == 0 && p.Quantity(Ask) == 0 && p.takerBase == 0 && p.takerQuote == 0
  {
  }

  predicate TakenOn(e: Event, i: Pubkey, side: Side) { e.Fill? && e.taker == i && e.takerSide == side }

  /** Taker fills of one side alone cannot add up to nothing. */
  lemma {:induction false} OneSideAddsUp(q: seq<Event>, i: Pubkey, side: Side, n: nat)
    requires forall e :: e in q ==> SoundEvent(e, n) && !TakenOn(e, i, InvertSide(side))
    ensures if side == Bid then TakerBase(q, i) >= 0 else TakerBase(q, i) <= 0
    ensures TakerBase(q, i) == 0 <==> forall e :: e in q ==> !TakenOn(e, i, side)
  {
    if q != [] {
      assert q == [q[0]] + q[1..] && q[0] in q;
      OneSideAddsUp(q[1..], i, side, n);
    }
  }

  /**
   * With the four zeros an account has queued taker fills on both sides or on neither. So they rule out unprocessed
   * fills of an account that has been taking on one side only.
   */
  lemma ZerosRuleOutOneSide(s: State, m: nat, i: nat, side: Side)
    requires Inv(s) && m < |s.markets| && i < |s.accounts| && m < |s.accounts[i].perps|
    requires NoOpenOrders(s.accounts[i].perps[m])
    ensures (exists e :: e in s.markets[m].queue && TakenOn(e, i, side)) <==>
            (exists e :: e in s.markets[m].queue && TakenOn(e, i, InvertSide(side)))
  {
    NoOpenOrdersMeans(s, m, i);
    var q := s.markets[m].queue;
    assert Sound(s.markets[m], |s.accounts|);
    hide Inv, NoOpenOrders;
    if forall e :: e in q ==> !TakenOn(e, i, InvertSide(side)) { OneSideAddsUp(q, i, side, |s.accounts|); }
    if forall e :: e in q ==> !TakenOn(e, i, side) { OneSideAddsUp(q, i, InvertSide(side), |s.accounts|); }
  }

  /** For an account that takes on one side only the zeros say just what the program takes them for. */
  lemma NoOpenOrdersOnOneSide(s: State, m: nat, i: nat, side: Side)
    requires Inv(s) && m < |s.markets| && i < |s.accounts| && m < |s.accounts[i].perps|
    requires forall e :: e in s.markets[m].queue ==> !TakenOn(e, i, InvertSide(side))
    ensures NoOpenOrders(s.accounts[i].perps[m]) <==>
      && (forall sd, o :: o in s.markets[m].Resting(sd) ==> o.owner != i)
      && (forall e :: e in s.markets[m].queue ==>
           (e.Fill? ==> e.maker != i && e.taker != i) && (e.Out? ==> e.owner != i))
  {
    NoOpenOrdersMeans(s, m, i);
    var q := s.markets[m].queue;
    assert Sound(s.markets[m], |s.accounts|);
    hide Inv;
    OneSideAddsUp(q, i, side, |s.accounts|);
    assert forall e :: e in q && e.Fill? && e.taker == i ==> TakenOn(e, i, side) || TakenOn(e, i, InvertSide(side));
    if forall e :: e in q ==> e.Fill? ==> e.taker != i { NoTakerSums(q, i); }
  }

  lemma {:induction false} NoTakerSums(q: seq<Event>, i: Pubkey)
    requires forall e :: e in q ==> e.Fill? ==> e.taker != i
    ensures TakerBase(q, i) == 0 && TakerQuote(q, i) == 0
  {
    if q != [] {
      assert q[0] in q;
      NoTakerSums(q[1..], i);
    }
  }

  // ----- Accrued fees never go negative

  /**
   * Booking maker fees at once keeps what an order adds to the fees non-negative when the taker pays for a maker
   * rebate.
   */
  lemma FeesOfOrder(a: Account, m: nat, t: MarketTotals, rq: Request, taken: int, ref: Referral)
    requires m < |a.perps| && t.quoteLotSize > 0 && taken > 0 && rq.takerFee + rq.makerFee >= 0
    ensures ApplyFees(a, m, t, rq, taken, ref).1.feesAccrued >= t.feesAccrued
  {
    var native := t.quoteLotSize * taken;
    Positive(t.quoteLotSize, taken);
    assert native * rq.takerFee + native * rq.makerFee == native * (rq.takerFee + rq.makerFee) >= 0 by {
      TimesOrder(0, native, rq.takerFee + rq.makerFee);
    }
    if ref.rate > 0 { TimesOrder(0, native, ref.rate); }
  }

  lemma NewOrderFees(mk: MarketState, a: Account, m: nat, rq: Request)
    requires MarketOk(mk) && rq.Wellformed() && m < |a.perps| && NewOrder(mk, a, m, rq).Ok?
    requires rq.takerFee + rq.makerFee >= 0
    ensures NewOrder(mk, a, m, rq).value.0.totals.feesAccrued >= mk.totals.feesAccrued
  {
    hide NewOrder, PriceOf, MatchOf, WithinPriceLimit, TakerState, Post, ApplyFees, OrderId;
    NewOrderParts(mk, a, m, rq);
    var (postOnly, postable, price) := PriceOf(mk, rq).value;
    var w := MatchOf(mk, rq, postOnly, price);
    var mk1, a1 := MatchedMarket(mk, rq, w), TakerState(a, m, rq.side, rq.Spendable(mk), w.left);
    var rest := Min(w.left.base, w.left.quote / price);
    var posts := postable && WithinPriceLimit(rq, mk.totals, price) && w.PostAllowed() && rest > 0;
    var key := OrderId(rq.side, price, mk1.totals.seqNum);
    var (mk2, a2) := if posts then Post(mk1, a1, m, rq, price, rest, key).value else (mk1, a1);
    var taken := rq.maxQuote - w.left.quote;
    if taken > 0 && rq.referral.Ok? { FeesOfOrder(a2, m, mk2.totals, rq, taken, rq.referral.value); }
  }

  /** An order in market `k` whose taker fee covers the maker rebate; other steps are not concerned. */
  predicate Covers(st: Step, k: nat) {
    st.Place? && st.m == k ==> st.rq.takerFee + st.rq.makerFee >= 0
  }

  lemma DealFees(s: State, m: nat, a: Pubkey, b: Pubkey, d: Dealing)
    requires Two(s, m, a, b) && s.markets[m].totals.openInterest >= 0 && Deal(s, m, a, b, d).Ok?
    ensures |Deal(s, m, a, b, d).value.markets| == |s.markets|
    ensures Deal(s, m, a, b, d).value.markets[m].totals.feesAccrued == s.markets[m].totals.feesAccrued
  {
    hide Mul, Div, FromNum, PerpPosition.SettleFunding, Insured, Uninsured, PnlTransfer, LiquidatedBase, Abs;
  }

  lemma StepFees(s: State, st: Step, k: nat)
    requires Inv(s) && Apply(s, st).Ok? && k < |s.markets| && s.markets[k].totals.feesAccrued >= 0 && Covers(st, k)
    ensures k < |Apply(s, st).value.markets| && Apply(s, st).value.markets[k].totals.feesAccrued >= 0
  {
    StepOutcome(s, st);
    if st.m == k {
      StepFeesHere(s, st);
    } else {
      hide Inv, Apply, LedgerOk, Change;
    }
  }

  lemma StepFeesHere(s: State, st: Step)
    requires Inv(s) && Apply(s, st).Ok? && Covers(st, st.m)
    ensures st.m < |s.markets| == |Apply(s, st).value.markets|
    ensures s.markets[st.m].totals.feesAccrued >= 0 ==> Apply(s, st).value.markets[st.m].totals.feesAccrued >= 0
  {
    var m := st.m;
    var mk := s.markets[m];
    OpenInterestCounts(s, m);
    ShapeOf(s, m);
    assert Sound(mk, |s.accounts|);
    hide LedgerOk, Sound, NewOrder, CancelAt, CancelFrom, CancelKeys, ConsumeAccounts, Deal, SettleFees, PositionsOk;
    match st
    case Place(_, rq, _) =>
      NewOrderFees(mk, s.accounts[rq.taker], m, rq);
    case Consume(_) =>
      if mk.queue != [] {
        assert mk.queue[0] in mk.queue && SoundEvent(mk.queue[0], |s.accounts|) by { SoundHead(mk, |s.accounts|); }
        TotalsKept(s.accounts, m, mk.totals, mk.queue[0]);
      }
    case Cancel(_, who, orderId, _) =>
      FindSlotFinds(s.accounts[who].slots, m, orderId);
      CancelAtPart(mk, s.accounts[who], m, FindSlot(s.accounts[who].slots, m, orderId).value, mk.totals);
    case CancelAll(_, who, limit) =>
      CancelFromPart(mk, s.accounts[who], m, 0, limit, mk.totals);
    case CancelOneSide(_, who, side, maxDepth, now, limit) =>
      var mine := RankKeys(side, OwnKeys(s.accounts[who].slots, m, side));
      var keys := KeysReported(Merge(side, mk.Resting(side), mine, maxDepth, now, 0));
      CancelKeysPart(mk, s.accounts[who], m, side, keys, limit, mk.totals);
    case UpdateFunding(_, _) =>
    case Fees(_, who, price, forceClose) =>
      if mk.totals.feesAccrued >= 0 { SettleFeesBounds(s.accounts[who].perps[m], mk.totals, price, forceClose); }
    case Between(_, a, b, d) =>
      DealFees(s, m, a, b, d);
  }

  lemma SoundHead(mk: MarketState, n: nat)
    requires Sound(mk, n) && mk.queue != []
    ensures SoundEvent(mk.queue[0], n)
  {
    assert mk.queue[0] in mk.queue;
  }

  /** Over any run of orders whose taker fees cover the maker rebates, accrued fees stay non-negative. */
  lemma {:induction false} FeesStayNonNegative(s: State, steps: seq<Step>, k: nat)
    requires Inv(s) && k < |s.markets| && s.markets[k].totals.feesAccrued >= 0
    requires forall st :: st in steps ==> Covers(st, k)
    ensures Run(s, steps).markets[k].totals.feesAccrued >= 0
    decreases steps
  {
    hide Inv, Apply, Covers;
    if steps != [] {
      assert steps[0] in steps;
      if Apply(s, steps[0]).Ok? { StepFees(s, steps[0], k); }
      FeesStayNonNegative(After(s, steps[0]), steps[1..], k);
    }
  }

  // ----- Draining the queue

  /** The state once every queued event of a market has been consumed. */
  ghost function Drain(s: State, m: nat): State
    requires LedgerOk(s) && m < |s.markets|
    decreases |s.markets[m].queue|
  {
    if s.markets[m].queue == [] then s
    else
      ConsumeKeepsLedger(s, m);
      Drain(ConsumeEvent(s, m).value, m)
  }

  lemma {:induction false} MakerBaseConcat(a: seq<Event>, b: seq<Event>, i: Pubkey)
    ensures MakerBase(a + b, i) == MakerBase(a, i) + MakerBase(b, i)
  {
    if a == [] {
      assert a + b == b;
    } else {
      assert (a + b)[1..] == a[1..] + b;
      MakerBaseConcat(a[1..], b, i);
    }
  }

  lemma MakerBaseMoves(a: Account, m: nat, t: MarketTotals, e: Event)
    requires m < |a.perps| && e.Fill? && ExecuteMaker(a, m, t, e).Ok?
    ensures var a' := ExecuteMaker(a, m, t, e).value.0;
      && |a'.perps| == |a.perps|
      && a'.perps[m].base == a.perps[m].base + e.BaseQuoteChange(InvertSide(e.takerSide)).0
  {
    hide MakerFees, FromNum, PerpPosition.QuotePosition;
  }

  lemma TakerBaseMoves(a: Account, m: nat, t: MarketTotals, e: Event)
    requires m < |a.perps| && e.Fill?
    ensures var a' := ExecuteTaker(a, m, t, e).0;
      && |a'.perps| == |a.perps|
      && a'.perps[m].base == a.perps[m].base + e.BaseQuoteChange(e.takerSide).0
  {
    hide FromNum, PerpPosition.QuotePosition;
  }

  lemma EventMovesBase(accounts: seq<Account>, m: nat, t: MarketTotals, e: Event, i: nat)
    requires SoundEvent(e, |accounts|) && (forall k :: 0 <= k < |accounts| ==> m < |accounts[k].perps|)
             && i < |accounts|
    requires ConsumeAccounts(accounts, m, t, e).Ok?
    ensures var accounts' := ConsumeAccounts(accounts, m, t, e).value.0;
      && |accounts'| == |accounts| && m < |accounts'[i].perps|
      && accounts'[i].perps[m].base == accounts[i].perps[m].base + TakerBase([e], i) + MakerBase([e], i)
  {
    hide ExecuteMaker, ExecuteTaker, TakerBase, Event.BaseQuoteChange;
    OneEvent(e);
    assert [e][1..] == [];
    match e
    case Fill(_, _, _, _, _, maker, _, _, _, _, _, taker, _, _, _, _, _, _) =>
      MakerBaseMoves(accounts[maker], m, t, e);
      var (a, t1) := ExecuteMaker(accounts[maker], m, t, e).value;
      TakerBaseMoves(accounts[maker := a][taker], m, t1, e);
    case Out(_, slot, _, _, owner, quantity) =>
    case Liquidate(_, _, _, _, _, _, _) =>
  }

  /**
   * Draining ends every promise of the queue: each base position becomes what the program calls the complete base
   * position, self-trades included, and no taker lots are left on the way.
   */
  lemma {:induction false} DrainCompletes(s: State, m: nat, i: nat)
    requires LedgerOk(s) && m < |s.markets| && i < |s.accounts|
    ensures m < |s.accounts[i].perps|
    ensures var s' := Drain(s, m);
      && LedgerOk(s') && |s'.markets| == |s.markets| && s'.markets[m].queue == [] && |s'.accounts| == |s.accounts|
      && m < |s'.accounts[i].perps| && s'.accounts[i].perps[m].takerBase == 0 && s'.accounts[i].perps[m].takerQuote == 0
      && s'.accounts[i].perps[m].base ==
         s.accounts[i].perps[m].base + s.accounts[i].perps[m].takerBase + MakerBase(s.markets[m].queue, i)
    decreases |s.markets[m].queue|
  {
    var mk := s.markets[m];
    InStepOf(s, m);
    assert Agrees(mk, m, s.accounts[i], i);
    if mk.queue != [] {
      var e := mk.queue[0];
      assert e in mk.queue && Sound(mk, |s.accounts|);
      ConsumeKeepsLedger(s, m);
      var s1 := ConsumeEvent(s, m).value;
      hide LedgerOk, Sound, MarketStep, ConsumeAccounts, TakerBase, TakerQuote, MakerBase;
      EventMovesBase(s.accounts, m, mk.totals, e, i);
      DrainCompletes(s1, m, i);
      InStepOf(s1, m);
      assert Agrees(s1.markets[m], m, s1.accounts[i], i);
      assert mk.queue == [e] + mk.queue[1..];
      QueueSumsConcat(mk.totals, i, [e], mk.queue[1..]);
      MakerBaseConcat([e], mk.queue[1..], i);
    }
  }

  /** Quote that queued fills still bring to `pk` as maker, less its fees. */
  function MakerPay(events: seq<Event>, t: MarketTotals, pk: Pubkey): Fixed {
    if events == [] then 0
    else
      var e := events[0];
      MakerPay(events[1..], t, pk) +
      if e.Fill? && e.maker == pk
      then FromNum(t.quoteLotSize * e.BaseQuoteChange(InvertSide(e.takerSide)).1) - MakerFees(t, e)
      else 0
  }

  /** The quote position of account `i` with its funding. */
  function QuoteNow(accounts: seq<Account>, m: nat, t: MarketTotals, i: nat): Fixed
    requires i < |accounts| && m < |accounts[i].perps|
  {
    accounts[i].perps[m].QuotePosition(t.longFunding, t.shortFunding)
  }

  /** Funding that has been settled is not due again. */
  lemma SettledQuote(p: PerpPosition, t: MarketTotals, base: int, change: Fixed)
    ensures
      var f := p.SettleFunding(t.longFunding, t.shortFunding);
      f.(base := base, quote := f.quote + change).QuotePosition(t.longFunding, t.shortFunding) ==
      p.QuotePosition(t.longFunding, t.shortFunding) + change
  {
  }

  lemma MakerQuoteMoves(a: Account, m: nat, t: MarketTotals, e: Event)
    requires m < |a.perps| && e.Fill? && ExecuteMaker(a, m, t, e).Ok?
    ensures var (a', t') := ExecuteMaker(a, m, t, e).value;
      && |a'.perps| == |a.perps| && t' == t.(openInterest := t'.openInterest)
      && a'.perps[m].QuotePosition(t.longFunding, t.shortFunding) ==
         a.perps[m].QuotePosition(t.longFunding, t.shortFunding)
         + FromNum(t.quoteLotSize * e.BaseQuoteChange(InvertSide(e.takerSide)).1) - MakerFees(t, e)
  {
    var (base, quote) := e.BaseQuoteChange(InvertSide(e.takerSide));
    SettledQuote(a.perps[m], t, a.perps[m].base + base, FromNum(t.quoteLotSize * quote) - MakerFees(t, e));
    hide MakerFees, FromNum;
  }

  lemma TakerQuoteMoves(a: Account, m: nat, t: MarketTotals, e: Event)
    requires m < |a.perps| && e.Fill?
    ensures var (a', t') := ExecuteTaker(a, m, t, e);
      && |a'.perps| == |a.perps| && t' == t.(openInterest := t'.openInterest)
      && a'.perps[m].QuotePosition(t.longFunding, t.shortFunding) ==
         a.perps[m].QuotePosition(t.longFunding, t.shortFunding)
         + FromNum(t.quoteLotSize * e.BaseQuoteChange(e.takerSide).1)
  {
    var (base, quote) := e.BaseQuoteChange(e.takerSide);
    SettledQuote(a.perps[m], t, a.perps[m].base + base, FromNum(t.quoteLotSize * quote));
    hide FromNum;
  }

  lemma RemovalQuote(a: Account, slot: nat, quantity: int, m: nat, t: MarketTotals)
    requires m < |a.perps| && RemoveOrderAt(a, slot, quantity).Ok?
    ensures var a' := RemoveOrderAt(a, slot, quantity).value;
      && |a'.perps| == |a.perps|
      && a'.perps[m].QuotePosition(t.longFunding, t.shortFunding) ==
         a.perps[m].QuotePosition(t.longFunding, t.shortFunding)
  {
  }

  lemma EventMovesQuote(accounts: seq<Account>, m: nat, t: MarketTotals, e: Event, i: nat)
    requires SoundEvent(e, |accounts|) && (forall k :: 0 <= k < |accounts| ==> m < |accounts[k].perps|)
             && i < |accounts|
    requires ConsumeAccounts(accounts, m, t, e).Ok?
    ensures var (accounts', t') := ConsumeAccounts(accounts, m, t, e).value;
      && |accounts'| == |accounts| && m < |accounts'[i].perps| && t' == t.(openInterest := t'.openInterest)
      && QuoteNow(accounts', m, t', i) ==
         QuoteNow(accounts, m, t, i) + FromNum(t.quoteLotSize * TakerQuote([e], i)) + MakerPay([e], t, i)
  {
    hide ExecuteMaker, ExecuteTaker, TakerQuote, Event.BaseQuoteChange, MakerFees, PerpPosition.QuotePosition;
    OneEvent(e);
    assert [e][1..] == [];
    assert FromNum(t.quoteLotSize * 0) == 0;
    match e
    case Fill(_, _, _, _, _, maker, _, _, _, _, _, taker, _, _, _, _, _, _) =>
      MakerQuoteMoves(accounts[maker], m, t, e);
      var (a, t1) := ExecuteMaker(accounts[maker], m, t, e).value;
      TakerQuoteMoves(accounts[maker := a][taker], m, t1, e);
    case Out(_, slot, _, _, owner, quantity) =>
      RemovalQuote(accounts[owner], slot, quantity, m, t);
    case Liquidate(_, _, _, _, _, _, _) =>
  }

  lemma {:induction false} MakerPayConcat(a: seq<Event>, b: seq<Event>, t: MarketTotals, i: Pubkey)
    ensures MakerPay(a + b, t, i) == MakerPay(a, t, i) + MakerPay(b, t, i)
  {
    hide MakerFees, FromNum;
    if a == [] {
      assert a + b == b;
    } else {
      assert (a + b)[1..] == a[1..] + b;
      MakerPayConcat(a[1..], b, t, i);
    }
  }

  lemma {:induction false} MakerPayTotals(q: seq<Event>, t: MarketTotals, t': MarketTotals, i: Pubkey)
    requires t'.quoteLotSize == t.quoteLotSize
    ensures MakerPay(q, t', i) == MakerPay(q, t, i)
  {
    if q != [] { MakerPayTotals(q[1..], t, t', i); }
  }

  /** The quote that an account has in a market and that its unprocessed fills will bring, less its maker fees. */
  function CompleteQuote(s: State, m: nat, i: nat): Fixed
    requires m < |s.markets| && i < |s.accounts| && m < |s.accounts[i].perps|
  {
    var t := s.markets[m].totals;
    QuoteNow(s.accounts, m, t, i) + FromNum(t.quoteLotSize * s.accounts[i].perps[m].takerQuote)
    + MakerPay(s.markets[m].queue, t, i)
  }

  lemma PaySplits(q: seq<Event>, t: MarketTotals, i: Pubkey)
    requires q != []
    ensures FromNum(t.quoteLotSize * TakerQuote(q, i)) + MakerPay(q, t, i) ==
            FromNum(t.quoteLotSize * TakerQuote([q[0]], i)) + MakerPay([q[0]], t, i)
            + FromNum(t.quoteLotSize * TakerQuote(q[1..], i)) + MakerPay(q[1..], t, i)
  {
    hide TakerQuote, MakerPay, FromNum;
    assert q == [q[0]] + q[1..];
    QueueSumsConcat(t, i, [q[0]], q[1..]);
    MakerPayConcat([q[0]], q[1..], t, i);
    LotsAdd(t.quoteLotSize, TakerQuote([q[0]], i), TakerQuote(q[1..], i));
  }

  lemma TakerQuoteIs(s: State, m: nat, i: nat)
    requires LedgerOk(s) && m < |s.markets| && i < |s.accounts|
    ensures m < |s.accounts[i].perps| && s.accounts[i].perps[m].takerQuote == TakerQuote(s.markets[m].queue, i)
  {
    assert Agrees(s.markets[m], m, s.accounts[i], i);
  }

  lemma ConsumePays(s: State, m: nat, i: nat)
    requires LedgerOk(s) && m < |s.markets| && i < |s.accounts| && s.markets[m].queue != []
    ensures ConsumeEvent(s, m).Ok? && m < |ConsumeEvent(s, m).value.markets|
    ensures |ConsumeEvent(s, m).value.accounts| == |s.accounts|
    ensures m < |s.accounts[i].perps| && m < |ConsumeEvent(s, m).value.accounts[i].perps|
    ensures CompleteQuote(ConsumeEvent(s, m).value, m, i) == CompleteQuote(s, m, i)
  {
    var mk := s.markets[m];
    var e := mk.queue[0];
    ConsumeKeepsLedger(s, m);
    TakerQuoteIs(s, m, i);
    TakerQuoteIs(ConsumeEvent(s, m).value, m, i);
    ShapeOf(s, m);
    assert e in mk.queue && SoundEvent(e, |s.accounts|) by { assert Sound(mk, |s.accounts|); }
    hide LedgerOk, MarketStep, ConsumeAccounts, TakerQuote, MakerPay, QuoteNow, FromNum;
    EventMovesQuote(s.accounts, m, mk.totals, e, i);
    PaySplits(mk.queue, mk.totals, i);
    MakerPayTotals(mk.queue[1..], mk.totals, ConsumeEvent(s, m).value.markets[m].totals, i);
  }

  /** Draining pays every account what it has taken and made: to the bit, with its maker fees and its funding. */
  lemma {:induction false} DrainPays(s: State, m: nat, i: nat)
    requires LedgerOk(s) && m < |s.markets| && i < |s.accounts|
    ensures m < |s.accounts[i].perps|
    ensures var s' := Drain(s, m);
      && |s'.markets| == |s.markets| && |s'.accounts| == |s.accounts| && m < |s'.accounts[i].perps|
      && QuoteNow(s'.accounts, m, s'.markets[m].totals, i) == CompleteQuote(s, m, i)
    decreases |s.markets[m].queue|
  {
    TakerQuoteIs(s, m, i);
    if s.markets[m].queue != [] {
      ConsumePays(s, m, i);
      ConsumeKeepsLedger(s, m);
      hide LedgerOk, CompleteQuote, QuoteNow;
      DrainPays(ConsumeEvent(s, m).value, m, i);
    } else {
      NothingToPay(s.markets[m].totals, i);
    }
  }

  lemma NothingToPay(t: MarketTotals, i: Pubkey)
    ensures FromNum(t.quoteLotSize * TakerQuote([], i)) == 0 == MakerPay([], t, i)
  {
  }

  lemma LotsAdd(lot: int, a: int, b: int)
    ensures FromNum(lot * (a + b)) == FromNum(lot * a) + FromNum(lot * b)
  {
    Distribute(a, b, lot);
  }
}
