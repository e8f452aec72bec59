/** All instructions together: what every run of the exchange keeps. */
module Runs {
  import opened OrderLists
  import opened OrderKeys
  import opened Types
  import opened FixedPoint
  import opened Events
  import opened PerpState
  import opened OrderPlacement
  import opened Ledger
  import opened Exchange
  import opened Placing
  import opened SizeIncentives
  import opened Cancels
  import opened Settlements
  import opened Conservation

  /** The instructions on perp markets. Prices, funding changes and what health allows are inputs. */
  datatype Step =
    | Place(m: nat, rq: Request, referrer: Pubkey)
    | Consume(m: nat)
    | Cancel(m: nat, who: Pubkey, orderId: Key, now: nat)
    | CancelAll(m: nat, who: Pubkey, limit: nat)
    | CancelOneSide(m: nat, who: Pubkey, side: Side, maxDepth: int, now: nat, limit: nat)
    | UpdateFunding(m: nat, delta: Fixed)
    | Fees(m: nat, who: Pubkey, price: Fixed, forceClose: bool)
    | Between(m: nat, a: Pubkey, b: Pubkey, dealing: Dealing)

  /** What two accounts settle with each other. */
  datatype Dealing =
    | Profits(price: Fixed)
    | LiquidateQuote(quote: Fixed)
    | LiquidateBase(request: int, maxTransfer: int, price: Fixed, fee: Fixed, now: nat)
    | CloseOut(price: Fixed)
    | Bankruptcy(maxTransfer: Fixed, insurance: nat)

  ghost predicate Inv(s: State) {
    LedgerOk(s) && forall m :: 0 <= m < |s.markets| ==> PositionsOk(s.markets[m], m, s.accounts)
  }

  /** Two different accounts: the program borrows each one once. */
  predicate Two(s: State, m: nat, a: Pubkey, b: Pubkey) {
    && a < |s.accounts| && b < |s.accounts| && a != b
    && m < |s.accounts[a].perps| && m < |s.accounts[b].perps| && m < |s.markets|
  }

  function PairOf(s: State, m: nat, a: Pubkey, b: Pubkey): Pair
    requires Two(s, m, a, b)
  {
    Pair(s.accounts[a].perps[m], s.accounts[b].perps[m], s.markets[m].totals)
  }

  function At(a: Account, m: nat, p: PerpPosition): Account
    requires m < |a.perps|
  {
    a.(perps := a.perps[m := p])
  }

  function Put(s: State, m: nat, a: Pubkey, b: Pubkey, x: Pair): State
    requires Two(s, m, a, b)
  {
    State(s.accounts[a := At(s.accounts[a], m, x.p)][b := At(s.accounts[b], m, x.q)],
          s.markets[m := s.markets[m].(totals := x.t)])
  }

  /** No orders, and no taker lots or quote on the way. */
  predicate NoOpenOrders(p: PerpPosition) {
    p.bidsQuantity == 0 && p.asksQuantity == 0 && p.takerQuote == 0 && p.takerBase == 0
  }

  /** Some position has orders or something on the way. */
  predicate AnyOpenOrders(perps: seq<PerpPosition>) { exists p :: p in perps && !NoOpenOrders(p) }

  function Log(s: State, m: nat, e: Event): Result<State>
    requires m < |s.markets|
  {
    var mk := s.markets[m];
    if |mk.queue| >= mk.capacity then Err(Panic) else Ok(s.(markets := s.markets[m := mk.Push([e])]))
  }

  function One(s: State, m: nat, who: Pubkey, r: Result<(MarketState, Account)>): Result<State>
    requires m < |s.markets| && who < |s.accounts|
  {
    match r
    case Err(e) => Err(e)
    case Ok((mk, a)) => Ok(State(s.accounts[who := a], s.markets[m := mk]))
  }

  function Funding(s: State, m: nat, delta: Fixed): State
    requires m < |s.markets|
  {
    var t := s.markets[m].totals;
    var t' := t.(longFunding := t.longFunding + delta, shortFunding := t.shortFunding + delta);
    s.(markets := s.markets[m := s.markets[m].(totals := t')])
  }

  /** One instruction; an error means that nothing has happened. */
  ghost function Apply(s: State, st: Step): Result<State>
    requires Inv(s)
  {
    if st.m >= |s.markets| then Err(InvalidParam) else
    OpenInterestCounts(s, st.m);
    var mk := s.markets[st.m];
    match st
    case Place(m, rq, referrer) =>
      if MayPlace(s, m, rq, referrer) then PlaceOrder(s, m, rq, referrer) else Err(InvalidParam)
    case Consume(m) => ConsumeEvent(s, m)
    case Cancel(m, who, orderId, now) =>
      if who >= |s.accounts| then Err(InvalidParam)
      else One(s, m, who, CancelOrder(mk, s.accounts[who], m, who, orderId, now))
    case CancelAll(m, who, limit) =>
      if who >= |s.accounts| then Err(InvalidParam) else One(s, m, who, CancelFrom(mk, s.accounts[who], m, 0, limit))
    case CancelOneSide(m, who, side, maxDepth, now, limit) =>
      if who >= |s.accounts| then Err(InvalidParam)
      else One(s, m, who, CancelSide(mk, s.accounts[who], m, side, maxDepth, now, limit))
    case UpdateFunding(m, delta) => Ok(Funding(s, m, delta))
    case Fees(m, who, price, forceClose) =>
      if who >= |s.accounts| then Err(InvalidParam)
      else
        var (p, t) := SettleFees(s.accounts[who].perps[m], mk.totals, price, forceClose);
        Ok(State(s.accounts[who := At(s.accounts[who], m, p)], s.markets[m := mk.(totals := t)]))
    case Between(m, a, b, d) => if Two(s, m, a, b) then Deal(s, m, a, b, d) else Err(InvalidParam)
  }

  function Deal(s: State, m: nat, a: Pubkey, b: Pubkey, d: Dealing): Result<State>
    requires Two(s, m, a, b) && s.markets[m].totals.openInterest >= 0
  {
    var x, orders := PairOf(s, m, a, b), AnyOpenOrders(s.accounts[a].perps);
    match d
    case Profits(price) => Ok(Put(s, m, a, b, SettlePnl(x, price)))
    case LiquidateQuote(quote) =>
      if orders || x.p.base != 0 then Err(InvalidState) else Ok(Put(s, m, a, b, x.Transfer(quote)))
    case LiquidateBase(request, maxTransfer, price, fee, now) =>
      if orders then Err(InvalidState)
      else
        (match LiquidatePosition(x, request, maxTransfer, price, fee)
         case Err(e) => Err(e)
         case Ok(y) =>
           var seqNum := s.markets[m].eventSeq;
           Log(Put(s, m, a, b, y), m, Event.Liquidate(now, seqNum, a, b, price, y.q.base - x.q.base, fee)))
    case CloseOut(price) => Ok(Put(s, m, a, b, ForceSettle(x, price)))
    case Bankruptcy(maxTransfer, insurance) =>
      match ResolveBankruptcy(x, maxTransfer, insurance)
      case Err(e) => Err(e)
      case Ok(y) => Ok(Put(s, m, a, b, y))
  }

  lemma OpenInterestCounts(s: State, m: nat)
    requires Inv(s) && m < |s.markets|
    ensures s.markets[m].totals.openInterest >= 0
  {
    GrossNonNegative(s.accounts, m, s.markets[m].totals);
  }

  // ----- Steps between two accounts

  ghost predicate Moved(p: PerpPosition, p': PerpPosition) {
    p' == p.(base := p'.base, quote := p'.quote, longSettled := p'.longSettled, shortSettled := p'.shortSettled)
  }

  /** A step of two positions that keeps base, quote with fees, and what open interest misses of the gross. */
  ghost predicate PairKeeps(x: Pair, y: Pair) {
    var u, v := Part(x.p, x.t).Plus(Part(x.q, x.t)), Part(y.p, y.t).Plus(Part(y.q, y.t));
    && Moved(x.p, y.p) && Moved(x.q, y.q)
    && y.t == x.t.(openInterest := y.t.openInterest)
    && v.base == u.base && v.quote == u.quote && y.t.openInterest - v.gross == x.t.openInterest - u.gross
  }

  lemma FundedKeeps(x: Pair)
    ensures PairKeeps(x, x.Funded())
    ensures x.Funded().Funded() == x.Funded()
  {
    Settled(x.p, x.t);
    Settled(x.q, x.t);
  }

  lemma TransferKeeps(x: Pair, quote: Fixed)
    ensures PairKeeps(x, x.Transfer(quote))
  {
    hide Abs;
  }

  /** Base may move once the funding has been settled: then the move leaves no funding behind. */
  lemma BaseKeeps(x: Pair, base: int)
    ensures PairKeeps(x.Funded(), x.Funded().TransferBase(base))
  {
    Settled(x.p, x.t);
    Settled(x.q, x.t);
  }

  lemma KeepsTwice(x: Pair, y: Pair, z: Pair)
    requires PairKeeps(x, y) && PairKeeps(y, z)
    ensures PairKeeps(x, z)
  {
    hide Part;
  }

  /** Every settlement between two accounts only moves things from one to the other. */
  lemma SettlementsKeep(x: Pair, price: Fixed, request: int, maxTransfer: int, fee: Fixed)
    ensures PairKeeps(x, SettlePnl(x, price)) && PairKeeps(x, ForceSettle(x, price))
    ensures var r := LiquidatePosition(x, request, maxTransfer, price, fee); r.Ok? ==> PairKeeps(x, r.value)
  {
    hide PairKeeps, Mul;
    var f := x.Funded();
    FundedKeeps(x);
    TransferKeeps(f, PnlTransfer(f, price));
    KeepsTwice(x, f, SettlePnl(x, price));
    if ForceSettle(x, price) == x {
      TransferKeeps(x, 0);
      assert x == x.Transfer(0);
    } else {
      var size := Min(Abs(f.p.base), Abs(f.q.base));
      var base := if f.p.base > 0 then size else -size;
      BaseThenQuote(x, base, -base * x.t.baseLotSize * price);
    }
    if LiquidatePosition(x, request, maxTransfer, price, fee).Ok? {
      var base := LiquidatedBase(f.p.base, request, maxTransfer).value;
      BaseThenQuote(x, base, Mul(-base * x.t.baseLotSize * price, if f.p.base > 0 then ONE - fee else ONE + fee));
    }
  }

  lemma BaseThenQuote(x: Pair, base: int, quote: Fixed)
    ensures PairKeeps(x, x.Funded().TransferBase(base).Transfer(quote))
  {
    hide PairKeeps;
    FundedKeeps(x);
    BaseKeeps(x, base);
    TransferKeeps(x.Funded().TransferBase(base), quote);
    KeepsTwice(x, x.Funded(), x.Funded().TransferBase(base));
    KeepsTwice(x, x.Funded().TransferBase(base), x.Funded().TransferBase(base).Transfer(quote));
  }

  /** What a step in market `m` has to do to keep the invariant, with the value of the market unchanged. */
  ghost predicate Keeps(s: State, s': State, m: nat) {
    MarketStep(s, s', m) && LedgerOk(s') && Conserves(s.markets[m], s'.markets[m], m, s.accounts, s'.accounts)
  }

  lemma PutOffBook(s: State, m: nat, a: Pubkey, b: Pubkey, y: Pair)
    requires LedgerOk(s) && Two(s, m, a, b)
    requires Moved(s.accounts[a].perps[m], y.p) && Moved(s.accounts[b].perps[m], y.q)
             && SameNumbering(s.markets[m].totals, y.t)
    ensures LedgerOk(Put(s, m, a, b, y)) && MarketStep(s, Put(s, m, a, b, y), m)
  {
    var s' := Put(s, m, a, b, y);
    forall k | 0 <= k < |s.accounts|
      ensures OffBook(s.accounts[k], s'.accounts[k], m)
    {
      if k != a && k != b { NothingMoves(s.accounts[k], m); }
    }
    hide LedgerOk;
    OffBookKeepsLedger(s, s', m);
  }

  lemma PutKeeps(s: State, m: nat, a: Pubkey, b: Pubkey, y: Pair)
    requires LedgerOk(s) && Two(s, m, a, b) && PairKeeps(PairOf(s, m, a, b), y)
    ensures Keeps(s, Put(s, m, a, b, y), m)
  {
    hide LedgerOk, Part, MarketStep;
    PutOffBook(s, m, a, b, y);
    var t, s' := s.markets[m].totals, Put(s, m, a, b, y);
    TotalUpdate(s.accounts, a, At(s.accounts[a], m, y.p), m, t);
    TotalUpdate(s.accounts[a := At(s.accounts[a], m, y.p)], b, At(s.accounts[b], m, y.q), m, t);
    TotalOi(s'.accounts, m, t, y.t);
    PartOi(s'.accounts[a], m, t, y.t);
    PartOi(s'.accounts[b], m, t, y.t);
    FeesDueOf(t, y.t, s.markets[m].queue);
  }

  // ----- The other steps

  /** An entry for the record in the queue claims nothing. */
  lemma LogKeeps(s: State, m: nat, e: Event)
    requires LedgerOk(s) && m < |s.markets| && e.Liquidate? && Log(s, m, e).Ok?
    ensures Keeps(s, Log(s, m, e).value, m)
  {
    hide LedgerOk, Sound, Agrees, SameElsewhere, Total, FeesDue;
    var s', mk := Log(s, m, e).value, s.markets[m];
    var mk' := s'.markets[m];
    InStepOf(s, m);
    LogSound(mk, e, |s.accounts|);
    forall i | 0 <= i < |s.accounts|
      ensures Agrees(mk', m, s.accounts[i], i) && SameElsewhere(s.accounts[i], s.accounts[i], m)
    {
      SameElsewhereSelf(s.accounts[i], m);
      LogAgrees(mk, m, s.accounts[i], i, e);
    }
    LogInert(mk, e, OnLots, Bid, 0);
    LedgerStep(s, s', m);
    TotalOi(s.accounts, m, mk.totals, mk'.totals);
  }

  lemma LogSound(mk: MarketState, e: Event, n: nat)
    requires Sound(mk, n) && e.Liquidate?
    ensures Sound(mk.Push([e]), n)
  {
    assert forall side :: mk.Push([e]).Resting(side) == mk.Resting(side);
  }

  lemma LogInert(mk: MarketState, e: Event, c: Claim, side: Side, owner: Pubkey)
    requires e.Liquidate?
    ensures QueueClaims(c, side, owner, mk.Push([e]).queue) == QueueClaims(c, side, owner, mk.queue)
    ensures TakerBase(mk.Push([e]).queue, owner) == TakerBase(mk.queue, owner)
    ensures TakerQuote(mk.Push([e]).queue, owner) == TakerQuote(mk.queue, owner)
    ensures FeesDue(mk.totals, mk.Push([e]).queue) == FeesDue(mk.totals, mk.queue)
  {
    assert [e][1..] == [];
    QueueClaimsConcat(c, side, owner, mk.queue, [e]);
    QueueSumsConcat(mk.totals, owner, mk.queue, [e]);
  }

  lemma LogAgrees(mk: MarketState, m: nat, a: Account, owner: Pubkey, e: Event)
    requires e.Liquidate? && Agrees(mk, m, a, owner)
    ensures Agrees(mk.Push([e]), m, a, owner)
  {
    var mk' := mk.Push([e]);
    assert forall side :: mk'.Resting(side) == mk.Resting(side);
    LogInert(mk, e, OnLots, Bid, owner);
    forall c, side
      ensures Held(mk', c, side, owner) == Recorded(a, m, c, side)
    {
      LogInert(mk, e, c, side, owner);
      assert Held(mk, c, side, owner) == Recorded(a, m, c, side);
    }
  }

  lemma {:induction false} CancelFromPart(mk: MarketState, a: Account, m: nat, i: nat, limit: nat, t: MarketTotals)
    requires CancelFrom(mk, a, m, i, limit).Ok?
    ensures var (mk', a') := CancelFrom(mk, a, m, i, limit).value;
      PartOf(a', m, t) == PartOf(a, m, t) && mk'.totals == mk.totals && mk'.queue == mk.queue
    decreases MAX_PERP_OPEN_ORDERS - i
  {
    hide CancelAt, PartOf;
    if i < MAX_PERP_OPEN_ORDERS && i < |a.slots| {
      if a.slots[i].Free? || a.slots[i].market != m {
        CancelFromPart(mk, a, m, i + 1, limit, t);
      } else {
        CancelAtPart(mk, a, m, i, t);
        var (mk', a') := CancelAt(mk, a, i).value;
        var left := (limit + 255) % 256;
        if left != 0 { CancelFromPart(mk', a', m, i + 1, left, t); }
      }
    }
  }

  lemma CancelAtPart(mk: MarketState, a: Account, m: nat, i: nat, t: MarketTotals)
    requires i < |a.slots| && a.slots[i].Used? && CancelAt(mk, a, i).Ok?
    ensures var (mk', a') := CancelAt(mk, a, i).value;
      PartOf(a', m, t) == PartOf(a, m, t) && mk'.totals == mk.totals && mk'.queue == mk.queue
  {
    hide PartOf, RemoveOrderAt, FindOrder, RemoveOrder;
    var o := FindOrder(mk.Resting(a.slots[i].side), a.slots[i].orderId);
    if o.Some? { RemovalPart(a, m, t, o.value.ownerSlot, o.value.quantity); }
  }

  lemma {:induction false} CancelKeysPart(mk: MarketState, a: Account, m: nat, side: Side, keys: seq<Key>, limit: nat,
                                          t: MarketTotals)
    requires CancelKeys(mk, a, side, keys, limit).Ok?
    ensures var (mk', a') := CancelKeys(mk, a, side, keys, limit).value;
      PartOf(a', m, t) == PartOf(a, m, t) && mk'.totals == mk.totals && mk'.queue == mk.queue
    decreases |keys|
  {
    hide PartOf, RemoveOrderAt, FindOrder, RemoveOrder;
    if keys != [] && limit > 0 {
      var own, key := mk.Resting(side), keys[0];
      var o := FindOrder(own, key);
      if o.None? {
        CancelKeysPart(mk, a, m, side, keys[1..], limit - 1, t);
      } else {
        RemovalPart(a, m, t, o.value.ownerSlot, o.value.quantity);
        var a' := RemoveOrderAt(a, o.value.ownerSlot, o.value.quantity).value;
        CancelKeysPart(mk.WithResting(side, RemoveOrder(own, key)), a', m, side, keys[1..], limit - 1, t);
      }
    }
  }

  lemma CancelSideKeepsAll(s: State, m: nat, who: Pubkey, side: Side, maxDepth: int, now: nat, limit: nat)
    requires LedgerOk(s) && m < |s.markets| && who < |s.accounts|
    ensures var r := One(s, m, who, CancelSide(s.markets[m], s.accounts[who], m, side, maxDepth, now, limit));
      r.Ok? && Keeps(s, r.value, m)
  {
    var mk, a := s.markets[m], s.accounts[who];
    var mine := RankKeys(side, OwnKeys(a.slots, m, side));
    var keys := KeysReported(Merge(side, mk.Resting(side), mine, maxDepth, now, 0));
    hide LedgerOk, InStep, SameElsewhere, Keeps, PartOf, CancelKeys, Merge, RankKeys, OwnKeys;
    InStepOf(s, m);
    CancelSideKeeps(mk, m, s.accounts, who, side, maxDepth, now, limit);
    CancelKeysPart(mk, a, m, side, keys, limit, mk.totals);
    var r := CancelSide(mk, a, m, side, maxDepth, now, limit).value;
    OneKeeps(s, m, who, r.0, r.1);
  }

  lemma InStepOf(s: State, m: nat)
    requires LedgerOk(s) && m < |s.markets|
    ensures InStep(s.markets[m], m, s.accounts)
  {
    hide Sound, Agrees;
  }

  /** A step of one account that touches neither its positions, nor the totals, nor the queue. */
  lemma OneKeeps(s: State, m: nat, who: Pubkey, mk: MarketState, a: Account)
    requires LedgerOk(s) && m < |s.markets| && who < |s.accounts|
    requires InStep(mk, m, s.accounts[who := a]) && SameElsewhere(s.accounts[who], a, m)
    requires PartOf(a, m, mk.totals) == PartOf(s.accounts[who], m, mk.totals)
    requires mk.totals == s.markets[m].totals && mk.queue == s.markets[m].queue
    ensures Keeps(s, State(s.accounts[who := a], s.markets[m := mk]), m)
  {
    hide Sound, Agrees, SameElsewhere, PartOf, Total;
    var s' := State(s.accounts[who := a], s.markets[m := mk]);
    forall i | 0 <= i < |s.accounts|
      ensures SameElsewhere(s.accounts[i], s'.accounts[i], m)
    {
      SameElsewhereSelf(s.accounts[i], m);
    }
    LedgerStep(s, s', m);
    TotalUpdate(s.accounts, who, a, m, mk.totals);
  }

  lemma CancelsKeep(s: State, m: nat, who: Pubkey, orderId: Key, now: nat, limit: nat)
    requires LedgerOk(s) && m < |s.markets| && who < |s.accounts|
    ensures var r := One(s, m, who, CancelOrder(s.markets[m], s.accounts[who], m, who, orderId, now));
      r.Ok? ==> Keeps(s, r.value, m)
    ensures var r := One(s, m, who, CancelFrom(s.markets[m], s.accounts[who], m, 0, limit));
      r.Ok? && Keeps(s, r.value, m)
  {
    hide LedgerOk, InStep, SameElsewhere, Keeps, CancelAt, PartOf, FindOrder;
    var mk, a := s.markets[m], s.accounts[who];
    InStepOf(s, m);
    CancelOrderExact(mk, m, s.accounts, who, orderId, now);
    var r := CancelOrder(mk, a, m, who, orderId, now);
    if r.Ok? {
      FindSlotFinds(a.slots, m, orderId);
      CancelAtPart(mk, a, m, FindSlot(a.slots, m, orderId).value, mk.totals);
      OneKeeps(s, m, who, r.value.0, r.value.1);
    }
    CancelFromKeeps(mk, m, s.accounts, who, 0, limit);
    CancelFromPart(mk, a, m, 0, limit, mk.totals);
    var r2 := CancelFrom(mk, a, m, 0, limit).value;
    OneKeeps(s, m, who, r2.0, r2.1);
  }

  /** Longs pay shorts the same: funding moves nothing in or out because base positions cancel out. */
  lemma FundingKeeps(s: State, m: nat, delta: Fixed)
    requires Inv(s) && m < |s.markets|
    ensures Keeps(s, Funding(s, m, delta), m)
  {
    hide LedgerOk, Total;
    var s', t := Funding(s, m, delta), s.markets[m].totals;
    var t' := s'.markets[m].totals;
    ShapeOf(s, m);
    forall i | 0 <= i < |s.accounts| { NothingMoves(s.accounts[i], m); }
    OffBookKeepsLedger(s, s', m);
    TotalFunding(s.accounts, m, t, t', delta, 0);
    FeesDueOf(t, t', s.markets[m].queue);
  }

  lemma ShapeOf(s: State, m: nat)
    requires LedgerOk(s) && m < |s.markets|
    ensures forall i :: 0 <= i < |s.accounts| ==> m < |s.accounts[i].perps|
  {
  }

  /** Fees settled against a loss go from what has accrued to the account. */
  lemma FeesKeep(s: State, m: nat, who: Pubkey, price: Fixed, forceClose: bool)
    requires LedgerOk(s) && m < |s.markets| && who < |s.accounts|
    ensures m < |s.accounts[who].perps|
    ensures var (p, t) := SettleFees(s.accounts[who].perps[m], s.markets[m].totals, price, forceClose);
      Keeps(s, State(s.accounts[who := At(s.accounts[who], m, p)], s.markets[m := s.markets[m].(totals := t)]), m)
  {
    hide LedgerOk, Total, FloorNum, FeesDue;
    ShapeOf(s, m);
    var t := s.markets[m].totals;
    var (p, t') := SettleFees(s.accounts[who].perps[m], t, price, forceClose);
    Settled(s.accounts[who].perps[m], t);
    var a' := At(s.accounts[who], m, p);
    var s' := State(s.accounts[who := a'], s.markets[m := s.markets[m].(totals := t')]);
    forall i | 0 <= i < |s.accounts|
      ensures OffBook(s.accounts[i], s'.accounts[i], m)
    {
      if i != who { NothingMoves(s.accounts[i], m); }
    }
    OffBookKeepsLedger(s, s', m);
    TotalUpdate(s.accounts, who, a', m, t);
    TotalOi(s'.accounts, m, t, t');
    FeesDueOf(t, t', s.markets[m].queue);
  }

  // ----- Bankruptcy

  /** Quote that comes into being when the loss `quote` is spread over `openInterest` contracts. */
  function Created(quote: Fixed, openInterest: int): Fixed
    requires openInterest >= 0
  {
    -quote + (if openInterest == 0 then 0 else Div(quote, FromNum(openInterest)) * openInterest)
  }

  lemma CreatedIsDust(quote: Fixed, openInterest: int)
    requires openInterest > 0
    ensures Abs(Created(quote, openInterest)) < openInterest
  {
    DivByNum(quote, openInterest);
  }

  /** Spreading a loss over all contracts replaces it up to rounding, whatever the position of the account. */
  lemma SocializeKeeps(s: State, m: nat, a: Pubkey, b: Pubkey)
    requires Inv(s) && Two(s, m, a, b) && s.markets[m].totals.openInterest >= 0
    ensures
      var x := PairOf(s, m, a, b);
      var (p, t) := SocializePosition(x.p, x.t);
      var s' := Put(s, m, a, b, x.(p := p, t := t));
      && LedgerOk(s') && MarketStep(s, s', m) && PositionsOk(s'.markets[m], m, s'.accounts)
      && Value(s'.markets[m], m, s'.accounts) ==
         Value(s.markets[m], m, s.accounts) + Created(x.p.quote, x.t.openInterest)
  {
    hide LedgerOk, Total, FeesDue, Div, FromNum;
    var x := PairOf(s, m, a, b);
    var (p, t) := SocializePosition(x.p, x.t);
    var y := x.(p := p, t := t);
    var s' := Put(s, m, a, b, y);
    PutOffBook(s, m, a, b, y);
    var accounts1 := s.accounts[a := At(s.accounts[a], m, p)];
    assert At(s.accounts[b], m, x.q) == s.accounts[b];
    assert s'.accounts == accounts1;
    TotalUpdate(s.accounts, a, At(s.accounts[a], m, p), m, x.t);
    TotalFunding(accounts1, m, x.t, t, 0, x.t.longFunding - t.longFunding);
    FeesDueOf(x.t, t, s.markets[m].queue);
  }

  // ----- One step

  /** Whether a step spreads the rest of a debt over the market, the insurance fund being empty. */
  predicate Socializes(s: State, st: Step) {
    && st.Between? && st.dealing.Bankruptcy? && Two(s, st.m, st.a, st.b)
    && var quote := s.accounts[st.a].perps[st.m].quote;
    st.dealing.maxTransfer > 0 && quote < 0 && Uninsured(quote, st.dealing.maxTransfer, st.dealing.insurance)
  }

  /** The change of the value of market `k`: nothing, but for the rounding of a socialized loss. */
  ghost function Change(s: State, st: Step, k: nat): Fixed
    requires Inv(s)
  {
    if Socializes(s, st) && st.m == k then
      OpenInterestCounts(s, k);
      Created(s.accounts[st.a].perps[k].quote + FromNum(st.dealing.insurance), s.markets[k].totals.openInterest)
    else 0
  }

  /** The outcome of a step in market `m` that adds `change` to the value of the market. */
  ghost predicate Outcome(s: State, s': State, m: nat, change: Fixed) {
    && MarketStep(s, s', m) && LedgerOk(s') && PositionsOk(s'.markets[m], m, s'.accounts)
    && Value(s'.markets[m], m, s'.accounts) == Value(s.markets[m], m, s.accounts) + change
  }

  lemma KeepsOutcome(s: State, s': State, m: nat)
    requires Inv(s) && Keeps(s, s', m)
    ensures Outcome(s, s', m, 0)
  {
    hide LedgerOk, Total;
  }

  lemma KeepsThenOutcome(s: State, s1: State, s2: State, m: nat, change: Fixed)
    requires Outcome(s, s1, m, 0) && Outcome(s1, s2, m, change)
    ensures Outcome(s, s2, m, change)
  {
    hide LedgerOk, Total, PositionsOk, Value;
    MarketStepTwice(s, s1, s2, m);
  }

  lemma ElsewhereTotals(s: State, s': State, m: nat, k: nat)
    requires MarketStep(s, s', m) && k < |s.markets| && k != m
    requires PositionsOk(s.markets[k], k, s.accounts)
    ensures PositionsOk(s'.markets[k], k, s'.accounts)
    ensures Value(s'.markets[k], k, s'.accounts) == Value(s.markets[k], k, s.accounts)
  {
    var t := s.markets[k].totals;
    forall i | 0 <= i < |s.accounts|
      ensures PartOf(s'.accounts[i], k, t) == PartOf(s.accounts[i], k, t)
    {
      assert SameElsewhere(s.accounts[i], s'.accounts[i], m);
    }
    TotalSame(s.accounts, s'.accounts, k, t, t);
  }

  lemma DealOutcome(s: State, st: Step)
    requires Inv(s) && st.Between? && Apply(s, st).Ok?
    ensures Outcome(s, Apply(s, st).value, st.m, Change(s, st, st.m))
  {
    hide Inv, LedgerOk, Keeps, Outcome, PairKeeps, SettlePnl, ForceSettle, LiquidatePosition, Created;
    var m, a, b, d := st.m, st.a, st.b, st.dealing;
    OpenInterestCounts(s, m);
    LedgerOf(s);
    var x, s' := PairOf(s, m, a, b), Apply(s, st).value;
    match d
    case Profits(price) =>
      SettlementsKeep(x, price, 0, 0, 0);
      PutKeeps(s, m, a, b, SettlePnl(x, price));
      KeepsOutcome(s, s', m);
    case CloseOut(price) =>
      SettlementsKeep(x, price, 0, 0, 0);
      PutKeeps(s, m, a, b, ForceSettle(x, price));
      KeepsOutcome(s, s', m);
    case LiquidateQuote(quote) =>
      TransferKeeps(x, quote);
      PutKeeps(s, m, a, b, x.Transfer(quote));
      KeepsOutcome(s, s', m);
    case LiquidateBase(request, maxTransfer, price, fee, now) =>
      SettlementsKeep(x, price, request, maxTransfer, fee);
      var y := LiquidatePosition(x, request, maxTransfer, price, fee).value;
      PutKeeps(s, m, a, b, y);
      LogOutcome(s, Put(s, m, a, b, y), m,
        Event.Liquidate(now, s.markets[m].eventSeq, a, b, price, y.q.base - x.q.base, fee));
    case Bankruptcy(maxTransfer, insurance) =>
      BankruptcyOutcome(s, st);
  }

  lemma LedgerOf(s: State)
    requires Inv(s)
    ensures LedgerOk(s)
  {
  }

  lemma LogOutcome(s: State, s1: State, m: nat, e: Event)
    requires Inv(s) && Keeps(s, s1, m) && m < |s1.markets| && e.Liquidate? && Log(s1, m, e).Ok?
    ensures Outcome(s, Log(s1, m, e).value, m, 0)
  {
    hide LedgerOk, MarketStep, Total;
    LogKeeps(s1, m, e);
    hide Keeps, Value, PositionsOk;
    KeepsOutcome(s, s1, m);
    var s2 := Log(s1, m, e).value;
    assert Outcome(s1, s2, m, 0) by { LogAfter(s, s1, s2, m); }
    KeepsThenOutcome(s, s1, s2, m, 0);
  }

  lemma LogAfter(s: State, s1: State, s2: State, m: nat)
    requires Outcome(s, s1, m, 0) && Keeps(s1, s2, m)
    ensures Outcome(s1, s2, m, 0)
  {
    hide LedgerOk, MarketStep, Total;
  }

  lemma PutPut(s: State, m: nat, a: Pubkey, b: Pubkey, y: Pair, z: Pair)
    requires Two(s, m, a, b)
    ensures Two(Put(s, m, a, b, y), m, a, b) && PairOf(Put(s, m, a, b, y), m, a, b) == y
    ensures Put(Put(s, m, a, b, y), m, a, b, z) == Put(s, m, a, b, z)
  {
    var s1 := Put(s, m, a, b, y);
    assert At(s1.accounts[a], m, z.p) == At(s.accounts[a], m, z.p);
    assert At(s1.accounts[b], m, z.q) == At(s.accounts[b], m, z.q);
  }

  lemma BankruptcyOutcome(s: State, st: Step)
    requires Inv(s) && st.Between? && st.dealing.Bankruptcy? && Apply(s, st).Ok?
    ensures Outcome(s, Apply(s, st).value, st.m, Change(s, st, st.m))
  {
    hide LedgerOk, Keeps, PairKeeps, Created, Insured, FromNum, Total, Value;
    var m, a, b := st.m, st.a, st.b;
    var maxTransfer, insurance := st.dealing.maxTransfer, st.dealing.insurance;
    OpenInterestCounts(s, m);
    var x, s' := PairOf(s, m, a, b), Apply(s, st).value;
    var y := x.Transfer(-FromNum(Insured(-x.p.quote, maxTransfer, insurance)));
    TransferKeeps(x, -FromNum(Insured(-x.p.quote, maxTransfer, insurance)));
    PutKeeps(s, m, a, b, y);
    var s1 := Put(s, m, a, b, y);
    KeepsOutcome(s, s1, m);
    if Socializes(s, st) {
      InvAfter(s, s1, m);
      SocializeKeeps(s1, m, a, b);
      var (p, t) := SocializePosition(y.p, y.t);
      PutPut(s, m, a, b, y, y.(p := p, t := t));
      KeepsThenOutcome(s, s1, s', m, Created(y.p.quote, y.t.openInterest));
    }
  }

  /** The invariant after a step, from its outcome. */
  lemma InvAfter(s: State, s': State, m: nat)
    requires Inv(s) && exists change :: Outcome(s, s', m, change)
    ensures Inv(s')
    ensures forall k :: 0 <= k < |s.markets| && k != m ==>
      Value(s'.markets[k], k, s'.accounts) == Value(s.markets[k], k, s.accounts)
  {
    hide LedgerOk, PositionsOk, Value;
    forall k | 0 <= k < |s'.markets| && k != m
      ensures PositionsOk(s'.markets[k], k, s'.accounts)
      ensures Value(s'.markets[k], k, s'.accounts) == Value(s.markets[k], k, s.accounts)
    {
      ElsewhereTotals(s, s', m, k);
    }
  }

  /**
   * Every instruction keeps the ledger and the positions, and changes no value but by the rounding of a socialized
   * loss.
   */
  lemma StepKeeps(s: State, st: Step)
    requires Inv(s) && Apply(s, st).Ok?
    ensures var s' := Apply(s, st).value;
      && Inv(s') && |s'.markets| == |s.markets| && |s'.accounts| == |s.accounts|
      && forall k :: 0 <= k < |s.markets| ==>
           (Value(s'.markets[k], k, s'.accounts) == Value(s.markets[k], k, s.accounts) + Change(s, st, k))
  {
    var s' := Apply(s, st).value;
    StepOutcome(s, st);
    hide Inv, Value, LedgerOk, PositionsOk;
    InvAfter(s, s', st.m);
  }

  lemma StepOutcome(s: State, st: Step)
    requires Inv(s) && Apply(s, st).Ok?
    ensures Outcome(s, Apply(s, st).value, st.m, Change(s, st, st.m))
  {
    hide LedgerOk, PlaceOrder, ConsumeEvent, CancelOrder, CancelFrom, CancelSide, SettleFees, MarketStep, Conserves;
    hide Outcome;
    var s', m := Apply(s, st).value, st.m;
    match st
    case Place(_, rq, referrer) =>
      PlaceKeepsLedger(s, m, rq, referrer);
      PlaceConserves(s, m, rq, referrer);
      KeepsOutcome(s, s', m);
    case Consume(_) =>
      ConsumeKeepsLedger(s, m);
      ConsumeConserves(s, m);
      KeepsOutcome(s, s', m);
    case Cancel(_, who, orderId, now) =>
      CancelsKeep(s, m, who, orderId, now, 0);
      KeepsOutcome(s, s', m);
    case CancelAll(_, who, limit) =>
      CancelsKeep(s, m, who, 0, 0, limit);
      KeepsOutcome(s, s', m);
    case CancelOneSide(_, who, side, maxDepth, now, limit) =>
      CancelSideKeepsAll(s, m, who, side, maxDepth, now, limit);
      KeepsOutcome(s, s', m);
    case UpdateFunding(_, delta) =>
      FundingKeeps(s, m, delta);
      KeepsOutcome(s, s', m);
    case Fees(_, who, price, forceClose) =>
      FeesKeep(s, m, who, price, forceClose);
      KeepsOutcome(s, s', m);
    case Between(_, _, _, _) =>
      DealOutcome(s, st);
  }
}
