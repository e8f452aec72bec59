/** The instruction handlers that settle between accounts, as they update the accounts, the market and the queue. */
module Handlers {
  import opened Types
  import opened FixedPoint
  import opened Events
  import opened EventQueues
  import opened PerpState
  import opened MangoAccounts
  import opened Exchange
  import opened Settlements
  import opened Health
  import opened HealthCaches
  import opened Liquidations
  import opened Runs
  import opened Safety
  import opened TokenBanks

  ghost function States(accounts: seq<MangoAccount>): (s: seq<Account>)
    reads accounts
    ensures |s| == |accounts| && forall i :: 0 <= i < |s| ==> s[i] == accounts[i].State()
  {
    seq(|accounts|, i requires 0 <= i < |accounts| reads accounts => accounts[i].State())
  }

  ghost predicate Distinct(accounts: seq<MangoAccount>) {
    forall i, j :: 0 <= i < j < |accounts| ==> accounts[i] != accounts[j]
  }

  // ----- Consuming events

  /** Consumes up to `n` events, stopping at one that is about an account that has not been provided. */
  function ConsumeMany(accounts: seq<Account>, m: nat, t: MarketTotals, q: seq<Event>, provided: set<Pubkey>, n: nat):
    Result<(seq<Account>, MarketTotals, seq<Event>)>
    requires forall p :: p in provided ==> p < |accounts|
    requires forall i :: 0 <= i < |accounts| ==> m < |accounts[i].perps|
    decreases n
  {
    if n == 0 || q == [] || !About(q[0], provided) then Ok((accounts, t, q))
    else
      match ConsumeAccounts(accounts, m, t, q[0])
      case Err(e) => Err(e)
      case Ok((accounts', t')) =>
        ConsumeShapes(accounts, m, t, q[0]);
        ConsumeMany(accounts', m, t', q[1..], provided, n - 1)
  }

  lemma ConsumeShapes(accounts: seq<Account>, m: nat, t: MarketTotals, e: Event)
    requires Within(e, |accounts|) && forall i :: 0 <= i < |accounts| ==> m < |accounts[i].perps|
    requires ConsumeAccounts(accounts, m, t, e).Ok?
    ensures var accounts' := ConsumeAccounts(accounts, m, t, e).value.0;
      |accounts'| == |accounts| && forall i :: 0 <= i < |accounts| ==> |accounts'[i].perps| == |accounts[i].perps|
  {
    hide PerpPosition.SettleFunding, FromNum, MakerFees;
  }

  /** Takes up to `limit` events off the queue, at most eight, and settles them with the accounts provided. */
  method ConsumeEvents(accounts: seq<MangoAccount>, provided: set<Pubkey>, m: nat, market: PerpMarket,
                       queue: Queue<Event>,
                       limit: nat)
    returns (ok: bool)
    requires queue.Valid() && Distinct(accounts)
    requires forall p :: p in provided ==> p < |accounts|
    requires forall i :: 0 <= i < |accounts| ==> m < |accounts[i].perps|
    modifies accounts, market`openInterest, queue`head, queue`count
    ensures
      var r := ConsumeMany(old(States(accounts)), m, old(market.Totals()), old(queue.Contents()), provided,
        Min(limit, 8));
      && ok == r.Ok?
      && (ok ==> queue.Valid() && (States(accounts), market.Totals(), queue.Contents()) == r.value)
  {
    hide Queue.Contents, ConsumeAccounts, ExecuteMaker, ExecuteTaker, RemoveOrderAt;
    var n := Min(limit, 8);
    while n > 0
      invariant 0 <= n && queue.Valid()
      invariant forall i :: 0 <= i < |accounts| ==> m < |accounts[i].perps|
      invariant ConsumeMany(States(accounts), m, market.Totals(), queue.Contents(), provided, n) ==
                ConsumeMany(old(States(accounts)), m, old(market.Totals()), old(queue.Contents()), provided,
                  Min(limit, 8))
    {
      if queue.count == 0 { break; }
      var e := queue.Get(0);
      assert queue.Contents()[0] == e;
      if !About(e, provided) { break; }
      var done := ConsumeOne(accounts, m, market, e);
      if !done {
        return false;
      }
      var _ := queue.PopFront();
      n := n - 1;
    }
    ok := true;
  }

  method ConsumeOne(accounts: seq<MangoAccount>, m: nat, market: PerpMarket, e: Event) returns (ok: bool)
    requires Distinct(accounts) && Within(e, |accounts|) && forall i :: 0 <= i < |accounts| ==> m < |accounts[i].perps|
    modifies accounts, market`openInterest
    ensures ok ==> forall i :: 0 <= i < |accounts| ==> |accounts[i].perps| == old(|accounts[i].perps|)
    ensures var r := ConsumeAccounts(old(States(accounts)), m, old(market.Totals()), e);
      ok == r.Ok? && (ok ==> (States(accounts), market.Totals()) == r.value)
  {
    hide ExecuteMaker, ExecuteTaker, RemoveOrderAt;
    ok := true;
    ghost var s := States(accounts);
    match e {
    case Fill(_, _, _, _, _, maker, _, _, _, _, _, taker, _, _, _, _, _, _) =>
      ok := accounts[maker].ExecuteMakerFill(m, market, e);
      if ok {
        ghost var (a, t) := ExecuteMaker(s[maker], m, old(market.Totals()), e).value;
        MakerBaseMoves(s[maker], m, old(market.Totals()), e);
        assert States(accounts) == s[maker := a];
        accounts[taker].ExecuteTakerFill(m, market, e);
        assert States(accounts) == s[maker := a][taker := ExecuteTaker(s[maker := a][taker], m, t, e).0];
      }
    case Out(_, slot, _, _, owner, quantity) =>
      ok := accounts[owner].RemoveOrder(slot, quantity);
      if ok { assert States(accounts) == s[owner := RemoveOrderAt(s[owner], slot, quantity).value]; }
    case Liquidate(_, _, _, _, _, _, _) =>
    }
    if ok {
      ConsumeShapes(s, m, old(market.Totals()), e);
      assert forall i :: 0 <= i < |accounts| ==> accounts[i].perps == States(accounts)[i].perps;
    }
  }

  /** The state after `k` events. */
  ghost function ConsumeTimes(s: State, m: nat, k: nat): State
    requires LedgerOk(s) && m < |s.markets|
    decreases k
  {
    if k == 0 then s
    else
      ConsumeKeepsLedger(s, m);
      ConsumeTimes(ConsumeEvent(s, m).value, m, k - 1)
  }

  /** An event that moves something in account `i`. */
  predicate Concerns(e: Event, i: Pubkey) {
    (e.Fill? && (e.maker == i || e.taker == i)) || (e.Out? && e.owner == i)
  }

  lemma AboutMeans(e: Event, provided: set<Pubkey>)
    ensures About(e, provided) <==> forall i :: Concerns(e, i) ==> i in provided
  {
    match e
    case Fill(_, _, _, _, _, maker, _, _, _, _, _, taker, _, _, _, _, _, _) =>
      assert Concerns(e, maker) && Concerns(e, taker);
    case Out(_, slot, _, _, owner, quantity) =>
      assert Concerns(e, owner);
    case Liquidate(_, _, _, _, _, _, _) =>
  }

  /**
   * With the ledger in order consuming never fails, and leaves it in order wherever it stops. It stops after `n`
   * events, at the end of the queue, or at an event that concerns an account which has not been provided, and not
   * before.
   */
  lemma {:induction false} ConsumeManyKeepsLedger(s: State, m: nat, provided: set<Pubkey>, n: nat)
    returns (k: nat)
    requires LedgerOk(s) && m < |s.markets| && forall p :: p in provided ==> p < |s.accounts|
    ensures forall i :: 0 <= i < |s.accounts| ==> m < |s.accounts[i].perps|
    ensures
      var mk := s.markets[m];
      var r := ConsumeMany(s.accounts, m, mk.totals, mk.queue, provided, n);
      && r.Ok? && k <= n && k <= |mk.queue| && r.value.2 == mk.queue[k..]
      && State(r.value.0, s.markets[m := mk.(totals := r.value.1, queue := r.value.2)]) == ConsumeTimes(s, m, k)
      && LedgerOk(ConsumeTimes(s, m, k))
      && (forall x, i :: 0 <= x < k && Concerns(mk.queue[x], i) ==> i in provided)
      && (k == n || k == |mk.queue| || exists i :: Concerns(mk.queue[k], i) && i !in provided)
    decreases n
  {
    ShapeOf(s, m);
    var mk := s.markets[m];
    k := 0;
    assert s.markets[m := mk.(totals := mk.totals, queue := mk.queue)] == s.markets;
    if mk.queue != [] { AboutMeans(mk.queue[0], provided); }
    if n > 0 && mk.queue != [] && About(mk.queue[0], provided) {
      ConsumeManyOne(s, m, provided, n);
      var s' := ConsumeEvent(s, m).value;
      hide LedgerOk, ConsumeEvent, ConsumeMany, Concerns, About;
      k := ConsumeManyKeepsLedger(s', m, provided, n - 1);
      assert forall x :: 0 < x < |mk.queue| ==> mk.queue[x] == mk.queue[1..][x - 1];
      k := k + 1;
    }
  }

  lemma ConsumeManyOne(s: State, m: nat, provided: set<Pubkey>, n: nat)
    requires LedgerOk(s) && m < |s.markets| && forall p :: p in provided ==> p < |s.accounts|
    requires n > 0 && s.markets[m].queue != [] && About(s.markets[m].queue[0], provided)
    ensures forall i :: 0 <= i < |s.accounts| ==> m < |s.accounts[i].perps|
    ensures ConsumeEvent(s, m).Ok? && LedgerOk(ConsumeEvent(s, m).value)
    ensures
      var s', mk := ConsumeEvent(s, m).value, s.markets[m];
      && m < |s'.markets| && |s'.accounts| == |s.accounts| && s'.markets[m].queue == mk.queue[1..]
      && (forall i :: 0 <= i < |s'.accounts| ==> m < |s'.accounts[i].perps|)
      && ConsumeMany(s.accounts, m, mk.totals, mk.queue, provided, n) ==
         ConsumeMany(s'.accounts, m, s'.markets[m].totals, s'.markets[m].queue, provided, n - 1)
      && (forall k: nat :: (ConsumeTimes(s, m, k + 1) == ConsumeTimes(s', m, k)))
      && (forall t, q :: (s'.markets[m := s'.markets[m].(totals := t, queue := q)]
                          == s.markets[m := mk.(totals := t, queue := q)]))
  {
    ShapeOf(s, m);
    ConsumeKeepsLedger(s, m);
    ShapeOf(ConsumeEvent(s, m).value, m);
    var mk := s.markets[m];
    assert mk.queue[0] in mk.queue && SoundEvent(mk.queue[0], |s.accounts|);
    hide LedgerOk, MarketStep, ConsumeAccounts;
  }

  // ----- Settling between accounts

  /**
   * The positions of two accounts in market `m` have become those of `y`, and nothing else in their perps has changed.
   */
  twostate predicate BecomePair(a: MangoAccount, b: MangoAccount, m: nat, market: PerpMarket, y: Pair)
    requires m < |old(a.perps)| && m < |old(b.perps)|
    reads a, b, market
  {
    && a.perps == old(a.perps)[m := y.p] && b.perps == old(b.perps)[m := y.q] && market.Totals() == y.t
  }

  function PairNow(a: MangoAccount, b: MangoAccount, m: nat, market: PerpMarket): Pair
    requires m < |a.perps| && m < |b.perps|
    reads a, b, market
  {
    Pair(a.perps[m], b.perps[m], market.Totals())
  }

  method TransferQuotePosition(a: MangoAccount, b: MangoAccount, m: nat, market: PerpMarket, quote: Fixed)
    requires a != b && m < |a.perps| && m < |b.perps|
    modifies a`perps, b`perps
    ensures BecomePair(a, b, m, market, old(PairNow(a, b, m, market)).Transfer(quote))
  {
    a.perps := a.perps[m := a.perps[m].(quote := a.perps[m].quote - quote)];
    b.perps := b.perps[m := b.perps[m].(quote := b.perps[m].quote + quote)];
  }

  method SettleBothFunding(a: MangoAccount, b: MangoAccount, m: nat, market: PerpMarket)
    requires a != b && m < |a.perps| && m < |b.perps|
    modifies a`perps, b`perps
    ensures BecomePair(a, b, m, market, old(PairNow(a, b, m, market)).Funded())
  {
    hide PerpPosition.SettleFunding;
    a.SettleFunding(m, market);
    b.SettleFunding(m, market);
  }

  /** Settles the opposite profits of two accounts and pays for them in the quote token. */
  method SettlePnlBetween(a: MangoAccount, b: MangoAccount, m: nat, market: PerpMarket, price: Fixed,
                          ix: Bank.Indexes, bank: NodeBank, token: nat)
    returns (ok: bool)
    requires a != b && m < |a.perps| && m < |b.perps| && ix.deposit > 0 && ix.borrow > 0
    requires token < |a.deposits| && token < |a.borrows| && token < |b.deposits| && token < |b.borrows|
    modifies a`perps, b`perps, a`deposits, a`borrows, b`deposits, b`borrows, bank
    ensures BecomePair(a, b, m, market, SettlePnl(old(PairNow(a, b, m, market)), price))
    ensures OnlyToken(a, token) && OnlyToken(b, token)
    ensures
      var paid := PnlTransfer(old(PairNow(a, b, m, market)).Funded(), price);
      var r := Bank.Transfer(ix, Bank.Token([old(b.Token(token)), old(a.Token(token))], old(bank.All())), 0, 1, paid);
      ok == r.Ok? && (ok ==> Bank.Token([b.Token(token), a.Token(token)], bank.All()) == r.value)
  {
    hide PerpPosition.SettleFunding, FromNum, Mul, Bank.ChangeAt;
    SettleBothFunding(a, b, m, market);
    var x := PairNow(a, b, m, market);
    var pnlA := x.p.quote - Mul(FromNum(-x.p.base * market.baseLotSize), price);
    var pnlB := x.q.quote - Mul(FromNum(-x.q.base * market.baseLotSize), price);
    PnlIs(x.p, market.Totals(), price);
    PnlIs(x.q, market.Totals(), price);
    if !((pnlA > 0 && pnlB < 0) || (pnlA < 0 && pnlB > 0)) {
      return true;
    }
    var settlement := Min(Abs(pnlA), Abs(pnlB));
    var settleA := if pnlA > 0 then settlement else -settlement;
    TransferQuotePosition(a, b, m, market, settleA);
    ok := TransferTokenInternal(ix, bank, b, a, token, settleA);
  }

  lemma PnlIs(p: PerpPosition, t: MarketTotals, price: Fixed)
    ensures p.quote - Mul(FromNum(-p.base * t.baseLotSize), price) == Pnl(p, t, price)
  {
    hide Mul, FromNum;
    MulByNum(-p.base * t.baseLotSize, price);
    Negate(p.base, t.baseLotSize, price);
  }

  /**
   * Settles accrued fees against a loss, takes them from the deposits of the account and tells how many whole units go
   * to the fees vault.
   */
  method SettleFeesOf(account: MangoAccount, m: nat, market: PerpMarket, price: Fixed, forceClose: bool,
                      ix: Bank.Indexes, bank: NodeBank, token: nat)
    returns (ok: bool, transferred: int)
    requires m < |account.perps| && ix.deposit > 0 && ix.borrow > 0
    requires token < |account.deposits| && token < |account.borrows|
    modifies account`perps, account`deposits, account`borrows, market`feesAccrued, bank
    ensures var (p, t) := SettleFees(old(account.perps[m]), old(market.Totals()), price, forceClose);
      account.perps == old(account.perps)[m := p] && market.Totals() == t
    ensures OnlyToken(account, token)
    ensures FromNum(transferred) == FeesTaken(old(account.perps[m]), old(market.Totals()), price)
    ensures
      var r := Bank.ChangeNet(ix, old(account.Token(token)), old(bank.All()),
                              -FeesTaken(old(account.perps[m]), old(market.Totals()), price));
      ok == r.Ok? && (ok ==> (account.Token(token), bank.All()) == r.value)
  {
    assert FromNum(0) == 0;
    hide PerpPosition.SettleFunding, FromNum, Mul, Bank.AddNet, Bank.SubNet, FloorNum;
    ghost var was, t := account.perps, market.Totals();
    account.SettleFunding(m, market);
    var p := account.perps[m];
    var pnl := p.quote - Mul(FromNum(-p.base * market.baseLotSize), price);
    PnlIs(p, t, price);
    if !(pnl < 0 && market.feesAccrued > 0) {
      return true, 0;
    }
    var settlement := FloorNum(Min(Abs(pnl), market.feesAccrued));
    market.feesAccrued := market.feesAccrued - settlement;
    p := p.(quote := p.quote + settlement);
    if forceClose && market.feesAccrued < ONE {
      var dust := Min(Abs(pnl + settlement), market.feesAccrued);
      p := p.(quote := p.quote + dust);
      market.feesAccrued := market.feesAccrued - dust;
    }
    account.perps := account.perps[m := p];
    assert account.perps == was[m := p];
    transferred := settlement / ONE;
    WholeUnits(Min(Abs(pnl), t.feesAccrued));
    ok := CheckedChangeNet(ix, bank, account, token, -settlement);
  }

  lemma WholeUnits(a: Fixed)
    ensures FromNum(FloorNum(a) / ONE) == FloorNum(a)
  {
  }

  /** Moves base at a price between two accounts whose funding has been settled. */
  method TransferPosition(a: MangoAccount, b: MangoAccount, m: nat, market: PerpMarket, base: int, quote: Fixed)
    requires a != b && m < |a.perps| && m < |b.perps|
    modifies a`perps, b`perps, market`openInterest
    ensures BecomePair(a, b, m, market, old(PairNow(a, b, m, market)).TransferBase(base).Transfer(quote))
  {
    a.ChangeBasePosition(m, market, -base);
    b.ChangeBasePosition(m, market, base);
    TransferQuotePosition(a, b, m, market, quote);
  }

  /** The cache holds the health of the account, with its position in market `m` at the given price. */
  ghost predicate Cached(cache: HealthCache, account: MangoAccount, m: nat, t: MarketTotals, price: Fixed)
    reads cache, account
  {
    && cache.Valid() && cache.UpToDate() && m < |cache.perp| && m < |account.perps|
    && cache.perp[m] == PerpVal(account.perps[m], t, price)
  }

  method BothHealths(cache: HealthCache) returns (initHealth: Fixed, maintHealth: Fixed)
    requires cache.Valid() && cache.UpToDate()
    modifies cache`health
    ensures cache.Valid() && initHealth == old(cache.HealthOf(Init)) && maintHealth == old(cache.HealthOf(Maint))
    ensures cache.health[IndexOf(Init)] == Some(initHealth) && cache.health[IndexOf(Maint)] == Some(maintHealth)
  {
    hide Sum;
    initHealth := cache.GetHealth(Init);
    maintHealth := cache.GetHealth(Maint);
  }

  /** The initial health of an account once its position has changed to what it is now. */
  method HealthAfter(cache: HealthCache, account: MangoAccount, m: nat, market: PerpMarket, price: Fixed,
                     ghost was: PerpPosition, ghost t: MarketTotals)
    returns (health: Fixed)
    requires cache.Valid() && m < |cache.perp| && m < |account.perps| && cache.UpToDate()
    requires cache.perp[m] == PerpVal(was, t, price) && market.Totals() == t.(openInterest := market.openInterest)
    modifies cache`perp, cache`health
    ensures health == HealthWith(old(cache.HealthOf(Init)), was, account.perps[m], t, price, cache.perpWeights[m], Init)
    ensures cache.Valid() && cache.health[IndexOf(Init)] == Some(health)
  {
    SameVal(account.perps[m], t, market.Totals(), price);
    hide PerpVal, Weighted, Sum;
    assert TypeAt(IndexOf(Init)) == Init;
    var _ := cache.GetHealth(Init);
    cache.UpdatePerpVal(m, account.perps[m], market.Totals(), price);
    health := cache.GetHealth(Init);
  }

  /** Moves part of a position at a discount, its funding settled, and leaves a record of it in the queue. */
  method TakeOver(liqee: MangoAccount, liqor: MangoAccount, m: nat, market: PerpMarket, queue: Queue<Event>,
                  liqeeKey: Pubkey, liqorKey: Pubkey, request: int, limit: int, price: Fixed, fee: Fixed, now: nat)
    returns (ok: bool)
    requires liqee != liqor && m < |liqee.perps| && m < |liqor.perps| && queue.Valid()
    requires PairNow(liqee, liqor, m, market).Funded() == PairNow(liqee, liqor, m, market)
    modifies liqee`perps, liqor`perps, market`openInterest, queue`count, queue`seqNum, queue.buf
    ensures
      var x := old(PairNow(liqee, liqor, m, market));
      match LiquidatePosition(x, request, limit, price, fee)
      case Err(_) => !ok
      case Ok(y) =>
        && ok == (|old(queue.Contents())| < queue.buf.Length)
        && BecomePair(liqee, liqor, m, market, y) && queue.Valid()
        && (ok ==> queue.seqNum == old(queue.seqNum) + 1
                   && queue.Contents() == old(queue.Contents()) +
                        [Event.Liquidate(now, old(queue.seqNum), liqeeKey, liqorKey, price, y.q.base - x.q.base, fee)])
  {
    hide FromNum, Mul, Queue.Contents, PerpPosition.SettleFunding;
    var position := liqee.perps[m].base;
    if (position > 0 && request <= 0) || (position <= 0 && request >= 0) {
      return false;
    }
    var base := if position > 0 then Min(Min(limit, request), position) else Max(Max(limit, request), position);
    var rate := if position > 0 then ONE - fee else ONE + fee;
    var worth := Mul(FromNum(-base * market.baseLotSize), price);
    MulByNum(-base * market.baseLotSize, price);
    TransferPosition(liqee, liqor, m, market, base, Mul(worth, rate));
    ok := queue.PushBack(Event.Liquidate(now, queue.seqNum, liqeeKey, liqorKey, price, base, fee));
  }

  /** Funding that has been settled stays settled. */
  lemma FundedTwice(x: Pair, request: int, limit: int, price: Fixed, fee: Fixed)
    ensures x.Funded().Funded() == x.Funded() && x.Funded().p.base == x.p.base && x.Funded().q.base == x.q.base
    ensures LiquidatePosition(x.Funded(), request, limit, price, fee) ==
            LiquidatePosition(x, request, limit, price, fee)
  {
  }

  /** The flags of an account that has just been liquidated, by what its health is now. */
  method SettleFlags(liqee: MangoAccount, m: nat, market: PerpMarket, price: Fixed, cache: HealthCache,
                     spotOrders: seq<bool>, quoteToken: nat, ghost was: PerpPosition, ghost t: MarketTotals)
    requires cache.Valid() && m < |cache.perp|
    requires cache.health[IndexOf(Init)].Some? && cache.health[IndexOf(Maint)].Some?
    requires m < |liqee.perps| && liqee.beingLiquidated
    requires |liqee.perps| == |spotOrders| <= |liqee.deposits| && quoteToken < |liqee.deposits|
    requires cache.perp[m] == PerpVal(was, t, price) && market.Totals() == t.(openInterest := market.openInterest)
    modifies liqee`beingLiquidated, liqee`isBankrupt, cache`perp, cache`health
    ensures
      var w := cache.perpWeights[m];
      var after := HealthWith(old(cache.health[IndexOf(Init)]).value, was, liqee.perps[m], t, price, w, Init);
      var maintAfter := HealthWith(old(cache.health[IndexOf(Maint)]).value, was, liqee.perps[m], t, price, w, Maint);
      && liqee.beingLiquidated == (maintAfter < 0 || after < -ONE)
      && liqee.isBankrupt == if maintAfter < 0 then Bankrupt(liqee.deposits, liqee.perps, spotOrders, quoteToken)
                             else old(liqee.isBankrupt)
  {
    SameVal(liqee.perps[m], t, market.Totals(), price);
    hide PerpVal, Weighted, Sum, Bankrupt;
    assert TypeAt(IndexOf(Init)) == Init && TypeAt(IndexOf(Maint)) == Maint;
    cache.UpdatePerpVal(m, liqee.perps[m], market.Totals(), price);
    var maintHealth := cache.GetHealth(Maint);
    if maintHealth < 0 {
      liqee.isBankrupt := CheckEnterBankruptcy(liqee, spotOrders, quoteToken);
    } else {
      var initHealth := cache.GetHealth(Init);
      liqee.beingLiquidated := initHealth < -ONE;
    }
  }

  /** Whether and how far an account is to be liquidated, once its funding is settled; the flag says which. */
  method Decide(liqee: MangoAccount, liqor: MangoAccount, m: nat, market: PerpMarket, price: Fixed, fee: Fixed,
                cache: HealthCache)
    returns (r: Result<Option<int>>)
    requires liqee != liqor && m < |liqee.perps| && m < |liqor.perps|
    requires cache.Valid() && cache.UpToDate() && m < |cache.perp|
    modifies liqee`perps, liqee`beingLiquidated, liqor`perps, cache`health
    ensures cache.Valid()
    ensures r ==
      LiquidationLimit(old(liqee.perps[m]).base, market.Totals(), AnyOpenOrders(old(liqee.perps)),
                       old(liqee.beingLiquidated), old(cache.HealthOf(Init)), old(cache.HealthOf(Maint)), price,
                       cache.perpWeights[m], fee)
    ensures r.Ok? ==>
      && BecomePair(liqee, liqor, m, market, old(PairNow(liqee, liqor, m, market)).Funded())
      && liqee.beingLiquidated == r.value.Some?
      && cache.health[IndexOf(Init)] == Some(old(cache.HealthOf(Init)))
      && cache.health[IndexOf(Maint)] == Some(old(cache.HealthOf(Maint)))
  {
    hide PerpPosition.SettleFunding, Sum, MaxTransfer, HealthPerLot, AnyOpenOrders, HealthCache.UpToDate;
    hide HealthCache.HealthOf;
    var open := HasOpenOrders(liqee);
    if open {
      return Err(InvalidState);
    }
    FundedBase(PairNow(liqee, liqor, m, market));
    var initHealth, maintHealth := BothHealths(cache);
    SettleBothFunding(liqee, liqor, m, market);
    if liqee.beingLiquidated {
      if initHealth > 0 {
        liqee.beingLiquidated := false;
        return Ok(None);
      }
    } else if maintHealth >= 0 {
      return Err(InvalidState);
    } else {
      liqee.beingLiquidated := true;
    }
    var perLot := HealthPerLot(liqee.perps[m].base, market.Totals(), price, cache.perpWeights[m], fee);
    var limit := MaxTransfer(liqee.perps[m].base, initHealth, perLot);
    r := if limit.Err? then Err(limit.error) else Ok(Some(limit.value));
  }

  /**
   * Takes over part of a position at a discount and leaves a record of it in the queue. The health of the liquidated
   * account decides whether and how much, and that of the liquidator must hold out.
   */
  method LiquidatePerpMarket(liqee: MangoAccount, liqor: MangoAccount, m: nat, market: PerpMarket, queue: Queue<Event>,
                             liqeeKey: Pubkey, liqorKey: Pubkey, request: int, price: Fixed, fee: Fixed, now: nat,
                             cache: HealthCache, liqorCache: HealthCache, spotOrders: seq<bool>, quoteToken: nat)
    returns (ok: bool)
    requires liqee != liqor && cache != liqorCache && queue.Valid()
    requires Cached(cache, liqee, m, market.Totals(), price) && Cached(liqorCache, liqor, m, market.Totals(), price)
    requires |liqee.perps| == |spotOrders| <= |liqee.deposits| && quoteToken < |liqee.deposits|
    modifies liqee`perps, liqee`beingLiquidated, liqee`isBankrupt, liqor`perps, market`openInterest, queue`count,
      queue`seqNum, queue.buf, cache`perp, cache`health, liqorCache`perp, liqorCache`health
    ensures
      var x, t, w := old(PairNow(liqee, liqor, m, market)), old(market.Totals()), cache.perpWeights[m];
      var open := AnyOpenOrders(old(liqee.perps));
      var initHealth, maintHealth := old(cache.HealthOf(Init)), old(cache.HealthOf(Maint));
      match Liquidation(x, open, old(liqee.beingLiquidated), initHealth, maintHealth, request, price, w, fee)
      case Refused => !ok
      case Recovered =>
        && ok && !liqee.beingLiquidated && BecomePair(liqee, liqor, m, market, x.Funded())
        && queue.Valid() && queue.Contents() == old(queue.Contents()) && liqee.isBankrupt == old(liqee.isBankrupt)
      case Liquidated(y) =>
        var liqorHealth :=
          HealthWith(old(liqorCache.HealthOf(Init)), x.q, y.q, t, price, liqorCache.perpWeights[m], Init);
        var after, maintAfter := HealthWith(initHealth, x.p, y.p, t, price, w, Init),
          HealthWith(maintHealth, x.p, y.p, t, price, w, Maint);
        && (ok <==> |old(queue.Contents())| < queue.buf.Length && liqorHealth >= 0)
        && (ok ==>
          && BecomePair(liqee, liqor, m, market, y) && queue.Valid() && queue.seqNum == old(queue.seqNum) + 1
          && queue.Contents() == old(queue.Contents()) +
               [Event.Liquidate(now, old(queue.seqNum), liqeeKey, liqorKey, price, y.q.base - x.q.base, fee)]
          && liqee.beingLiquidated == (maintAfter < 0 || after < -ONE)
          && liqee.isBankrupt == if maintAfter < 0 then Bankrupt(liqee.deposits, liqee.perps, spotOrders, quoteToken)
                                 else old(liqee.isBankrupt))
  {
    hide PerpPosition.SettleFunding, Queue.Contents, PerpVal, LiquidationLimit, Bankrupt, LiquidatePosition, HealthWith;
    hide HealthCache.UpToDate, HealthCache.HealthOf, AnyOpenOrders;
    ghost var x, t := PairNow(liqee, liqor, m, market), market.Totals();
    var limit := Decide(liqee, liqor, m, market, price, fee, cache);
    if limit.Err? {
      return false;
    }
    if limit.value.None? {
      return true;
    }
    FundedTwice(x, request, limit.value.value, price, fee);
    ok := TakeOver(liqee, liqor, m, market, queue, liqeeKey, liqorKey, request, limit.value.value, price, fee, now);
    if !ok {
      return;
    }
    var liqorHealth := HealthAfter(liqorCache, liqor, m, market, price, x.q, t);
    if liqorHealth < 0 {
      return false;
    }
    SettleFlags(liqee, m, market, price, cache, spotOrders, quoteToken, x.p, t);
  }

  lemma SameVal(p: PerpPosition, t: MarketTotals, t': MarketTotals, price: Fixed)
    requires t' == t.(openInterest := t'.openInterest)
    ensures PerpVal(p, t', price) == PerpVal(p, t, price)
  {
  }

  method CheckEnterBankruptcy(account: MangoAccount, spotOrders: seq<bool>, quoteToken: nat) returns (r: bool)
    requires |account.perps| == |spotOrders| <= |account.deposits| && quoteToken < |account.deposits|
    ensures r == Bankrupt(account.deposits, account.perps, spotOrders, quoteToken)
  {
    if account.deposits[quoteToken] > DUST_THRESHOLD {
      return false;
    }
    var i := 0;
    while i < |account.perps|
      invariant 0 <= i <= |account.perps|
      invariant forall j :: 0 <= j < i ==> NothingLeft(account.deposits[j], account.perps[j], spotOrders[j])
    {
      if account.deposits[i] > DUST_THRESHOLD { return false; }
      if spotOrders[i] { return false; }
      if account.perps[i].quote > 0 || account.perps[i].base != 0 { return false; }
      i := i + 1;
    }
    r := true;
  }

  method HasOpenOrders(account: MangoAccount) returns (r: bool)
    ensures r == AnyOpenOrders(account.perps)
  {
    var i := 0;
    while i < |account.perps|
      invariant 0 <= i <= |account.perps|
      invariant forall j :: 0 <= j < i ==> NoOpenOrders(account.perps[j])
    {
      if !NoOpenOrders(account.perps[i]) { return true; }
      i := i + 1;
    }
    r := false;
  }

  /** Closes opposite positions against each other at the oracle price. */
  method ForceSettlePerpPosition(a: MangoAccount, b: MangoAccount, m: nat, market: PerpMarket, price: Fixed)
    requires a != b && m < |a.perps| && m < |b.perps|
    modifies a`perps, b`perps, market`openInterest
    ensures BecomePair(a, b, m, market, ForceSettle(old(PairNow(a, b, m, market)), price))
  {
    hide PerpPosition.SettleFunding, FromNum, Mul;
    if !((a.perps[m].base > 0 && b.perps[m].base < 0) || (a.perps[m].base < 0 && b.perps[m].base > 0)) {
      assert a.perps == a.perps[m := a.perps[m]] && b.perps == b.perps[m := b.perps[m]];
      return;
    }
    SettleBothFunding(a, b, m, market);
    var size := Min(Abs(a.perps[m].base), Abs(b.perps[m].base));
    var worth := Mul(FromNum(size * market.baseLotSize), price);
    MulByNum(size * market.baseLotSize, price);
    Negate(size, market.baseLotSize, price);
    if a.perps[m].base > 0 {
      TransferPosition(a, b, m, market, size, -worth);
    } else {
      TransferPosition(a, b, m, market, -size, worth);
    }
  }

  method CheckExitBankruptcy(account: MangoAccount, quoteToken: nat) returns (r: bool)
    requires |account.perps| <= |account.borrows| && quoteToken < |account.borrows|
    ensures r == !StaysBankrupt(account.borrows, account.perps, quoteToken)
  {
    if account.borrows[quoteToken] > DUST_THRESHOLD {
      return false;
    }
    var i := 0;
    while i < |account.perps|
      invariant 0 <= i <= |account.perps|
      invariant forall j :: 0 <= j < i ==>
        account.borrows[j] <= DUST_THRESHOLD && account.perps[j].quote >= 0 && account.perps[j].base == 0
    {
      if account.borrows[i] > DUST_THRESHOLD { return false; }
      if account.perps[i].quote < 0 || account.perps[i].base != 0 { return false; }
      i := i + 1;
    }
    r := true;
  }

  /** The liquidator takes over debt for tokens from the insurance fund, if its health holds out. */
  method PayDebt(liqee: MangoAccount, liqor: MangoAccount, m: nat, market: PerpMarket, paid: int, price: Fixed,
                 ix: Bank.Indexes, bank: NodeBank, token: nat, cache: HealthCache)
    returns (ok: bool)
    requires liqee != liqor && m < |liqee.perps| && ix.deposit > 0 && ix.borrow > 0
    requires token < |liqor.deposits| && token < |liqor.borrows|
    requires Cached(cache, liqor, m, market.Totals(), price) && cache.quote == liqor.Token(token).Net(ix)
    modifies liqee`perps, liqor`perps, liqor`deposits, liqor`borrows, bank, cache`perp, cache`quote, cache`health
    ensures OnlyToken(liqor, token)
    ensures BecomePair(liqee, liqor, m, market, old(PairNow(liqee, liqor, m, market)).Transfer(-FromNum(paid)))
    ensures
      var tokens := Bank.ChangeNet(ix, old(liqor.Token(token)), old(bank.All()), FromNum(paid));
      var holds := tokens.Ok? &&
        HealthPaid(cache, old(cache.HealthOf(Init)), old(liqor.perps[m]), liqor.perps[m], m, market.Totals(), price,
                   old(cache.quote), tokens.value.0.Net(ix)) >= 0;
      && ok == holds
      && (ok ==> (liqor.Token(token), bank.All()) == tokens.value)
  {
    hide Bank.AddNet, Bank.SubNet, PerpVal, Weighted, Sum, Bank.Balance.Net;
    ghost var was, t := liqor.perps[m], market.Totals();
    TransferQuotePosition(liqee, liqor, m, market, -FromNum(paid));
    ok := CheckedChangeNet(ix, bank, liqor, token, FromNum(paid));
    if !ok {
      return;
    }
    var health := HealthAfter(cache, liqor, m, market, price, was, t);
    cache.UpdateQuote(liqor.Token(token).Net(ix));
    assert TypeAt(IndexOf(Init)) == Init;
    health := cache.GetHealth(Init);
    ok := health >= 0;
  }

  /** The initial health of a liquidator after its position and its quote balance have changed. */
  ghost function HealthPaid(cache: HealthCache, before: Fixed, p: PerpPosition, p': PerpPosition, m: nat,
                            t: MarketTotals, price: Fixed, net: Fixed, net': Fixed): Fixed
    requires m < |cache.perpWeights|
  {
    HealthWith(before, p, p', t, price, cache.perpWeights[m], Init) + (net' - net)
  }

  /**
   * Pays the debt of a bankrupt account from the insurance fund and socializes what the fund cannot pay. The liquidator
   * who takes over the debt must stay healthy.
   */
  method ResolvePerpBankruptcy(liqee: MangoAccount, liqor: MangoAccount, m: nat, market: PerpMarket, price: Fixed,
                               maxTransfer: Fixed, insurance: nat, ix: Bank.Indexes, bank: NodeBank, token: nat,
                               cache: HealthCache)
    returns (ok: bool, paid: int)
    requires liqee != liqor && m < |liqee.perps| && market.openInterest >= 0 && ix.deposit > 0 && ix.borrow > 0
    requires token < |liqor.deposits| && token < |liqor.borrows|
    requires |liqee.perps| <= |liqee.borrows| && token < |liqee.borrows|
    requires Cached(cache, liqor, m, market.Totals(), price) && cache.quote == liqor.Token(token).Net(ix)
    modifies liqee`perps, liqee`isBankrupt, liqor`perps, liqor`deposits, liqor`borrows, market`longFunding,
      market`shortFunding, bank, cache`perp, cache`quote, cache`health
    ensures OnlyToken(liqor, token)
    ensures
      var x, t := old(PairNow(liqee, liqor, m, market)), old(market.Totals());
      var r := ResolveBankruptcy(x, maxTransfer, insurance);
      if r.Err? then !ok
      else
        var pay := Insured(-x.p.quote, maxTransfer, insurance);
        var tokens := Bank.ChangeNet(ix, old(liqor.Token(token)), old(bank.All()), FromNum(pay));
        var holds := tokens.Ok? &&
          (pay == 0 || HealthPaid(cache, old(cache.HealthOf(Init)), x.q, r.value.q, m, t, price, old(cache.quote),
                                  tokens.value.0.Net(ix)) >= 0);
        && ok == holds
        && (ok ==>
          && paid == pay && BecomePair(liqee, liqor, m, market, r.value)
          && (liqor.Token(token), bank.All()) == tokens.value
          && liqee.isBankrupt == StaysBankrupt(liqee.borrows, liqee.perps, token))
  {
    hide Bank.AddNet, Bank.SubNet, Ceil, Div, HealthPaid, PerpVal, Sum, StaysBankrupt, Bank.Balance.Net;
    ok, paid := false, 0;
    var debt := -liqee.perps[m].quote;
    if maxTransfer <= 0 || debt <= 0 {
      return;
    }
    paid := Min(Ceil(Min(maxTransfer, debt)), insurance);
    if paid != 0 {
      var held := PayDebt(liqee, liqor, m, market, paid, price, ix, bank, token, cache);
      if !held {
        return;
      }
    } else {
      assert liqor.perps == liqor.perps[m := liqor.perps[m].(quote := liqor.perps[m].quote + 0)];
      assert liqee.perps == liqee.perps[m := liqee.perps[m].(quote := liqee.perps[m].quote - 0)];
    }
    if paid == insurance && liqee.perps[m].quote < 0 {
      market.SocializeLoss(liqee, m);
    }
    var exits := CheckExitBankruptcy(liqee, token);
    liqee.isBankrupt := !exits;
    ok := true;
  }
}
