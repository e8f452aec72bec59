/** The account and market objects whose fields the instructions update. */
module MangoAccounts {
  import opened OrderKeys
  import opened Types
  import opened FixedPoint
  import opened Events
  import opened EventQueues
  import opened OrderIds
  import opened PerpState
  import opened Bank

  class PerpMarket {
    var longFunding: Fixed
    var shortFunding: Fixed
    var openInterest: int
    var feesAccrued: Fixed
    var seqNum: nat
    const quoteLotSize: int
    const baseLotSize: int
    const version: nat
    const maxDepth: int

    constructor (quoteLotSize: int, baseLotSize: int, version: nat, maxDepth: int)
      ensures Totals() == MarketTotals(0, 0, 0, 0, 0, quoteLotSize, baseLotSize, version, maxDepth)
    {
      this.quoteLotSize, this.baseLotSize, this.version, this.maxDepth :=
        quoteLotSize, baseLotSize, version, maxDepth;
      longFunding, shortFunding, openInterest, feesAccrued, seqNum := 0, 0, 0, 0, 0;
    }

    function Totals(): MarketTotals
      reads this
    {
      MarketTotals(longFunding, shortFunding, openInterest, feesAccrued, seqNum,
                   quoteLotSize, baseLotSize, version, maxDepth)
    }

    /** Keys carry the price in the top 64 bits; below it, later bids count down and later asks up. */
    method GenOrderId(side: Side, price: int) returns (id: Key)
      requires 0 <= price <= I64_MAX && seqNum < U64_MAX
      modifies this`seqNum
      ensures seqNum == old(seqNum) + 1 && id == OrderId(side, price, seqNum)
    {
      seqNum := seqNum + 1;
      id := OrderId(side, price, seqNum);
    }

    /** Spreads the loss of one account over all open contracts; with none the loss stays. */
    method SocializeLoss(account: MangoAccount, m: nat)
      requires m < |account.perps|
      requires openInterest >= 0
      modifies this`longFunding, this`shortFunding, account`perps
      ensures var (p, t) := SocializePosition(old(account.perps[m]), old(Totals()));
        account.perps == old(account.perps)[m := p] && Totals() == t
    {
      var loss := if openInterest == 0 then 0 else Div(account.perps[m].quote, FromNum(openInterest));
      account.perps := account.perps[m := account.perps[m].(quote := 0)];
      longFunding := longFunding - loss;
      shortFunding := shortFunding + loss;
    }
  }

  class MangoAccount {
    var perps: seq<PerpPosition>
    var slots: seq<OrderSlot>
    var deposits: seq<Fixed>
    var borrows: seq<Fixed>
    var beingLiquidated: bool
    var isBankrupt: bool

    constructor (markets: nat, tokens: nat)
      ensures |perps| == markets && |slots| == MAX_PERP_OPEN_ORDERS
      ensures forall i :: 0 <= i < |slots| ==> slots[i].Free?
      ensures forall i :: 0 <= i < markets ==> perps[i] == PerpPosition(0, 0, 0, 0, 0, 0, 0, 0)
      ensures |deposits| == |borrows| == tokens && forall i :: 0 <= i < tokens ==> Token(i) == Balance(0, 0)
      ensures !beingLiquidated && !isBankrupt
    {
      perps := seq(markets, _ => PerpPosition(0, 0, 0, 0, 0, 0, 0, 0));
      slots := seq(MAX_PERP_OPEN_ORDERS, _ => Free);
      deposits, borrows := seq(tokens, _ => 0), seq(tokens, _ => 0);
      beingLiquidated, isBankrupt := false, false;
    }

    /** What the account has of a token. */
    function Token(i: nat): Balance
      requires i < |deposits| && i < |borrows|
      reads this
    {
      Balance(deposits[i], borrows[i])
    }

    method ChangeDeposit(i: nat, v: Fixed) returns (ok: bool)
      requires i < |deposits| && i < |borrows|
      modifies this`deposits
      ensures deposits == old(deposits)[i := old(deposits[i]) + v] && ok == Token(i).Proper()
    {
      deposits := deposits[i := deposits[i] + v];
      ok := deposits[i] >= 0 && borrows[i] >= 0 && (borrows[i] == 0 || deposits[i] == 0);
    }

    method ChangeBorrow(i: nat, v: Fixed) returns (ok: bool)
      requires i < |deposits| && i < |borrows|
      modifies this`borrows
      ensures borrows == old(borrows)[i := old(borrows[i]) + v] && ok == Token(i).Proper()
    {
      borrows := borrows[i := borrows[i] + v];
      ok := deposits[i] >= 0 && borrows[i] >= 0 && (borrows[i] == 0 || deposits[i] == 0);
    }

    function State(): Account
      reads this
    {
      Account(perps, slots)
    }

    method SettleFunding(m: nat, market: PerpMarket)
      requires m < |perps|
      modifies this`perps
      ensures perps == old(perps)[m := old(perps[m]).SettleFunding(market.longFunding, market.shortFunding)]
    {
      hide Mul, FromNum;
      var p := perps[m];
      MulByNum(p.base, market.longFunding - p.longSettled);
      MulByNum(p.base, market.shortFunding - p.shortSettled);
      if p.base > 0 {
        p := p.(quote := p.quote - Mul(market.longFunding - p.longSettled, FromNum(p.base)));
      } else if p.base < 0 {
        p := p.(quote := p.quote - Mul(market.shortFunding - p.shortSettled, FromNum(p.base)));
      }
      p := p.(longSettled := market.longFunding, shortSettled := market.shortFunding);
      perps := perps[m := p];
    }

    method ChangeBasePosition(m: nat, market: PerpMarket, change: int)
      requires m < |perps|
      modifies this`perps, market`openInterest
      ensures perps == old(perps)[m := old(perps[m]).(base := old(perps[m]).base + change)]
      ensures market.Totals() == OpenInterestAfter(old(market.Totals()), old(perps[m]).base, change)
    {
      var start := perps[m].base;
      perps := perps[m := perps[m].(base := start + change)];
      market.openInterest := market.openInterest + Abs(perps[m].base) - Abs(start);
    }

    method AddTakerTrade(m: nat, base: int, quote: int)
      requires m < |perps|
      modifies this`perps
      ensures perps == old(perps)[m := old(perps[m]).(takerBase := old(perps[m]).takerBase + base,
                                                      takerQuote := old(perps[m]).takerQuote + quote)]
    {
      var p := perps[m];
      perps := perps[m := p.(takerBase := p.takerBase + base, takerQuote := p.takerQuote + quote)];
    }

    method NextOrderSlot() returns (r: Option<nat>)
      ensures r == FirstFree(slots)
    {
      var i := 0;
      while i < |slots|
        invariant 0 <= i <= |slots|
        invariant FirstFree(slots) ==
                  match FirstFree(slots[i..]) case None => None case Some(j) => Some(i + j)
      {
        if slots[i].Free? {
          return Some(i);
        }
        assert slots[i..][1..] == slots[i + 1..];
        i := i + 1;
      }
      r := None;
    }

    method AddOrderToSlot(m: nat, side: Side, leaf: LeafNode)
      requires m < |perps| && leaf.ownerSlot < |slots|
      modifies this`perps, this`slots
      ensures State() == AddOrder(old(State()), m, side, leaf)
    {
      perps := perps[m := perps[m].AddQuantity(side, leaf.quantity)];
      slots := slots[leaf.ownerSlot := Used(m, side, leaf.key, leaf.clientOrderId)];
    }

    method RemoveOrder(slot: nat, quantity: int) returns (ok: bool)
      modifies this`perps, this`slots
      ensures ok == RemoveOrderAt(old(State()), slot, quantity).Ok?
      ensures State() == if ok then RemoveOrderAt(old(State()), slot, quantity).value else old(State())
    {
      if slot >= |slots| || slots[slot].Free? || slots[slot].market >= |perps| {
        return false;
      }
      var s := slots[slot];
      perps := perps[s.market := perps[s.market].AddQuantity(s.side, -quantity)];
      slots := slots[slot := Free];
      ok := true;
    }

    method ExecuteTakerFill(m: nat, market: PerpMarket, fill: Event)
      requires m < |perps| && fill.Fill?
      modifies this`perps, market`openInterest
      ensures (State(), market.Totals()) == ExecuteTaker(old(State()), m, old(market.Totals()), fill)
    {
      hide FromNum, PerpPosition.SettleFunding;
      ghost var was := perps;
      SettleFunding(m, market);
      var (base, quote) := fill.BaseQuoteChange(fill.takerSide);
      AddTakerTrade(m, -base, -quote);
      ChangeBasePosition(m, market, base);
      perps := perps[m := perps[m].(quote := perps[m].quote + FromNum(market.quoteLotSize * quote))];
      assert perps == was[m := perps[m]];
    }

    method ExecuteMakerFill(m: nat, market: PerpMarket, fill: Event) returns (ok: bool)
      requires m < |perps| && fill.Fill?
      modifies this`perps, this`slots, market`openInterest
      ensures ok == ExecuteMaker(old(State()), m, old(market.Totals()), fill).Ok?
      ensures ok ==> (State(), market.Totals()) == ExecuteMaker(old(State()), m, old(market.Totals()), fill).value
    {
      hide Mul, FromNum, PerpPosition.SettleFunding;
      ghost var was := perps;
      SettleFunding(m, market);
      var side := InvertSide(fill.takerSide);
      var (base, quote) := fill.BaseQuoteChange(side);
      ChangeBasePosition(m, market, base);
      var native := FromNum(market.quoteLotSize * quote);
      var fees := Mul(Abs(native), fill.makerFee);
      SameFees(market.Totals(), fill);
      perps := perps[m := perps[m].(quote := perps[m].quote + native - fees)];
      assert perps == was[m := perps[m]];
      if fill.makerOut {
        ok := RemoveOrder(fill.makerSlot, Abs(base));
      } else {
        perps := perps[m := perps[m].AddQuantity(side, -Abs(base))];
        assert perps == was[m := perps[m]];
        ok := true;
      }
    }

    static lemma SameFees(t: MarketTotals, fill: Event)
      requires fill.Fill?
      ensures var (_, quote) := fill.BaseQuoteChange(InvertSide(fill.takerSide));
        Mul(Abs(FromNum(t.quoteLotSize * quote)), fill.makerFee) == MakerFees(t, fill)
    {
      var x := fill.price * fill.quantity;
      var n := t.quoteLotSize * x;
      Negated(t.quoteLotSize, x);
      hide FromNum, Mul;
      AbsNum(n);
      MulByNum(Abs(n), fill.makerFee);
    }

    static lemma AbsNum(n: int)
      ensures Abs(FromNum(n)) == FromNum(Abs(n)) == Abs(FromNum(-n))
    {
    }

    /** The base position with the fills that are still queued taken into account. */
    method GetCompleteBasePos(m: nat, queue: Queue<Event>, pk: Pubkey) returns (basePos: int)
      requires m < |perps| && queue.Valid()
      ensures basePos == perps[m].base + perps[m].takerBase + MakerBase(queue.Contents(), pk)
    {
      basePos := perps[m].base + perps[m].takerBase;
      var i := 0;
      ghost var events := queue.Contents();
      while i < queue.count
        invariant 0 <= i <= queue.count
        invariant basePos + MakerBase(events[i..], pk) == perps[m].base + perps[m].takerBase + MakerBase(events, pk)
      {
        var event := queue.Get(i);
        assert events[i..][0] == event && events[i..][1..] == events[i + 1..];
        if event.Fill? && event.maker == pk {
          basePos := if event.takerSide == Bid then basePos - event.quantity else basePos + event.quantity;
        }
        i := i + 1;
      }
    }
  }
}
