/** The exchange as a transition system: all accounts, all markets, and the instructions that move them. */
module Exchange {
  import opened OrderKeys
  import opened Types
  import opened FixedPoint
  import opened Events
  import opened Matcher
  import opened OrderIds
  import opened PerpState
  import opened OrderPlacement
  import opened Ledger

  datatype State = State(accounts: seq<Account>, markets: seq<MarketState>)

  // ----- The order ledger: slots and quantities against orders and events

  /** What an account records for a claim. */
  function Recorded(a: Account, m: nat, c: Claim, side: Side): int
    requires m < |a.perps|
  {
    match c
    case OnSlot(s) =>
      if s < |a.slots| && a.slots[s].Used? && a.slots[s].market == m && a.slots[s].side == side then 1 else 0
    case OnLots => a.perps[m].Quantity(side)
  }

  /** What resting orders and queued events hold of a claim. */
  function Held(mk: MarketState, c: Claim, side: Side, owner: Pubkey): int {
    BookClaims(c, owner, mk.Resting(side)) + QueueClaims(c, side, owner, mk.queue)
  }

  /** The records of one account in one market agree with the book and the queue, claim by claim. */
  ghost predicate Balanced(mk: MarketState, m: nat, a: Account, owner: Pubkey) {
    && m < |a.perps|
    && (forall c, side :: Held(mk, c, side, owner) == Recorded(a, m, c, side))
    && a.perps[m].takerBase == TakerBase(mk.queue, owner)
    && a.perps[m].takerQuote == TakerQuote(mk.queue, owner)
  }

  /** The slot of an order on the book names that order, and no other slot of any account does. */
  ghost predicate Named(mk: MarketState, m: nat, a: Account, owner: Pubkey) {
    && (forall side, o :: o in mk.Resting(side) && o.owner == owner ==>
      o.ownerSlot < |a.slots| && a.slots[o.ownerSlot] == Used(m, side, o.key, o.clientOrderId))
    && (forall side, o, x :: o in mk.Resting(side) && 0 <= x < |a.slots| && Names(a.slots[x], m, side, o.key) ==>
      o.owner == owner && o.ownerSlot == x)
  }

  predicate Names(slot: OrderSlot, m: nat, side: Side, key: Key) {
    slot.Used? && slot.market == m && slot.side == side && slot.orderId == key
  }

  predicate Holds(slot: OrderSlot, m: nat, side: Side) { slot.Used? && slot.market == m && slot.side == side }

  /** The order ids in the slots of a market carry numbers below `n` and never repeat on a side. */
  ghost predicate Numbered(a: Account, m: nat, n: nat) {
    && (forall slot :: slot in a.slots && slot.Used? && slot.market == m ==> KeyAge(slot.side, slot.orderId) < n)
    && (forall i, j, side ::
          0 <= i < j < |a.slots| && Holds(a.slots[i], m, side) && Holds(a.slots[j], m, side) ==>
          a.slots[i].orderId != a.slots[j].orderId)
  }

  ghost predicate Agrees(mk: MarketState, m: nat, a: Account, owner: Pubkey) {
    Balanced(mk, m, a, owner) && Named(mk, m, a, owner) && Numbered(a, m, mk.totals.seqNum + 1)
  }

  /** Orders and events are sound and belong to known accounts. */
  ghost predicate Sound(mk: MarketState, accounts: nat) {
    && MarketOk(mk)
    && (forall side, o :: o in mk.Resting(side) ==> SoundOrder(side, o, mk.totals.seqNum, accounts))
    && (forall e :: e in mk.queue ==> SoundEvent(e, accounts))
  }

  ghost predicate SoundOrder(side: Side, o: LeafNode, seqNum: nat, accounts: nat) {
    o.owner < accounts && KeyAge(side, o.key) <= seqNum
  }

  ghost predicate SoundEvent(e: Event, accounts: nat) {
    match e
    case Fill(_, _, _, _, _, maker, _, _, _, _, _, taker, _, _, _, price, quantity, _) =>
      maker < accounts && taker < accounts && price > 0 && quantity > 0
    case Out(_, _, _, _, owner, quantity) => owner < accounts && quantity > 0
    case Liquidate(_, _, _, _, _, _, _) => true
  }

  ghost predicate LedgerOk(s: State) {
    && (forall i :: 0 <= i < |s.accounts| ==>
      |s.accounts[i].perps| == |s.markets| && |s.accounts[i].slots| == MAX_PERP_OPEN_ORDERS)
    && (forall m :: 0 <= m < |s.markets| ==> Sound(s.markets[m], |s.accounts|))
    && (forall m, i :: 0 <= m < |s.markets| && 0 <= i < |s.accounts| ==> Agrees(s.markets[m], m, s.accounts[i], i))
  }

  predicate Touches(slot: OrderSlot, m: nat) { slot.Free? || slot.market == m }

  /** Two states of an account that differ in market `m` only. */
  ghost predicate SameElsewhere(a: Account, a': Account, m: nat) {
    && |a'.perps| == |a.perps| && |a'.slots| == |a.slots|
    && (forall k :: 0 <= k < |a.perps| && k != m ==> a'.perps[k] == a.perps[k])
    && (forall i :: 0 <= i < |a.slots| ==>
      a'.slots[i] == a.slots[i] || (Touches(a.slots[i], m) && Touches(a'.slots[i], m)))
  }

  lemma ElsewhereAgrees(mk: MarketState, k: nat, a: Account, a': Account, m: nat, owner: Pubkey)
    requires Agrees(mk, k, a, owner) && SameElsewhere(a, a', m) && k != m
    ensures Agrees(mk, k, a', owner)
  {
    ElsewhereNumbered(a, a', k, m, mk.totals.seqNum + 1);
    hide BookClaims, QueueClaims, TakerBase, TakerQuote, Numbered;
    forall c, side
      ensures Held(mk, c, side, owner) == Recorded(a', k, c, side)
    {
      assert Held(mk, c, side, owner) == Recorded(a, k, c, side);
    }
  }

  lemma ElsewhereNumbered(a: Account, a': Account, k: nat, m: nat, n: nat)
    requires Numbered(a, k, n) && SameElsewhere(a, a', m) && k != m
    ensures Numbered(a', k, n)
  {
    hide KeyAge;
    forall slot | slot in a'.slots && slot.Used? && slot.market == k
      ensures KeyAge(slot.side, slot.orderId) < n
    {
      var i :| 0 <= i < |a'.slots| && a'.slots[i] == slot;
      assert a.slots[i] in a.slots;
    }
  }

  /** A step inside market `m`. */
  ghost predicate MarketStep(s: State, s': State, m: nat) {
    && m < |s.markets| && |s'.accounts| == |s.accounts|
    && |s'.markets| == |s.markets| && s'.markets == s.markets[m := s'.markets[m]]
    && forall i :: 0 <= i < |s.accounts| ==> SameElsewhere(s.accounts[i], s'.accounts[i], m)
  }

  lemma MarketStepTwice(s: State, s1: State, s2: State, m: nat)
    requires MarketStep(s, s1, m) && MarketStep(s1, s2, m)
    ensures MarketStep(s, s2, m)
  {
    hide SameElsewhere;
    forall i | 0 <= i < |s.accounts|
      ensures SameElsewhere(s.accounts[i], s2.accounts[i], m)
    {
      SameElsewhereTwice(s.accounts[i], s1.accounts[i], s2.accounts[i], m);
    }
  }

  /** A step inside one market keeps the ledger if it keeps it for every account in that market. */
  lemma LedgerStep(s: State, s': State, m: nat)
    requires LedgerOk(s) && MarketStep(s, s', m) && Sound(s'.markets[m], |s.accounts|)
    requires forall i :: 0 <= i < |s.accounts| ==> Agrees(s'.markets[m], m, s'.accounts[i], i)
    ensures LedgerOk(s')
  {
    hide Sound, Agrees, SameElsewhere;
    forall k, i | 0 <= k < |s'.markets| && 0 <= i < |s'.accounts|
      ensures Agrees(s'.markets[k], k, s'.accounts[i], i)
    {
      if k != m {
        assert Agrees(s.markets[k], k, s.accounts[i], i);
        ElsewhereAgrees(s.markets[k], k, s.accounts[i], s'.accounts[i], m, i);
      }
    }
    forall i | 0 <= i < |s'.accounts|
      ensures |s'.accounts[i].perps| == |s'.markets| && |s'.accounts[i].slots| == MAX_PERP_OPEN_ORDERS
    {
      ElsewhereSizes(s.accounts[i], s'.accounts[i], m);
    }
  }

  lemma ElsewhereSizes(a: Account, a': Account, m: nat)
    requires SameElsewhere(a, a', m)
    ensures |a'.perps| == |a.perps| && |a'.slots| == |a.slots|
  {
  }

  // ----- Steps off the book: they move positions, funding and fees, but no order and no queued fill

  ghost predicate OffBook(a: Account, a': Account, m: nat) {
    && m < |a.perps| && a' == a.(perps := a.perps[m := if m < |a'.perps| then a'.perps[m] else a.perps[m]])
    && a'.perps[m] == a.perps[m].(base := a'.perps[m].base, quote := a'.perps[m].quote,
         longSettled := a'.perps[m].longSettled, shortSettled := a'.perps[m].shortSettled)
  }

  ghost predicate SameNumbering(t: MarketTotals, t': MarketTotals) {
    t' == t.(longFunding := t'.longFunding, shortFunding := t'.shortFunding, openInterest := t'.openInterest,
             feesAccrued := t'.feesAccrued)
  }

  lemma OffBookAgrees(mk: MarketState, mk': MarketState, m: nat, a: Account, a': Account, owner: Pubkey)
    requires Agrees(mk, m, a, owner) && OffBook(a, a', m) && mk' == mk.(totals := mk'.totals)
    requires SameNumbering(mk.totals, mk'.totals)
    ensures Agrees(mk', m, a', owner) && SameElsewhere(a, a', m)
  {
    hide BookClaims, QueueClaims, TakerBase, TakerQuote;
    assert forall side :: mk'.Resting(side) == mk.Resting(side);
    forall c, side
      ensures Held(mk', c, side, owner) == Recorded(a', m, c, side)
    {
      assert Held(mk, c, side, owner) == Recorded(a, m, c, side);
    }
  }

  lemma TotalsSound(mk: MarketState, mk': MarketState, n: nat)
    requires Sound(mk, n) && mk' == mk.(totals := mk'.totals) && SameNumbering(mk.totals, mk'.totals)
    ensures Sound(mk', n)
  {
    assert forall side :: mk'.Resting(side) == mk.Resting(side);
  }

  ghost predicate OffBookStep(s: State, s': State, m: nat) {
    && m < |s.markets| && |s'.accounts| == |s.accounts| && |s'.markets| == |s.markets|
    && s'.markets == s.markets[m := s.markets[m].(totals := s'.markets[m].totals)]
    && SameNumbering(s.markets[m].totals, s'.markets[m].totals)
    && forall i :: 0 <= i < |s.accounts| ==> OffBook(s.accounts[i], s'.accounts[i], m)
  }

  lemma OffBookKeepsLedger(s: State, s': State, m: nat)
    requires LedgerOk(s) && OffBookStep(s, s', m)
    ensures LedgerOk(s') && MarketStep(s, s', m)
  {
    var mk, mk' := s.markets[m], s'.markets[m];
    assert Sound(mk, |s.accounts|);
    hide Sound, Agrees, SameElsewhere, OffBook;
    TotalsSound(mk, mk', |s.accounts|);
    forall i | 0 <= i < |s.accounts|
      ensures Agrees(mk', m, s'.accounts[i], i) && SameElsewhere(s.accounts[i], s'.accounts[i], m)
    {
      assert Agrees(mk, m, s.accounts[i], i);
      OffBookAgrees(mk, mk', m, s.accounts[i], s'.accounts[i], i);
    }
    LedgerStep(s, s', m);
  }

  lemma NothingMoves(a: Account, m: nat)
    requires m < |a.perps|
    ensures OffBook(a, a, m)
  {
    assert a.perps[m := a.perps[m]] == a.perps;
  }

  lemma SameElsewhereTwice(a: Account, b: Account, c: Account, m: nat)
    requires SameElsewhere(a, b, m) && SameElsewhere(b, c, m)
    ensures SameElsewhere(a, c, m)
  {
  }

  lemma SameElsewhereSelf(a: Account, m: nat)
    ensures SameElsewhere(a, a, m)
  {
  }

  // ----- Consuming an event

  /** The accounts that an event is about are among those provided. */
  predicate About(e: Event, provided: set<Pubkey>) {
    match e
    case Fill(_, _, _, _, _, maker, _, _, _, _, _, taker, _, _, _, _, _, _) => maker in provided && taker in provided
    case Out(_, _, _, _, owner, _) => owner in provided
    case Liquidate(_, _, _, _, _, _, _) => true
  }

  predicate Within(e: Event, n: nat) {
    match e
    case Fill(_, _, _, _, _, maker, _, _, _, _, _, taker, _, _, _, _, _, _) => maker < n && taker < n
    case Out(_, _, _, _, owner, _) => owner < n
    case Liquidate(_, _, _, _, _, _, _) => true
  }

  function ConsumeAccounts(accounts: seq<Account>, m: nat, t: MarketTotals, e: Event):
    Result<(seq<Account>, MarketTotals)>
    requires Within(e, |accounts|) && forall i :: 0 <= i < |accounts| ==> m < |accounts[i].perps|
  {
    match e
    case Fill(_, _, _, _, _, maker, _, _, _, _, _, taker, _, _, _, _, _, _) =>
      (match ExecuteMaker(accounts[maker], m, t, e)
       case Err(x) => Err(x)
       case Ok((a, t1)) =>
         var after := accounts[maker := a];
         if m >= |after[taker].perps| then Err(Panic)
         else
           var (b, t2) := ExecuteTaker(after[taker], m, t1, e);
           Ok((after[taker := b], t2)))
    case Out(_, slot, _, _, owner, quantity) =>
      (match RemoveOrderAt(accounts[owner], slot, quantity)
       case Err(x) => Err(x)
       case Ok(a) => Ok((accounts[owner := a], t)))
    case Liquidate(_, _, _, _, _, _, _) => Ok((accounts, t))
  }

  function ConsumeEvent(s: State, m: nat): Result<State>
    requires m < |s.markets| && (forall e :: e in s.markets[m].queue ==> SoundEvent(e, |s.accounts|))
    requires forall i :: 0 <= i < |s.accounts| ==> m < |s.accounts[i].perps|
  {
    var mk := s.markets[m];
    if mk.queue == [] then Ok(s)
    else
      assert mk.queue[0] in mk.queue && SoundEvent(mk.queue[0], |s.accounts|);
      match ConsumeAccounts(s.accounts, m, mk.totals, mk.queue[0])
      case Err(x) => Err(x)
      case Ok((accounts, t)) => Ok(State(accounts, s.markets[m := mk.(totals := t, queue := mk.queue[1..])]))
  }

  lemma {:induction false} ClaimsNonNegative(c: Claim, side: Side, owner: Pubkey, s: seq<LeafNode>, q: seq<Event>,
                                             n: nat)
    requires Tradable(s) && forall e :: e in q ==> SoundEvent(e, n)
    ensures BookClaims(c, owner, s) >= 0 && QueueClaims(c, side, owner, q) >= 0
    decreases |s| + |q|
  {
    if s != [] {
      assert s[0] in s;
      ClaimsNonNegative(c, side, owner, s[1..], q, n);
    } else if q != [] {
      assert q[0] in q;
      ClaimsNonNegative(c, side, owner, s, q[1..], n);
    }
  }

  lemma {:induction false} LeafHolds(c: Claim, o: LeafNode, s: seq<LeafNode>)
    requires Tradable(s) && o in s
    ensures BookClaims(c, o.owner, s) >= LeafClaim(c, o.owner, o)
  {
    if s[0] == o {
      ClaimsNonNegative(c, Bid, o.owner, s[1..], [], 0);
    } else {
      assert s[0] in s;
      LeafHolds(c, o, s[1..]);
    }
  }

  /** Freeing slots keeps the names when the records still agree: no order on the book loses its slot. */
  lemma NamesSurvive(mk: MarketState, mk': MarketState, m: nat, a: Account, a': Account, owner: Pubkey, n: nat)
    requires Named(mk, m, a, owner) && Balanced(mk', m, a', owner) && Sound(mk', n)
    requires forall side, o :: o in mk'.Resting(side) ==> o in mk.Resting(side)
    requires OnlyFrees(a, a')
    ensures Named(mk', m, a', owner)
  {
    forall side, o | o in mk'.Resting(side) && o.owner == owner
      ensures o.ownerSlot < |a'.slots| && a'.slots[o.ownerSlot] == Used(m, side, o.key, o.clientOrderId)
    {
      var c := OnSlot(o.ownerSlot);
      LeafHolds(c, o, mk'.Resting(side));
      ClaimsNonNegative(c, side, owner, [], mk'.queue, n);
      assert Held(mk', c, side, owner) == Recorded(a', m, c, side);
    }
  }

  lemma FreeingKeepsNumbers(a: Account, a': Account, m: nat, n: nat)
    requires Numbered(a, m, n) && OnlyFrees(a, a')
    ensures Numbered(a', m, n)
  {
  }

  ghost predicate OnlyFrees(a: Account, a': Account) {
    |a'.slots| == |a.slots| && forall i :: 0 <= i < |a.slots| ==> a'.slots[i] == a.slots[i] || a'.slots[i].Free?
  }

  /** Removing the order of a slot takes exactly its claims from the records. */
  lemma RemovalRecords(a: Account, m: nat, side: Side, slot: nat, quantity: int)
    requires m < |a.perps| && Recorded(a, m, OnSlot(slot), side) >= 1
    ensures RemoveOrderAt(a, slot, quantity).Ok?
    ensures var a' := RemoveOrderAt(a, slot, quantity).value;
      && SameElsewhere(a, a', m)
      && a'.perps[m] == a.perps[m].AddQuantity(side, -quantity)
      && a'.slots == a.slots[slot := Free]
      && forall c, sd :: Recorded(a', m, c, sd) == Recorded(a, m, c, sd) -
           (if sd == side then (match c case OnSlot(s) => (if s == slot then 1 else 0) case OnLots => quantity) else 0)
  {
  }

  lemma SettlingKeepsRecords(a: Account, m: nat, p: PerpPosition)
    requires m < |a.perps| && p.bidsQuantity == a.perps[m].bidsQuantity && p.asksQuantity == a.perps[m].asksQuantity
    ensures var a' := a.(perps := a.perps[m := p]);
      SameElsewhere(a, a', m) && forall c, side :: Recorded(a', m, c, side) == Recorded(a, m, c, side)
  {
  }

  /** The maker of a fill gives up exactly what the fill held: no wrong slot is freed. */
  lemma MakerRecords(a: Account, m: nat, t: MarketTotals, e: Event, owner: Pubkey)
    requires m < |a.perps| && e.Fill? && e.maker == owner && e.quantity > 0
    requires e.makerOut ==> Recorded(a, m, OnSlot(e.makerSlot), InvertSide(e.takerSide)) >= 1
    ensures ExecuteMaker(a, m, t, e).Ok?
    ensures var a' := ExecuteMaker(a, m, t, e).value.0;
      && SameElsewhere(a, a', m) && OnlyFrees(a, a')
      && (forall c, side :: Recorded(a', m, c, side) == Recorded(a, m, c, side) - EventClaim(c, side, owner, e))
      && a'.perps[m].takerBase == a.perps[m].takerBase && a'.perps[m].takerQuote == a.perps[m].takerQuote
  {
    var side := InvertSide(e.takerSide);
    var p := a.perps[m].SettleFunding(t.longFunding, t.shortFunding);
    var (base, quote) := e.BaseQuoteChange(side);
    var p' := p.(base := p.base + base, quote := p.quote + FromNum(t.quoteLotSize * quote) - MakerFees(t, e));
    SettlingKeepsRecords(a, m, p');
    var b := a.(perps := a.perps[m := p']);
    hide PerpPosition.SettleFunding, FromNum, MakerFees;
    if e.makerOut {
      RemovalRecords(b, m, side, e.makerSlot, Abs(base));
      SameElsewhereTwice(a, b, RemoveOrderAt(b, e.makerSlot, Abs(base)).value, m);
    } else {
      assert ExecuteMaker(a, m, t, e).value.0 == a.(perps := a.perps[m := p'.AddQuantity(side, -Abs(base))]);
    }
  }

  lemma TakerRecords(a: Account, m: nat, t: MarketTotals, e: Event)
    requires m < |a.perps| && e.Fill?
    ensures var a' := ExecuteTaker(a, m, t, e).0;
      && SameElsewhere(a, a', m) && a'.slots == a.slots
      && (forall c, side :: Recorded(a', m, c, side) == Recorded(a, m, c, side))
      && a'.perps[m].takerBase == a.perps[m].takerBase - e.BaseQuoteChange(e.takerSide).0
      && a'.perps[m].takerQuote == a.perps[m].takerQuote - e.BaseQuoteChange(e.takerSide).1
  {
    hide PerpPosition.QuotePosition, FromNum;
    SettlingKeepsRecords(a, m, ExecuteTaker(a, m, t, e).0.perps[m]);
    assert a.(perps := a.perps[m := ExecuteTaker(a, m, t, e).0.perps[m]]) == ExecuteTaker(a, m, t, e).0;
  }

  /** What one event takes from the records of an account. */
  ghost predicate Paid(a: Account, a': Account, m: nat, e: Event, owner: Pubkey)
    requires m < |a.perps|
  {
    && SameElsewhere(a, a', m) && OnlyFrees(a, a')
    && (forall c, side :: Recorded(a', m, c, side) == Recorded(a, m, c, side) - EventClaim(c, side, owner, e))
    && a'.perps[m].takerBase == a.perps[m].takerBase - TakerBase([e], owner)
    && a'.perps[m].takerQuote == a.perps[m].takerQuote - TakerQuote([e], owner)
  }

  lemma NothingPaid(a: Account, m: nat, e: Event, owner: Pubkey)
    requires m < |a.perps|
    requires match e case Fill(_, _, _, _, _, maker, _, _, _, _, _, taker, _, _, _, _, _, _) => maker != owner
             && taker != owner
                     case Out(_, _, _, _, out, _) => out != owner case Liquidate(_, _, _, _, _, _, _) => true
    ensures Paid(a, a, m, e, owner)
  {
    assert [e][1..] == [];
  }

  /** Consuming an event succeeds on balanced records and pays every account its part. */
  lemma EventPaid(accounts: seq<Account>, m: nat, t: MarketTotals, e: Event)
    requires SoundEvent(e, |accounts|) && forall i :: 0 <= i < |accounts| ==> m < |accounts[i].perps|
    requires e.Fill? && e.makerOut ==> Recorded(accounts[e.maker], m, OnSlot(e.makerSlot), InvertSide(e.takerSide)) >= 1
    requires e.Out? ==> Recorded(accounts[e.owner], m, OnSlot(e.slot), e.side) >= 1
    ensures ConsumeAccounts(accounts, m, t, e).Ok?
    ensures var accounts' := ConsumeAccounts(accounts, m, t, e).value.0;
      |accounts'| == |accounts| && forall i :: 0 <= i < |accounts| ==> Paid(accounts[i], accounts'[i], m, e, i)
  {
    hide ExecuteMaker, ExecuteTaker, RemoveOrderAt, Recorded, SameElsewhere, TakerBase, TakerQuote, EventClaim;
    OneEvent(e);
    match e
    case Fill(_, _, _, _, _, maker, _, _, _, _, _, taker, _, _, _, _, _, _) =>
      MakerRecords(accounts[maker], m, t, e, maker);
      var (a, t1) := ExecuteMaker(accounts[maker], m, t, e).value;
      ElsewhereSizes(accounts[maker], a, m);
      var after := accounts[maker := a];
      TakerRecords(after[taker], m, t1, e);
      var (b, t2) := ExecuteTaker(after[taker], m, t1, e);
      if maker == taker { SameElsewhereTwice(accounts[maker], a, b, m); }
      forall i | 0 <= i < |accounts|
        ensures Paid(accounts[i], after[taker := b][i], m, e, i)
      {
        if i != maker && i != taker {
          NothingPaid(accounts[i], m, e, i);
        } else if i != maker {
          NoClaims(e, i);
        }
      }
    case Out(side, slot, _, _, owner, quantity) =>
      RemovalRecords(accounts[owner], m, side, slot, quantity);
      OutClaims(e);
      forall i | 0 <= i < |accounts| && i != owner { NothingPaid(accounts[i], m, e, i); }
    case Liquidate(_, _, _, _, _, _, _) =>
      forall i | 0 <= i < |accounts| { NothingPaid(accounts[i], m, e, i); }
  }

  lemma OneEvent(e: Event)
    ensures forall owner ::
      && TakerBase([e], owner) == (if e.Fill? && e.taker == owner then e.BaseQuoteChange(e.takerSide).0 else 0)
      && TakerQuote([e], owner) == (if e.Fill? && e.taker == owner then e.BaseQuoteChange(e.takerSide).1 else 0)
  {
    assert [e][1..] == [];
  }

  lemma NoClaims(e: Event, owner: Pubkey)
    requires e.Fill? && e.maker != owner
    ensures forall c, side :: EventClaim(c, side, owner, e) == 0
  {
  }

  lemma OutClaims(e: Event)
    requires e.Out?
    ensures forall c, side :: (EventClaim(c, side, e.owner, e) ==
      if side == e.side then (match c case OnSlot(s) => (if s == e.slot then 1 else 0) case OnLots => e.quantity)
        else 0)
  {
  }

  lemma HeadClaims(mk: MarketState, m: nat, a: Account, owner: Pubkey, n: nat)
    requires Balanced(mk, m, a, owner) && Sound(mk, n) && mk.queue != []
    ensures forall c, side :: Recorded(a, m, c, side) >= EventClaim(c, side, owner, mk.queue[0])
  {
    forall c, side
      ensures Recorded(a, m, c, side) >= EventClaim(c, side, owner, mk.queue[0])
    {
      ClaimsNonNegative(c, side, owner, mk.Resting(side), mk.queue[1..], n);
      assert Held(mk, c, side, owner) == Recorded(a, m, c, side);
    }
  }

  lemma PaidBalances(mk: MarketState, t: MarketTotals, m: nat, a: Account, a': Account, owner: Pubkey)
    requires mk.queue != [] && Balanced(mk, m, a, owner) && Paid(a, a', m, mk.queue[0], owner)
    ensures Balanced(mk.(totals := t, queue := mk.queue[1..]), m, a', owner)
  {
    var mk' := mk.(totals := t, queue := mk.queue[1..]);
    assert mk.queue == [mk.queue[0]] + mk.queue[1..];
    OneEvent(mk.queue[0]);
    forall c, side
      ensures Held(mk', c, side, owner) == Recorded(a', m, c, side)
    {
      assert Held(mk, c, side, owner) == Recorded(a, m, c, side);
    }
  }

  /** Consuming never fails on a balanced exchange and keeps it balanced. */
  lemma ConsumeKeepsLedger(s: State, m: nat)
    requires LedgerOk(s) && m < |s.markets|
    ensures ConsumeEvent(s, m).Ok? && LedgerOk(ConsumeEvent(s, m).value)
    ensures MarketStep(s, ConsumeEvent(s, m).value, m)
  {
    hide ConsumeAccounts, Balanced, Named, Numbered, SameElsewhere, Held, Recorded, EventClaim, Paid;
    var mk := s.markets[m];
    if mk.queue != [] {
      var e := mk.queue[0];
      assert e in mk.queue;
      if e.Fill? { HeadClaims(mk, m, s.accounts[e.maker], e.maker, |s.accounts|); SlotOfEvent(e); }
      if e.Out? { HeadClaims(mk, m, s.accounts[e.owner], e.owner, |s.accounts|); SlotOfEvent(e); }
      EventPaid(s.accounts, m, mk.totals, e);
      var (accounts, t) := ConsumeAccounts(s.accounts, m, mk.totals, e).value;
      var s' := ConsumeEvent(s, m).value;
      TotalsKept(s.accounts, m, mk.totals, e);
      assert Sound(s'.markets[m], |s.accounts|) by {
        assert forall x :: x in mk.queue[1..] ==> x in mk.queue;
        assert forall side :: s'.markets[m].Resting(side) == mk.Resting(side);
      }
      forall i | 0 <= i < |accounts|
        ensures Agrees(s'.markets[m], m, accounts[i], i) && SameElsewhere(s.accounts[i], accounts[i], m)
      {
        assert Agrees(mk, m, s.accounts[i], i);
        PaidBalances(mk, t, m, s.accounts[i], accounts[i], i);
        PaidElsewhere(s.accounts[i], accounts[i], m, e, i);
        NamesSurvive(mk, s'.markets[m], m, s.accounts[i], accounts[i], i, |s.accounts|);
        FreeingKeepsNumbers(s.accounts[i], accounts[i], m, mk.totals.seqNum + 1);
      }
      LedgerStep(s, s', m);
    } else {
      forall i | 0 <= i < |s.accounts| { SameElsewhereSelf(s.accounts[i], m); }
    }
  }

  lemma SlotOfEvent(e: Event)
    ensures e.Fill? && e.makerOut ==> EventClaim(OnSlot(e.makerSlot), InvertSide(e.takerSide), e.maker, e) == 1
    ensures e.Out? ==> EventClaim(OnSlot(e.slot), e.side, e.owner, e) == 1
  {
  }

  lemma PaidElsewhere(a: Account, a': Account, m: nat, e: Event, owner: Pubkey)
    requires m < |a.perps| && Paid(a, a', m, e, owner)
    ensures SameElsewhere(a, a', m) && OnlyFrees(a, a')
  {
  }

  /** Consuming changes open interest and nothing else of the totals. */
  lemma TotalsKept(accounts: seq<Account>, m: nat, t: MarketTotals, e: Event)
    requires SoundEvent(e, |accounts|) && forall i :: 0 <= i < |accounts| ==> m < |accounts[i].perps|
    requires ConsumeAccounts(accounts, m, t, e).Ok?
    ensures var t' := ConsumeAccounts(accounts, m, t, e).value.1; t' == t.(openInterest := t'.openInterest)
  {
    hide PerpPosition.QuotePosition, FromNum, MakerFees;
  }
}
