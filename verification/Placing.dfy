/** Placing an order is a step of the exchange that keeps the order ledger. */
module Placing {
  import opened OrderKeys
  import opened Types
  import opened OrderLists
  import opened FixedPoint
  import opened Events
  import opened Matcher
  import opened OrderIds
  import opened PerpState
  import opened OrderPlacement
  import opened Ledger
  import opened Exchange

  function Credit(a: Account, m: nat, credit: Fixed): Account
    requires m < |a.perps|
  {
    a.(perps := a.perps[m := a.perps[m].(quote := a.perps[m].quote + credit)])
  }

  ghost predicate MayPlace(s: State, m: nat, rq: Request, referrer: Pubkey) {
    && LedgerOk(s) && m < |s.markets| && rq.Wellformed() && rq.taker < |s.accounts|
    && s.markets[m].totals.seqNum + 1 < U64_MAX
    && (rq.Referred() ==> referrer < |s.accounts| && referrer != rq.taker)
  }

  function PlaceOrder(s: State, m: nat, rq: Request, referrer: Pubkey): Result<State>
    requires MayPlace(s, m, rq, referrer)
  {
    match NewOrder(s.markets[m], s.accounts[rq.taker], m, rq)
    case Err(x) => Err(x)
    case Ok((mk, a, credit)) =>
      var after := s.accounts[rq.taker := a];
      Ok(State(if rq.Referred() then after[referrer := Credit(after[referrer], m, credit)] else after,
               s.markets[m := mk]))
  }

  /** Same slots and the same quantities on order. */
  ghost predicate SameRecords(a: Account, a': Account, m: nat) {
    && SameElsewhere(a, a', m) && m < |a.perps| && a'.slots == a.slots
    && a'.perps[m].bidsQuantity == a.perps[m].bidsQuantity && a'.perps[m].asksQuantity == a.perps[m].asksQuantity
  }

  lemma {:induction false} WalkEventsSound(o: Incoming, makers: seq<LeafNode>, b: Budget, n: nat)
    requires Tradable(makers) && Ready(b) && o.taker < n && forall m :: m in makers ==> m.owner < n
    ensures forall e :: e in Walk(o, makers, b).events ==> SoundEvent(e, n)
  {
    if makers != [] {
      var x := Meet(o, makers[0], b);
      MeetFacts(o, makers[0], b);
      assert makers[0] in makers;
      if x.stop.None? { WalkEventsSound(o, makers[1..], x.left, n); }
      if x.sent != [] { assert x.sent[1..] == [] && x.sent == [x.sent[0]]; }
    }
  }

  /** After matching alone the records agree with the book and the longer queue. */
  lemma MatchBalances(mk: MarketState, m: nat, a: Account, owner: Pubkey, rq: Request, postOnly: bool, price: int)
    requires MarketOk(mk) && rq.Wellformed() && 0 <= price <= I64_MAX && Balanced(mk, m, a, owner)
    ensures var w := MatchOf(mk, rq, postOnly, price);
      var a' := if owner == rq.taker then TakerState(a, m, rq.side, rq.Spendable(mk), w.left) else a;
      Balanced(MatchedMarket(mk, rq, w), m, a', owner) && SameRecords(a, a', m)
  {
    hide Walk, Tradable, Sorted, OrderId, BookClaims, QueueClaims;
    var w := MatchOf(mk, rq, postOnly, price);
    var o := IncomingOf(mk, rq, postOnly, price);
    var makers, b := mk.Resting(InvertSide(rq.side)), rq.Spendable(mk);
    var mk' := MatchedMarket(mk, rq, w);
    var a' := if owner == rq.taker then TakerState(a, m, rq.side, b, w.left) else a;
    WalkSums(o, makers, b, mk.totals, owner);
    QueueSumsConcat(mk.totals, owner, mk.queue, w.events);
    forall c, side
      ensures Held(mk', c, side, owner) == Recorded(a', m, c, side)
    {
      WalkMovesClaims(o, makers, b, c, owner);
      QueueClaimsConcat(c, side, owner, mk.queue, w.events);
      assert Held(mk, c, side, owner) == Recorded(a, m, c, side);
      assert side == rq.side || side == InvertSide(rq.side);
    }
  }

  lemma MatchSound(mk: MarketState, rq: Request, postOnly: bool, price: int, n: nat)
    requires Sound(mk, n) && rq.Wellformed() && 0 <= price <= I64_MAX && rq.taker < n
    ensures var mk' := MatchedMarket(mk, rq, MatchOf(mk, rq, postOnly, price));
      && Sound(mk'.(totals := mk.totals), n) && mk'.totals == mk.totals.(seqNum := mk.totals.seqNum + 1)
      && mk'.capacity == mk.capacity
  {
    hide Walk, Tradable, Sorted, OrderId;
    var o := IncomingOf(mk, rq, postOnly, price);
    var makers, b := mk.Resting(InvertSide(rq.side)), rq.Spendable(mk);
    var w := MatchOf(mk, rq, postOnly, price);
    assert forall x :: x in makers ==> SoundOrder(InvertSide(rq.side), x, mk.totals.seqNum, n);
    MakersStaySorted(o, makers, b);
    MakersWereThere(o, makers, b);
    WalkEventsSound(o, makers, b, n);
    var mk' := MatchedMarket(mk, rq, w).(totals := mk.totals);
    forall side, x | x in mk'.Resting(side)
      ensures SoundOrder(side, x, mk.totals.seqNum, n)
    {
      if side == InvertSide(rq.side) {
        var y :| y in makers && x == y.(quantity := x.quantity);
        assert SoundOrder(side, y, mk.totals.seqNum, n);
      } else {
        assert x in mk.Resting(side);
      }
    }
  }

  /** What posting does: room is made, a free slot found and the new order inserted. */
  lemma PostParts(mk: MarketState, a: Account, m: nat, rq: Request, price: int, quantity: int, key: Key)
    returns (own: seq<LeafNode>, es: seq<Event>, leaf: LeafNode)
    requires MarketOk(mk) && m < |a.perps| && Post(mk, a, m, rq, price, quantity, key).Ok?
    ensures leaf.ownerSlot < |a.slots| && a.slots[leaf.ownerSlot].Free?
    ensures leaf == NewLeaf(rq, mk.totals, leaf.ownerSlot, key, own, price, quantity)
    ensures Post(mk, a, m, rq, price, quantity, key) ==
            Ok((mk.WithResting(rq.side, InsertOrder(rq.side, own, leaf)).Push(es), AddOrder(a, m, rq.side, leaf)))
    ensures RoomMade(rq.side, mk.Resting(rq.side), own, es) && |own| < SIDE_CAPACITY
    ensures forall c, owner ::
      BookClaims(c, owner, mk.Resting(rq.side)) == BookClaims(c, owner, own) + QueueClaims(c, rq.side, owner, es)
  {
    hide DropExpired, Evict, Sorted, Tradable, KeysOf, BookClaims, QueueClaims, InsertOrder, NewLeaf;
    var before := mk.Resting(rq.side);
    var (own1, dropped) := DropExpired(rq.side, before, rq.now, mk.eventSeq);
    DropMakesRoom(rq.side, before, rq.now, mk.eventSeq);
    var seqNum := mk.eventSeq + |dropped|;
    var (own2, evicted) := Evict(rq.side, own1, price, rq.now, seqNum).value;
    EvictMakesRoom(rq.side, own1, price, rq.now, seqNum);
    FirstFreeIsFree(a.slots);
    own, es := own2, dropped + evicted;
    leaf := NewLeaf(rq, mk.totals, FirstFree(a.slots).value, key, own, price, quantity);
    NewLeafSlot(rq, mk.totals, FirstFree(a.slots).value, key, own, price, quantity);
    forall c, owner
      ensures BookClaims(c, owner, before) == BookClaims(c, owner, own) + QueueClaims(c, rq.side, owner, es)
    {
      QueueClaimsConcat(c, rq.side, owner, dropped, evicted);
      assert BookClaims(c, owner, before) == BookClaims(c, owner, own1) + QueueClaims(c, rq.side, owner, dropped);
      assert BookClaims(c, owner, own1) == BookClaims(c, owner, own2) + QueueClaims(c, rq.side, owner, evicted);
    }
  }

  lemma NewLeafSlot(rq: Request, t: MarketTotals, slot: nat, key: Key, own: seq<LeafNode>, price: int, quantity: int)
    ensures NewLeaf(rq, t, slot, key, own, price, quantity).ownerSlot == slot
  {
  }

  lemma {:induction false} AgesBelow(side: Side, s: seq<LeafNode>, key: Key)
    requires forall o :: o in s ==> KeyAge(side, o.key) < KeyAge(side, key)
    ensures key !in KeysOf(s)
  {
    if s != [] {
      assert s[0] in s;
      AgesBelow(side, s[1..], key);
    }
  }

  /** The order that is posted takes a free slot and counts as recorded. */
  lemma PostRecords(a: Account, m: nat, side: Side, leaf: LeafNode)
    requires m < |a.perps| && leaf.ownerSlot < |a.slots| && a.slots[leaf.ownerSlot].Free?
    ensures var a' := AddOrder(a, m, side, leaf);
      && SameElsewhere(a, a', m)
      && a'.perps[m].takerBase == a.perps[m].takerBase && a'.perps[m].takerQuote == a.perps[m].takerQuote
      && forall c, sd :: (Recorded(a', m, c, sd) == Recorded(a, m, c, sd) +
           if sd == side then LeafClaim(c, leaf.owner, leaf) else 0)
  {
  }

  lemma PostBalances(mk: MarketState, m: nat, a: Account, x: Account, owner: Pubkey, rq: Request, price: int,
                     quantity: int,
                     key: Key, n: nat)
    requires m < |a.perps| && Post(mk, a, m, rq, price, quantity, key).Ok? && Balanced(mk, m, x, owner)
    requires owner == rq.taker ==> x == a
    requires MarketOk(mk) && forall o :: o in mk.Resting(rq.side) ==> KeyAge(rq.side, o.key) < KeyAge(rq.side, key)
    ensures var (mk', a') := Post(mk, a, m, rq, price, quantity, key).value;
      && Balanced(mk', m, if owner == rq.taker then a' else x, owner) && SameElsewhere(a, a', m)
  {
    hide Post, BookClaims, QueueClaims, InsertOrder, KeysOf, Sorted, Tradable, Recorded, SameElsewhere, BestInitial;
    var own, es, leaf := PostParts(mk, a, m, rq, price, quantity, key);
    var (mk', a') := Post(mk, a, m, rq, price, quantity, key).value;
    AgesBelow(rq.side, own, key);
    PostRecords(a, m, rq.side, leaf);
    QueueSumsConcat(mk.totals, owner, mk.queue, es);
    OutsAreInert(rq.side, es, mk.totals, OnLots, owner);
    var x' := if owner == rq.taker then a' else x;
    assert mk'.Resting(rq.side) == InsertOrder(rq.side, own, leaf);
    forall c, side
      ensures Held(mk', c, side, owner) == Recorded(x', m, c, side)
    {
      InsertAddsClaim(c, owner, rq.side, own, leaf);
      QueueClaimsConcat(c, side, owner, mk.queue, es);
      OutsAreInert(rq.side, es, mk.totals, c, owner);
      assert Held(mk, c, side, owner) == Recorded(x, m, c, side);
      assert side == rq.side || side == InvertSide(rq.side);
      OthersClaimNothing(c, owner, leaf);
    }
  }

  lemma OthersClaimNothing(c: Claim, owner: Pubkey, leaf: LeafNode)
    ensures owner != leaf.owner ==> LeafClaim(c, owner, leaf) == 0
  {
  }

  lemma PostSound(mk: MarketState, m: nat, a: Account, rq: Request, price: int, quantity: int, key: Key, n: nat)
    requires m < |a.perps| && Post(mk, a, m, rq, price, quantity, key).Ok?
    requires Sound(mk, n) && rq.taker < n && quantity > 0 && price > 0
    requires Shr(key, 64) == price && KeyAge(rq.side, key) <= mk.totals.seqNum
    ensures Sound(Post(mk, a, m, rq, price, quantity, key).value.0, n)
  {
    hide Post, InsertOrder, Sorted, Shr, KeyAge, BestInitial;
    var own, es, leaf := PostParts(mk, a, m, rq, price, quantity, key);
    InsertSorted(rq.side, own, leaf);
    InsertKeepsOthers(rq.side, own, leaf);
    var mk' := Post(mk, a, m, rq, price, quantity, key).value.0;
    assert mk'.Resting(rq.side) == InsertOrder(rq.side, own, leaf);
    assert mk'.Resting(InvertSide(rq.side)) == mk.Resting(InvertSide(rq.side));
    forall e | e in mk'.queue
      ensures SoundEvent(e, n)
    {
      if e !in mk.queue {
        assert e in es;
        var o :| o in mk.Resting(rq.side) && o.owner == e.owner && o.ownerSlot == e.slot && o.quantity == e.quantity;
        assert SoundOrder(rq.side, o, mk.totals.seqNum, n);
      }
    }
    forall side, o | o in mk'.Resting(side)
      ensures SoundOrder(side, o, mk'.totals.seqNum, n)
    {
      if side == rq.side {
        assert o == leaf || o in mk.Resting(side);
      }
    }
    assert Tradable(mk'.Resting(rq.side));
  }

  // ----- The names of slots

  ghost predicate OnceThere(s: seq<LeafNode>, o: LeafNode) {
    exists y :: y in s && o == y.(quantity := o.quantity)
  }

  lemma MatchNames(mk: MarketState, m: nat, a: Account, a': Account, owner: Pubkey, rq: Request, postOnly: bool,
                   price: int)
    requires MarketOk(mk) && rq.Wellformed() && 0 <= price <= I64_MAX && Named(mk, m, a, owner) && a'.slots == a.slots
    ensures Named(MatchedMarket(mk, rq, MatchOf(mk, rq, postOnly, price)), m, a', owner)
  {
    hide Walk, Tradable, Sorted, OrderId;
    var makers := mk.Resting(InvertSide(rq.side));
    var w := MatchOf(mk, rq, postOnly, price);
    var mk' := MatchedMarket(mk, rq, w);
    MakersWereThere(IncomingOf(mk, rq, postOnly, price), makers, rq.Spendable(mk));
    forall side, o | o in mk'.Resting(side)
      ensures OnceThere(mk.Resting(side), o)
    {
      if side == InvertSide(rq.side) {
        var y :| y in makers && o == y.(quantity := o.quantity);
      } else {
        assert mk'.Resting(side) == mk.Resting(side) && o == o.(quantity := o.quantity);
      }
    }
    forall side, o | o in mk'.Resting(side) && o.owner == owner
      ensures o.ownerSlot < |a.slots| && a.slots[o.ownerSlot] == Used(m, side, o.key, o.clientOrderId)
    {
      assert OnceThere(mk.Resting(side), o);
    }
    forall side, o, x | o in mk'.Resting(side) && 0 <= x < |a'.slots| && Names(a'.slots[x], m, side, o.key)
      ensures o.owner == owner && o.ownerSlot == x
    {
      assert OnceThere(mk.Resting(side), o);
    }
  }

  lemma PostNames(mk: MarketState, m: nat, a: Account, x: Account, owner: Pubkey, rq: Request, price: int,
                  quantity: int, key: Key)
    requires m < |a.perps| && Post(mk, a, m, rq, price, quantity, key).Ok? && Named(mk, m, x, owner) && MarketOk(mk)
    requires owner == rq.taker ==> x == a
    requires Numbered(x, m, KeyAge(rq.side, key))
    requires forall o :: o in mk.Resting(rq.side) ==> KeyAge(rq.side, o.key) < KeyAge(rq.side, key)
    ensures var (mk', a') := Post(mk, a, m, rq, price, quantity, key).value;
      Named(mk', m, if owner == rq.taker then a' else x, owner)
  {
    hide Post, InsertOrder, Sorted, KeysOf, Tradable, BestInitial, BookClaims, QueueClaims, KeyAge, OutsOf;
    var own, es, leaf := PostParts(mk, a, m, rq, price, quantity, key);
    InsertKeepsOthers(rq.side, own, leaf);
    var (mk', a') := Post(mk, a, m, rq, price, quantity, key).value;
    assert mk'.Resting(rq.side) == InsertOrder(rq.side, own, leaf);
    var x' := if owner == rq.taker then a' else x;
    forall side, o | o in mk'.Resting(side) && o.owner == owner
      ensures o.ownerSlot < |x'.slots| && x'.slots[o.ownerSlot] == Used(m, side, o.key, o.clientOrderId)
    {
      if side == rq.side {
        assert o == leaf || o in mk.Resting(side);
      } else {
        assert mk'.Resting(side) == mk.Resting(side);
      }
    }
    forall side, o, i | o in mk'.Resting(side) && 0 <= i < |x'.slots| && Names(x'.slots[i], m, side, o.key)
      ensures o.owner == owner && o.ownerSlot == i
    {
      assert x'.slots[i] == x.slots[i] || (owner == rq.taker && i == leaf.ownerSlot);
      if side == rq.side {
        assert o == leaf || o in mk.Resting(side);
        assert x.slots[i] in x.slots;
      } else {
        assert mk'.Resting(side) == mk.Resting(side);
      }
    }
  }

  lemma PostNumbers(a: Account, m: nat, side: Side, leaf: LeafNode, n: nat)
    requires m < |a.perps| && leaf.ownerSlot < |a.slots| && a.slots[leaf.ownerSlot].Free?
    requires Numbered(a, m, n) && KeyAge(side, leaf.key) == n
    ensures Numbered(AddOrder(a, m, side, leaf), m, n + 1)
  {
    hide KeyAge;
    var a' := AddOrder(a, m, side, leaf);
    forall i, j, sd | 0 <= i < j < |a'.slots| && Holds(a'.slots[i], m, sd) && Holds(a'.slots[j], m, sd)
      ensures a'.slots[i].orderId != a'.slots[j].orderId
    {
      assert i == leaf.ownerSlot || (Holds(a.slots[i], m, sd) && a.slots[i] in a.slots);
      assert j == leaf.ownerSlot || (Holds(a.slots[j], m, sd) && a.slots[j] in a.slots);
    }
  }

  lemma NumbersGrow(a: Account, m: nat, n: nat)
    requires Numbered(a, m, n)
    ensures Numbered(a, m, n + 1)
  {
  }

  // ----- The whole step

  ghost predicate AllAgree(mk: MarketState, m: nat, accounts: seq<Account>) {
    forall i :: 0 <= i < |accounts| ==> Agrees(mk, m, accounts[i], i)
  }

  ghost predicate AllNumbered(accounts: seq<Account>, m: nat, n: nat) {
    forall i :: 0 <= i < |accounts| ==> Numbered(accounts[i], m, n)
  }

  lemma MatchStage(mk: MarketState, m: nat, accounts: seq<Account>, rq: Request, postOnly: bool, price: int)
    requires Sound(mk, |accounts|) && AllAgree(mk, m, accounts) && rq.Wellformed() && 0 <= price <= I64_MAX
    requires rq.taker < |accounts| && m < |accounts[rq.taker].perps| && mk.totals.seqNum + 1 < U64_MAX
    ensures var w := MatchOf(mk, rq, postOnly, price);
      var mk1, a1 := MatchedMarket(mk, rq, w), TakerState(accounts[rq.taker], m, rq.side, rq.Spendable(mk), w.left);
      && Sound(mk1, |accounts|) && AllAgree(mk1, m, accounts[rq.taker := a1]) && SameRecords(accounts[rq.taker], a1, m)
      && (forall side, o :: o in mk1.Resting(side) ==> KeyAge(side, o.key) < mk1.totals.seqNum)
      && AllNumbered(accounts[rq.taker := a1], m, mk1.totals.seqNum)
  {
    hide MatchOf, Balanced, Named, Numbered, SameRecords, TakerState, KeyAge;
    var w := MatchOf(mk, rq, postOnly, price);
    var mk1, a1 := MatchedMarket(mk, rq, w), TakerState(accounts[rq.taker], m, rq.side, rq.Spendable(mk), w.left);
    MatchSound(mk, rq, postOnly, price, |accounts|);
    assert forall side :: mk1.Resting(side) == mk1.(totals := mk.totals).Resting(side);
    var accounts1 := accounts[rq.taker := a1];
    assert Agrees(mk, m, accounts[rq.taker], rq.taker);
    MatchBalances(mk, m, accounts[rq.taker], rq.taker, rq, postOnly, price);
    SameSlots(accounts[rq.taker], a1, m);
    forall i | 0 <= i < |accounts|
      ensures Agrees(mk1, m, accounts1[i], i) && Numbered(accounts1[i], m, mk1.totals.seqNum)
    {
      assert Agrees(mk, m, accounts[i], i);
      MatchBalances(mk, m, accounts[i], i, rq, postOnly, price);
      MatchNames(mk, m, accounts[i], accounts1[i], i, rq, postOnly, price);
      SlotsNumbered(accounts[i], accounts1[i], m, mk.totals.seqNum + 1);
      NumbersGrow(accounts1[i], m, mk.totals.seqNum + 1);
    }
  }

  lemma SlotsNumbered(a: Account, a': Account, m: nat, n: nat)
    requires Numbered(a, m, n) && a'.slots == a.slots
    ensures Numbered(a', m, n)
  {
  }

  lemma SameSlots(a: Account, a': Account, m: nat)
    requires SameRecords(a, a', m)
    ensures a'.slots == a.slots && SameElsewhere(a, a', m)
  {
  }

  lemma PostStage(mk: MarketState, m: nat, accounts: seq<Account>, rq: Request, price: int, quantity: int)
    requires Sound(mk, |accounts|) && AllAgree(mk, m, accounts) && rq.taker < |accounts|
             && m < |accounts[rq.taker].perps|
    requires 0 < price <= I64_MAX && quantity > 0
    requires forall side, o :: o in mk.Resting(side) ==> KeyAge(side, o.key) < mk.totals.seqNum
    requires AllNumbered(accounts, m, mk.totals.seqNum)
    requires Post(mk, accounts[rq.taker], m, rq, price, quantity, OrderId(rq.side, price, mk.totals.seqNum)).Ok?
    ensures var key := OrderId(rq.side, price, mk.totals.seqNum);
      var (mk', a') := Post(mk, accounts[rq.taker], m, rq, price, quantity, key).value;
      Sound(mk', |accounts|) && AllAgree(mk', m, accounts[rq.taker := a']) && SameElsewhere(accounts[rq.taker], a', m)
  {
    hide Post, Balanced, Named, Numbered, SameElsewhere, KeyAge, OrderId, Shr;
    var key := OrderId(rq.side, price, mk.totals.seqNum);
    KeyToPrice(rq.side, price, mk.totals.seqNum);
    KeyAgeOf(rq.side, price, mk.totals.seqNum);
    var a := accounts[rq.taker];
    var (mk', a') := Post(mk, a, m, rq, price, quantity, key).value;
    PostSound(mk, m, a, rq, price, quantity, key, |accounts|);
    assert Agrees(mk, m, a, rq.taker);
    PostBalances(mk, m, a, a, rq.taker, rq, price, quantity, key, |accounts|);
    var accounts' := accounts[rq.taker := a'];
    forall i | 0 <= i < |accounts'|
      ensures Agrees(mk', m, accounts'[i], i)
    {
      assert Agrees(mk, m, accounts[i], i);
      PostBalances(mk, m, a, accounts[i], i, rq, price, quantity, key, |accounts|);
      PostNames(mk, m, a, accounts[i], i, rq, price, quantity, key);
      if i == rq.taker {
        var own, es, leaf := PostParts(mk, a, m, rq, price, quantity, key);
        PostNumbers(a, m, rq.side, leaf, mk.totals.seqNum);
      }
    }
  }

  lemma FeesMoveQuote(a: Account, m: nat, t: MarketTotals, rq: Request, taken: int, ref: Referral)
    requires m < |a.perps|
    ensures var (a', t', credit) := ApplyFees(a, m, t, rq, taken, ref);
      OffBook(a, a', m) && SameNumbering(t, t')
  {
  }

  /** Fees are off the book. */
  lemma FeesStage(mk: MarketState, m: nat, accounts: seq<Account>, rq: Request, taken: int, ref: Referral)
    requires Sound(mk, |accounts|) && AllAgree(mk, m, accounts) && rq.taker < |accounts|
             && m < |accounts[rq.taker].perps|
    ensures
      var (a', t', _) := ApplyFees(accounts[rq.taker], m, mk.totals, rq, taken, ref);
      var mk' := mk.(totals := t');
      Sound(mk', |accounts|) && AllAgree(mk', m, accounts[rq.taker := a']) && SameElsewhere(accounts[rq.taker], a', m)
  {
    assert forall i :: 0 <= i < |accounts| ==> Agrees(mk, m, accounts[i], i) && m < |accounts[i].perps|;
    hide Balanced, Named, Numbered, SameElsewhere, ApplyFees, Sound;
    var a := accounts[rq.taker];
    var (a', t', _) := ApplyFees(a, m, mk.totals, rq, taken, ref);
    FeesMoveQuote(a, m, mk.totals, rq, taken, ref);
    var mk', accounts' := mk.(totals := t'), accounts[rq.taker := a'];
    TotalsSound(mk, mk', |accounts|);
    OffBookAgrees(mk, mk', m, a, a', rq.taker);
    forall i | 0 <= i < |accounts'|
      ensures Agrees(mk', m, accounts'[i], i)
    {
      NothingMoves(accounts[i], m);
      OffBookAgrees(mk, mk', m, accounts[i], accounts'[i], i);
    }
  }

  /** Posting what is left, and the fees. */
  lemma AfterMatchKeeps(mk: MarketState, m: nat, accounts: seq<Account>, rq: Request, allowed: bool, price: int,
                        left: Budget)
    requires Sound(mk, |accounts|) && AllAgree(mk, m, accounts) && rq.taker < |accounts|
             && m < |accounts[rq.taker].perps|
    requires 0 < price <= I64_MAX
    requires forall side, o :: o in mk.Resting(side) ==> KeyAge(side, o.key) < mk.totals.seqNum
    requires AllNumbered(accounts, m, mk.totals.seqNum)
    requires AfterMatch(mk, accounts[rq.taker], m, rq, allowed, price, left).Ok?
    ensures var (mk', a', credit) := AfterMatch(mk, accounts[rq.taker], m, rq, allowed, price, left).value;
      Sound(mk', |accounts|) && AllAgree(mk', m, accounts[rq.taker := a']) && SameElsewhere(accounts[rq.taker], a', m)
  {
    assert MarketOk(mk);
    hide Post, AllAgree, AllNumbered, SameElsewhere, KeyAge, OrderId, ApplyFees, Sound;
    var a := accounts[rq.taker];
    var rest := Min(left.base, left.quote / price);
    var posts := allowed && rest > 0;
    if posts { PostStage(mk, m, accounts, rq, price, rest); } else { SameElsewhereSelf(a, m); }
    var key := OrderId(rq.side, price, mk.totals.seqNum);
    var (mk2, a2) := if posts then Post(mk, a, m, rq, price, rest, key).value else (mk, a);
    var accounts2 := accounts[rq.taker := a2];
    var taken := rq.maxQuote - left.quote;
    assert accounts[rq.taker := a] == accounts;
    if taken > 0 && rq.referral.Ok? {
      FeesStage(mk2, m, accounts2, rq, taken, rq.referral.value);
      var a3 := ApplyFees(a2, m, mk2.totals, rq, taken, rq.referral.value).0;
      SameElsewhereTwice(a, a2, a3, m);
      assert accounts2[rq.taker := a3] == accounts[rq.taker := a3];
    }
  }

  lemma NewOrderKeeps(mk: MarketState, m: nat, accounts: seq<Account>, rq: Request)
    requires Sound(mk, |accounts|) && AllAgree(mk, m, accounts) && rq.Wellformed() && mk.totals.seqNum + 1 < U64_MAX
    requires rq.taker < |accounts| && m < |accounts[rq.taker].perps| && NewOrder(mk, accounts[rq.taker], m, rq).Ok?
    ensures var (mk', a', credit) := NewOrder(mk, accounts[rq.taker], m, rq).value;
      Sound(mk', |accounts|) && AllAgree(mk', m, accounts[rq.taker := a']) && SameElsewhere(accounts[rq.taker], a', m)
  {
    assert MarketOk(mk);
    var a := accounts[rq.taker];
    hide NewOrder, Resolve, AfterMatch, MatchOf, TakerState, Sound, AllAgree, SameElsewhere, WithinPriceLimit;
    hide SameRecords;
    hide MatchedMarket, KeyAge, MarketOk, BestPrice;
    NewOrderParts(mk, a, m, rq);
    var (postOnly, postable, price) := PriceOf(mk, rq).value;
    var w := MatchOf(mk, rq, postOnly, price);
    var allowed := postable && WithinPriceLimit(rq, mk.totals, price) && w.PostAllowed();
    var mk1, a1 := MatchedMarket(mk, rq, w), TakerState(a, m, rq.side, rq.Spendable(mk), w.left);
    MatchStage(mk, m, accounts, rq, postOnly, price);
    SameSlots(a, a1, m);
    AfterMatchKeeps(mk1, m, accounts[rq.taker := a1], rq, allowed, price, w.left);
    var (mk', a', credit) := AfterMatch(mk1, a1, m, rq, allowed, price, w.left).value;
    SameElsewhereTwice(a, a1, a', m);
    assert accounts[rq.taker := a1][rq.taker := a'] == accounts[rq.taker := a'];
  }

  /**
   * Placing an order of any type keeps slots and quantities of every account equal to what rests and what is queued.
   */
  lemma PlaceKeepsLedger(s: State, m: nat, rq: Request, referrer: Pubkey)
    requires MayPlace(s, m, rq, referrer) && PlaceOrder(s, m, rq, referrer).Ok?
    ensures LedgerOk(PlaceOrder(s, m, rq, referrer).value)
    ensures MarketStep(s, PlaceOrder(s, m, rq, referrer).value, m)
  {
    var mk, a, s' := s.markets[m], s.accounts[rq.taker], PlaceOrder(s, m, rq, referrer).value;
    hide NewOrder, Agrees, SameElsewhere, OffBook, MarketOk;
    assert AllAgree(mk, m, s.accounts);
    NewOrderKeeps(mk, m, s.accounts, rq);
    hide Sound;
    var (mk', a', credit) := NewOrder(mk, a, m, rq).value;
    var after := State(s.accounts[rq.taker := a'], s.markets[m := mk']);
    forall i | 0 <= i < |s.accounts|
      ensures Agrees(mk', m, after.accounts[i], i) && SameElsewhere(s.accounts[i], after.accounts[i], m)
    {
      SameElsewhereSelf(s.accounts[i], m);
    }
    LedgerStep(s, after, m);
    if rq.Referred() {
      CreditStep(after, m, referrer, credit);
      MarketStepTwice(s, after, s', m);
    }
  }

  lemma CreditStep(s: State, m: nat, i: nat, credit: Fixed)
    requires LedgerOk(s) && m < |s.markets| && i < |s.accounts|
    ensures var s' := s.(accounts := s.accounts[i := Credit(s.accounts[i], m, credit)]);
      LedgerOk(s') && MarketStep(s, s', m)
  {
    var s' := s.(accounts := s.accounts[i := Credit(s.accounts[i], m, credit)]);
    forall k | 0 <= k < |s.accounts|
      ensures OffBook(s.accounts[k], s'.accounts[k], m)
    {
      if k != i { NothingMoves(s.accounts[k], m); }
    }
    hide LedgerOk;
    assert s.markets[m] == s.markets[m].(totals := s.markets[m].totals);
    OffBookKeepsLedger(s, s', m);
  }
}
