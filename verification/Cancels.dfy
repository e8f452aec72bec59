/** Cancelling orders: found through a slot of the account, taken off the book, and given back to that slot. */
module Cancels {
  import opened OrderKeys
  import opened Types
  import opened OrderLists
  import opened Matcher
  import opened OrderIds
  import opened PerpState
  import opened OrderPlacement
  import opened Ledger
  import opened Exchange
  import opened SizeIncentives

  function FindSlot(slots: seq<OrderSlot>, m: nat, orderId: Key): Option<nat> {
    if slots == [] then None
    else if slots[0].Used? && slots[0].market == m && slots[0].orderId == orderId then Some(0)
    else match FindSlot(slots[1..], m, orderId) case None => None case Some(i) => Some(i + 1)
  }

  lemma {:induction false} FindSlotFinds(slots: seq<OrderSlot>, m: nat, orderId: Key)
    ensures match FindSlot(slots, m, orderId)
            case Some(i) => i < |slots| && slots[i].Used? && Names(slots[i], m, slots[i].side, orderId)
            case None => forall slot, side :: slot in slots ==> !Names(slot, m, side, orderId)
  {
    if slots != [] { FindSlotFinds(slots[1..], m, orderId); }
  }

  /** Takes the order that slot `i` names off the book, if it is still there, and out of the slot it says it has. */
  function CancelAt(mk: MarketState, a: Account, i: nat): Result<(MarketState, Account)>
    requires i < |a.slots| && a.slots[i].Used?
  {
    var slot := a.slots[i];
    match FindOrder(mk.Resting(slot.side), slot.orderId)
    case None => Ok((mk, a))
    case Some(o) =>
      match RemoveOrderAt(a, o.ownerSlot, o.quantity)
      case Err(e) => Err(e)
      case Ok(a') => Ok((mk.WithResting(slot.side, RemoveOrder(mk.Resting(slot.side), slot.orderId)), a'))
  }

  /** Cancels one order; price incentives need a best price on its side. */
  function CancelOrder(mk: MarketState, a: Account, m: nat, owner: Pubkey, orderId: Key, now: nat):
    Result<(MarketState, Account)>
  {
    FindSlotFinds(a.slots, m, orderId);
    match FindSlot(a.slots, m, orderId)
    case None => Err(InvalidOrderId)
    case Some(i) =>
      var resting := mk.Resting(a.slots[i].side);
      if mk.totals.version == 0 && BestPrice(resting, now).None? then Err(Panic)
      else if FindOrder(resting, orderId).None? then Err(InvalidOrderId)
      else if FindOrder(resting, orderId).value.owner != owner then Err(InvalidOrderId)
      else CancelAt(mk, a, i)
  }

  /** Cancels from slot `i` on until `limit` slots of the market have been looked at; the 8-bit count wraps. */
  function CancelFrom(mk: MarketState, a: Account, m: nat, i: nat, limit: nat): Result<(MarketState, Account)>
    decreases MAX_PERP_OPEN_ORDERS - i
  {
    if i >= MAX_PERP_OPEN_ORDERS || i >= |a.slots| then Ok((mk, a))
    else if a.slots[i].Free? || a.slots[i].market != m then CancelFrom(mk, a, m, i + 1, limit)
    else
      match CancelAt(mk, a, i)
      case Err(e) => Err(e)
      case Ok((mk', a')) =>
        var left := (limit + 255) % 256;
        if left == 0 then Ok((mk', a')) else CancelFrom(mk', a', m, i + 1, left)
  }

  // ----- The account gives up exactly what the book gave up

  lemma CancelBalances(mk: MarketState, m: nat, a: Account, x: Account, owner: Pubkey, who: Pubkey, side: Side,
                       o: LeafNode)
    requires MarketOk(mk) && m < |a.perps| && o in mk.Resting(side) && o.owner == who
    requires Balanced(mk, m, x, owner) && (owner == who ==> x == a) && Recorded(a, m, OnSlot(o.ownerSlot), side) >= 1
    ensures RemoveOrderAt(a, o.ownerSlot, o.quantity).Ok?
    ensures var a' := RemoveOrderAt(a, o.ownerSlot, o.quantity).value;
      var mk' := mk.WithResting(side, RemoveOrder(mk.Resting(side), o.key));
      Balanced(mk', m, if owner == who then a' else x, owner)
  {
    hide RemoveOrder, BookClaims, QueueClaims, TakerBase, TakerQuote, Tradable, Sorted, Recorded, SameElsewhere;
    RemovalRecords(a, m, side, o.ownerSlot, o.quantity);
    var a' := RemoveOrderAt(a, o.ownerSlot, o.quantity).value;
    var own := mk.Resting(side);
    var mk' := mk.WithResting(side, RemoveOrder(own, o.key));
    var x' := if owner == who then a' else x;
    FindMember(side, own, o);
    assert mk'.queue == mk.queue;
    forall c, sd
      ensures Held(mk', c, sd, owner) == Recorded(x', m, c, sd)
    {
      RemoveTakesClaim(c, owner, own, o.key);
      assert Held(mk, c, sd, owner) == Recorded(x, m, c, sd);
      assert sd == side || sd == InvertSide(side);
      assert sd != side ==> mk'.Resting(sd) == mk.Resting(sd);
    }
    assert x'.perps[m].takerBase == x.perps[m].takerBase && x'.perps[m].takerQuote == x.perps[m].takerQuote;
  }

  lemma CancelSound(mk: MarketState, side: Side, key: Key, n: nat)
    requires Sound(mk, n)
    ensures Sound(mk.WithResting(side, RemoveOrder(mk.Resting(side), key)), n)
    ensures forall sd, o :: o in mk.WithResting(side, RemoveOrder(mk.Resting(side), key)).Resting(sd) ==>
            o in mk.Resting(sd)
  {
    var own := mk.Resting(side);
    var mk' := mk.WithResting(side, RemoveOrder(own, key));
    RemoveSorted(side, own, key);
    RemoveKeepsOthers(own, key);
    hide RemoveOrder, Sorted;
    assert mk'.Resting(InvertSide(side)) == mk.Resting(InvertSide(side));
    forall sd, o | o in mk'.Resting(sd)
      ensures o in mk.Resting(sd)
    {
      assert sd == side || sd == InvertSide(side);
    }
    assert Tradable(mk'.Resting(side));
  }

  /** Market and accounts agree in market `m`. */
  ghost predicate InStep(mk: MarketState, m: nat, accounts: seq<Account>) {
    && Sound(mk, |accounts|)
    && forall i :: 0 <= i < |accounts| ==> m < |accounts[i].perps| && Agrees(mk, m, accounts[i], i)
  }

  /**
   * Cancelling through a slot never fails, and an order found that way is the account's own and sits in that very
   * slot, so the slot freed is the one looked at and the quantity taken back is that of the order.
   */
  lemma CancelFreesItsSlot(mk: MarketState, m: nat, accounts: seq<Account>, who: Pubkey, i: nat)
    requires InStep(mk, m, accounts) && who < |accounts| && i < |accounts[who].slots|
    requires accounts[who].slots[i].Used? && accounts[who].slots[i].market == m
    ensures CancelAt(mk, accounts[who], i).Ok?
    ensures var slot, (mk', a') := accounts[who].slots[i], CancelAt(mk, accounts[who], i).value;
      && InStep(mk', m, accounts[who := a']) && SameElsewhere(accounts[who], a', m)
      && (match FindOrder(mk.Resting(slot.side), slot.orderId)
          case None => (mk', a') == (mk, accounts[who])
          case Some(o) =>
            && o.owner == who && o.ownerSlot == i && o.quantity > 0
            && a' == Account(accounts[who].perps[m := accounts[who].perps[m].AddQuantity(slot.side, -o.quantity)],
                             accounts[who].slots[i := Free]))
  {
    hide Balanced, SameElsewhere, Sorted, RemoveOrder, FindOrder, KeyAge;
    var a, slot := accounts[who], accounts[who].slots[i];
    var own := mk.Resting(slot.side);
    FindOrderIn(own, slot.orderId);
    assert Agrees(mk, m, a, who);
    if FindOrder(own, slot.orderId).None? {
      assert accounts[who := a] == accounts;
      SameElsewhereSelf(a, m);
    } else {
      var o := FindOrder(own, slot.orderId).value;
      assert Names(slot, m, slot.side, o.key);
      assert Recorded(a, m, OnSlot(o.ownerSlot), slot.side) == 1;
      RemovalRecords(a, m, slot.side, i, o.quantity);
      var a' := RemoveOrderAt(a, i, o.quantity).value;
      var mk' := mk.WithResting(slot.side, RemoveOrder(own, o.key));
      CancelSound(mk, slot.side, o.key, |accounts|);
      ghost var accounts' := accounts[who := a'];
      forall k | 0 <= k < |accounts'|
        ensures m < |accounts'[k].perps| && Agrees(mk', m, accounts'[k], k)
      {
        assert Agrees(mk, m, accounts[k], k);
        CancelBalances(mk, m, a, accounts[k], k, who, slot.side, o);
        NamesSurvive(mk, mk', m, accounts[k], accounts'[k], k, |accounts|);
        FreeingKeepsNumbers(accounts[k], accounts'[k], m, mk.totals.seqNum + 1);
      }
    }
  }

  /** After cancelling from slot `i` on, everything still agrees. */
  lemma {:induction false} CancelFromKeeps(mk: MarketState, m: nat, accounts: seq<Account>, who: Pubkey, i: nat,
                                           limit: nat)
    requires InStep(mk, m, accounts) && who < |accounts|
    ensures CancelFrom(mk, accounts[who], m, i, limit).Ok?
    ensures var (mk', a') := CancelFrom(mk, accounts[who], m, i, limit).value;
      InStep(mk', m, accounts[who := a']) && SameElsewhere(accounts[who], a', m)
    decreases MAX_PERP_OPEN_ORDERS - i
  {
    hide InStep, SameElsewhere, CancelAt;
    var a := accounts[who];
    assert accounts[who := a] == accounts;
    SameElsewhereSelf(a, m);
    if i < MAX_PERP_OPEN_ORDERS && i < |a.slots| {
      if a.slots[i].Free? || a.slots[i].market != m {
        CancelFromKeeps(mk, m, accounts, who, i + 1, limit);
      } else {
        CancelFreesItsSlot(mk, m, accounts, who, i);
        var (mk', a') := CancelAt(mk, a, i).value;
        var left := (limit + 255) % 256;
        if left != 0 {
          CancelFromKeeps(mk', m, accounts[who := a'], who, i + 1, left);
          var (mk2, a2) := CancelFrom(mk', a', m, i + 1, left).value;
          assert accounts[who := a'][who := a2] == accounts[who := a2];
          SameElsewhereTwice(a, a', a2, m);
        }
      }
    }
  }

  /** Cancelling by id fails only for an id that is not on the book or for want of a best price, never for the owner. */
  lemma CancelOrderExact(mk: MarketState, m: nat, accounts: seq<Account>, who: Pubkey, orderId: Key, now: nat)
    requires InStep(mk, m, accounts) && who < |accounts|
    ensures
      var a := accounts[who];
      var r := CancelOrder(mk, a, m, who, orderId, now);
      match FindSlot(a.slots, m, orderId)
      case None => r == Err(InvalidOrderId)
      case Some(i) =>
        && i < |a.slots| && a.slots[i].Used?
        && var own := mk.Resting(a.slots[i].side);
        if mk.totals.version == 0 && BestPrice(own, now).None? then r == Err(Panic)
        else match FindOrder(own, orderId)
          case None => r == Err(InvalidOrderId)
          case Some(o) =>
            && r.Ok? && InStep(r.value.0, m, accounts[who := r.value.1]) && SameElsewhere(a, r.value.1, m)
            && r.value.0 == mk.WithResting(a.slots[i].side, RemoveOrder(own, orderId))
            && r.value.1 == Account(a.perps[m := a.perps[m].AddQuantity(a.slots[i].side, -o.quantity)],
               a.slots[i := Free])
  {
    hide InStep, SameElsewhere, FindOrder, BestPrice;
    var a := accounts[who];
    FindSlotFinds(a.slots, m, orderId);
    var found := FindSlot(a.slots, m, orderId);
    if found.Some? { CancelFreesItsSlot(mk, m, accounts, who, found.value); }
  }

  // ----- Cancelling one side with size incentives

  /** The ids in the slots that an account has on one side of a market. */
  function OwnKeys(slots: seq<OrderSlot>, m: nat, side: Side): seq<Key> {
    if slots == [] then []
    else (if Holds(slots[0], m, side) then [slots[0].orderId] else []) + OwnKeys(slots[1..], m, side)
  }

  lemma {:induction false} SlotIsOwn(slots: seq<OrderSlot>, m: nat, side: Side, i: nat)
    requires i < |slots| && Holds(slots[i], m, side)
    ensures slots[i].orderId in OwnKeys(slots, m, side)
  {
    if i > 0 { SlotIsOwn(slots[1..], m, side, i - 1); }
  }

  lemma {:induction false} OwnHasSlot(slots: seq<OrderSlot>, m: nat, side: Side, k: Key) returns (i: nat)
    requires k in OwnKeys(slots, m, side)
    ensures i < |slots| && Names(slots[i], m, side, k)
  {
    if Names(slots[0], m, side, k) {
      i := 0;
    } else {
      i := OwnHasSlot(slots[1..], m, side, k);
      i := i + 1;
    }
  }

  lemma {:induction false} OwnKeysDiffer(slots: seq<OrderSlot>, m: nat, side: Side)
    requires forall i, j :: 0 <= i < j < |slots| && Holds(slots[i], m, side) && Holds(slots[j], m, side) ==>
      slots[i].orderId != slots[j].orderId
    ensures AllDiffer(OwnKeys(slots, m, side))
  {
    if slots != [] {
      OwnKeysDiffer(slots[1..], m, side);
      var rest := OwnKeys(slots[1..], m, side);
      if Holds(slots[0], m, side) {
        var id := slots[0].orderId;
        if id in rest { var j := OwnHasSlot(slots[1..], m, side, id); }
        assert OwnKeys(slots, m, side) == [id] + rest && ([id] + rest)[1..] == rest;
      } else {
        assert OwnKeys(slots, m, side) == rest;
      }
    }
  }

  /** Cancels orders by key, counting each key whether it is still on the book or not. */
  function CancelKeys(mk: MarketState, a: Account, side: Side, keys: seq<Key>, limit: nat):
    Result<(MarketState, Account)>
    decreases |keys|
  {
    if keys == [] || limit == 0 then Ok((mk, a))
    else
      match FindOrder(mk.Resting(side), keys[0])
      case None => CancelKeys(mk, a, side, keys[1..], limit - 1)
      case Some(o) =>
        match RemoveOrderAt(a, o.ownerSlot, o.quantity)
        case Err(e) => Err(e)
        case Ok(a') =>
          CancelKeys(mk.WithResting(side, RemoveOrder(mk.Resting(side), keys[0])), a', side, keys[1..], limit - 1)
  }

  /** What is left of a limit once as many keys have been tried as it allows. */
  function LeftOf(limit: nat, keys: nat): nat { if limit < keys then 0 else limit - keys }

  function KeysReported(sized: seq<Sized>): seq<Key> {
    seq(|sized|, i requires 0 <= i < |sized| => sized[i].key)
  }

  /** Cancels what an account has on one side, in the order of the pass that finds the depth ahead of each order. */
  function CancelSide(mk: MarketState, a: Account, m: nat, side: Side, maxDepth: int, now: nat, limit: nat):
    Result<(MarketState, Account)>
  {
    var mine := RankKeys(side, OwnKeys(a.slots, m, side));
    CancelKeys(mk, a, side, KeysReported(Merge(side, mk.Resting(side), mine, maxDepth, now, 0)), limit)
  }

  /** Cancels bids and then asks, all named before the first is cancelled, with one limit for both. */
  function CancelBoth(mk: MarketState, a: Account, m: nat, maxDepth: int, now: nat, limit: nat):
    Result<(MarketState, Account)>
  {
    var bids, asks := OwnKeys(a.slots, m, Bid), OwnKeys(a.slots, m, Ask);
    var bidsFound := KeysReported(Merge(Bid, mk.bids, RankKeys(Bid, bids), maxDepth, now, 0));
    match CancelKeys(mk, a, Bid, bidsFound, limit)
    case Err(e) => Err(e)
    case Ok((mk', a')) =>
      var asksFound := KeysReported(Merge(Ask, mk'.asks, RankKeys(Ask, asks), maxDepth, now, 0));
      CancelKeys(mk', a', Ask, asksFound, LeftOf(limit, |bidsFound|))
  }

  /** Every key that is on the book is named by a slot of the account. */
  ghost predicate OwnOnBook(mk: MarketState, a: Account, m: nat, side: Side, keys: seq<Key>) {
    forall k :: k in keys && k in KeysOf(mk.Resting(side)) ==> k in OwnKeys(a.slots, m, side)
  }

  lemma {:induction false} CancelKeysKeep(mk: MarketState, m: nat, accounts: seq<Account>, who: Pubkey, side: Side,
                                          keys: seq<Key>, limit: nat)
    requires InStep(mk, m, accounts) && who < |accounts| && OwnOnBook(mk, accounts[who], m, side, keys)
    ensures CancelKeys(mk, accounts[who], side, keys, limit).Ok?
    ensures var (mk', a') := CancelKeys(mk, accounts[who], side, keys, limit).value;
      && InStep(mk', m, accounts[who := a']) && SameElsewhere(accounts[who], a', m)
      && OwnKeys(a'.slots, m, InvertSide(side)) == OwnKeys(accounts[who].slots, m, InvertSide(side))
    decreases |keys|
  {
    hide InStep, SameElsewhere, FindOrder, RemoveOrder, KeysOf, OwnKeys;
    var a := accounts[who];
    assert accounts[who := a] == accounts;
    SameElsewhereSelf(a, m);
    if keys != [] && limit > 0 {
      var own, key := mk.Resting(side), keys[0];
      FindOrderIn(own, key);
      assert keys == [key] + keys[1..];
      if FindOrder(own, key).None? {
        CancelKeysKeep(mk, m, accounts, who, side, keys[1..], limit - 1);
      } else {
        var i := OwnHasSlot(a.slots, m, side, key);
        assert MarketOk(mk) by { StepIsSound(mk, m, accounts); }
        CancelFreesItsSlot(mk, m, accounts, who, i);
        var (mk', a') := CancelAt(mk, a, i).value;
        CancelShrinksOwn(mk, m, a, side, i, keys[1..]);
        OtherKeysStay(a.slots, m, InvertSide(side), i);
        CancelKeysKeep(mk', m, accounts[who := a'], who, side, keys[1..], limit - 1);
        var (mk2, a2) := CancelKeys(mk', a', side, keys[1..], limit - 1).value;
        assert accounts[who := a'][who := a2] == accounts[who := a2];
        SameElsewhereTwice(a, a', a2, m);
      }
    }
  }

  lemma {:induction false} OtherKeysStay(slots: seq<OrderSlot>, m: nat, side: Side, i: nat)
    requires i < |slots| && !Holds(slots[i], m, side)
    ensures OwnKeys(slots[i := Free], m, side) == OwnKeys(slots, m, side)
  {
    if i > 0 {
      assert slots[i := Free][1..] == slots[1..][i - 1 := Free];
      OtherKeysStay(slots[1..], m, side, i - 1);
    } else {
      assert slots[0 := Free][1..] == slots[1..];
    }
  }

  lemma StepIsSound(mk: MarketState, m: nat, accounts: seq<Account>)
    requires InStep(mk, m, accounts)
    ensures MarketOk(mk)
  {
  }

  /** After a key has been cancelled the other keys on the book are still named. */
  lemma CancelShrinksOwn(mk: MarketState, m: nat, a: Account, side: Side, i: nat, keys: seq<Key>)
    requires MarketOk(mk) && i < |a.slots| && Holds(a.slots[i], m, side)
    requires CancelAt(mk, a, i).Ok? && FindOrder(mk.Resting(side), a.slots[i].orderId).Some?
    requires CancelAt(mk, a, i).value.1.slots == a.slots[i := Free]
    requires OwnOnBook(mk, a, m, side, keys)
    ensures OwnOnBook(CancelAt(mk, a, i).value.0, CancelAt(mk, a, i).value.1, m, side, keys)
  {
    hide FindOrder, RemoveOrder, KeysOf, OwnKeys, Sorted;
    var (mk', a') := CancelAt(mk, a, i).value;
    var key := a.slots[i].orderId;
    RemoveSorted(side, mk.Resting(side), key);
    forall k | k in keys && k in KeysOf(mk'.Resting(side))
      ensures k in OwnKeys(a'.slots, m, side)
    {
      var j := OwnHasSlot(a.slots, m, side, k);
      assert a'.slots[j] == a.slots[j];
      SlotIsOwn(a'.slots, m, side, j);
    }
  }

  /** What the pass reports are keys of the account, so cancelling a side succeeds and keeps everything in step. */
  lemma CancelSideKeeps(mk: MarketState, m: nat, accounts: seq<Account>, who: Pubkey, side: Side, maxDepth: int,
                        now: nat, limit: nat)
    requires InStep(mk, m, accounts) && who < |accounts|
    ensures CancelSide(mk, accounts[who], m, side, maxDepth, now, limit).Ok?
    ensures var (mk', a') := CancelSide(mk, accounts[who], m, side, maxDepth, now, limit).value;
      && InStep(mk', m, accounts[who := a']) && SameElsewhere(accounts[who], a', m)
      && OwnKeys(a'.slots, m, InvertSide(side)) == OwnKeys(accounts[who].slots, m, InvertSide(side))
  {
    var a := accounts[who];
    assert Agrees(mk, m, a, who);
    var keys := OwnKeys(a.slots, m, side);
    OwnKeysDiffer(a.slots, m, side);
    hide InStep, SameElsewhere, Merge, Ranked, OwnKeys, AllDiffer;
    RankKeysRanked(side, keys);
    var sized := Merge(side, mk.Resting(side), RankKeys(side, keys), maxDepth, now, 0);
    MergeOwn(side, mk.Resting(side), RankKeys(side, keys), maxDepth, now, 0);
    forall k | k in KeysReported(sized)
      ensures k in keys
    {
      var i :| 0 <= i < |sized| && KeysReported(sized)[i] == k;
      assert sized[i] in sized;
    }
    CancelKeysKeep(mk, m, accounts, who, side, KeysReported(sized), limit);
  }

  /**
   * Cancelling both sides is cancelling the bids and then the asks with what the bids leave of the limit: it succeeds
   * and keeps everything in step.
   */
  lemma CancelBothKeeps(mk: MarketState, m: nat, accounts: seq<Account>, who: Pubkey, maxDepth: int, now: nat,
                        limit: nat)
    requires InStep(mk, m, accounts) && who < |accounts|
    ensures CancelSide(mk, accounts[who], m, Bid, maxDepth, now, limit).Ok?
    ensures CancelBoth(mk, accounts[who], m, maxDepth, now, limit).Ok?
    ensures
      var a := accounts[who];
      var (mk1, a1) := CancelSide(mk, a, m, Bid, maxDepth, now, limit).value;
      var tried := |Merge(Bid, mk.bids, RankKeys(Bid, OwnKeys(a.slots, m, Bid)), maxDepth, now, 0)|;
      var (mk', a') := CancelBoth(mk, a, m, maxDepth, now, limit).value;
      && CancelBoth(mk, a, m, maxDepth, now, limit) ==
         CancelSide(mk1, a1, m, Ask, maxDepth, now, LeftOf(limit, tried))
      && InStep(mk', m, accounts[who := a']) && SameElsewhere(a, a', m)
  {
    hide InStep, SameElsewhere, Merge, RankKeys, OwnKeys, CancelKeys;
    var a := accounts[who];
    CancelSideKeeps(mk, m, accounts, who, Bid, maxDepth, now, limit);
    var (mk1, a1) := CancelSide(mk, a, m, Bid, maxDepth, now, limit).value;
    var tried := |Merge(Bid, mk.bids, RankKeys(Bid, OwnKeys(a.slots, m, Bid)), maxDepth, now, 0)|;
    CancelSideKeeps(mk1, m, accounts[who := a1], who, Ask, maxDepth, now, LeftOf(limit, tried));
    var (mk2, a2) := CancelSide(mk1, a1, m, Ask, maxDepth, now, LeftOf(limit, tried)).value;
    assert accounts[who := a1][who := a2] == accounts[who := a2];
    SameElsewhereTwice(a, a1, a2, m);
  }
}
