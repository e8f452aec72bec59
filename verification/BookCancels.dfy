/** Cancelling as it updates the book and the account. */
module BookCancels {
  import opened OrderKeys
  import opened Types
  import opened OrderLists
  import opened PerpState
  import opened OrderPlacement
  import opened BookSides
  import opened Books
  import opened MangoAccounts
  import opened Exchange
  import opened SizeIncentives
  import opened Cancels

  /** The book and the account are those of a market state and an account value. */
  ghost predicate Shows(book: Book, account: MangoAccount, mk: MarketState, a: Account)
    reads book, book.bids, book.asks, book.bids.nodes, book.asks.nodes, account
  {
    book.Valid() && book.bids.Resting() == mk.bids && book.asks.Resting() == mk.asks && account.State() == a
  }

  method FindOrderSlot(account: MangoAccount, m: nat, orderId: Key) returns (r: Option<nat>)
    ensures r == FindSlot(account.slots, m, orderId)
  {
    var i := 0;
    while i < |account.slots|
      invariant 0 <= i <= |account.slots|
      invariant FindSlot(account.slots, m, orderId) ==
                match FindSlot(account.slots[i..], m, orderId) case None => None case Some(j) => Some(i + j)
    {
      var slot := account.slots[i];
      if slot.Used? && slot.market == m && slot.orderId == orderId {
        return Some(i);
      }
      assert account.slots[i..][1..] == account.slots[i + 1..];
      i := i + 1;
    }
    r := None;
  }

  /** Takes an order off the book by its key, and out of the slot of the account that it names. */
  method CancelKey(book: Book, account: MangoAccount, side: Side, key: Key, ghost mk: MarketState)
    returns (ok: bool, r: Option<LeafNode>)
    requires Shows(book, account, mk, account.State())
    modifies book.bids, book.bids.nodes, book.asks, book.asks.nodes, account`perps, account`slots
    ensures r == FindOrder(mk.Resting(side), key)
    ensures match r
      case None => ok && Shows(book, account, mk, old(account.State()))
      case Some(o) =>
        var a := RemoveOrderAt(old(account.State()), o.ownerSlot, o.quantity);
        && ok == a.Ok?
        && (ok ==> Shows(book, account, mk.WithResting(side, RemoveOrder(mk.Resting(side), key)), a.value))
  {
    hide BookSide.Valid, BookSide.Resting, FindOrder, RemoveOrder, RemoveOrderAt;
    ok := true;
    var own := book.Side(side);
    FindOrderIn(own.Resting(), key);
    r := own.RemoveByKey(key);
    if r.Some? {
      ok := account.RemoveOrder(r.value.ownerSlot, r.value.quantity);
    } else {
      RemoveAbsent(mk.Resting(side), key);
    }
  }

  /** Cancels the order that slot `i` names, if it is on the book. */
  method CancelSlot(book: Book, account: MangoAccount, i: nat, ghost mk: MarketState) returns (ok: bool)
    requires Shows(book, account, mk, account.State()) && i < |account.slots| && account.slots[i].Used?
    modifies book.bids, book.bids.nodes, book.asks, book.asks.nodes, account`perps, account`slots
    ensures var r := CancelAt(mk, old(account.State()), i);
      ok == r.Ok? && (ok ==> Shows(book, account, r.value.0, r.value.1))
  {
    hide Shows, FindOrder, RemoveOrder, RemoveOrderAt;
    var slot := account.slots[i];
    var found;
    ok, found := CancelKey(book, account, slot.side, slot.orderId, mk);
  }

  method CancelPerpOrder(book: Book, market: PerpMarket, account: MangoAccount, m: nat, owner: Pubkey, orderId: Key,
                         now: nat,
                         ghost mk: MarketState)
    returns (ok: bool)
    requires Shows(book, account, mk, account.State()) && mk.totals == market.Totals()
    modifies book.bids, book.bids.nodes, book.asks, book.asks.nodes, account`perps, account`slots
    ensures var r := CancelOrder(mk, old(account.State()), m, owner, orderId, now);
      ok == r.Ok? && (ok ==> Shows(book, account, r.value.0, r.value.1))
  {
    hide BookSide.Valid, BookSide.Resting, FindOrder, RemoveOrder, RemoveOrderAt, BestPrice;
    FindSlotFinds(account.slots, m, orderId);
    var i := FindOrderSlot(account, m, orderId);
    if i.None? {
      return false;
    }
    var side := account.slots[i.value].side;
    if market.version == 0 {
      var best := GetBestPrice(book.Side(side), now);
      if best.None? {
        return false;
      }
    }
    var found;
    ok, found := CancelKey(book, account, side, orderId, mk);
    if found.None? || found.value.owner != owner {
      return false;
    }
  }

  /**
   * Cancels the orders of an account one slot after the other; those that are not on the book count towards the limit.
   */
  method CancelAllOrders(book: Book, account: MangoAccount, m: nat, limit: nat, ghost mk0: MarketState)
    returns (ok: bool)
    requires Shows(book, account, mk0, account.State()) && limit < 256
    modifies book.bids, book.bids.nodes, book.asks, book.asks.nodes, account`perps, account`slots
    ensures var r := CancelFrom(mk0, old(account.State()), m, 0, limit);
      ok == r.Ok? && (ok ==> Shows(book, account, r.value.0, r.value.1))
  {
    hide Shows, CancelAt;
    var i, left := 0, limit;
    ghost var mk := mk0;
    while i < MAX_PERP_OPEN_ORDERS && i < |account.slots|
      invariant Shows(book, account, mk, account.State())
      invariant CancelFrom(mk, account.State(), m, i, left) == CancelFrom(mk0, old(account.State()), m, 0, limit)
    {
      if account.slots[i].Used? && account.slots[i].market == m {
        ghost var r := CancelAt(mk, account.State(), i);
        var done := CancelSlot(book, account, i, mk);
        if !done {
          return false;
        }
        mk := r.value.0;
        assert account.State() == r.value.1 by { ShowsAccount(book, account, mk, r.value.1); }
        left := (left + 255) % 256;
        if left == 0 { break; }
      }
      i := i + 1;
    }
    ok := true;
  }

  lemma ShowsAccount(book: Book, account: MangoAccount, mk: MarketState, a: Account)
    requires Shows(book, account, mk, a)
    ensures account.State() == a
  {
  }

  lemma CollectStep(keys: seq<Key>, slots: seq<OrderSlot>, i: nat, m: nat, side: Side)
    requires i < |slots|
    ensures keys + OwnKeys(slots[i..], m, side) ==
            (if Holds(slots[i], m, side) then keys + [slots[i].orderId] else keys) + OwnKeys(slots[i + 1..], m, side)
  {
    assert slots[i..][1..] == slots[i + 1..];
  }

  lemma OwnEnds(slots: seq<OrderSlot>, m: nat, side: Side)
    ensures OwnKeys(slots[0..], m, side) == OwnKeys(slots, m, side) && OwnKeys(slots[|slots|..], m, side) == []
  {
    assert slots[0..] == slots;
  }

  /** The ids in the slots on one side, in slot order. */
  method CollectKeys(account: MangoAccount, m: nat, side: Side) returns (keys: seq<Key>)
    ensures keys == OwnKeys(account.slots, m, side)
  {
    OwnEnds(account.slots, m, side);
    hide OwnKeys, Holds;
    keys := [];
    var i := 0;
    while i < |account.slots|
      invariant 0 <= i <= |account.slots|
      invariant keys + OwnKeys(account.slots[i..], m, side) == OwnKeys(account.slots, m, side)
    {
      CollectStep(keys, account.slots, i, m, side);
      if Holds(account.slots[i], m, side) { keys := keys + [account.slots[i].orderId]; }
      i := i + 1;
    }
  }

  /** The same for both sides, in one loop. */
  method CollectBoth(account: MangoAccount, m: nat) returns (bids: seq<Key>, asks: seq<Key>)
    ensures bids == OwnKeys(account.slots, m, Bid) && asks == OwnKeys(account.slots, m, Ask)
  {
    OwnEnds(account.slots, m, Bid);
    OwnEnds(account.slots, m, Ask);
    hide OwnKeys;
    bids, asks := [], [];
    var i := 0;
    while i < |account.slots|
      invariant 0 <= i <= |account.slots|
      invariant bids + OwnKeys(account.slots[i..], m, Bid) == OwnKeys(account.slots, m, Bid)
      invariant asks + OwnKeys(account.slots[i..], m, Ask) == OwnKeys(account.slots, m, Ask)
    {
      CollectStep(bids, account.slots, i, m, Bid);
      CollectStep(asks, account.slots, i, m, Ask);
      var slot := account.slots[i];
      if slot.Used? && slot.market == m {
        if slot.side == Bid { bids := bids + [slot.orderId]; } else { asks := asks + [slot.orderId]; }
      }
      i := i + 1;
    }
  }

  /**
   * Cancels the given keys of one side, telling for each how much valid size of others was ahead of it, and returns
   * what is left of the limit.
   */
  method CancelFound(book: Book, account: MangoAccount, side: Side, own: seq<Key>, maxDepth: int, now: nat, limit: nat,
                     ghost mk0: MarketState)
    returns (ok: bool, sized: seq<Sized>, left: nat)
    requires Shows(book, account, mk0, account.State())
    modifies book.bids, book.bids.nodes, book.asks, book.asks.nodes, account`perps, account`slots
    ensures sized == Merge(side, mk0.Resting(side), RankKeys(side, own), maxDepth, now, 0)
    ensures var r := CancelKeys(mk0, old(account.State()), side, KeysReported(sized), limit);
      ok == r.Ok? && (ok ==> Shows(book, account, r.value.0, r.value.1) && left == LeftOf(limit, |sized|))
  {
    hide Merge, RankKeys, BookSide.Valid, BookSide.Resting, FindOrder, RemoveOrder, RemoveOrderAt;
    sized := CollectSizes(book.Side(side), RankKeys(side, own), maxDepth, now);
    ghost var keys := KeysReported(sized);
    hide Shows;
    var i := 0;
    left := limit;
    ghost var mk := mk0;
    while i < |sized| && left > 0
      invariant 0 <= i <= |sized| && Shows(book, account, mk, account.State()) && left + i == limit
      invariant CancelKeys(mk, account.State(), side, keys[i..], left) ==
                CancelKeys(mk0, old(account.State()), side, keys, limit)
    {
      left := left - 1;
      assert keys[i..][0] == sized[i].key && keys[i..][1..] == keys[i + 1..];
      ghost var a := account.State();
      var done, found := CancelKey(book, account, side, sized[i].key, mk);
      if !done {
        ok := false;
        return;
      }
      if found.Some? {
        mk := mk.WithResting(side, RemoveOrder(mk.Resting(side), sized[i].key));
        ShowsAccount(book, account, mk, RemoveOrderAt(a, found.value.ownerSlot, found.value.quantity).value);
      } else {
        ShowsAccount(book, account, mk, a);
      }
      i := i + 1;
    }
    ok := true;
  }

  /** Cancels the orders of an account on one side. */
  method CancelAllSide(book: Book, account: MangoAccount, m: nat, side: Side, maxDepth: int, now: nat, limit: nat,
                       ghost mk0: MarketState)
    returns (ok: bool, sized: seq<Sized>, left: nat)
    requires Shows(book, account, mk0, account.State())
    modifies book.bids, book.bids.nodes, book.asks, book.asks.nodes, account`perps, account`slots
    ensures sized == Merge(side, mk0.Resting(side), RankKeys(side, OwnKeys(old(account.slots), m, side)), maxDepth,
            now, 0)
    ensures var r := CancelSide(mk0, old(account.State()), m, side, maxDepth, now, limit);
      ok == r.Ok? && (ok ==> Shows(book, account, r.value.0, r.value.1) && left == LeftOf(limit, |sized|))
  {
    hide Merge, RankKeys, OwnKeys, CancelKeys, Shows;
    var own := CollectKeys(account, m, side);
    ok, sized, left := CancelFound(book, account, side, own, maxDepth, now, limit, mk0);
  }

  /** Cancels the orders of an account on both sides, bids first; what they leave of the limit is for the asks. */
  method CancelAllWithSizes(book: Book, account: MangoAccount, m: nat, maxDepth: int, now: nat, limit: nat,
                            ghost mk0: MarketState)
    returns (ok: bool)
    requires Shows(book, account, mk0, account.State())
    modifies book.bids, book.bids.nodes, book.asks, book.asks.nodes, account`perps, account`slots
    ensures var r := CancelBoth(mk0, old(account.State()), m, maxDepth, now, limit);
      ok == r.Ok? && (ok ==> Shows(book, account, r.value.0, r.value.1))
  {
    hide Merge, RankKeys, OwnKeys, CancelKeys, Shows;
    var bids, asks := CollectBoth(account, m);
    ghost var a := account.State();
    var sized, left;
    ok, sized, left := CancelFound(book, account, Bid, bids, maxDepth, now, limit, mk0);
    if !ok {
      return;
    }
    ghost var (mk, a') := CancelKeys(mk0, a, Bid, KeysReported(sized), limit).value;
    ShowsAccount(book, account, mk, a');
    ok, sized, left := CancelFound(book, account, Ask, asks, maxDepth, now, left, mk);
  }
}
