/** What is left on the book after orders have been cancelled, said without the loops that cancel them. */
module CancelOutcomes {
  import opened OrderKeys
  import opened Types
  import opened OrderLists
  import opened PerpState
  import opened OrderPlacement
  import opened Ledger
  import opened Exchange
  import opened SizeIncentives
  import opened Cancels

  /** An order as a slot names it. */
  datatype Name = Name(side: Side, key: Key)

  /** The orders that slots name in a market, in slot order. */
  function NamesIn(slots: seq<OrderSlot>, m: nat): seq<Name> {
    if slots == [] then []
    else
      (if slots[0].Used? && slots[0].market == m then [Name(slots[0].side, slots[0].orderId)] else []) +
      NamesIn(slots[1..], m)
  }

  function First<T>(s: seq<T>, n: nat): seq<T> { if n < |s| then s[..n] else s }

  /** The orders that are not named, in the same order. */
  function Without(s: seq<LeafNode>, side: Side, gone: seq<Name>): seq<LeafNode> {
    if s == [] then [] else (if Name(side, s[0].key) in gone then [] else [s[0]]) + Without(s[1..], side, gone)
  }

  lemma {:induction false} WithoutHas(s: seq<LeafNode>, side: Side, gone: seq<Name>)
    ensures forall o :: o in Without(s, side, gone) <==> o in s && Name(side, o.key) !in gone
  {
    if s != [] {
      WithoutHas(s[1..], side, gone);
      assert s == [s[0]] + s[1..];
    }
  }

  lemma {:induction false} WithoutNone(s: seq<LeafNode>, side: Side, gone: seq<Name>)
    requires forall o :: o in s ==> Name(side, o.key) !in gone
    ensures Without(s, side, gone) == s
  {
    if s != [] {
      assert s[0] in s;
      WithoutNone(s[1..], side, gone);
    }
  }

  lemma {:induction false} WithoutTwice(s: seq<LeafNode>, side: Side, a: seq<Name>, b: seq<Name>)
    ensures Without(Without(s, side, a), side, b) == Without(s, side, a + b)
  {
    if s != [] {
      WithoutTwice(s[1..], side, a, b);
      var rest := Without(s[1..], side, a);
      if Name(side, s[0].key) in a {
        assert [] + rest == rest;
      } else {
        assert ([s[0]] + rest)[1..] == rest;
      }
    }
  }

  lemma {:induction false} WithoutOne(side: Side, s: seq<LeafNode>, key: Key)
    requires Sorted(side, s)
    ensures Without(s, side, [Name(side, key)]) == RemoveOrder(s, key)
  {
    if s != [] {
      SortedTail(side, s);
      KeysOfIn(s[1..]);
      if s[0].key == key {
        WithoutNone(s[1..], side, [Name(side, key)]);
      } else {
        WithoutOne(side, s[1..], key);
      }
    }
  }

  /** Of the orders of a market just those named are gone; queue and totals are as they were. */
  ghost predicate GoneAre(mk: MarketState, mk': MarketState, gone: seq<Name>) {
    && mk'.bids == Without(mk.bids, Bid, gone) && mk'.asks == Without(mk.asks, Ask, gone)
    && mk'.totals == mk.totals && mk'.queue == mk.queue && mk'.capacity == mk.capacity && mk'.eventSeq == mk.eventSeq
  }

  /** No order of any other account is gone. */
  ghost predicate OthersStay(mk: MarketState, mk': MarketState, who: Pubkey) {
    forall side, o :: o in mk.Resting(side) && o.owner != who ==> o in mk'.Resting(side)
  }

  ghost predicate NothingRests(mk: MarketState, who: Pubkey, side: Side) {
    && (forall o :: o in mk.Resting(side) ==> o.owner != who)
    && forall c :: BookClaims(c, who, mk.Resting(side)) == 0
  }

  lemma {:induction false} NoOwnNoClaims(c: Claim, who: Pubkey, s: seq<LeafNode>)
    requires forall o :: o in s ==> o.owner != who
    ensures BookClaims(c, who, s) == 0
  {
    if s != [] {
      assert s[0] in s;
      NoOwnNoClaims(c, who, s[1..]);
    }
  }

  lemma NothingGone(mk: MarketState)
    ensures GoneAre(mk, mk, [])
  {
    WithoutNone(mk.bids, Bid, []);
    WithoutNone(mk.asks, Ask, []);
  }

  /** First those in `a` are gone and then those in `b`. */
  lemma GoneTwice(mk: MarketState, mk1: MarketState, mk2: MarketState, a: seq<Name>, b: seq<Name>)
    requires GoneAre(mk, mk1, a) && GoneAre(mk1, mk2, b)
    ensures GoneAre(mk, mk2, a + b)
  {
    WithoutTwice(mk.bids, Bid, a, b);
    WithoutTwice(mk.asks, Ask, a, b);
  }

  lemma GoneByKey(mk: MarketState, side: Side, key: Key)
    requires MarketOk(mk)
    ensures GoneAre(mk, mk.WithResting(side, RemoveOrder(mk.Resting(side), key)), [Name(side, key)])
  {
    hide RemoveOrder, Without;
    WithoutOne(side, mk.Resting(side), key);
    WithoutNone(mk.Resting(InvertSide(side)), InvertSide(side), [Name(side, key)]);
  }

  /** An order that is not on the book is as good as gone. */
  lemma AbsentGone(mk: MarketState, side: Side, key: Key)
    requires FindOrder(mk.Resting(side), key).None?
    ensures GoneAre(mk, mk, [Name(side, key)])
  {
    FindOrderIn(mk.Resting(side), key);
    KeysOfIn(mk.Resting(side));
    WithoutNone(mk.bids, Bid, [Name(side, key)]);
    WithoutNone(mk.asks, Ask, [Name(side, key)]);
  }

  /** Cancelling through a slot takes the order it names off the book. */
  lemma CancelAtGone(mk: MarketState, a: Account, i: nat)
    requires MarketOk(mk) && i < |a.slots| && a.slots[i].Used? && CancelAt(mk, a, i).Ok?
    ensures GoneAre(mk, CancelAt(mk, a, i).value.0, [Name(a.slots[i].side, a.slots[i].orderId)])
  {
    hide FindOrder, RemoveOrder, RemoveOrderAt, GoneAre;
    var slot := a.slots[i];
    if FindOrder(mk.Resting(slot.side), slot.orderId).None? {
      AbsentGone(mk, slot.side, slot.orderId);
    } else {
      GoneByKey(mk, slot.side, slot.orderId);
    }
  }

  /** The number of slots that a limit allows for: the 8-bit count is taken down before it is looked at. */
  function Tries(limit: nat): nat { if limit == 0 then 256 else limit }

  lemma FirstTry(name: Name, rest: seq<Name>, limit: nat)
    requires limit < 256
    ensures var left := (limit + 255) % 256;
      First([name] + rest, Tries(limit)) == if left == 0 then [name] else [name] + First(rest, Tries(left))
  {
  }

  lemma NamesFrom(slots: seq<OrderSlot>, i: nat, m: nat)
    requires i < |slots|
    ensures NamesIn(slots[i..], m) ==
      (if slots[i].Used? && slots[i].market == m then [Name(slots[i].side, slots[i].orderId)] else []) +
      NamesIn(slots[i + 1..], m)
  {
    assert slots[i..][0] == slots[i] && slots[i..][1..] == slots[i + 1..];
  }

  /** Cancelling from slot `i` on takes just the orders off the book that the first slots name, as many as allowed. */
  lemma {:induction false} CancelFromGone(mk: MarketState, m: nat, accounts: seq<Account>, who: Pubkey, i: nat,
                                          limit: nat)
    requires InStep(mk, m, accounts) && who < |accounts| && limit < 256
    requires i <= |accounts[who].slots| <= MAX_PERP_OPEN_ORDERS
    ensures CancelFrom(mk, accounts[who], m, i, limit).Ok?
    ensures GoneAre(mk, CancelFrom(mk, accounts[who], m, i, limit).value.0,
                    First(NamesIn(accounts[who].slots[i..], m), Tries(limit)))
    decreases MAX_PERP_OPEN_ORDERS - i
  {
    hide InStep, SameElsewhere, CancelAt, GoneAre, NamesIn, First, Tries;
    var a := accounts[who];
    if i < |a.slots| {
      NamesFrom(a.slots, i, m);
      assert [] + NamesIn(a.slots[i + 1..], m) == NamesIn(a.slots[i + 1..], m);
      if a.slots[i].Free? || a.slots[i].market != m {
        CancelFromGone(mk, m, accounts, who, i + 1, limit);
      } else {
        var name, rest := Name(a.slots[i].side, a.slots[i].orderId), NamesIn(a.slots[i + 1..], m);
        StepIsSound(mk, m, accounts);
        CancelFreesItsSlot(mk, m, accounts, who, i);
        CancelAtGone(mk, a, i);
        SlotsAfter(mk, m, accounts, who, i);
        FirstTry(name, rest, limit);
        var (mk', a') := CancelAt(mk, a, i).value;
        var left := (limit + 255) % 256;
        if left != 0 {
          CancelFromGone(mk', m, accounts[who := a'], who, i + 1, left);
          GoneTwice(mk, mk', CancelFrom(mk', a', m, i + 1, left).value.0, [name], First(rest, Tries(left)));
        }
      }
    } else {
      NoNames(a.slots[i..], m, Tries(limit));
      NothingGone(mk);
    }
  }

  lemma NoNames(slots: seq<OrderSlot>, m: nat, n: nat)
    requires slots == []
    ensures First(NamesIn(slots, m), n) == []
  {
  }

  lemma SlotsAfter(mk: MarketState, m: nat, accounts: seq<Account>, who: Pubkey, i: nat)
    requires InStep(mk, m, accounts) && who < |accounts| && i < |accounts[who].slots|
    requires accounts[who].slots[i].Used? && accounts[who].slots[i].market == m
    ensures CancelAt(mk, accounts[who], i).Ok?
    ensures var a' := CancelAt(mk, accounts[who], i).value.1;
      |a'.slots| == |accounts[who].slots| && a'.slots[i + 1..] == accounts[who].slots[i + 1..]
  {
    hide InStep, CancelAt, FindOrder;
    CancelFreesItsSlot(mk, m, accounts, who, i);
  }

  lemma {:induction false} NamedBySlot(slots: seq<OrderSlot>, m: nat, name: Name) returns (i: nat)
    requires name in NamesIn(slots, m)
    ensures i < |slots| && Names(slots[i], m, name.side, name.key)
  {
    if Names(slots[0], m, name.side, name.key) {
      i := 0;
    } else {
      i := NamedBySlot(slots[1..], m, name);
      i := i + 1;
    }
  }

  lemma {:induction false} SlotNames(slots: seq<OrderSlot>, m: nat, i: nat)
    requires i < |slots| && slots[i].Used? && slots[i].market == m
    ensures Name(slots[i].side, slots[i].orderId) in NamesIn(slots, m)
  {
    if i > 0 { SlotNames(slots[1..], m, i - 1); }
  }

  /** While only orders are gone that slots of an account name, the orders of others stay. */
  lemma OwnGone(mk: MarketState, mk': MarketState, m: nat, a: Account, who: Pubkey, gone: seq<Name>)
    requires Named(mk, m, a, who) && GoneAre(mk, mk', gone) && forall x :: x in gone ==> x in NamesIn(a.slots, m)
    ensures OthersStay(mk, mk', who)
  {
    WithoutHas(mk.bids, Bid, gone);
    WithoutHas(mk.asks, Ask, gone);
    forall side, o | o in mk.Resting(side) && o.owner != who
      ensures o in mk'.Resting(side)
    {
      if Name(side, o.key) in gone { var i := NamedBySlot(a.slots, m, Name(side, o.key)); }
    }
  }

  /** With every order of a side gone that a slot names, nothing of the account is left there. */
  lemma AllGone(mk: MarketState, mk': MarketState, m: nat, a: Account, who: Pubkey, gone: seq<Name>, side: Side)
    requires Named(mk, m, a, who) && GoneAre(mk, mk', gone)
    requires forall x :: x in NamesIn(a.slots, m) && x.side == side && x.key in KeysOf(mk.Resting(side)) ==> x in gone
    ensures NothingRests(mk', who, side)
  {
    WithoutHas(mk.Resting(side), side, gone);
    KeysOfIn(mk.Resting(side));
    forall o | o in mk'.Resting(side)
      ensures o.owner != who
    {
      if o.owner == who { SlotNames(a.slots, m, o.ownerSlot); }
    }
    forall c { NoOwnNoClaims(c, who, mk'.Resting(side)); }
  }

  /**
   * Cancelling all takes off the book just the orders that the first used slots of the account name, as many as the
   * limit allows, 256 for a limit of 0; if that is all of them nothing of the account is left on either side.
   */
  lemma CancelAllExact(mk: MarketState, m: nat, accounts: seq<Account>, who: Pubkey, limit: nat)
    requires InStep(mk, m, accounts) && who < |accounts| && limit < 256
    requires |accounts[who].slots| <= MAX_PERP_OPEN_ORDERS
    ensures CancelFrom(mk, accounts[who], m, 0, limit).Ok?
    ensures
      var mk', names := CancelFrom(mk, accounts[who], m, 0, limit).value.0, NamesIn(accounts[who].slots, m);
      && GoneAre(mk, mk', First(names, Tries(limit))) && OthersStay(mk, mk', who)
      && (|names| <= Tries(limit) ==> NothingRests(mk', who, Bid) && NothingRests(mk', who, Ask))
  {
    var a := accounts[who];
    assert a.slots[0..] == a.slots;
    assert Named(mk, m, a, who) by { assert Agrees(mk, m, a, who); }
    CancelFromGone(mk, m, accounts, who, 0, limit);
    var mk', gone := CancelFrom(mk, a, m, 0, limit).value.0, First(NamesIn(a.slots, m), Tries(limit));
    hide InStep, CancelFrom, GoneAre, NamesIn, OthersStay, NothingRests, Named;
    OwnGone(mk, mk', m, a, who, gone);
    if |NamesIn(a.slots, m)| <= Tries(limit) {
      AllGone(mk, mk', m, a, who, gone, Bid);
      AllGone(mk, mk', m, a, who, gone, Ask);
    }
  }

  // ----- One side, or both, by key

  function Keyed(side: Side, keys: seq<Key>): seq<Name> {
    if keys == [] then [] else [Name(side, keys[0])] + Keyed(side, keys[1..])
  }

  lemma {:induction false} KeyedHas(side: Side, keys: seq<Key>)
    ensures forall x :: x in Keyed(side, keys) <==> x.side == side && x.key in keys
  {
    if keys != [] {
      KeyedHas(side, keys[1..]);
      assert keys == [keys[0]] + keys[1..];
    }
  }

  lemma {:induction false} NamesOwn(slots: seq<OrderSlot>, m: nat, side: Side)
    ensures forall k :: k in OwnKeys(slots, m, side) <==> Name(side, k) in NamesIn(slots, m)
  {
    if slots != [] { NamesOwn(slots[1..], m, side); }
  }

  lemma FirstKey(side: Side, keys: seq<Key>, limit: nat)
    ensures Keyed(side, First(keys, limit)) ==
      if keys == [] || limit == 0 then [] else [Name(side, keys[0])] + Keyed(side, First(keys[1..], limit - 1))
  {
    if keys != [] && limit > 0 { assert First(keys, limit)[1..] == First(keys[1..], limit - 1); }
  }

  lemma {:induction false} CancelKeysGone(mk: MarketState, m: nat, accounts: seq<Account>, who: Pubkey, side: Side,
                                          keys: seq<Key>, limit: nat)
    requires InStep(mk, m, accounts) && who < |accounts| && OwnOnBook(mk, accounts[who], m, side, keys)
    ensures CancelKeys(mk, accounts[who], side, keys, limit).Ok?
    ensures GoneAre(mk, CancelKeys(mk, accounts[who], side, keys, limit).value.0, Keyed(side, First(keys, limit)))
    decreases |keys|
  {
    hide InStep, SameElsewhere, FindOrder, RemoveOrder, KeysOf, OwnKeys, GoneAre, Keyed, First, CancelAt;
    var a := accounts[who];
    FirstKey(side, keys, limit);
    NothingGone(mk);
    if keys != [] && limit > 0 {
      var own, key := mk.Resting(side), keys[0];
      StepIsSound(mk, m, accounts);
      FindOrderIn(own, key);
      OwnTail(mk, a, m, side, keys);
      if FindOrder(own, key).None? {
        CancelKeysGone(mk, m, accounts, who, side, keys[1..], limit - 1);
        AbsentGone(mk, side, key);
        GoneTwice(mk, mk, CancelKeys(mk, a, side, keys[1..], limit - 1).value.0, [Name(side, key)],
                  Keyed(side, First(keys[1..], limit - 1)));
      } else {
        var i := OwnHasSlot(a.slots, m, side, key);
        CancelFreesItsSlot(mk, m, accounts, who, i);
        CancelKeyIs(mk, a, side, i);
        var (mk', a') := CancelAt(mk, a, i).value;
        CancelShrinksOwn(mk, m, a, side, i, keys[1..]);
        CancelKeysGone(mk', m, accounts[who := a'], who, side, keys[1..], limit - 1);
        GoneByKey(mk, side, key);
        GoneTwice(mk, mk', CancelKeys(mk', a', side, keys[1..], limit - 1).value.0, [Name(side, key)],
                  Keyed(side, First(keys[1..], limit - 1)));
      }
    }
  }

  lemma OwnTail(mk: MarketState, a: Account, m: nat, side: Side, keys: seq<Key>)
    requires keys != [] && OwnOnBook(mk, a, m, side, keys)
    ensures OwnOnBook(mk, a, m, side, keys[1..])
    ensures keys[0] in KeysOf(mk.Resting(side)) ==> keys[0] in OwnKeys(a.slots, m, side)
  {
  }

  lemma CancelKeyIs(mk: MarketState, a: Account, side: Side, i: nat)
    requires i < |a.slots| && a.slots[i].Used? && a.slots[i].side == side && CancelAt(mk, a, i).Ok?
    requires FindOrder(mk.Resting(side), a.slots[i].orderId).Some?
    ensures
      var o := FindOrder(mk.Resting(side), a.slots[i].orderId).value;
      && RemoveOrderAt(a, o.ownerSlot, o.quantity).Ok?
      && CancelAt(mk, a, i).value ==
         (mk.WithResting(side, RemoveOrder(mk.Resting(side), a.slots[i].orderId)),
          RemoveOrderAt(a, o.ownerSlot, o.quantity).value)
  {
    hide FindOrder, RemoveOrder, RemoveOrderAt;
  }

  // ----- What the pass finds

  /** From the best on as far as the depth reaches, then from the worst on. */
  ghost predicate BestThenWorst(side: Side, keys: seq<Key>, n: nat) {
    && n <= |keys| && Ranked(side, keys[..n]) && Ranked(InvertSide(side), keys[n..])
    && forall i, j :: 0 <= i < n <= j < |keys| ==> Ahead(side, keys[i], keys[j])
  }

  lemma FoundConcat(a: seq<Sized>, b: seq<Sized>)
    ensures KeysReported(a + b) == KeysReported(a) + KeysReported(b)
  {
  }

  lemma RankedSnoc(side: Side, keys: seq<Key>, k: Key)
    requires Ranked(side, keys) && forall x :: x in keys ==> Ahead(side, x, k)
    ensures Ranked(side, keys + [k])
  {
  }

  lemma {:induction false} DeepWorstFirst(side: Side, mine: seq<Key>, maxDepth: int)
    requires Ranked(side, mine)
    ensures var found := KeysReported(Deep(mine, maxDepth));
      |found| == |mine| && Ranked(InvertSide(side), found) && forall k :: k in found <==> k in mine
  {
    if mine != [] {
      RankedTail(side, mine);
      DeepWorstFirst(side, mine[1..], maxDepth);
      var found := KeysReported(Deep(mine[1..], maxDepth));
      FoundConcat(Deep(mine[1..], maxDepth), [Sized(mine[0], maxDepth)]);
      assert KeysReported(Deep(mine, maxDepth)) == found + [mine[0]];
      assert mine == [mine[0]] + mine[1..];
      RankedSnoc(InvertSide(side), found, mine[0]);
    }
  }

  /** The pass finds every own key that is on the side, and only own keys, each once. */
  ghost predicate Finds(side: Side, s: seq<LeafNode>, mine: seq<Key>, found: seq<Key>) {
    && |found| <= |mine| && (forall k :: k in found ==> k in mine)
    && (forall k :: k in mine && k in KeysOf(s) ==> k in found)
    && exists n: nat :: BestThenWorst(side, found, n)
  }

  lemma FindsDeep(side: Side, s: seq<LeafNode>, mine: seq<Key>, maxDepth: int)
    requires Ranked(side, mine)
    ensures Finds(side, s, mine, KeysReported(Deep(mine, maxDepth)))
  {
    hide Deep, KeysOf;
    DeepWorstFirst(side, mine, maxDepth);
    assert BestThenWorst(side, KeysReported(Deep(mine, maxDepth)), 0);
  }

  lemma FindsOne(side: Side, s: seq<LeafNode>, mine: seq<Key>, found: seq<Key>)
    requires s != [] && Ranked(side, mine) && mine != [] && s[0].key == mine[0] && Finds(side, s[1..], mine[1..], found)
    ensures Finds(side, s, mine, [mine[0]] + found)
  {
    var all := [mine[0]] + found;
    RankedTail(side, mine);
    KeysSplit(s);
    hide KeysOf;
    assert mine == [mine[0]] + mine[1..];
    var n: nat :| BestThenWorst(side, found, n);
    assert all[..n + 1] == [mine[0]] + found[..n] && all[n + 1..] == found[n..];
    RankedCons(side, mine[0], found[..n]);
    assert BestThenWorst(side, all, n + 1);
  }

  /** Going on past an order that is not own, or past a key that is not on the side. */
  lemma FindsOn(side: Side, s: seq<LeafNode>, mine: seq<Key>, s': seq<LeafNode>, mine': seq<Key>, found: seq<Key>)
    requires Finds(side, s', mine', found) && |mine'| <= |mine| && forall k :: k in mine' ==> k in mine
    requires forall k :: k in mine && k in KeysOf(s) ==> k in mine' && k in KeysOf(s')
    ensures Finds(side, s, mine, found)
  {
    hide BestThenWorst, KeysOf;
  }

  lemma {:induction false} MergeFinds(side: Side, s: seq<LeafNode>, mine: seq<Key>, maxDepth: int, now: nat, sum: int)
    requires Sorted(side, s) && Ranked(side, mine)
    ensures Finds(side, s, mine, KeysReported(Merge(side, s, mine, maxDepth, now, sum)))
    decreases |s| + |mine|
  {
    hide LeafNode.IsValid, Finds, KeysOf, Merge, Deep;
    if s == [] || mine == [] {
      NothingFound(side, s, mine, maxDepth, now, sum);
    } else {
      var (s', mine', sum', out) := PassStep(side, s, mine, now, sum);
      var rest := PassRest(side, s', mine', maxDepth, now, sum');
      MergeStep(side, s, mine, maxDepth, now, sum);
      FoundConcat(out, rest);
      SortedTail(side, s);
      RankedTail(side, mine);
      KeysSplit(s);
      if sum' >= maxDepth { FindsDeep(side, s', mine', maxDepth); }
      else { MergeFinds(side, s', mine', maxDepth, now, sum'); }
      if out == [] {
        assert [] + KeysReported(rest) == KeysReported(rest);
        StepFinds(side, s, mine);
        FindsOn(side, s, mine, s', mine', KeysReported(rest));
      } else {
        assert KeysReported(out) == [mine[0]];
        FindsOne(side, s, mine, KeysReported(rest));
      }
    }
  }

  /** What a step passes over is not own, or not on the side. */
  lemma StepFinds(side: Side, s: seq<LeafNode>, mine: seq<Key>)
    requires Sorted(side, s) && Ranked(side, mine) && s != [] && mine != [] && s[0].key != mine[0]
    ensures Ahead(side, s[0].key, mine[0]) ==> forall k :: k in mine && k in KeysOf(s) ==> k in KeysOf(s[1..])
    ensures !Ahead(side, s[0].key, mine[0]) ==> forall k :: k in mine && k in KeysOf(s) ==> k in mine[1..]
  {
    SortedTail(side, s);
    RankedTail(side, mine);
    KeysSplit(s);
    hide KeysOf;
    assert mine == [mine[0]] + mine[1..];
  }

  lemma NothingFound(side: Side, s: seq<LeafNode>, mine: seq<Key>, maxDepth: int, now: nat, sum: int)
    requires s == [] || mine == []
    ensures Finds(side, s, mine, KeysReported(Merge(side, s, mine, maxDepth, now, sum)))
  {
    assert BestThenWorst(side, [], 0);
  }

  lemma {:induction false} InsertKeyLength(side: Side, keys: seq<Key>, k: Key)
    ensures |InsertKey(side, keys, k)| == |keys| + 1
  {
    if keys != [] && !Ahead(side, k, keys[0]) { InsertKeyLength(side, keys[1..], k); }
  }

  lemma {:induction false} RankKeysLength(side: Side, keys: seq<Key>)
    ensures |RankKeys(side, keys)| == |keys|
  {
    if keys != [] {
      RankKeysLength(side, keys[1..]);
      InsertKeyLength(side, RankKeys(side, keys[1..]), keys[0]);
    }
  }

  /** The keys that the pass of one side finds, of those in the slots of the account. */
  lemma SideFinds(mk: MarketState, m: nat, a: Account, who: Pubkey, side: Side, maxDepth: int, now: nat)
    requires MarketOk(mk) && Agrees(mk, m, a, who)
    ensures
      var own := OwnKeys(a.slots, m, side);
      Finds(side, mk.Resting(side), own,
            KeysReported(Merge(side, mk.Resting(side), RankKeys(side, own), maxDepth, now, 0)))
  {
    var own := OwnKeys(a.slots, m, side);
    OwnKeysDiffer(a.slots, m, side);
    RankKeysRanked(side, own);
    RankKeysLength(side, own);
    assert Sorted(side, mk.Resting(side));
    hide Merge, RankKeys, OwnKeys, Ranked, AllDiffer, KeysOf, BestThenWorst, Sorted, Agrees, MarketOk;
    MergeFinds(side, mk.Resting(side), RankKeys(side, own), maxDepth, now, 0);
  }

  /** What the pass finds is cancelled, as much of it as the limit allows. */
  lemma FoundGone(mk: MarketState, mk': MarketState, m: nat, a: Account, who: Pubkey, side: Side, found: seq<Key>,
                  limit: nat)
    requires Named(mk, m, a, who) && Finds(side, mk.Resting(side), OwnKeys(a.slots, m, side), found)
    requires GoneAre(mk, mk', Keyed(side, First(found, limit)))
    ensures OthersStay(mk, mk', who) && mk'.Resting(InvertSide(side)) == mk.Resting(InvertSide(side))
    ensures |OwnKeys(a.slots, m, side)| <= limit ==> NothingRests(mk', who, side)
  {
    var gone := Keyed(side, First(found, limit));
    KeyedHas(side, First(found, limit));
    NamesOwn(a.slots, m, side);
    WithoutNone(mk.Resting(InvertSide(side)), InvertSide(side), gone);
    hide OthersStay, NothingRests, Named, KeysOf, OwnKeys, BestThenWorst, Without, NamesIn, Keyed;
    assert forall k :: k in First(found, limit) ==> k in found;
    OwnGone(mk, mk', m, a, who, gone);
    if |OwnKeys(a.slots, m, side)| <= limit {
      assert First(found, limit) == found;
      AllGone(mk, mk', m, a, who, gone, side);
    }
  }

  /**
   * Cancelling a side takes off the book just the first `limit` of the orders found, which are all own orders there
   * are on that side; with a limit for every slot of the side nothing of the account is left on it. The other side and
   * the orders of others stay.
   */
  lemma CancelSideExact(mk: MarketState, m: nat, accounts: seq<Account>, who: Pubkey, side: Side, maxDepth: int,
                        now: nat, limit: nat)
    returns (found: seq<Key>)
    requires InStep(mk, m, accounts) && who < |accounts|
    ensures CancelSide(mk, accounts[who], m, side, maxDepth, now, limit).Ok?
    ensures Finds(side, mk.Resting(side), OwnKeys(accounts[who].slots, m, side), found)
    ensures
      var mk' := CancelSide(mk, accounts[who], m, side, maxDepth, now, limit).value.0;
      && GoneAre(mk, mk', Keyed(side, First(found, limit))) && OthersStay(mk, mk', who)
      && mk'.Resting(InvertSide(side)) == mk.Resting(InvertSide(side))
      && (|OwnKeys(accounts[who].slots, m, side)| <= limit ==> NothingRests(mk', who, side))
  {
    var a := accounts[who];
    found := KeysReported(Merge(side, mk.Resting(side), RankKeys(side, OwnKeys(a.slots, m, side)), maxDepth, now, 0));
    FoundKeysGone(mk, m, accounts, who, side, maxDepth, now, limit);
  }

  lemma FoundKeysGone(mk: MarketState, m: nat, accounts: seq<Account>, who: Pubkey, side: Side, maxDepth: int,
                      now: nat, limit: nat)
    requires InStep(mk, m, accounts) && who < |accounts|
    ensures
      var a := accounts[who];
      var own := OwnKeys(a.slots, m, side);
      var found := KeysReported(Merge(side, mk.Resting(side), RankKeys(side, own), maxDepth, now, 0));
      && Finds(side, mk.Resting(side), own, found) && CancelKeys(mk, a, side, found, limit).Ok?
      && var mk' := CancelKeys(mk, a, side, found, limit).value.0;
      && GoneAre(mk, mk', Keyed(side, First(found, limit))) && OthersStay(mk, mk', who)
      && mk'.Resting(InvertSide(side)) == mk.Resting(InvertSide(side))
      && (|own| <= limit ==> NothingRests(mk', who, side))
  {
    var a := accounts[who];
    var own := OwnKeys(a.slots, m, side);
    assert Agrees(mk, m, a, who) && Named(mk, m, a, who) && MarketOk(mk);
    hide InStep, Agrees, Named, OwnKeys, Merge, RankKeys, KeysOf, BestThenWorst, CancelKeys, GoneAre, OthersStay;
    hide NothingRests, KeysReported, Keyed, First, MarketOk;
    var found := KeysReported(Merge(side, mk.Resting(side), RankKeys(side, own), maxDepth, now, 0));
    SideFinds(mk, m, a, who, side, maxDepth, now);
    CancelKeysGone(mk, m, accounts, who, side, found, limit);
    FoundGone(mk, CancelKeys(mk, a, side, found, limit).value.0, m, a, who, side, found, limit);
  }

  /**
   * Cancelling both sides does this to the bids with the whole limit and to the asks with what is left of it; with a
   * limit for every slot of the market nothing of the account is left on either side.
   */
  lemma CancelBothExact(mk: MarketState, m: nat, accounts: seq<Account>, who: Pubkey, maxDepth: int, now: nat,
                        limit: nat)
    returns (bids: seq<Key>, asks: seq<Key>)
    requires InStep(mk, m, accounts) && who < |accounts|
    ensures CancelBoth(mk, accounts[who], m, maxDepth, now, limit).Ok?
    ensures Finds(Bid, mk.bids, OwnKeys(accounts[who].slots, m, Bid), bids)
    ensures Finds(Ask, mk.asks, OwnKeys(accounts[who].slots, m, Ask), asks)
    ensures
      var mk', slots := CancelBoth(mk, accounts[who], m, maxDepth, now, limit).value.0, accounts[who].slots;
      && GoneAre(mk, mk', Keyed(Bid, First(bids, limit)) + Keyed(Ask, First(asks, LeftOf(limit, |bids|))))
      && OthersStay(mk, mk', who)
      && (|OwnKeys(slots, m, Bid)| + |OwnKeys(slots, m, Ask)| <= limit ==>
           NothingRests(mk', who, Bid) && NothingRests(mk', who, Ask))
  {
    var a := accounts[who];
    hide InStep, OwnKeys, Merge, RankKeys, KeysOf, BestThenWorst, GoneAre, OthersStay, Keyed, First, CancelKeys;
    CancelBothKeeps(mk, m, accounts, who, maxDepth, now, limit);
    CancelSideKeeps(mk, m, accounts, who, Bid, maxDepth, now, limit);
    FoundKeysGone(mk, m, accounts, who, Bid, maxDepth, now, limit);
    bids := KeysReported(Merge(Bid, mk.bids, RankKeys(Bid, OwnKeys(a.slots, m, Bid)), maxDepth, now, 0));
    var (mk1, a1) := CancelSide(mk, a, m, Bid, maxDepth, now, limit).value;
    var left := LeftOf(limit, |bids|);
    FoundKeysGone(mk1, m, accounts[who := a1], who, Ask, maxDepth, now, left);
    asks := KeysReported(Merge(Ask, mk1.asks, RankKeys(Ask, OwnKeys(a1.slots, m, Ask)), maxDepth, now, 0));
    var mk2 := CancelSide(mk1, a1, m, Ask, maxDepth, now, left).value.0;
    GoneTwice(mk, mk1, mk2, Keyed(Bid, First(bids, limit)), Keyed(Ask, First(asks, left)));
    StayTwice(mk, mk1, mk2, who);
  }

  lemma StayTwice(mk: MarketState, mk1: MarketState, mk2: MarketState, who: Pubkey)
    requires OthersStay(mk, mk1, who) && OthersStay(mk1, mk2, who)
    ensures OthersStay(mk, mk2, who)
  {
  }
}
