/** What orders and events stand for in the accounts, and how matching and posting move it around. */
module Ledger {
  import opened OrderKeys
  import opened Types
  import opened OrderLists
  import opened FixedPoint
  import opened Events
  import opened Matcher
  import opened PerpState
  import opened OrderPlacement

  /** Two things an account owns on one side of a market: a given order slot, and lots on order. */
  datatype Claim = OnSlot(slot: nat) | OnLots

  function LeafClaim(c: Claim, owner: Pubkey, o: LeafNode): int {
    if o.owner != owner then 0
    else match c case OnSlot(s) => (if o.ownerSlot == s then 1 else 0) case OnLots => o.quantity
  }

  /** A fill still holds the slot of a maker it used up; an Out event holds slot and lots of its order. */
  function EventClaim(c: Claim, side: Side, owner: Pubkey, e: Event): int {
    match e
    case Fill(takerSide, makerSlot, makerOut, _, _, maker, _, _, _, _, _, _, _, _, _, _, quantity, _) =>
      if maker != owner || InvertSide(takerSide) != side then 0
      else (match c case OnSlot(s) => (if makerOut && makerSlot == s then 1 else 0) case OnLots => quantity)
    case Out(outSide, slot, _, _, outOwner, quantity) =>
      if outOwner != owner || outSide != side then 0
      else (match c case OnSlot(s) => (if slot == s then 1 else 0) case OnLots => quantity)
    case Liquidate(_, _, _, _, _, _, _) => 0
  }

  function BookClaims(c: Claim, owner: Pubkey, s: seq<LeafNode>): int {
    if s == [] then 0 else LeafClaim(c, owner, s[0]) + BookClaims(c, owner, s[1..])
  }

  function QueueClaims(c: Claim, side: Side, owner: Pubkey, q: seq<Event>): int {
    if q == [] then 0 else EventClaim(c, side, owner, q[0]) + QueueClaims(c, side, owner, q[1..])
  }

  lemma {:induction false} BookClaimsConcat(c: Claim, owner: Pubkey, a: seq<LeafNode>, b: seq<LeafNode>)
    ensures BookClaims(c, owner, a + b) == BookClaims(c, owner, a) + BookClaims(c, owner, b)
  {
    if a == [] {
      assert a + b == b;
    } else {
      assert (a + b)[1..] == a[1..] + b;
      BookClaimsConcat(c, owner, a[1..], b);
    }
  }

  lemma {:induction false} QueueClaimsConcat(c: Claim, side: Side, owner: Pubkey, a: seq<Event>, b: seq<Event>)
    ensures QueueClaims(c, side, owner, a + b) == QueueClaims(c, side, owner, a) + QueueClaims(c, side, owner, b)
  {
    if a == [] {
      assert a + b == b;
    } else {
      assert (a + b)[1..] == a[1..] + b;
      QueueClaimsConcat(c, side, owner, a[1..], b);
    }
  }

  // ----- Matching

  lemma MeetMovesClaims(o: Incoming, m: LeafNode, b: Budget, c: Claim, owner: Pubkey)
    requires m.Price() > 0 && m.quantity > 0 && Ready(b)
    ensures var x := Meet(o, m, b);
      && LeafClaim(c, owner, m) == BookClaims(c, owner, x.kept) + QueueClaims(c, InvertSide(o.side), owner, x.sent)
      && QueueClaims(c, o.side, owner, x.sent) == 0
  {
    hide LeafNode.Price, LeafNode.IsValid;
    var x := Meet(o, m, b);
    if x.sent != [] { assert x.sent[1..] == []; }
    if x.kept != [] { assert x.kept[1..] == []; }
  }

  /** Matching loses no claim of a maker: what leaves the book is in the queue. */
  lemma {:induction false} WalkMovesClaims(o: Incoming, makers: seq<LeafNode>, b: Budget, c: Claim, owner: Pubkey)
    requires Tradable(makers) && Ready(b)
    ensures var w := Walk(o, makers, b);
      && BookClaims(c, owner, makers) ==
         BookClaims(c, owner, w.makers) + QueueClaims(c, InvertSide(o.side), owner, w.events)
      && QueueClaims(c, o.side, owner, w.events) == 0
  {
    hide Meet, LeafNode.Price, LeafNode.IsValid;
    if makers != [] {
      var x, rest := Meet(o, makers[0], b), makers[1..];
      MeetFacts(o, makers[0], b);
      MeetMovesClaims(o, makers[0], b, c, owner);
      var w := if x.stop.Some? then Walked(x.left, x.stop.value, rest, []) else Walk(o, rest, x.left);
      if x.stop.None? { WalkMovesClaims(o, rest, x.left, c, owner); }
      BookClaimsConcat(c, owner, x.kept, w.makers);
      QueueClaimsConcat(c, o.side, owner, x.sent, w.events);
      QueueClaimsConcat(c, InvertSide(o.side), owner, x.sent, w.events);
    }
  }

  // ----- Takers and fees of queued fills

  function TakerBase(q: seq<Event>, owner: Pubkey): int {
    if q == [] then 0 else
    (if q[0].Fill? && q[0].taker == owner then q[0].BaseQuoteChange(q[0].takerSide).0 else 0) + TakerBase(q[1..], owner)
  }

  function TakerQuote(q: seq<Event>, owner: Pubkey): int {
    if q == [] then 0 else
    (if q[0].Fill? && q[0].taker == owner then q[0].BaseQuoteChange(q[0].takerSide).1 else 0) +
      TakerQuote(q[1..], owner)
  }

  /** Maker fees already booked to the market whose fills have not been consumed. */
  function FeesDue(t: MarketTotals, q: seq<Event>): Fixed {
    if q == [] then 0 else (if q[0].Fill? then MakerFees(t, q[0]) else 0) + FeesDue(t, q[1..])
  }

  lemma {:induction false} QueueSumsConcat(t: MarketTotals, owner: Pubkey, a: seq<Event>, b: seq<Event>)
    ensures TakerBase(a + b, owner) == TakerBase(a, owner) + TakerBase(b, owner)
    ensures TakerQuote(a + b, owner) == TakerQuote(a, owner) + TakerQuote(b, owner)
    ensures FeesDue(t, a + b) == FeesDue(t, a) + FeesDue(t, b)
  {
    if a == [] {
      assert a + b == b;
    } else {
      assert (a + b)[1..] == a[1..] + b;
      QueueSumsConcat(t, owner, a[1..], b);
    }
  }

  /** Maker fees on quote lots, booked when they are taken. */
  function FeeOn(t: MarketTotals, quote: int, rate: Fixed): Fixed { t.quoteLotSize * quote * rate }

  lemma FeeOnAdds(t: MarketTotals, x: int, y: int, rate: Fixed)
    ensures FeeOn(t, x + y, rate) == FeeOn(t, x, rate) + FeeOn(t, y, rate)
  {
    var lot := t.quoteLotSize;
    assert lot * (x + y) == lot * x + lot * y;
  }

  lemma FillOwes(t: MarketTotals, e: Event)
    requires e.Fill? && t.quoteLotSize > 0 && e.price * e.quantity > 0
    ensures FeesDue(t, [e]) == FeeOn(t, e.price * e.quantity, e.makerFee)
  {
    assert [e][1..] == [];
    Positive(t.quoteLotSize, e.price * e.quantity);
  }

  /** What a meeting sends, and what that takes off the budget. */
  lemma MeetSends(o: Incoming, m: LeafNode, b: Budget)
    requires m.Price() > 0 && m.quantity > 0 && Ready(b)
    ensures var x := Meet(o, m, b);
      && |x.sent| <= 1
      && (x.sent != [] && x.sent[0].Fill? ==>
        var e := x.sent[0];
        && e.taker == o.taker && e.takerSide == o.side && e.makerFee == o.makerFee && e.price == m.Price()
        && m.IsValid(o.now) && e.quantity > 0 && e.price * e.quantity > 0
        && b.base - x.left.base == e.quantity && b.quote - x.left.quote == e.price * e.quantity)
      && (x.sent == [] || x.sent[0].Out? ==> x.left.base == b.base && x.left.quote == b.quote)
      && (x.sent != [] ==> x.sent[0].Fill? || x.sent[0].Out?)
  {
    hide LeafNode.Price, LeafNode.IsValid, Affordable, Cost, MatchQuantity;
    MatchFacts(m, b);
  }

  lemma MeetSums(o: Incoming, m: LeafNode, b: Budget, t: MarketTotals, owner: Pubkey)
    requires m.Price() > 0 && m.quantity > 0 && Ready(b) && t.quoteLotSize > 0
    ensures var x := Meet(o, m, b);
      && (TakerBase(x.sent, owner), TakerQuote(x.sent, owner)) ==
         (if owner == o.taker then Signed(o.side, b.base - x.left.base, b.quote - x.left.quote) else (0, 0))
      && FeesDue(t, x.sent) == FeeOn(t, b.quote - x.left.quote, o.makerFee)
  {
    hide Meet, LeafNode.Price, LeafNode.IsValid;
    MeetSends(o, m, b);
    var x := Meet(o, m, b);
    if x.sent != [] {
      var e := x.sent[0];
      assert x.sent == [e] && [e][1..] == [];
      if e.Fill? { FillOwes(t, e); }
    }
  }

  lemma Positive(a: int, b: int)
    requires a > 0 && b > 0
    ensures a * b > 0
  {
  }

  lemma NoSums(t: MarketTotals, owner: Pubkey)
    ensures TakerBase([], owner) == 0 && TakerQuote([], owner) == 0
    ensures FeesDue(t, []) == 0 && forall rate :: FeeOn(t, 0, rate) == 0
  {
  }

  /** The queued fills of a walk are worth exactly what the taker spent, and their maker fees add up. */
  lemma {:induction false} WalkSums(o: Incoming, makers: seq<LeafNode>, b: Budget, t: MarketTotals, owner: Pubkey)
    requires Tradable(makers) && Ready(b) && t.quoteLotSize > 0
    ensures var w := Walk(o, makers, b);
      && (TakerBase(w.events, owner), TakerQuote(w.events, owner)) ==
         (if owner == o.taker then Signed(o.side, b.base - w.left.base, b.quote - w.left.quote) else (0, 0))
      && FeesDue(t, w.events) == FeeOn(t, b.quote - w.left.quote, o.makerFee)
  {
    hide Meet, LeafNode.Price, LeafNode.IsValid, FeesDue, TakerBase, TakerQuote, FeeOn;
    hide BaseOf, QuoteOf, Fills, Outs, Trades, Event.BaseQuoteChange;
    NoSums(t, owner);
    if makers != [] {
      var x, rest := Meet(o, makers[0], b), makers[1..];
      MeetFacts(o, makers[0], b);
      MeetSums(o, makers[0], b, t, owner);
      var w := if x.stop.Some? then Walked(x.left, x.stop.value, rest, []) else Walk(o, rest, x.left);
      if x.stop.None? { WalkSums(o, rest, x.left, t, owner); }
      QueueSumsConcat(t, owner, x.sent, w.events);
      FeeOnAdds(t, b.quote - x.left.quote, x.left.quote - w.left.quote, o.makerFee);
    }
  }

  // ----- Posting

  lemma {:induction false} RemoveTakesClaim(c: Claim, owner: Pubkey, s: seq<LeafNode>, key: Key)
    requires FindOrder(s, key).Some?
    ensures BookClaims(c, owner, s) ==
            LeafClaim(c, owner, FindOrder(s, key).value) + BookClaims(c, owner, RemoveOrder(s, key))
  {
    if s[0].key != key {
      RemoveTakesClaim(c, owner, s[1..], key);
      assert RemoveOrder(s, key)[1..] == RemoveOrder(s[1..], key);
    }
  }

  lemma {:induction false} InsertAddsClaim(c: Claim, owner: Pubkey, side: Side, s: seq<LeafNode>, leaf: LeafNode)
    requires leaf.key !in KeysOf(s)
    ensures BookClaims(c, owner, InsertOrder(side, s, leaf)) == BookClaims(c, owner, s) + LeafClaim(c, owner, leaf)
  {
    if s != [] && !Ahead(side, leaf.key, s[0].key) {
      InsertAddsClaim(c, owner, side, s[1..], leaf);
      assert InsertOrder(side, s, leaf)[1..] == InsertOrder(side, s[1..], leaf);
    } else {
      assert InsertOrder(side, s, leaf)[1..] == s;
    }
  }

  lemma {:induction false} RemoveKeepsOthers(s: seq<LeafNode>, key: Key)
    ensures forall o :: o in RemoveOrder(s, key) ==> o in s
    ensures |RemoveOrder(s, key)| <= |s|
  {
    if s != [] && s[0].key != key { RemoveKeepsOthers(s[1..], key); }
  }

  lemma {:induction false} InsertKeepsOthers(side: Side, s: seq<LeafNode>, leaf: LeafNode)
    ensures forall o :: o in InsertOrder(side, s, leaf) ==> o in s || o == leaf
    ensures |InsertOrder(side, s, leaf)| <= |s| + 1
  {
    if s != [] && s[0].key != leaf.key && !Ahead(side, leaf.key, s[0].key) { InsertKeepsOthers(side, s[1..], leaf); }
  }

  /** Out events of side `side`: worth the claims of the orders they carry, nothing to takers and fees. */
  ghost predicate OutsOf(side: Side, es: seq<Event>) {
    forall e :: e in es ==> e.Out? && e.side == side
  }

  lemma {:induction false} OutsAreInert(side: Side, es: seq<Event>, t: MarketTotals, c: Claim, owner: Pubkey)
    requires OutsOf(side, es)
    ensures QueueClaims(c, InvertSide(side), owner, es) == 0
    ensures TakerBase(es, owner) == 0 && TakerQuote(es, owner) == 0 && FeesDue(t, es) == 0
  {
    if es != [] {
      assert es[0] in es;
      OutsAreInert(side, es[1..], t, c, owner);
    }
  }

  /** An Out event with what it has to say of its order. */
  ghost predicate Carries(e: Event, o: LeafNode)
    requires e.Out?
  {
    o.owner == e.owner && o.ownerSlot == e.slot && o.quantity == e.quantity
  }

  /** Making room moves claims from the book to the queue and keeps the list in shape. */
  ghost predicate RoomMade(side: Side, own: seq<LeafNode>, own': seq<LeafNode>, es: seq<Event>) {
    && Sorted(side, own') && OutsOf(side, es) && |own'| <= |own| && KeysOf(own') <= KeysOf(own)
    && (forall o :: o in own' ==> o in own)
    && (forall e :: e in es ==> exists o :: o in own && Carries(e, o))
  }

  lemma DropMakesRoom(side: Side, own: seq<LeafNode>, now: nat, seqNum: nat)
    requires Sorted(side, own)
    ensures var (own', es) := DropExpired(side, own, now, seqNum);
      && RoomMade(side, own, own', es)
      && forall c, owner :: BookClaims(c, owner, own) == BookClaims(c, owner, own') + QueueClaims(c, side, owner, es)
  {
    var (own', es) := DropExpired(side, own, now, seqNum);
    if es != [] {
      var x := Soonest(side, own);
      SoonestIsSoonest(side, own);
      FindMember(side, own, x);
      RemoveSorted(side, own, x.key);
      RemoveKeepsOthers(own, x.key);
      assert es[1..] == [];
      forall c, owner
        ensures BookClaims(c, owner, own) == BookClaims(c, owner, own') + QueueClaims(c, side, owner, es)
      {
        RemoveTakesClaim(c, owner, own, x.key);
      }
    }
  }

  lemma EvictMakesRoom(side: Side, own: seq<LeafNode>, price: int, now: nat, seqNum: nat)
    requires Sorted(side, own) && |own| <= SIDE_CAPACITY && Evict(side, own, price, now, seqNum).Ok?
    ensures var (own', es) := Evict(side, own, price, now, seqNum).value;
      && RoomMade(side, own, own', es) && |own'| < SIDE_CAPACITY
      && forall c, owner :: BookClaims(c, owner, own) == BookClaims(c, owner, own') + QueueClaims(c, side, owner, es)
  {
    var (own', es) := Evict(side, own, price, now, seqNum).value;
    if es != [] {
      var x := own[|own| - 1];
      assert own == own' + [x] && es[1..] == [] && [x][1..] == [];
      assert Carries(es[0], x);
      KeysOfConcat(own', [x]);
      forall c, owner
        ensures BookClaims(c, owner, own) == BookClaims(c, owner, own') + QueueClaims(c, side, owner, es)
      {
        BookClaimsConcat(c, owner, own', [x]);
      }
    }
  }
}
