/** The order book of a market: matching an incoming order against one side and posting on the other. */
module Books {
  import opened OrderKeys
  import opened Types
  import opened OrderLists
  import opened FixedPoint
  import opened Events
  import opened EventQueues
  import opened CritBitTree
  import opened BookSides
  import opened BookSideIters
  import opened Matcher
  import opened OrderIds
  import opened PerpState
  import opened MangoAccounts
  import opened OrderPlacement
  import opened DryRuns

  /** What the matching loop collected: the changes are applied to the tree only after the iteration. */
  datatype Matched = Matched(
    left: Budget, postAllowed: bool, changes: seq<(Handle, int)>, deletes: seq<Key>)

  /** The list once the collected changes are applied. */
  ghost function Applied(s: seq<LeafNode>, changed: seq<LeafNode>, deletes: seq<Key>): seq<LeafNode>
    requires |changed| <= 1
  {
    RemoveAll(if changed == [] then s else WithQuantity(s, changed[0].key, changed[0].quantity), deletes)
  }

  /** A point of the matching loop: makers behind, those of them that stay, events sent, makers ahead. */
  datatype Point = Point(
    done: seq<LeafNode>, kept: seq<LeafNode>, sent: seq<Event>, rest: seq<LeafNode>, b: Budget, deletes: seq<Key>)

  ghost predicate Halfway(o: Incoming, all: seq<LeafNode>, b0: Budget, g: Point) {
    && Tradable(all) && Tradable(g.rest) && Sorted(InvertSide(o.side), all) && Ready(g.b)
    && all == g.done + g.rest
    && Walk(o, all, b0) == Continued(g.kept, g.sent, Walk(o, g.rest, g.b))
    && DistinctIn(g.deletes, g.done) && RemoveAll(g.done, g.deletes) == g.kept
  }

  ghost function Continued(kept: seq<LeafNode>, sent: seq<Event>, w: Walked): Walked {
    w.(makers := kept + w.makers, events := sent + w.events)
  }

  /** What was collected turns the list into the makers that are left. */
  ghost predicate Ended(all: seq<LeafNode>, w: Walked, changed: seq<LeafNode>, deletes: seq<Key>) {
    && |changed| <= 1 && DistinctIn(deletes, all) && Applied(all, changed, deletes) == w.makers
    && (changed != [] ==> changed[0].key in KeysOf(all) && changed[0].key !in deletes)
  }

  /** The next maker is behind and matching goes on. */
  ghost function Passed(o: Incoming, g: Point): Point
    requires g.rest != [] && Tradable(g.rest)
  {
    FirstTradable(g.rest);
    var m, x := g.rest[0], Meet(o, g.rest[0], g.b);
    Point(g.done + [m], g.kept + x.kept, g.sent + x.sent, g.rest[1..], x.left,
          if x.kept == [] then g.deletes + [m.key] else g.deletes)
  }

  lemma FirstTradable(s: seq<LeafNode>)
    requires Tradable(s) && s != []
    ensures s[0].Price() > 0 && s[0].quantity > 0 && Tradable(s[1..])
  {
    assert s[0] in s;
  }

  lemma MoveOn(o: Incoming, all: seq<LeafNode>, b0: Budget, g: Point)
    requires g.rest != [] && Halfway(o, all, b0, g) && Meet(o, g.rest[0], g.b).stop.None?
    ensures Halfway(o, all, b0, Passed(o, g))
  {
    hide Walk, Meet, LeafNode.Price, LeafNode.IsValid, Fills, Outs, BaseOf, QuoteOf, Trades;
    FirstTradable(g.rest);
    hide Tradable;
    var x, m, w := Meet(o, g.rest[0], g.b), g.rest[0], Walk(o, g.rest[1..], Meet(o, g.rest[0], g.b).left);
    MeetFacts(o, m, g.b);
    PassedKept(o, m, g.b);
    WalkStep(o, g.rest, g.b);
    assert all == (g.done + [m]) + g.rest[1..];
    assert g.kept + (x.kept + w.makers) == (g.kept + x.kept) + w.makers;
    assert g.sent + (x.sent + w.events) == (g.sent + x.sent) + w.events;
    AddBehind(InvertSide(o.side), all, g.done, g.kept, g.rest, g.deletes);
  }

  lemma WalkStep(o: Incoming, makers: seq<LeafNode>, b: Budget)
    requires Tradable(makers) && makers != []
    ensures makers[0].Price() > 0 && Tradable(makers[1..])
    ensures var x := Meet(o, makers[0], b);
      x.stop.None? ==> Walk(o, makers, b) == Continued(x.kept, x.sent, Walk(o, makers[1..], x.left))
  {
    hide Meet, LeafNode.Price;
    FirstTradable(makers);
  }

  lemma PassedKept(o: Incoming, m: LeafNode, b: Budget)
    requires m.Price() > 0 && m.quantity > 0 && Ready(b) && Meet(o, m, b).stop.None?
    ensures Meet(o, m, b).kept == [] || Meet(o, m, b).kept == [m]
  {
    MeetFacts(o, m, b);
    if Meet(o, m, b).sent != [] { assert Meet(o, m, b).sent[1..] == []; }
  }

  lemma AddBehind(side: Side, all: seq<LeafNode>, done: seq<LeafNode>, kept: seq<LeafNode>, rest: seq<LeafNode>,
                  deletes: seq<Key>)
    requires Sorted(side, all) && all == done + rest && rest != []
    requires DistinctIn(deletes, done) && RemoveAll(done, deletes) == kept
    ensures var m := rest[0];
      && m.key !in KeysOf(done)
      && DistinctIn(deletes, done + [m]) && RemoveAll(done + [m], deletes) == kept + [m]
      && DistinctIn(deletes + [m.key], done + [m]) && RemoveAll(done + [m], deletes + [m.key]) == kept
  {
    var m := rest[0];
    assert all[|done|] == m;
    KeysOfIn(done);
    assert forall i :: 0 <= i < |done| ==> all[i] == done[i];
    KeysOfConcat(done, [m]);
    assert Sorted(side, done);
    RemoveAllConcat(side, done, [m], deletes);
    RemoveAllSnoc(done + [m], deletes, m.key);
    RemoveConcat(kept, [m], m.key);
    assert kept + [] == kept;
  }

  /** Matching ends at a maker: it is gone, reduced or untouched. */
  ghost function Halted(o: Incoming, g: Point): Walked
    requires g.rest != [] && Tradable(g.rest) && Meet(o, g.rest[0], g.b).stop.Some?
  {
    var x := Meet(o, g.rest[0], g.b);
    Walked(x.left, x.stop.value, g.kept + x.kept + g.rest[1..], g.sent + x.sent)
  }

  lemma StopAt(o: Incoming, all: seq<LeafNode>, b0: Budget, g: Point)
    requires g.rest != [] && Halfway(o, all, b0, g) && Meet(o, g.rest[0], g.b).stop.Some?
    ensures var x := Meet(o, g.rest[0], g.b);
      && Walk(o, all, b0) == Halted(o, g)
      && Ended(all, Halted(o, g), if x.kept == [] || x.kept == [g.rest[0]] then [] else x.kept,
               if x.kept == [] then g.deletes + [g.rest[0].key] else g.deletes)
  {
    hide Applied, Meet;
    var x, m := Meet(o, g.rest[0], g.b), g.rest[0];
    FirstTradable(g.rest);
    MeetKeeps(o, m, g.b);
    assert g.kept + (x.kept + g.rest[1..]) == g.kept + x.kept + g.rest[1..];
    assert x.sent + [] == x.sent;
    StopGone(InvertSide(o.side), all, g.done, g.kept, g.rest, g.deletes);
    if x.kept != [] {
      var m' := x.kept[0];
      assert x.kept == [m'] && (x.kept == [m] <==> m' == m);
      StopKept(InvertSide(o.side), all, g.done, g.kept, g.rest, g.deletes, m');
    }
  }

  lemma StopGone(side: Side, all: seq<LeafNode>, done: seq<LeafNode>, kept: seq<LeafNode>, rest: seq<LeafNode>,
                 deletes: seq<Key>)
    requires Sorted(side, all) && all == done + rest && rest != []
    requires DistinctIn(deletes, done) && RemoveAll(done, deletes) == kept
    ensures DistinctIn(deletes + [rest[0].key], all)
    ensures Applied(all, [], deletes + [rest[0].key]) == kept + [] + rest[1..]
  {
    var m, tail := rest[0], rest[1..];
    AddBehind(side, all, done, kept, rest, deletes);
    assert all == (done + [m]) + tail && kept + [] == kept;
    KeysOfConcat(done + [m], tail);
    SortedParts(side, done + [m], tail);
    RemoveAllConcat(side, done + [m], tail, deletes + [m.key]);
  }

  lemma StopKept(side: Side, all: seq<LeafNode>, done: seq<LeafNode>, kept: seq<LeafNode>, rest: seq<LeafNode>,
                 deletes: seq<Key>,
                 m': LeafNode)
    requires Sorted(side, all) && all == done + rest && rest != [] && m'.key == rest[0].key
    requires m' == rest[0].(quantity := m'.quantity)
    requires DistinctIn(deletes, done) && RemoveAll(done, deletes) == kept
    ensures DistinctIn(deletes, all) && m'.key in KeysOf(all) && m'.key !in deletes
    ensures Applied(all, if m' == rest[0] then [] else [m'], deletes) == kept + [m'] + rest[1..]
  {
    var m, tail := rest[0], rest[1..];
    AddBehind(side, all, done, kept, rest, deletes);
    SortedParts(side, done, rest);
    KeysOfConcat(done, rest);
    WithQuantityConcat(done, rest, m.key, m'.quantity);
    assert rest == [m] + tail;
    RemoveAllConcat(side, done, [m'] + tail, deletes);
    assert kept + ([m'] + tail) == kept + [m'] + tail;
  }

  lemma SortedParts(side: Side, a: seq<LeafNode>, b: seq<LeafNode>)
    requires Sorted(side, a + b)
    ensures Sorted(side, a) && Sorted(side, b)
  {
    var s := a + b;
    assert forall i :: 0 <= i < |a| ==> a[i] == s[i];
    assert forall i :: 0 <= i < |b| ==> b[i] == s[|a| + i];
  }

  lemma WholeList(o: Incoming, all: seq<LeafNode>, b: Budget)
    requires Tradable(all) && Sorted(InvertSide(o.side), all) && Ready(b)
    ensures Halfway(o, all, b, Point([], [], [], all, b, []))
  {
    var w := Walk(o, all, b);
    assert [] + w.makers == w.makers && [] + w.events == w.events && [] + all == all;
  }

  lemma EndOfList(o: Incoming, all: seq<LeafNode>, b0: Budget, g: Point)
    requires g.rest == [] && Halfway(o, all, b0, g)
    ensures Walk(o, all, b0) == Walked(g.b, Exhausted, g.kept, g.sent)
    ensures Ended(all, Walked(g.b, Exhausted, g.kept, g.sent), [], g.deletes)
  {
    assert g.kept + [] == g.kept && g.sent + [] == g.sent && g.done + [] == g.done;
  }

  /** The handles to change lead to the leaves that are to be changed. */
  ghost predicate HandlesOf(makers: BookSide, changes: seq<(Handle, int)>, changed: seq<LeafNode>)
    reads makers, makers.nodes
  {
    && |changes| == |changed| <= 1
    && forall i :: 0 <= i < |changes| ==>
      && changes[i].0 in makers.Used() && changes[i].0 < makers.nodes.Length && makers.nodes[changes[i].0].Leaf?
      && makers.nodes[changes[i].0].leaf.key == changed[i].key && changes[i].1 == changed[i].quantity
  }

  /** Room for the events of a walk, and a referral rate if there is anything to charge. */
  ghost predicate CanMatch(w: Walked, queued: nat, capacity: nat, referral: Result<Referral>) {
    queued + |w.events| <= capacity && (Fills(w.events) != [] ==> referral.Ok?)
  }

  /** A step of the walk that cannot be sent makes the whole walk impossible. */
  lemma CannotSend(o: Incoming, all: seq<LeafNode>, b0: Budget, g: Point, queued: nat, capacity: nat,
                   referral: Result<Referral>)
    requires g.rest != [] && Halfway(o, all, b0, g)
    requires var x := Meet(o, g.rest[0], g.b);
      x.sent != [] && (queued + |g.sent| >= capacity || (Fills(x.sent) != [] && referral.Err?))
    ensures !CanMatch(Walk(o, all, b0), queued, capacity, referral)
  {
    hide Meet;
    var x := Meet(o, g.rest[0], g.b);
    var e := if x.stop.Some? then [] else Walk(o, g.rest[1..], x.left).events;
    assert Walk(o, all, b0).events == g.sent + (x.sent + e);
    EventsConcat(x.sent, e);
    EventsConcat(g.sent, x.sent + e);
  }

  lemma MeetNoTrade(o: Incoming, m: LeafNode, b: Budget)
    requires m.Price() > 0 && m.IsValid(o.now)
    requires !o.Crosses(m.Price()) || o.postOnly || b.limit == 0 || b.quote / m.Price() == 0
    ensures Meet(o, m, b) ==
      Met(Some(if !o.Crosses(m.Price()) then PriceReached else if o.postOnly then WouldTake
               else if b.limit == 0 then LimitReached else QuoteTooSmall), [m], [], b)
  {
  }

  lemma MeetSendsFill(o: Incoming, m: LeafNode, b: Budget)
    requires m.Price() > 0 && m.IsValid(o.now)
    requires !(!o.Crosses(m.Price()) || o.postOnly || b.limit == 0 || b.quote / m.Price() == 0)
    ensures Fills(Meet(o, m, b).sent) != [] && Meet(o, m, b).sent != []
  {
  }

  /** One fill: the taker is updated at once and the event queued, unless the queue is full. */
  method FillMaker(o: Incoming, maker: LeafNode, b: Budget, account: MangoAccount, m: nat, queue: Queue<Event>)
    returns (ok: bool, q: int, last: bool)
    requires queue.Valid() && m < |account.perps| && b.seqNum == queue.seqNum
    requires maker.Price() > 0 && maker.quantity > 0 && Ready(b) && b.limit > 0 && b.quote / maker.Price() != 0
    requires maker.IsValid(o.now) && o.Crosses(maker.Price()) && !o.postOnly
    modifies queue`count, queue`seqNum, queue.buf, account`perps
    ensures queue.Valid() && ok == (|old(queue.Contents())| < queue.buf.Length)
    ensures var x := Meet(o, maker, b);
      && q == b.base - x.left.base && x.stop == (if last then Some(Done) else None)
         && x.sent == [o.FillEvent(maker, q, b.seqNum)]
      && x.left == b.(base := b.base - q, quote := b.quote - q * maker.Price(), limit := b.limit - 1,
         seqNum := b.seqNum + 1)
      && x.kept == (if q == maker.quantity then [] else [maker.(quantity := maker.quantity - q)])
      && 0 < q <= maker.quantity && (!last ==> q == maker.quantity)
      && (ok ==> queue.Contents() == old(queue.Contents()) + x.sent && queue.seqNum == x.left.seqNum)
    ensures var (base, quote) := Signed(o.side, q, q * maker.Price());
      account.State() == AddTaker(old(account.State()), m, base, quote)
  {
    hide LeafNode.Price, LeafNode.IsValid;
    var maxMatchByQuote := b.quote / maker.Price();
    q := Min(Min(b.base, maker.quantity), maxMatchByQuote);
    last := q == maxMatchByQuote || q == b.base;
    MeetFacts(o, maker, b);
    var matchQuote := q * maker.Price();
    if o.side == Bid {
      account.AddTakerTrade(m, q, -matchQuote);
    } else {
      account.AddTakerTrade(m, -q, matchQuote);
    }
    ok := queue.PushBack(o.FillEvent(maker, q, queue.seqNum));
  }

  lemma TakerSame(a: Account, m: nat, side: Side, b: Budget, b': Budget)
    requires m < |a.perps| && b'.base == b.base && b'.quote == b.quote
    ensures TakerState(a, m, side, b, b') == a
  {
    assert a.perps[m := a.perps[m]] == a.perps;
  }

  lemma TakerAdds(a: Account, m: nat, side: Side, b0: Budget, b1: Budget, b2: Budget)
    requires m < |a.perps|
    ensures TakerState(TakerState(a, m, side, b0, b1), m, side, b1, b2) == TakerState(a, m, side, b0, b2)
  {
  }

  /** An expired maker is dropped, with an event, unless that has been done enough. */
  method DropMaker(o: Incoming, maker: LeafNode, b: Budget, deletes: seq<Key>, queue: Queue<Event>)
    returns (ok: bool, b': Budget, deletes': seq<Key>)
    requires queue.Valid() && b.seqNum == queue.seqNum && maker.Price() > 0 && !maker.IsValid(o.now)
    modifies queue`count, queue`seqNum, queue.buf
    ensures queue.Valid()
    ensures var x := Meet(o, maker, b);
      && x.stop.None? && Fills(x.sent) == [] && ok == (x.sent == [] || |old(queue.Contents())| < queue.buf.Length)
      && (ok ==>
        && queue.Contents() == old(queue.Contents()) + x.sent && b' == x.left && queue.seqNum == b'.seqNum
        && deletes' == if x.kept == [] then deletes + [maker.key] else deletes)
  {
    ok, b', deletes' := true, b, deletes;
    if b.dropped < DROP_EXPIRED_ORDER_LIMIT {
      ok := queue.PushBack(o.OutEvent(maker, queue.seqNum));
      deletes' := deletes + [maker.key];
      b' := b.(dropped := b.dropped + 1, seqNum := b.seqNum + 1);
    } else {
      assert queue.Contents() + [] == queue.Contents();
    }
  }

  datatype Step = Fail | Continue | Finish(postAllowed: bool, changes: seq<(Handle, int)>)

  /** The body of the matching loop for one maker, found at handle `h`. */
  method MeetMaker(o: Incoming, h: Handle, maker: LeafNode, b: Budget, deletes: seq<Key>, account: MangoAccount, m: nat,
                   queue: Queue<Event>, referral: Result<Referral>)
    returns (step: Step, b': Budget, deletes': seq<Key>)
    requires queue.Valid() && m < |account.perps| && b.seqNum == queue.seqNum
    requires maker.Price() > 0 && maker.quantity > 0 && Ready(b)
    modifies queue`count, queue`seqNum, queue.buf, account`perps
    ensures queue.Valid()
    ensures var x := Meet(o, maker, b);
      if step.Fail? then
        x.sent != [] && (|old(queue.Contents())| >= queue.buf.Length || (Fills(x.sent) != [] && referral.Err?))
      else
        && (step.Continue? <==> x.stop.None?)
        && (step.Finish? ==> step.postAllowed == (x.stop.value == PriceReached || x.stop.value == Done))
        && queue.Contents() == old(queue.Contents()) + x.sent && b' == x.left && queue.seqNum == b'.seqNum
        && (Fills(x.sent) != [] ==> referral.Ok?)
        && deletes' == (if x.kept == [] then deletes + [maker.key] else deletes)
        && (step.Finish? ==>
             step.changes == if x.kept == [] || x.kept == [maker] then [] else [(h, x.kept[0].quantity)])
        && x.stop != Some(Exhausted) && account.State() == TakerState(old(account.State()), m, o.side, b, b')
  {
    hide Meet, Fills, LeafNode.Price, LeafNode.IsValid;
    ghost var x := Meet(o, maker, b);
    if !maker.IsValid(o.now) {
      var ok;
      MeetExpired(o, maker, b);
      ok, b', deletes' := DropMaker(o, maker, b, deletes, queue);
      if ok { TakerSame(account.State(), m, o.side, b, b'); }
      return if ok then Continue else Fail, b', deletes';
    }
    var stop := if !o.Crosses(maker.Price()) then Some(PriceReached)
                else if o.postOnly then Some(WouldTake)
                else if b.limit == 0 then Some(LimitReached)
                else if b.quote / maker.Price() == 0 then Some(QuoteTooSmall)
                else None;
    if stop.Some? {
      MeetNoTrade(o, maker, b);
      NoEvents();
      TakerSame(account.State(), m, o.side, b, b);
      assert queue.Contents() + [] == queue.Contents();
      return Finish(stop.value == PriceReached, []), b, deletes;
    }
    MeetSendsFill(o, maker, b);
    if referral.Err? {
      // the referral rate is looked up at the first fill
      return Fail, b, deletes;
    }
    var ok, q, last := FillMaker(o, maker, b, account, m, queue);
    if !ok {
      return Fail, b, deletes;
    }
    b' := b.(base := b.base - q, quote := b.quote - q * maker.Price(), limit := b.limit - 1, seqNum := b.seqNum + 1);
    var left := maker.quantity - q;
    deletes' := if left == 0 then deletes + [maker.key] else deletes;
    step := if last then Finish(true, if left == 0 then [] else [(h, left)]) else Continue;
  }

  /** The loop is at point `g`, having sent the events of `g` and given the taker what was filled. */
  ghost predicate At(iter: BookSideIter, o: Incoming, all: seq<LeafNode>, b0: Budget, g: Point, queue: Queue<Event>,
                     q0: seq<Event>)
    reads iter, iter.bookSide, iter.bookSide.nodes, queue, queue.buf
  {
    && iter.Valid() && iter.Upcoming() == g.rest && Halfway(o, all, b0, g)
    && queue.Valid() && queue.Contents() == q0 + g.sent && queue.seqNum == g.b.seqNum
  }

  /** One round of the matching loop, from point `g` to point `g'` or to the end of matching. */
  method Advance(iter: BookSideIter, o: Incoming, b: Budget, deletes: seq<Key>, account: MangoAccount, m: nat,
                 queue: Queue<Event>, referral: Result<Referral>, ghost all: seq<LeafNode>, ghost b0: Budget,
                 ghost g: Point,
                 ghost q0: seq<Event>)
    returns (step: Step, b': Budget, deletes': seq<Key>, ghost g': Point, ghost changed: seq<LeafNode>)
    requires At(iter, o, all, b0, g, queue, q0) && g.b == b && g.deletes == deletes && m < |account.perps|
    requires Fills(g.sent) != [] ==> referral.Ok?
    modifies iter, queue`count, queue`seqNum, queue.buf, account`perps
    ensures var w := Walk(o, all, b0);
      match step
      case Fail => !CanMatch(w, |q0|, queue.buf.Length, referral)
      case Continue =>
        && At(iter, o, all, b0, g', queue, q0) && g'.b == b' && g'.deletes == deletes' && |g'.rest| < |g.rest|
        && (Fills(g'.sent) != [] ==> referral.Ok?)
      case Finish(postAllowed, changes) =>
        && b' == w.left && postAllowed == w.PostAllowed() && (Fills(w.events) != [] ==> referral.Ok?)
        && Ended(all, w, changed, deletes') && HandlesOf(iter.bookSide, changes, changed)
        && queue.Valid() && queue.Contents() == q0 + w.events && queue.seqNum == b'.seqNum
    ensures step != Fail ==>
      |account.perps| == |old(account.perps)| && account.State() == TakerState(old(account.State()), m, o.side, b, b')
  {
    hide Walk, Meet, Applied, Halfway, Ended, Fills, Later, ValidAt, Tradable, HandlesOf, TakerState, Queue.Contents;
    hide LeafNode.Price, LeafNode.IsValid, RemoveAll, DistinctIn, Continued, BookSideIter.Valid, BookSideIter.Upcoming;
    g', changed := g, [];
    var next := iter.Next();
    AtPoint(o, all, b0, g);
    if next.None? {
      EndOfList(o, all, b0, g);
      HandlesOne(iter.bookSide, 0, [], []);
      TakerSame(account.State(), m, o.side, b, b);
      return Finish(true, []), b, deletes, g, [];
    }
    var (h, maker) := next.value;
    FirstTradable(g.rest);
    ghost var x := Meet(o, maker, b);
    EventsRegroup(q0, g.sent, x.sent);
    EventsConcat(g.sent, x.sent);
    step, b', deletes' := MeetMaker(o, h, maker, b, deletes, account, m, queue, referral);
    if step.Fail? {
      CannotSend(o, all, b0, g, |q0|, queue.buf.Length, referral);
    } else if step.Finish? {
      StopAt(o, all, b0, g);
      MeetKeeps(o, maker, b);
      changed := if step.changes == [] then [] else x.kept;
      HandlesOne(iter.bookSide, h, changed, step.changes);
    } else {
      MoveOn(o, all, b0, g);
      g' := Passed(o, g);
    }
  }

  /**
   * The matching loop. Fills go to the queue and to the taker at once; what happens to the makers is only
   * collected, because the iteration reads the tree.
   */
  method Match(makers: BookSide, o: Incoming, b0: Budget, account: MangoAccount, m: nat, queue: Queue<Event>,
               referral: Result<Referral>)
    returns (r: Result<Matched>, ghost w: Walked, ghost changed: seq<LeafNode>)
    requires makers.Valid() && makers.side == InvertSide(o.side) && queue.Valid() && m < |account.perps|
    requires Tradable(makers.Resting()) && Ready(b0) && b0.seqNum == queue.seqNum
    modifies queue`count, queue`seqNum, queue.buf, account`perps
    ensures w == Walk(o, makers.Resting(), b0)
    ensures r.Ok? <==> CanMatch(w, |old(queue.Contents())|, queue.buf.Length, referral)
    ensures r.Ok? ==>
      && Ended(makers.Resting(), w, changed, r.value.deletes) && HandlesOf(makers, r.value.changes, changed)
      && r.value.left == w.left && r.value.postAllowed == w.PostAllowed()
      && queue.Valid() && queue.Contents() == old(queue.Contents()) + w.events && queue.seqNum == w.left.seqNum
      && account.State() == TakerState(old(account.State()), m, o.side, b0, w.left)
  {
    hide Walk, Applied, Halfway, Ended, Fills, SlabOk, TreeOk, Orders, Handles, Later, ValidAt, Tradable, HandlesOf;
    hide BookSide.Valid, BookSide.Used, BookSide.Resting, BookSideIter.Valid, BookSideIter.Upcoming, TakerState;
    ghost var all, q0, a0 := makers.Resting(), queue.Contents(), account.State();
    TakerSame(a0, m, o.side, b0, b0);
    w, changed := Walk(o, all, b0), [];
    var iter := new BookSideIter(makers, 0);
    AllValidAtZero(all);
    makers.RestingSorted();
    var b, deletes, step := b0, [], Continue;
    ghost var g := Point([], [], [], all, b0, []);
    WholeList(o, all, b0);
    NoEvents();
    assert q0 + [] == q0;
    while step.Continue?
      invariant iter.bookSide == makers
      invariant step.Continue? ==>
        && At(iter, o, all, b0, g, queue, q0) && g.b == b && g.deletes == deletes
           && (Fills(g.sent) != [] ==> referral.Ok?)
      invariant step.Fail? ==> !CanMatch(w, |q0|, queue.buf.Length, referral)
      invariant step.Finish? ==>
        && b == w.left && step.postAllowed == w.PostAllowed() && (Fills(w.events) != [] ==> referral.Ok?)
        && Ended(all, w, changed, deletes) && HandlesOf(makers, step.changes, changed)
        && queue.Valid() && queue.Contents() == q0 + w.events && queue.seqNum == b.seqNum
      invariant step != Fail ==> m < |account.perps| && account.State() == TakerState(a0, m, o.side, b0, b)
      decreases step.Continue?, |g.rest|
    {
      ghost var wasB := b;
      step, b, deletes, g, changed := Advance(iter, o, b, deletes, account, m, queue, referral, all, b0, g, q0);
      TakerAdds(a0, m, o.side, b0, wasB, b);
    }
    r := if step.Fail? then Err(Panic) else Ok(Matched(b, step.postAllowed, step.changes, deletes));
  }

  lemma HandlesOne(makers: BookSide, h: Handle, changed: seq<LeafNode>, changes: seq<(Handle, int)>)
    requires (changed == [] && changes == []) ||
      (|changed| == 1 && changes == [(h, changed[0].quantity)] && h in makers.Used() && h < makers.nodes.Length
       && makers.nodes[h].Leaf? && makers.nodes[h].leaf.key == changed[0].key)
    ensures HandlesOf(makers, changes, changed)
  {
  }

  lemma AtPoint(o: Incoming, all: seq<LeafNode>, b0: Budget, g: Point)
    requires Halfway(o, all, b0, g)
    ensures Tradable(all) && Tradable(g.rest) && Ready(g.b)
  {
  }

  lemma ChangedList(side: Side, all: seq<LeafNode>, w: Walked, changed: seq<LeafNode>, deletes: seq<Key>)
    requires Ended(all, w, changed, deletes) && Sorted(side, all)
    ensures var s := if changed == [] then all else WithQuantity(all, changed[0].key, changed[0].quantity);
      Sorted(side, s) && DistinctIn(deletes, s) && RemoveAll(s, deletes) == w.makers
  {
    if changed != [] { WithQuantityKeys(side, all, changed[0].key, changed[0].quantity); }
  }

  /** Quantities first, through handles, then removals by key: removals move nodes and so invalidate handles. */
  method ApplyChanges(makers: BookSide, changes: seq<(Handle, int)>, deletes: seq<Key>, ghost changed: seq<LeafNode>,
                      ghost w: Walked)
    requires makers.Valid() && Ended(makers.Resting(), w, changed, deletes) && HandlesOf(makers, changes, changed)
    modifies makers, makers.nodes
    ensures makers.Valid() && makers.Resting() == w.makers
  {
    hide SlabOk, TreeOk, Orders, Handles, RemoveOrder, FindOrder, WithQuantity, DistinctIn, RemoveAll, Ended;
    makers.RestingSorted();
    ChangedList(makers.side, makers.Resting(), w, changed, deletes);
    if |changes| > 0 {
      makers.SetQuantity(changes[0].0, changes[0].1);
    }
    var i := 0;
    while i < |deletes|
      invariant 0 <= i <= |deletes| && makers.Valid()
      invariant DistinctIn(deletes[i..], makers.Resting()) && RemoveAll(makers.Resting(), deletes[i..]) == w.makers
    {
      makers.RestingSorted();
      NextDelete(makers.side, makers.Resting(), deletes[i..]);
      var removed := makers.RemoveByKey(deletes[i]);
      assert removed.Some?;
      assert deletes[i..][1..] == deletes[i + 1..];
      i := i + 1;
    }
    assert deletes[i..] == [];
    NoDeletes(makers.Resting());
  }

  lemma NextDelete(side: Side, s: seq<LeafNode>, keys: seq<Key>)
    requires Sorted(side, s) && DistinctIn(keys, s) && keys != []
    ensures FindOrder(s, keys[0]).Some? && DistinctIn(keys[1..], RemoveOrder(s, keys[0]))
    ensures RemoveAll(s, keys) == RemoveAll(RemoveOrder(s, keys[0]), keys[1..])
  {
    DistinctInTail(side, s, keys);
    FindOrderIn(s, keys[0]);
  }

  lemma NoDeletes(s: seq<LeafNode>)
    ensures RemoveAll(s, []) == s
  {
  }

  lemma SimStep(o: Incoming, m: LeafNode, rest: seq<LeafNode>, base: int, quote: int)
    requires Tradable([m] + rest)
    ensures m.Price() > 0 && Tradable(rest) && Tradable([])
    ensures
      var (base', quote', last) := SimTake(m, base, quote);
      SimWalk(o, [m] + rest, base, quote) ==
        if !o.Crosses(m.Price()) then Simulated(base, quote, false)
        else if o.postOnly then Simulated(base, quote, true)
        else if last then Simulated(base', quote', false)
        else SimWalk(o, rest, base', quote')
  {
    hide LeafNode.Price, SimTake;
    assert ([m] + rest)[0] == m && ([m] + rest)[1..] == rest;
    FirstTradable([m] + rest);
  }

  lemma SimNothing(o: Incoming)
    ensures Tradable([]) && forall base, quote :: (SimWalk(o, [], base, quote) == Simulated(base, quote, false))
  {
  }

  /** The loop of a dry run: it reads the valid makers and adds up what an order would take from them. */
  method SimMatch(makers: BookSide, side: Side, price: int, postOnly: bool, now: nat, maxBase: int, maxQuote: int,
                  ghost o: Incoming)
    returns (r: Simulated)
    requires makers.Valid() && Tradable(makers.Resting())
    requires (o.side, o.price, o.postOnly, o.now) == (side, price, postOnly, now)
    ensures Tradable(ValidAt(makers.Resting(), now))
    ensures r == SimWalk(o, ValidAt(makers.Resting(), now), maxBase, maxQuote)
  {
    ValidAtSubset(makers.Resting(), now);
    hide ValidAt, BookSide.Valid, BookSide.Resting, BookSideIter.Valid, BookSideIter.Upcoming, LeafNode.Price, Tradable;
    hide LeafNode.IsValid, SimWalk, SimTake;
    SimNothing(o);
    var iter := new BookSideIter(makers, now);
    var base, quote := maxBase, maxQuote;
    ghost var all := iter.Upcoming();
    var next := iter.Next();
    while next.Some?
      invariant iter.Valid() && iter.bookSide == makers
      invariant Tradable(if next.Some? then [next.value.1] + iter.Upcoming() else [])
      invariant SimWalk(o, all, maxBase, maxQuote) ==
                SimWalk(o, (if next.Some? then [next.value.1] + iter.Upcoming() else []), base, quote)
      decreases if next.Some? then 1 + |iter.Upcoming()| else 0
    {
      SimStep(o, next.value.1, iter.Upcoming(), base, quote);
      var makerPrice := next.value.1.Price();
      if (if side == Bid then price < makerPrice else price > makerPrice) {
        return Simulated(base, quote, false);
      } else if postOnly {
        return Simulated(base, quote, true);
      }
      var (base', quote', last) := SimTake(next.value.1, base, quote);
      base, quote := base', quote';
      if last {
        return Simulated(base, quote, false);
      }
      next := iter.Next();
    }
    r := Simulated(base, quote, false);
  }

  // ----- Posting what remains

  method GetBestPrice(side: BookSide, now: nat) returns (r: Option<int>)
    requires side.Valid()
    ensures r == BestPrice(side.Resting(), now)
  {
    hide ValidAt, BookSide.Valid, BookSide.Resting, BookSideIter.Valid, BookSideIter.Upcoming, LeafNode.Price;
    var iter := new BookSideIter(side, now);
    var next := iter.Next();
    r := if next.None? then None else Some(next.value.1.Price());
  }

  /** Valid lots at `price` or better, up to `maxDepth`. */
  method GetSizeAhead(side: BookSide, price: int, maxDepth: int, now: nat) returns (r: int)
    requires side.Valid()
    ensures r == SizeAhead(side.side, ValidAt(side.Resting(), now), price, maxDepth, 0)
  {
    hide ValidAt, BookSide.Valid, BookSide.Resting, BookSideIter.Valid, BookSideIter.Upcoming, LeafNode.Price;
    var iter := new BookSideIter(side, now);
    var s := 0;
    ghost var all := iter.Upcoming();
    var next := iter.Next();
    while next.Some?
      invariant iter.Valid() && iter.bookSide == side
      invariant SizeAhead(side.side, all, price, maxDepth, 0) ==
                SizeAhead(side.side, (if next.Some? then [next.value.1] + iter.Upcoming() else []), price, maxDepth, s)
      decreases if next.Some? then 1 + |iter.Upcoming()| else 0
    {
      var p := next.value.1.Price();
      if (if side.side == Bid then price > p else price < p) || s >= maxDepth {
        return Min(s, maxDepth);
      }
      s := s + next.value.1.quantity;
      next := iter.Next();
    }
    r := Min(s, maxDepth);
  }

  method GetBestInitial(own: BookSide, market: PerpMarket, price: int, now: nat) returns (r: int)
    requires own.Valid()
    ensures r == BestInitial(own.side, market.Totals(), own.Resting(), price, now)
  {
    if market.version == 0 {
      var best := GetBestPrice(own, now);
      r := if best.None? then price else best.value;
    } else {
      r := GetSizeAhead(own, price, market.maxDepth, now);
    }
  }

  /** Drops an expired order of the own side if there is one. */
  method DropExpiredOrder(own: BookSide, now: nat, queue: Queue<Event>) returns (ok: bool)
    requires own.Valid() && queue.Valid()
    modifies own, own.nodes, queue`count, queue`seqNum, queue.buf
    ensures own.Valid() && queue.Valid()
    ensures var (s, es) := DropExpired(own.side, old(own.Resting()), now, old(queue.seqNum));
      && ok == (|old(queue.Contents())| + |es| <= queue.buf.Length) && own.Resting() == s
      && (ok ==> queue.Contents() == old(queue.Contents()) + es && queue.seqNum == old(queue.seqNum) + |es|)
  {
    hide BookSide.Valid, BookSide.Resting, Soonest, RemoveOrder, Queue.Contents;
    var x := own.RemoveOneExpired(now);
    ok := true;
    if x.Some? {
      ok := queue.PushBack(Out(own.side, x.value.ownerSlot, now, queue.seqNum, x.value.owner, x.value.quantity));
    } else {
      assert queue.Contents() + [] == queue.Contents();
    }
  }

  /** Boots the worst order of a full side, if the new price is better than its price. */
  method EvictOrder(own: BookSide, price: int, now: nat, queue: Queue<Event>) returns (ok: bool)
    requires own.Valid() && queue.Valid()
    modifies own, own.nodes, queue`count, queue`seqNum, queue.buf
    ensures own.Valid() && queue.Valid()
    ensures match Evict(own.side, old(own.Resting()), price, now, old(queue.seqNum))
      case Err(_) => !ok
      case Ok((s, es)) =>
        && ok == (|old(queue.Contents())| + |es| <= queue.buf.Length) && own.Resting() == s
        && |s| < SIDE_CAPACITY
        && (ok ==> queue.Contents() == old(queue.Contents()) + es && queue.seqNum == old(queue.seqNum) + |es|)
  {
    hide BookSide.Valid, BookSide.Resting, Soonest, RemoveOrder, Queue.Contents, LeafNode.Price, SlabOk, TreeOk;
    own.Capacity();
    ok := true;
    if own.IsFull() {
      var x := own.RemoveExtreme(own.side == Ask);
      if !Better(own.side, price, x.value.Price()) {
        return false;
      }
      ok := queue.PushBack(Out(own.side, x.value.ownerSlot, now, queue.seqNum, x.value.owner, x.value.quantity));
    } else {
      assert queue.Contents() + [] == queue.Contents();
    }
  }

  /** Drops an expired order and evicts the worst one of a full side. */
  method ClearRoom(own: BookSide, price: int, now: nat, queue: Queue<Event>) returns (ok: bool)
    requires own.Valid() && queue.Valid()
    modifies own, own.nodes, queue`count, queue`seqNum, queue.buf
    ensures own.Valid() && queue.Valid()
    ensures match Cleared(own.side, old(own.Resting()), price, now, old(queue.seqNum))
      case Err(_) => !ok
      case Ok((s, es)) =>
        && ok == (|old(queue.Contents())| + |es| <= queue.buf.Length)
        && (ok ==>
          && own.Resting() == s && |s| < SIDE_CAPACITY
          && queue.Contents() == old(queue.Contents()) + es && queue.seqNum == old(queue.seqNum) + |es|)
  {
    hide BookSide.Valid, BookSide.Resting, Queue.Contents, Queue.Valid, DropExpired, Evict;
    ok := DropExpiredOrder(own, now, queue);
    if ok { ok := EvictOrder(own, price, now, queue); }
  }

  method PostOrder(own: BookSide, rq: Request, market: PerpMarket, account: MangoAccount, m: nat, queue: Queue<Event>,
                   price: int, quantity: int, key: Key, ghost mk: MarketState)
    returns (ok: bool)
    requires own.Valid() && own.side == rq.side && queue.Valid() && m < |account.perps|
    requires mk.Resting(rq.side) == own.Resting() && mk.totals == market.Totals()
    requires mk.queue == queue.Contents() && mk.capacity == queue.buf.Length && mk.eventSeq == queue.seqNum
    modifies own, own.nodes, account`perps, account`slots, queue`count, queue`seqNum, queue.buf
    ensures own.Valid() && queue.Valid()
    ensures match Post(mk, old(account.State()), m, rq, price, quantity, key)
      case Err(_) => !ok
      case Ok((mk', a')) =>
        && ok && own.Resting() == mk'.Resting(rq.side) && account.State() == a'
        && queue.Contents() == mk'.queue && queue.seqNum == mk'.eventSeq
  {
    hide BookSide.Valid, BookSide.Resting, Queue.Contents, Queue.Valid, InsertOrder, Post, Cleared, KeysOf;
    hide BestInitial, FirstFree, AddOrder;
    PostClears(mk, account.State(), m, rq, price, quantity, key);
    var cleared := ClearRoom(own, price, rq.now, queue);
    if !cleared {
      return false;
    }
    var bestInitial := GetBestInitial(own, market, price, rq.now);
    var slot := account.NextOrderSlot();
    if slot.None? {
      return false;
    }
    var leaf := LeafNode(slot.value, rq.orderType, market.version, rq.timeInForce, key, rq.taker, quantity,
                         rq.clientOrderId, bestInitial, rq.now);
    var inserted := own.InsertLeaf(leaf);
    account.AddOrderToSlot(m, rq.side, leaf);
    ok := true;
  }

  /** Charges the taker, credits market or referrer, and books the maker fees. */
  method ChargeFees(market: PerpMarket, account: MangoAccount, m: nat, rq: Request, quoteTaken: int, ref: Referral,
                    referrer: MangoAccount?)
    requires m < |account.perps| && account != referrer
    requires ref.referred ==> referrer != null && m < |referrer.perps|
    modifies market`feesAccrued, account`perps, if ref.referred then {referrer} else {}
    ensures var (a', t', credit) := ApplyFees(old(account.State()), m, old(market.Totals()), rq, quoteTaken, ref);
      && account.State() == a' && market.Totals() == t'
      && (ref.referred ==>
        && referrer.slots == old(referrer.slots)
        && var was := old(referrer.perps);
        referrer.perps == was[m := was[m].(quote := was[m].quote + credit)])
  {
    hide FromNum, Mul;
    var native := market.quoteLotSize * quoteTaken;
    var takerQuoteNative := FromNum(native);
    MulByNum(native, ref.rate);
    MulByNum(native, rq.makerFee);
    MulByNum(native, rq.takerFee);
    ghost var was := account.perps;
    if ref.rate > 0 {
      var refFees := Mul(takerQuoteNative, ref.rate);
      account.perps := account.perps[m := account.perps[m].(quote := account.perps[m].quote - refFees)];
      if ref.referred {
        referrer.perps := referrer.perps[m := referrer.perps[m].(quote := referrer.perps[m].quote + refFees)];
      } else {
        market.feesAccrued := market.feesAccrued + refFees;
      }
    } else if ref.referred {
      assert referrer.perps == referrer.perps[m := referrer.perps[m]];
    }
    var makerFees := Mul(takerQuoteNative, rq.makerFee);
    var takerFees := Mul(takerQuoteNative, rq.takerFee);
    account.perps := account.perps[m := account.perps[m].(quote := account.perps[m].quote - takerFees)];
    assert account.perps == was[m := account.perps[m]];
    market.feesAccrued := market.feesAccrued + (takerFees + makerFees);
  }

  class Book {
    const bids: BookSide
    const asks: BookSide

    constructor ()
      ensures fresh(bids) && fresh(asks) && fresh(bids.nodes) && fresh(asks.nodes) && Valid()
      ensures bids.Resting() == [] && asks.Resting() == []
    {
      bids := new BookSide(Bid);
      asks := new BookSide(Ask);
    }

    ghost predicate Valid()
      reads this, bids, asks, bids.nodes, asks.nodes
    {
      && bids != asks && bids.nodes != asks.nodes && bids.side == Bid && asks.side == Ask
      && bids.Valid() && asks.Valid()
    }

    function Side(side: Side): BookSide {
      if side == Bid then bids else asks
    }

    /** The market that the book, its totals and its queue make up. */
    ghost function Snapshot(market: PerpMarket, queue: Queue<Event>): MarketState
      requires queue.Valid()
      reads this, bids, asks, market, queue, queue.buf
    {
      MarketState(market.Totals(), bids.Resting(), asks.Resting(), queue.Contents(), queue.buf.Length, queue.seqNum)
    }

    /** The outcome of the rules for an order: the new market, taker and credit, or a failure. */
    ghost predicate Placed(r: Result<(MarketState, Account, Fixed)>, ok: bool, rq: Request, market: PerpMarket,
                           account: MangoAccount, m: nat, queue: Queue<Event>, referrer: MangoAccount?,
                           was: seq<PerpPosition>)
      reads this, bids, bids.nodes, asks, asks.nodes, market, account, queue, queue.buf
      reads if referrer == null then {} else {referrer}
    {
      match r
      case Err(_) => !ok
      case Ok((mk, a, credit)) =>
        && ok && Valid() && queue.Valid() && Snapshot(market, queue) == mk && account.State() == a
        && Credited(rq, referrer, m, was, credit)
    }

    method ResolveType(rq: Request) returns (r: Result<(bool, bool, int)>)
      requires Valid()
      ensures r == Resolve(rq.side, rq.orderType, rq.price, BestPrice(Side(InvertSide(rq.side)).Resting(), rq.now))
    {
      hide BestPrice, BookSide.Valid, BookSide.Resting;
      match rq.orderType
      case Limit => r := Ok((false, true, rq.price));
      case ImmediateOrCancel => r := Ok((false, false, rq.price));
      case PostOnly => r := Ok((true, true, rq.price));
      case Market => r := Ok((false, false, if rq.side == Bid then I64_MAX else 1));
      case PostOnlySlide =>
        var best := GetBestPrice(Side(InvertSide(rq.side)), rq.now);
        if best.None? {
          r := Ok((true, true, rq.price));
        } else if rq.side == Bid {
          r := Ok((true, true, Min(rq.price, best.value - 1)));
        } else if best.value == I64_MAX {
          r := Err(MathError);
        } else {
          r := Ok((true, true, Max(rq.price, best.value + 1)));
        }
    }

    /** What an order would change, from the valid orders of the other side; the book stays as it is. */
    method SimulateOrder(rq: Request, market: PerpMarket, ghost mk: MarketState) returns (r: Result<Changes>)
      requires Valid() && MarketOk(mk) && rq.Wellformed()
      requires mk.bids == bids.Resting() && mk.asks == asks.Resting() && mk.totals == market.Totals()
      ensures r == SimOrder(mk, rq)
    {
      hide BookSide.Valid, BookSide.Resting, Resolve, WithinPriceLimit, SimWalk, OrderId;
      ResolvedPriceInRange(mk, rq);
      var resolved := ResolveType(rq);
      if resolved.Err? {
        return Err(resolved.error);
      }
      var (postOnly, postable, price) := resolved.value;
      var allowed := postable && WithinPriceLimit(rq, market.Totals(), price);
      var left := SimMatch(Side(InvertSide(rq.side)), rq.side, price, postOnly, rq.now, rq.maxBase, rq.maxQuote,
                           IncomingOf(mk, rq, postOnly, price));
      var (base, quote) := Signed(rq.side, rq.maxBase - left.base, rq.maxQuote - left.quote);
      if left.wouldTake {
        return Ok(Posting(rq.side, base, quote, 0));
      }
      if price == 0 {
        // the division by the price below would abort
        return Err(Panic);
      }
      var rest := Min(left.base, left.quote / price);
      r := Ok(Posting(rq.side, base, quote, if allowed && rest > 0 then rest else 0));
    }

    /** Posts what remains of a matched order, if it may rest, and charges the fees of what was taken. */
    method FinishOrder(rq: Request, market: PerpMarket, account: MangoAccount, m: nat, queue: Queue<Event>,
                       referrer: MangoAccount?, allowed: bool, price: int, left: Budget, key: Key)
      returns (ok: bool)
      requires Valid() && queue.Valid() && m < |account.perps| && account != referrer
      requires 0 < price <= I64_MAX && 0 <= market.seqNum <= U64_MAX && key == OrderId(rq.side, price, market.seqNum)
      requires rq.Referred() ==> referrer != null && m < |referrer.perps|
      modifies bids, bids.nodes, asks, asks.nodes, account`perps, account`slots, market, queue`count, queue`seqNum,
        queue.buf
      modifies if rq.Referred() then {referrer} else {}
      ensures Placed(AfterMatch(old(Snapshot(market, queue)), old(account.State()), m, rq, allowed, price, left), ok,
                     rq, market, account, m, queue, referrer, old(CreditBase(rq, referrer)))
    {
      hide BookSide.Valid, BookSide.Resting, Queue.Contents, Post, ApplyFees;
      ghost var mk, a := Snapshot(market, queue), account.State();
      var rest := Min(left.base, left.quote / price);
      if allowed && rest > 0 {
        var posted := PostOrder(Side(rq.side), rq, market, account, m, queue, price, rest, key, mk);
        if !posted {
          return false;
        }
        ghost var after := Post(mk, a, m, rq, price, rest, key).value;
        assert Side(InvertSide(rq.side)).Resting() == mk.Resting(InvertSide(rq.side));
        assert Snapshot(market, queue) == after.0 && account.State() == after.1;
      }
      if rq.Referred() {
        assert referrer.perps == referrer.perps[m := referrer.perps[m].(quote := referrer.perps[m].quote + 0)];
      }
      var taken := rq.maxQuote - left.quote;
      if taken > 0 && rq.referral.Ok? {
        ChargeFees(market, account, m, rq, taken, rq.referral.value, referrer);
      }
      ok := true;
    }

    /** Matches an order against the other side and applies what matching collected. */
    method MatchOther(rq: Request, account: MangoAccount, m: nat, queue: Queue<Event>, postOnly: bool, price: int,
                      key: Key,
                      ghost mk: MarketState)
      returns (r: Result<(Budget, bool)>)
      requires Valid() && queue.Valid() && m < |account.perps| && MarketOk(mk) && rq.Wellformed()
               && 0 <= price <= I64_MAX
      requires mk.bids == bids.Resting() && mk.asks == asks.Resting()
               && key == OrderId(rq.side, price, mk.totals.seqNum + 1)
      requires mk.queue == queue.Contents() && mk.capacity == queue.buf.Length && mk.eventSeq == queue.seqNum
      modifies bids, bids.nodes, asks, asks.nodes, account`perps, queue`count, queue`seqNum, queue.buf
      ensures var w := MatchOf(mk, rq, postOnly, price);
        && (r.Ok? <==> |mk.queue| + |w.events| <= mk.capacity && (Fills(w.events) != [] ==> rq.referral.Ok?))
        && (r.Ok? ==>
          && Valid() && queue.Valid() && r.value == (w.left, w.PostAllowed())
          && bids.Resting() == MatchedMarket(mk, rq, w).bids && asks.Resting() == MatchedMarket(mk, rq, w).asks
          && queue.Contents() == mk.queue + w.events && queue.seqNum == mk.eventSeq + |w.events|
          && account.State() == TakerState(old(account.State()), m, rq.side, rq.Spendable(mk), w.left))
    {
      hide BookSide.Valid, BookSide.Resting, Queue.Contents, Walk, Ended, HandlesOf, OrderId, Fills, Tradable, Sorted;
      hide TakerState, BaseOf, QuoteOf, Outs;
      var refRate := if rq.referral.Ok? then rq.referral.value.rate else 0;
      var o := Incoming(rq.side, price, postOnly, rq.now, rq.taker, key, rq.clientOrderId, rq.makerFee,
                        rq.takerFee + refRate);
      var makers := Side(InvertSide(rq.side));
      var matched, w, changed :=
        Match(makers, o, Budget(rq.maxBase, rq.maxQuote, rq.limit, 0, queue.seqNum), account, m, queue, rq.referral);
      if matched.Err? {
        return Err(matched.error);
      }
      ApplyChanges(makers, matched.value.changes, matched.value.deletes, changed, w);
      BudgetsHold(o, mk.Resting(InvertSide(rq.side)), rq.Spendable(mk));
      r := Ok((matched.value.left, matched.value.postAllowed));
    }

    /** Places an order. It fails exactly when the rules say so, and then the caller discards all changes. */
    method PlaceOrder(rq: Request, market: PerpMarket, account: MangoAccount, m: nat, queue: Queue<Event>,
                      referrer: MangoAccount?)
      returns (ok: bool)
      requires Valid() && queue.Valid() && m < |account.perps| && account != referrer
      requires MarketOk(Snapshot(market, queue)) && rq.Wellformed()
      requires rq.Referred() ==> referrer != null && m < |referrer.perps|
      modifies bids, bids.nodes, asks, asks.nodes, account`perps, account`slots, market, queue`count, queue`seqNum,
        queue.buf
      modifies if rq.Referred() then {referrer} else {}
      ensures Placed(NewOrder(old(Snapshot(market, queue)), old(account.State()), m, rq), ok,
                     rq, market, account, m, queue, referrer, old(CreditBase(rq, referrer)))
    {
      hide BookSide.Valid, BookSide.Resting, Queue.Contents, AfterMatch, MatchOf, Resolve, WithinPriceLimit;
      hide OrderId, Fills, Tradable, Sorted, TakerState, Book.Valid, Queue.Valid, BestPrice;
      ghost var mk := Snapshot(market, queue);
      ResolvedPriceInRange(mk, rq);
      var resolved := ResolveType(rq);
      if resolved.Err? {
        return false;
      }
      var (postOnly, postable, price) := resolved.value;
      var allowed := postable && WithinPriceLimit(rq, market.Totals(), price);
      var key := market.GenOrderId(rq.side, price);
      var matched := MatchOther(rq, account, m, queue, postOnly, price, key, mk);
      if matched.Err? {
        return false;
      }
      if price == 0 {
        // the division by the price below would abort
        return false;
      }
      assert Snapshot(market, queue) == MatchedMarket(mk, rq, MatchOf(mk, rq, postOnly, price));
      hide Book.Placed;
      allowed := allowed && matched.value.1;
      ok := FinishOrder(rq, market, account, m, queue, referrer, allowed, price, matched.value.0, key);
    }
  }

  /** The perp positions of the referrer, if one takes part. */
  ghost function CreditBase(rq: Request, referrer: MangoAccount?): seq<PerpPosition>
    reads if referrer == null then {} else {referrer}
  {
    if rq.Referred() && referrer != null then referrer.perps else []
  }

  /** The referrer has received the credit and nothing else. */
  ghost predicate Credited(rq: Request, referrer: MangoAccount?, m: nat, was: seq<PerpPosition>, credit: Fixed)
    reads if referrer == null then {} else {referrer}
  {
    rq.Referred() ==>
      && referrer != null && m < |was|
      && referrer.perps == was[m := was[m].(quote := was[m].quote + credit)]
  }
}
