/** Depth ahead of each of an account's own orders, found in one pass when it cancels a whole side. */
module SizeIncentives {
  import opened OrderKeys
  import opened Types
  import opened OrderLists
  import opened Matcher
  import opened BookSides
  import opened BookSideIters

  /** An order key with the valid size ahead of it, capped. */
  datatype Sized = Sized(key: Key, size: int)

  /** Keys in priority order, the best first. */
  ghost predicate Ranked(side: Side, keys: seq<Key>) {
    forall i, j :: 0 <= i < j < |keys| ==> Ahead(side, keys[i], keys[j])
  }

  /** Keys that the pass has not come to when the depth is reached, the worst first as they are kept. */
  function Deep(mine: seq<Key>, maxDepth: int): seq<Sized> {
    if mine == [] then [] else Deep(mine[1..], maxDepth) + [Sized(mine[0], maxDepth)]
  }

  /** One pass over the orders of a side and over the own keys, both from the best on. */
  function Merge(side: Side, s: seq<LeafNode>, mine: seq<Key>, maxDepth: int, now: nat, sum: int): seq<Sized>
    decreases |s| + |mine|
  {
    if s == [] || mine == [] then []
    else if Ahead(side, s[0].key, mine[0]) then
      var sum' := if s[0].IsValid(now) then sum + s[0].quantity else sum;
      if sum' >= maxDepth then Deep(mine, maxDepth) else Merge(side, s[1..], mine, maxDepth, now, sum')
    else if s[0].key == mine[0] then
      [Sized(mine[0], sum)] +
      (if sum >= maxDepth then Deep(mine[1..], maxDepth) else Merge(side, s[1..], mine[1..], maxDepth, now, sum))
    else
      if sum >= maxDepth then Deep(mine[1..], maxDepth) else Merge(side, s, mine[1..], maxDepth, now, sum)
  }

  /** Valid lots of others ahead of `key`. */
  function OthersAhead(side: Side, s: seq<LeafNode>, mine: seq<Key>, key: Key, now: nat): int {
    if s == [] || !Ahead(side, s[0].key, key) then 0
    else
      var others := if s[0].IsValid(now) && s[0].key !in mine then s[0].quantity else 0;
      others + OthersAhead(side, s[1..], mine, key, now)
  }

  lemma {:induction false} OthersNonNegative(side: Side, s: seq<LeafNode>, mine: seq<Key>, key: Key, now: nat)
    requires Tradable(s)
    ensures OthersAhead(side, s, mine, key, now) >= 0
  {
    hide LeafNode.Price;
    if s != [] {
      assert s[0] in s;
      OthersNonNegative(side, s[1..], mine, key, now);
    }
  }

  lemma {:induction false} DeepHas(mine: seq<Key>, maxDepth: int)
    ensures forall e :: e in Deep(mine, maxDepth) <==> e.key in mine && e.size == maxDepth
    ensures |Deep(mine, maxDepth)| == |mine|
  {
    if mine != [] {
      DeepHas(mine[1..], maxDepth);
      assert mine == [mine[0]] + mine[1..];
    }
  }

  /** A key that is not among the orders counts no differently from one that is not own. */
  lemma {:induction false} DropKey(side: Side, s: seq<LeafNode>, mine: seq<Key>, key: Key, now: nat)
    requires mine != [] && mine[0] !in KeysOf(s)
    ensures OthersAhead(side, s, mine, key, now) == OthersAhead(side, s, mine[1..], key, now)
  {
    assert mine == [mine[0]] + mine[1..];
    if s != [] { DropKey(side, s[1..], mine, key, now); }
  }

  lemma RankedTail(side: Side, mine: seq<Key>)
    requires Ranked(side, mine) && mine != []
    ensures Ranked(side, mine[1..]) && mine[0] !in mine[1..]
    ensures forall k :: k in mine[1..] ==> Ahead(side, mine[0], k)
  {
  }

  /** The own keys on the book, each with the valid lots of others ahead of it up to the depth, and no key of others. */
  ghost predicate Reports(side: Side, s: seq<LeafNode>, mine: seq<Key>, maxDepth: int, now: nat, sum: int,
                          out: seq<Sized>) {
    && (forall e :: e in out ==>
      && e.key in mine
      && (e.key in KeysOf(s) ==> e.size == Min(maxDepth, sum + OthersAhead(side, s, mine, e.key, now))))
    && (forall k :: k in mine && k in KeysOf(s) ==> exists e :: e in out && e.key == k)
  }

  lemma {:induction false} MergeOwn(side: Side, s: seq<LeafNode>, mine: seq<Key>, maxDepth: int, now: nat, sum: int)
    ensures forall e :: e in Merge(side, s, mine, maxDepth, now, sum) ==> e.key in mine
    decreases |s| + |mine|
  {
    hide LeafNode.IsValid;
    if s != [] && mine != [] {
      MergeStep(side, s, mine, maxDepth, now, sum);
      DeepHas(mine, maxDepth);
      DeepHas(mine[1..], maxDepth);
      var sum' := if s[0].IsValid(now) then sum + s[0].quantity else sum;
      assert mine == [mine[0]] + mine[1..];
      if Ahead(side, s[0].key, mine[0]) { MergeOwn(side, s[1..], mine, maxDepth, now, sum'); }
      else if s[0].key == mine[0] { MergeOwn(side, s[1..], mine[1..], maxDepth, now, sum); }
      else { MergeOwn(side, s, mine[1..], maxDepth, now, sum); }
    }
  }

  /**
   * The pass reports every own order on the book, with the valid lots of others ahead of it up to the depth; all it
   * reports are own keys.
   */
  lemma {:induction false} MergeExact(side: Side, s: seq<LeafNode>, mine: seq<Key>, maxDepth: int, now: nat, sum: int)
    requires Sorted(side, s) && Tradable(s) && Ranked(side, mine) && 0 <= sum <= maxDepth
    ensures Reports(side, s, mine, maxDepth, now, sum, Merge(side, s, mine, maxDepth, now, sum))
    decreases |s| + |mine|
  {
    hide LeafNode.Price, LeafNode.IsValid, KeysOf;
    if s == [] {
      assert KeysOf(s) == {} by { NoKeys(s); }
    } else if mine != [] {
      var o, rest := s[0], s[1..];
      SortedTail(side, s);
      KeysSplit(s);
      RankedTail(side, mine);
      assert o in s;
      forall k | k in KeysOf(s)
        ensures OthersAhead(side, s, mine, k, now) >= 0
      {
        OthersNonNegative(side, s, mine, k, now);
      }
      if Ahead(side, o.key, mine[0]) {
        StepAhead(side, s, mine, maxDepth, now, sum);
      } else if o.key == mine[0] {
        StepOwn(side, s, mine, maxDepth, now, sum);
      } else {
        StepMissing(side, s, mine, maxDepth, now, sum);
      }
    }
  }

  lemma NoKeys(s: seq<LeafNode>)
    ensures s == [] ==> KeysOf(s) == {}
  {
  }

  lemma KeysSplit(s: seq<LeafNode>)
    requires s != []
    ensures KeysOf(s) == {s[0].key} + KeysOf(s[1..])
  {
  }

  lemma {:induction false} StepAhead(side: Side, s: seq<LeafNode>, mine: seq<Key>, maxDepth: int, now: nat, sum: int)
    requires Sorted(side, s) && Tradable(s) && Ranked(side, mine) && 0 <= sum <= maxDepth && s != [] && mine != []
    requires Ahead(side, s[0].key, mine[0])
    ensures Reports(side, s, mine, maxDepth, now, sum, Merge(side, s, mine, maxDepth, now, sum))
    decreases |s| + |mine|, 0
  {
    hide LeafNode.Price, LeafNode.IsValid, KeysOf;
    var o, rest := s[0], s[1..];
    SortedTail(side, s);
    KeysSplit(s);
    RankedTail(side, mine);
    assert o in s && o.key !in mine;
    var sum' := if o.IsValid(now) then sum + o.quantity else sum;
    if sum' >= maxDepth {
      DeepHas(mine, maxDepth);
      forall k | k in mine
        ensures sum + OthersAhead(side, s, mine, k, now) >= maxDepth
        ensures Sized(k, maxDepth) in Merge(side, s, mine, maxDepth, now, sum)
      {
        OthersNonNegative(side, rest, mine, k, now);
      }
    } else {
      MergeExact(side, rest, mine, maxDepth, now, sum');
    }
  }

  lemma {:induction false} StepOwn(side: Side, s: seq<LeafNode>, mine: seq<Key>, maxDepth: int, now: nat, sum: int)
    requires Sorted(side, s) && Tradable(s) && Ranked(side, mine) && 0 <= sum <= maxDepth && s != [] && mine != []
    requires s[0].key == mine[0]
    ensures Reports(side, s, mine, maxDepth, now, sum, Merge(side, s, mine, maxDepth, now, sum))
    decreases |s| + |mine|, 0
  {
    hide LeafNode.Price, LeafNode.IsValid, KeysOf;
    var o, rest, k0, others := s[0], s[1..], mine[0], mine[1..];
    SortedTail(side, s);
    KeysSplit(s);
    RankedTail(side, mine);
    var tail := if sum >= maxDepth then Deep(others, maxDepth) else Merge(side, rest, others, maxDepth, now, sum);
    forall k | k in others
      ensures OthersAhead(side, s, mine, k, now) == OthersAhead(side, rest, others, k, now) >= 0
    {
      DropKey(side, rest, mine, k, now);
      OthersNonNegative(side, rest, others, k, now);
    }
    if sum >= maxDepth {
      DeepHas(others, maxDepth);
      assert forall k :: k in others ==> Sized(k, maxDepth) in tail;
    } else {
      MergeExact(side, rest, others, maxDepth, now, sum);
    }
    assert Reports(side, rest, others, maxDepth, now, sum, tail);
    HeadReports(side, s, mine, maxDepth, now, sum, tail);
  }

  lemma HeadReports(side: Side, s: seq<LeafNode>, mine: seq<Key>, maxDepth: int, now: nat, sum: int, tail: seq<Sized>)
    requires s != [] && mine != [] && s[0].key == mine[0] && mine[0] !in mine[1..] && 0 <= sum <= maxDepth
    requires Reports(side, s[1..], mine[1..], maxDepth, now, sum, tail)
    requires forall k :: k in mine[1..] ==>
             OthersAhead(side, s, mine, k, now) == OthersAhead(side, s[1..], mine[1..], k, now)
    ensures Reports(side, s, mine, maxDepth, now, sum, [Sized(mine[0], sum)] + tail)
  {
    hide OthersAhead;
    var out := [Sized(mine[0], sum)] + tail;
    assert OthersAhead(side, s, mine, mine[0], now) == 0 by { NoneAhead(side, s, mine, now); }
    assert mine == [mine[0]] + mine[1..];
    forall k | k in mine && k in KeysOf(s)
      ensures exists e :: e in out && e.key == k
    {
      if k == mine[0] {
        assert Sized(k, sum) in out;
      } else {
        var e :| e in tail && e.key == k;
        assert e in out;
      }
    }
  }

  lemma NoneAhead(side: Side, s: seq<LeafNode>, mine: seq<Key>, now: nat)
    requires s != []
    ensures OthersAhead(side, s, mine, s[0].key, now) == 0
  {
  }

  lemma {:induction false} StepMissing(side: Side, s: seq<LeafNode>, mine: seq<Key>, maxDepth: int, now: nat, sum: int)
    requires Sorted(side, s) && Tradable(s) && Ranked(side, mine) && 0 <= sum <= maxDepth && s != [] && mine != []
    requires !Ahead(side, s[0].key, mine[0]) && s[0].key != mine[0]
    ensures Reports(side, s, mine, maxDepth, now, sum, Merge(side, s, mine, maxDepth, now, sum))
    decreases |s| + |mine|, 0
  {
    hide LeafNode.Price, LeafNode.IsValid, KeysOf;
    var others := mine[1..];
    SortedTail(side, s);
    KeysSplit(s);
    RankedTail(side, mine);
    assert mine[0] !in KeysOf(s);
    forall k | k in others
      ensures OthersAhead(side, s, mine, k, now) == OthersAhead(side, s, others, k, now) >= 0
    {
      DropKey(side, s, mine, k, now);
      OthersNonNegative(side, s, others, k, now);
    }
    if sum >= maxDepth {
      DeepHas(others, maxDepth);
      assert forall k :: k in others ==> Sized(k, maxDepth) in Deep(others, maxDepth);
    } else {
      MergeExact(side, s, others, maxDepth, now, sum);
    }
    assert forall k :: k in mine ==> k == mine[0] || k in others;
  }

  // ----- The same depth looked up order by order

  /** Valid lots ahead of an order id, up to the depth; the whole side if the id is not there. */
  function SizeAheadOfOrder(valid: seq<LeafNode>, key: Key, maxDepth: int, sum: int): int {
    if valid == [] || valid[0].key == key || sum >= maxDepth then Min(sum, maxDepth)
    else SizeAheadOfOrder(valid[1..], key, maxDepth, sum + valid[0].quantity)
  }

  /** The orders of a side without the own ones that are ahead of `key`. */
  function WithoutOwn(s: seq<LeafNode>, mine: seq<Key>, key: Key): seq<LeafNode> {
    if s == [] then []
    else if s[0].key in mine && s[0].key != key then WithoutOwn(s[1..], mine, key)
    else [s[0]] + WithoutOwn(s[1..], mine, key)
  }

  lemma ValidWithout(s: seq<LeafNode>, mine: seq<Key>, key: Key, now: nat)
    requires s != []
    ensures ValidAt(WithoutOwn(s, mine, key), now) ==
            (if s[0].IsValid(now) && (s[0].key !in mine || s[0].key == key) then [s[0]] else []) +
            ValidAt(WithoutOwn(s[1..], mine, key), now)
  {
  }

  lemma LaterKey(side: Side, s: seq<LeafNode>, key: Key, now: nat)
    requires Sorted(side, s) && s != [] && exists o :: o in s && o.key == key && o.IsValid(now)
    ensures if s[0].key == key then s[0].IsValid(now)
            else Ahead(side, s[0].key, key) && exists o :: o in s[1..] && o.key == key && o.IsValid(now)
  {
    hide LeafNode.IsValid;
    SortedTail(side, s);
    KeysOfIn(s[1..]);
    var x :| x in s && x.key == key && x.IsValid(now);
    assert s == [s[0]] + s[1..];
    if s[0].key == key {
      assert forall y :: y in s[1..] ==> y.key != key;
    } else {
      assert x in s[1..];
    }
  }

  /**
   * For a valid order on the book the depth ahead of it, once the account's other orders are gone, is what the single
   * pass computes.
   */
  lemma {:induction false} DepthAhead(side: Side, s: seq<LeafNode>, mine: seq<Key>, key: Key, maxDepth: int, now: nat,
                                      sum: int)
    requires Sorted(side, s) && Tradable(s) && 0 <= sum
    requires exists o :: o in s && o.key == key && o.IsValid(now)
    ensures SizeAheadOfOrder(ValidAt(WithoutOwn(s, mine, key), now), key, maxDepth, sum) ==
            Min(maxDepth, sum + OthersAhead(side, s, mine, key, now))
  {
    hide LeafNode.Price, LeafNode.IsValid, ValidAt, WithoutOwn;
    var o, rest := s[0], s[1..];
    SortedTail(side, s);
    LaterKey(side, s, key, now);
    ValidWithout(s, mine, key, now);
    assert o in s;
    if o.key != key {
      OthersNonNegative(side, rest, mine, key, now);
      var counts := o.IsValid(now) && o.key !in mine;
      var tail := ValidAt(WithoutOwn(rest, mine, key), now);
      assert ([o] + tail)[1..] == tail && [] + tail == tail;
      if !counts || sum < maxDepth {
        DepthAhead(side, rest, mine, key, maxDepth, now, if counts then sum + o.quantity else sum);
      }
    }
  }

  /**
   * What the pass reports for a valid order on the book is what looking it up would give without the other own orders.
   */
  lemma PassIsLookup(side: Side, s: seq<LeafNode>, mine: seq<Key>, maxDepth: int, now: nat, e: Sized)
    requires Sorted(side, s) && Tradable(s) && Ranked(side, mine) && maxDepth >= 0
    requires e in Merge(side, s, mine, maxDepth, now, 0)
    requires exists o :: o in s && o.key == e.key && o.IsValid(now)
    ensures e.size == SizeAheadOfOrder(ValidAt(WithoutOwn(s, mine, e.key), now), e.key, maxDepth, 0)
  {
    MergeExact(side, s, mine, maxDepth, now, 0);
    DepthAhead(side, s, mine, e.key, maxDepth, now, 0);
    KeysOfIn(s);
  }

  // ----- The own keys in order

  function InsertKey(side: Side, keys: seq<Key>, k: Key): seq<Key> {
    if keys == [] || Ahead(side, k, keys[0]) then [k] + keys else [keys[0]] + InsertKey(side, keys[1..], k)
  }

  function RankKeys(side: Side, keys: seq<Key>): seq<Key> {
    if keys == [] then [] else InsertKey(side, RankKeys(side, keys[1..]), keys[0])
  }

  lemma RankedCons(side: Side, k: Key, keys: seq<Key>)
    requires Ranked(side, keys) && forall x :: x in keys ==> Ahead(side, k, x)
    ensures Ranked(side, [k] + keys)
  {
  }

  lemma {:induction false} InsertKeyRanked(side: Side, keys: seq<Key>, k: Key)
    requires Ranked(side, keys) && k !in keys
    ensures Ranked(side, InsertKey(side, keys, k)) && forall x :: x in InsertKey(side, keys, k) <==> x == k || x in keys
  {
    if keys != [] {
      assert keys == [keys[0]] + keys[1..];
      RankedTail(side, keys);
      if Ahead(side, k, keys[0]) {
        RankedCons(side, k, keys);
      } else {
        InsertKeyRanked(side, keys[1..], k);
        RankedCons(side, keys[0], InsertKey(side, keys[1..], k));
      }
    }
  }

  predicate AllDiffer(keys: seq<Key>) {
    keys == [] || (keys[0] !in keys[1..] && AllDiffer(keys[1..]))
  }

  lemma {:induction false} RankKeysRanked(side: Side, keys: seq<Key>)
    requires AllDiffer(keys)
    ensures Ranked(side, RankKeys(side, keys)) && forall x :: x in RankKeys(side, keys) <==> x in keys
  {
    if keys != [] {
      RankKeysRanked(side, keys[1..]);
      InsertKeyRanked(side, RankKeys(side, keys[1..]), keys[0]);
      assert keys == [keys[0]] + keys[1..];
    }
  }

  // ----- The passes over the book

  method GetSizeAheadOfOrder(side: BookSide, key: Key, maxDepth: int, now: nat) returns (r: int)
    requires side.Valid()
    ensures r == SizeAheadOfOrder(ValidAt(side.Resting(), now), key, maxDepth, 0)
  {
    hide ValidAt, BookSide.Valid, BookSide.Resting, BookSideIter.Valid, BookSideIter.Upcoming;
    var iter := new BookSideIter(side, now);
    var s := 0;
    ghost var all := iter.Upcoming();
    var next := iter.Next();
    while next.Some?
      invariant iter.Valid() && iter.bookSide == side
      invariant SizeAheadOfOrder(all, key, maxDepth, 0) ==
                SizeAheadOfOrder((if next.Some? then [next.value.1] + iter.Upcoming() else []), key, maxDepth, s)
      decreases if next.Some? then 1 + |iter.Upcoming()| else 0
    {
      if next.value.1.key == key || s >= maxDepth {
        return Min(s, maxDepth);
      }
      s := s + next.value.1.quantity;
      next := iter.Next();
    }
    r := Min(s, maxDepth);
  }

  /** The pass, over all orders of the side whether valid or not. */
  method CollectSizes(side: BookSide, mine: seq<Key>, maxDepth: int, now: nat) returns (out: seq<Sized>)
    requires side.Valid()
    ensures out == Merge(side.side, side.Resting(), mine, maxDepth, now, 0)
  {
    hide ValidAt, BookSide.Valid, BookSide.Resting, BookSideIter.Valid, BookSideIter.Upcoming, LeafNode.IsValid;
    hide Merge, Deep;
    NoneLeft(side.side, mine, maxDepth, now);
    AllValidAtZero(side.Resting());
    var iter := new BookSideIter(side, 0);
    var keys, sum := mine, 0;
    out := [];
    var next := iter.Next();
    while next.Some? && keys != []
      invariant iter.Valid() && iter.bookSide == side
      invariant Merge(side.side, side.Resting(), mine, maxDepth, now, 0) ==
        out + Merge(side.side, (if next.Some? then [next.value.1] + iter.Upcoming() else []), keys, maxDepth, now, sum)
      decreases if next.Some? then 1 + |iter.Upcoming()| else 0, |keys|
    {
      var order := next.value.1;
      ghost var left := [order] + iter.Upcoming();
      assert left[0] == order && left[1..] == iter.Upcoming();
      MergeStep(side.side, left, keys, maxDepth, now, sum);
      ghost var (s', keys', sum', found) := PassStep(side.side, left, keys, now, sum);
      Regroup(out, found, PassRest(side.side, s', keys', maxDepth, now, sum'));
      assert out + [] == out;
      if Ahead(side.side, order.key, keys[0]) {
        if order.IsValid(now) { sum := sum + order.quantity; }
        next := iter.Next();
      } else if order.key == keys[0] {
        out := out + [Sized(keys[0], sum)];
        keys := keys[1..];
        next := iter.Next();
      } else {
        keys := keys[1..];
      }
      if sum >= maxDepth {
        out := out + Deep(keys, maxDepth);
        return;
      }
    }
  }

  lemma NoneLeft(side: Side, mine: seq<Key>, maxDepth: int, now: nat)
    ensures forall s, sum :: (Merge(side, s, [], maxDepth, now, sum) == [])
    ensures forall keys, sum :: (Merge(side, [], keys, maxDepth, now, sum) == [])
  {
  }

  /** One step of the pass: the orders and keys left, the sum, and what it reports. */
  function PassStep(side: Side, s: seq<LeafNode>, mine: seq<Key>, now: nat, sum: int):
    (seq<LeafNode>, seq<Key>, int, seq<Sized>)
    requires s != [] && mine != []
  {
    if Ahead(side, s[0].key, mine[0]) then (s[1..], mine, if s[0].IsValid(now) then sum + s[0].quantity else sum, [])
    else if s[0].key == mine[0] then (s[1..], mine[1..], sum, [Sized(mine[0], sum)])
    else (s, mine[1..], sum, [])
  }

  /** What the pass still reports: once the depth is reached all that is left is deep. */
  function PassRest(side: Side, s: seq<LeafNode>, mine: seq<Key>, maxDepth: int, now: nat, sum: int): seq<Sized> {
    if sum >= maxDepth then Deep(mine, maxDepth) else Merge(side, s, mine, maxDepth, now, sum)
  }

  lemma MergeStep(side: Side, s: seq<LeafNode>, mine: seq<Key>, maxDepth: int, now: nat, sum: int)
    requires s != [] && mine != []
    ensures
      var (s', mine', sum', out) := PassStep(side, s, mine, now, sum);
      Merge(side, s, mine, maxDepth, now, sum) == out + PassRest(side, s', mine', maxDepth, now, sum')
  {
    hide LeafNode.IsValid, Deep;
    var (s', mine', sum', out) := PassStep(side, s, mine, now, sum);
    var rest := PassRest(side, s', mine', maxDepth, now, sum');
    if out == [] { assert [] + rest == rest; }
  }

  lemma Regroup(a: seq<Sized>, b: seq<Sized>, c: seq<Sized>)
    ensures a + (b + c) == (a + b) + c
  {
  }
}
