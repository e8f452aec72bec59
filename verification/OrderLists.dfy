/** One side of the book as a list in price-time order: the reference the tree is proved against. */
module OrderLists {
  import opened OrderKeys
  import opened Types

  /** Price-time priority on one side: bids from the highest key, asks from the lowest. */
  predicate Ahead(side: Side, a: Key, b: Key) {
    if side == Bid then a > b else a < b
  }

  ghost predicate Sorted(side: Side, orders: seq<LeafNode>) {
    forall i, j :: 0 <= i < j < |orders| ==> Ahead(side, orders[i].key, orders[j].key)
  }

  function KeysOf(s: seq<LeafNode>): set<Key> {
    if s == [] then {} else {s[0].key} + KeysOf(s[1..])
  }

  lemma {:induction false} KeysOfIn(s: seq<LeafNode>)
    ensures forall i :: 0 <= i < |s| ==> s[i].key in KeysOf(s)
    ensures forall k :: k in KeysOf(s) ==> exists i :: 0 <= i < |s| && s[i].key == k
  {
    if s != [] {
      KeysOfIn(s[1..]);
      forall k | k in KeysOf(s)
        ensures exists i :: 0 <= i < |s| && s[i].key == k
      {
        if k != s[0].key {
          var i :| 0 <= i < |s[1..]| && s[1..][i].key == k;
          assert s[i + 1].key == k;
        }
      }
    }
  }

  lemma {:induction false} KeysOfConcat(a: seq<LeafNode>, b: seq<LeafNode>)
    ensures KeysOf(a + b) == KeysOf(a) + KeysOf(b)
  {
    if a == [] {
      assert a + b == b;
    } else {
      assert (a + b)[1..] == a[1..] + b;
      KeysOfConcat(a[1..], b);
    }
  }

  lemma SortedConcat(side: Side, a: seq<LeafNode>, b: seq<LeafNode>)
    requires Sorted(side, a) && Sorted(side, b)
    requires forall x, y :: x in KeysOf(a) && y in KeysOf(b) ==> Ahead(side, x, y)
    ensures Sorted(side, a + b)
  {
    KeysOfIn(a);
    KeysOfIn(b);
  }

  /** Puts an order at its place, replacing one with the same key. */
  function InsertOrder(side: Side, s: seq<LeafNode>, leaf: LeafNode): seq<LeafNode> {
    if s == [] then [leaf]
    else if s[0].key == leaf.key then [leaf] + s[1..]
    else if Ahead(side, leaf.key, s[0].key) then [leaf] + s
    else [s[0]] + InsertOrder(side, s[1..], leaf)
  }

  function RemoveOrder(s: seq<LeafNode>, key: Key): seq<LeafNode> {
    if s == [] then []
    else if s[0].key == key then s[1..]
    else [s[0]] + RemoveOrder(s[1..], key)
  }

  function WithQuantity(s: seq<LeafNode>, key: Key, q: int): seq<LeafNode> {
    if s == [] then []
    else if s[0].key == key then [s[0].(quantity := q)] + s[1..]
    else [s[0]] + WithQuantity(s[1..], key, q)
  }

  function FindOrder(s: seq<LeafNode>, key: Key): Option<LeafNode> {
    if s == [] then None
    else if s[0].key == key then Some(s[0])
    else FindOrder(s[1..], key)
  }

  lemma {:induction false} WithQuantityLength(s: seq<LeafNode>, key: Key, q: int)
    ensures |WithQuantity(s, key, q)| == |s|
  {
    if s != [] { WithQuantityLength(s[1..], key, q); }
  }

  lemma {:induction false} WithQuantityKeys(side: Side, s: seq<LeafNode>, key: Key, q: int)
    requires Sorted(side, s)
    ensures KeysOf(WithQuantity(s, key, q)) == KeysOf(s) && Sorted(side, WithQuantity(s, key, q))
  {
    if s != [] {
      SortedTail(side, s);
      WithQuantityKeys(side, s[1..], key, q);
      SortedConcat(side, [s[0].(quantity := q)], s[1..]);
      SortedConcat(side, [s[0]], WithQuantity(s[1..], key, q));
    }
  }

  lemma ConsConcat(x: LeafNode, c: seq<LeafNode>, d: seq<LeafNode>)
    ensures [x] + (c + d) == ([x] + c) + d
  {
  }

  lemma {:induction false} WithQuantityConcat(a: seq<LeafNode>, b: seq<LeafNode>, key: Key, q: int)
    ensures WithQuantity(a + b, key, q) ==
            if key in KeysOf(a) then WithQuantity(a, key, q) + b else a + WithQuantity(b, key, q)
  {
    if a == [] {
      assert a + b == b;
    } else {
      var x, c := a[0], a[1..];
      assert (a + b)[1..] == c + b;
      if x.key == key {
        assert [x.(quantity := q)] + (c + b) == [x.(quantity := q)] + c + b;
      } else {
        WithQuantityConcat(c, b, key, q);
        ConsConcat(x, WithQuantity(c, key, q), b);
        ConsConcat(x, c, WithQuantity(b, key, q));
        assert [x] + c == a;
      }
    }
  }

  lemma {:induction false} RemoveConcat(a: seq<LeafNode>, b: seq<LeafNode>, key: Key)
    ensures RemoveOrder(a + b, key) == if key in KeysOf(a) then RemoveOrder(a, key) + b else a + RemoveOrder(b, key)
  {
    if a == [] {
      assert a + b == b;
    } else {
      var x, c := a[0], a[1..];
      assert (a + b)[1..] == c + b;
      if x.key != key {
        RemoveConcat(c, b, key);
        ConsConcat(x, RemoveOrder(c, key), b);
        ConsConcat(x, c, RemoveOrder(b, key));
        assert [x] + c == a;
      }
    }
  }

  lemma {:induction false} FindConcat(a: seq<LeafNode>, b: seq<LeafNode>, key: Key)
    ensures FindOrder(a + b, key) == if key in KeysOf(a) then FindOrder(a, key) else FindOrder(b, key)
  {
    if a == [] {
      assert a + b == b;
    } else {
      assert (a + b)[1..] == a[1..] + b;
      if a[0].key != key { FindConcat(a[1..], b, key); }
    }
  }

  lemma {:induction false} FindMember(side: Side, s: seq<LeafNode>, o: LeafNode)
    requires Sorted(side, s) && o in s
    ensures FindOrder(s, o.key) == Some(o)
  {
    var i :| 0 <= i < |s| && s[i] == o;
    if i > 0 {
      assert s[1..][i - 1] == o;
      FindMember(side, s[1..], o);
    }
  }

  lemma SortedTail(side: Side, s: seq<LeafNode>)
    requires Sorted(side, s) && s != []
    ensures Sorted(side, s[1..]) && s[0].key !in KeysOf(s[1..])
    ensures forall k :: k in KeysOf(s[1..]) ==> Ahead(side, s[0].key, k)
  {
    KeysOfIn(s[1..]);
  }

  lemma {:induction false} FindOrderIn(s: seq<LeafNode>, key: Key)
    ensures FindOrder(s, key).Some? <==> key in KeysOf(s)
    ensures FindOrder(s, key).Some? ==> FindOrder(s, key).value in s && FindOrder(s, key).value.key == key
  {
    if s != [] {
      FindOrderIn(s[1..], key);
    }
  }

  lemma FindOrderAt(a: seq<LeafNode>, leaf: LeafNode, b: seq<LeafNode>)
    requires leaf.key !in KeysOf(a)
    ensures FindOrder(a + [leaf] + b, leaf.key) == Some(leaf)
    ensures RemoveOrder(a + [leaf] + b, leaf.key) == a + b
  {
    assert a + [leaf] + b == a + ([leaf] + b) && ([leaf] + b)[1..] == b;
    FindConcat(a, [leaf] + b, leaf.key);
    RemoveConcat(a, [leaf] + b, leaf.key);
  }

  lemma {:induction false} ReplaceOrderAt(side: Side, a: seq<LeafNode>, was: LeafNode, leaf: LeafNode, b: seq<LeafNode>)
    requires was.key == leaf.key && Sorted(side, a + [leaf] + b)
    ensures InsertOrder(side, a + [was] + b, leaf) == a + [leaf] + b
  {
    var s, s' := a + [was] + b, a + [leaf] + b;
    if a == [] {
      assert s == [was] + b && s' == [leaf] + b;
    } else {
      SortedTail(side, s');
      assert s'[1..] == a[1..] + [leaf] + b && s[1..] == a[1..] + [was] + b;
      assert s'[|a|] == leaf && s'[0] == a[0];
      ReplaceOrderAt(side, a[1..], was, leaf, b);
    }
  }

  /** Only one place keeps the list sorted, so a sorted result is the sorted insertion. */
  lemma {:induction false} InsertOrderAt(side: Side, a: seq<LeafNode>, leaf: LeafNode, b: seq<LeafNode>)
    requires Sorted(side, a + [leaf] + b)
    ensures InsertOrder(side, a + b, leaf) == a + [leaf] + b
  {
    var s := a + [leaf] + b;
    if a == [] {
      assert a + b == b && s == [leaf] + b;
      if b != [] { assert s[1] == b[0]; }
    } else {
      SortedTail(side, s);
      assert s[1..] == a[1..] + [leaf] + b;
      assert (a + b)[1..] == a[1..] + b;
      assert s[|a|] == leaf && s[0] == a[0];
      InsertOrderAt(side, a[1..], leaf, b);
    }
  }

  lemma {:induction false} RemoveAbsent(s: seq<LeafNode>, key: Key)
    requires key !in KeysOf(s)
    ensures RemoveOrder(s, key) == s
  {
    if s != [] {
      RemoveAbsent(s[1..], key);
    }
  }

  function RemoveAll(s: seq<LeafNode>, keys: seq<Key>): seq<LeafNode>
    decreases keys
  {
    if keys == [] then s else RemoveAll(RemoveOrder(s, keys[0]), keys[1..])
  }

  ghost predicate DistinctIn(keys: seq<Key>, s: seq<LeafNode>) {
    && (forall i :: 0 <= i < |keys| ==> keys[i] in KeysOf(s))
    && (forall i, j :: 0 <= i < j < |keys| ==> keys[i] != keys[j])
  }

  lemma DistinctInTail(side: Side, s: seq<LeafNode>, keys: seq<Key>)
    requires Sorted(side, s) && DistinctIn(keys, s) && keys != []
    ensures Sorted(side, RemoveOrder(s, keys[0])) && DistinctIn(keys[1..], RemoveOrder(s, keys[0]))
    ensures KeysOf(RemoveOrder(s, keys[0])) == KeysOf(s) - {keys[0]}
  {
    RemoveSorted(side, s, keys[0]);
  }

  lemma {:induction false} RemoveAllConcat(side: Side, a: seq<LeafNode>, b: seq<LeafNode>, keys: seq<Key>)
    requires Sorted(side, a) && DistinctIn(keys, a)
    ensures RemoveAll(a + b, keys) == RemoveAll(a, keys) + b
    ensures KeysOf(RemoveAll(a, keys)) <= KeysOf(a)
    decreases keys
  {
    if keys != [] {
      DistinctInTail(side, a, keys);
      RemoveConcat(a, b, keys[0]);
      RemoveAllConcat(side, RemoveOrder(a, keys[0]), b, keys[1..]);
    }
  }

  lemma {:induction false} RemoveAllSnoc(s: seq<LeafNode>, keys: seq<Key>, k: Key)
    ensures RemoveAll(s, keys + [k]) == RemoveOrder(RemoveAll(s, keys), k)
    decreases keys
  {
    if keys == [] {
      assert [] + [k] == [k] && [k][1..] == [];
    } else {
      assert (keys + [k])[1..] == keys[1..] + [k];
      RemoveAllSnoc(RemoveOrder(s, keys[0]), keys[1..], k);
    }
  }

  // ----- The list as a finite map

  function ToMap(s: seq<LeafNode>): map<Key, LeafNode> {
    if s == [] then map[] else ToMap(s[1..])[s[0].key := s[0]]
  }

  lemma {:induction false} ToMapKeys(s: seq<LeafNode>)
    ensures ToMap(s).Keys == KeysOf(s)
  {
    if s != [] {
      ToMapKeys(s[1..]);
    }
  }

  lemma {:induction false} InsertSorted(side: Side, s: seq<LeafNode>, leaf: LeafNode)
    requires Sorted(side, s)
    ensures Sorted(side, InsertOrder(side, s, leaf))
    ensures KeysOf(InsertOrder(side, s, leaf)) == KeysOf(s) + {leaf.key}
  {
    if s != [] {
      SortedTail(side, s);
      if s[0].key == leaf.key {
        SortedConcat(side, [leaf], s[1..]);
      } else if Ahead(side, leaf.key, s[0].key) {
        SortedConcat(side, [leaf], s);
        assert ([leaf] + s)[1..] == s;
      } else {
        InsertSorted(side, s[1..], leaf);
        SortedConcat(side, [s[0]], InsertOrder(side, s[1..], leaf));
      }
    }
  }

  /** On sorted lists insertion is the map update and removal is the deletion of a key. */
  lemma {:induction false} InsertRefinesMap(side: Side, s: seq<LeafNode>, leaf: LeafNode)
    requires Sorted(side, s)
    ensures ToMap(InsertOrder(side, s, leaf)) == ToMap(s)[leaf.key := leaf]
  {
    ToMapKeys(s);
    if s != [] {
      SortedTail(side, s);
      ToMapKeys(s[1..]);
      if s[0].key != leaf.key && !Ahead(side, leaf.key, s[0].key) {
        InsertRefinesMap(side, s[1..], leaf);
      }
    }
  }

  lemma {:induction false} RemoveSorted(side: Side, s: seq<LeafNode>, key: Key)
    requires Sorted(side, s)
    ensures Sorted(side, RemoveOrder(s, key))
    ensures KeysOf(RemoveOrder(s, key)) == KeysOf(s) - {key}
  {
    if s != [] {
      SortedTail(side, s);
      if s[0].key != key {
        RemoveSorted(side, s[1..], key);
        SortedConcat(side, [s[0]], RemoveOrder(s[1..], key));
      }
    }
  }

  lemma {:induction false} RemoveRefinesMap(side: Side, s: seq<LeafNode>, key: Key)
    requires Sorted(side, s)
    ensures ToMap(RemoveOrder(s, key)) == ToMap(s) - {key}
  {
    ToMapKeys(s);
    if s != [] {
      SortedTail(side, s);
      ToMapKeys(s[1..]);
      if s[0].key != key {
        RemoveRefinesMap(side, s[1..], key);
      }
    }
  }

  // ----- The orders that are valid at a time

  function ValidAt(s: seq<LeafNode>, now: nat): seq<LeafNode> {
    if s == [] then [] else if s[0].IsValid(now) then [s[0]] + ValidAt(s[1..], now) else ValidAt(s[1..], now)
  }

  lemma {:induction false} ValidAtConcat(a: seq<LeafNode>, b: seq<LeafNode>, now: nat)
    ensures ValidAt(a + b, now) == ValidAt(a, now) + ValidAt(b, now)
  {
    if a == [] {
      assert a + b == b;
    } else {
      assert (a + b)[1..] == a[1..] + b;
      ValidAtConcat(a[1..], b, now);
      ConsConcat(a[0], ValidAt(a[1..], now), ValidAt(b, now));
    }
  }

  /** Time 0 stands for all orders: every expiry is later. */
  lemma {:induction false} AllValidAtZero(s: seq<LeafNode>)
    ensures ValidAt(s, 0) == s
  {
    if s != [] { AllValidAtZero(s[1..]); }
  }

  lemma {:induction false} ValidSorted(side: Side, s: seq<LeafNode>, now: nat)
    requires Sorted(side, s)
    ensures Sorted(side, ValidAt(s, now)) && KeysOf(ValidAt(s, now)) <= KeysOf(s)
  {
    hide LeafNode.IsValid;
    if s != [] {
      SortedTail(side, s);
      ValidSorted(side, s[1..], now);
      SortedConcat(side, [s[0]], ValidAt(s[1..], now));
      KeysOfConcat([s[0]], ValidAt(s[1..], now));
    }
  }

  // ----- The order that expires first

  /** The order with the lowest expiry, the one with the lowest key among equals. */
  function Soonest(side: Side, s: seq<LeafNode>): LeafNode
    requires s != []
  {
    if |s| == 1 then s[0] else Sooner(side, s[0], Soonest(side, s[1..]))
  }

  function Sooner(side: Side, x: LeafNode, y: LeafNode): LeafNode {
    if x.Expiry() < y.Expiry() || (side == Ask && x.Expiry() == y.Expiry()) then x else y
  }

  lemma {:induction false} SoonestIsSoonest(side: Side, s: seq<LeafNode>)
    requires s != []
    ensures Soonest(side, s) in s && forall o :: o in s ==> Soonest(side, s).Expiry() <= o.Expiry()
  {
    if |s| > 1 {
      SoonestIsSoonest(side, s[1..]);
      assert s == [s[0]] + s[1..];
    }
  }

  lemma {:induction false} SoonestConcat(side: Side, a: seq<LeafNode>, b: seq<LeafNode>)
    requires a != [] && b != []
    ensures Soonest(side, a + b) == Sooner(side, Soonest(side, a), Soonest(side, b))
  {
    if |a| == 1 {
      assert (a + b)[1..] == b;
    } else {
      SoonestConcat(side, a[1..], b);
      assert (a + b)[1..] == a[1..] + b;
    }
  }
}
