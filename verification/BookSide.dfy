/** One side of the order book: the critbit tree kept in a fixed node array with an intrusive free list. */
module BookSides {
  import opened OrderKeys
  import opened Types
  import opened OrderLists
  import opened CritBitTree

  ghost predicate AgreeOutside(ns: seq<AnyNode>, ns': seq<AnyNode>, hs: set<Handle>) {
    |ns| == |ns'| && forall h :: 0 <= h < |ns| && h !in hs ==> ns[h] == ns'[h]
  }

  // ----- Changing one place of the tree

  /** Where the walk of an insertion ends: at a leaf with another key or above a node it does not belong under. */
  ghost predicate SplitsAt(t: Tree, key: Key) {
    t.NodeKey() != key && (t.Fork? ==> t.prefixLen <= 128 && SharedPrefixLen(t.key, key) < t.prefixLen)
  }

  /** The new inner node takes the cell of the old one, which moves to `mh`; the new leaf lives in `nh`. */
  function Split(t: Tree, leaf: LeafNode, nh: Handle, mh: Handle): Tree
    requires t.NodeKey() != leaf.key
  {
    SharedPrefixExact(t.NodeKey(), leaf.key);
    var s := SharedPrefixLen(t.NodeKey(), leaf.key);
    Join(t.h, s, leaf.key, CritBit(leaf.key, s), Tip(nh, leaf), t.(h := mh))
  }

  lemma OffSide(t: Tree, key: Key)
    requires WellKeyed(t) && SplitsAt(t, key)
    ensures var s := SharedPrefixLen(t.NodeKey(), key);
      s < 128 && AllOnSide(KeySet(t), s, key, !CritBit(key, s))
    ensures key !in KeySet(t)
  {
    SharedPrefixExact(t.NodeKey(), key);
    var s := SharedPrefixLen(t.NodeKey(), key);
    if t.Fork? {
      forall x | x in KeySet(t)
        ensures OnSide(x, s, key, !CritBit(key, s))
      {
        if x in KeySet(t.right) {
          assert OnSide(x, t.prefixLen, t.key, true);
        } else {
          assert OnSide(x, t.prefixLen, t.key, false);
        }
        PrefixShorter(x, t.key, t.prefixLen, s);
      }
    }
  }

  lemma {:induction false} AdmittedAbsent(p: Path, t: Tree, key: Key)
    requires WellKeyed(Plug(p, t)) && Admits(p, key) && key !in KeySet(t)
    ensures key !in KeySet(Plug(p, t))
  {
    if p.Step? {
      PlugWellKeyed(p, t);
      AdmittedAbsent(p.up, Fill(p.f, t), key);
    }
  }

  /** The new node over the old subtree and the new leaf is well-keyed and has one key more. */
  lemma SplitKeyed(t: Tree, leaf: LeafNode, nh: Handle, mh: Handle)
    requires WellKeyed(t) && SplitsAt(t, leaf.key)
    ensures WellKeyed(Split(t, leaf, nh, mh)) && KeySet(Split(t, leaf, nh, mh)) == KeySet(t) + {leaf.key}
    ensures leaf.key !in KeySet(t)
  {
    OffSide(t, leaf.key);
  }

  lemma SplitWellKeyed(p: Path, t: Tree, leaf: LeafNode, nh: Handle, mh: Handle)
    requires WellKeyed(Plug(p, t)) && Admits(p, leaf.key) && SplitsAt(t, leaf.key)
    ensures WellKeyed(Plug(p, Split(t, leaf, nh, mh)))
    ensures leaf.key !in KeySet(Plug(p, t))
  {
    PlugWellKeyed(p, t);
    SplitKeyed(t, leaf, nh, mh);
    AdmittedAbsent(p, t, leaf.key);
    hide WellKeyed, Split, KeySet, Plug, PathWellKeyed, Admits;
    PlugWellKeyed(p, Split(t, leaf, nh, mh));
  }

  lemma SplitDistinct(p: Path, t: Tree, leaf: LeafNode, nh: Handle, mh: Handle)
    requires Distinct(Plug(p, t)) && SplitsAt(t, leaf.key)
    requires nh != mh && nh !in Handles(Plug(p, t)) && mh !in Handles(Plug(p, t))
    ensures var t' := Plug(p, Split(t, leaf, nh, mh));
      Distinct(t') && Handles(t') == Handles(Plug(p, t)) + {nh, mh}
  {
    var t' := Split(t, leaf, nh, mh);
    PlugDistinct(p, t);
    MoveKeeps(t, mh);
    assert t.h in Handles(t);
    assert Handles(t') == Handles(t) + {nh, mh};
    PlugDistinct(p, t');
  }

  lemma SplitOrders(p: Path, t: Tree, leaf: LeafNode, nh: Handle, mh: Handle, desc: bool)
    requires SplitsAt(t, leaf.key) && WellKeyed(Plug(p, Split(t, leaf, nh, mh)))
    ensures Orders(Plug(p, Split(t, leaf, nh, mh)), desc) == InsertOrder(SideOf(desc), Orders(Plug(p, t), desc), leaf)
    ensures |Orders(Plug(p, Split(t, leaf, nh, mh)), desc)| == |Orders(Plug(p, t), desc)| + 1
  {
    var t' := Split(t, leaf, nh, mh);
    PlugOrders(p, t, desc);
    PlugOrders(p, t', desc);
    OrdersSorted(Plug(p, t'), desc);
    var a, m, b := Before(p, desc), Orders(t, desc), After(p, desc);
    assert Orders(t.(h := mh), desc) == m;
    assert Orders(Tip(nh, leaf), desc) == [leaf];
    InsertBeside(SideOf(desc), a, leaf, m, b);
  }

  lemma InsertBeside(side: Side, a: seq<LeafNode>, leaf: LeafNode, m: seq<LeafNode>, b: seq<LeafNode>)
    ensures Sorted(side, a + ([leaf] + m) + b) ==> InsertOrder(side, a + m + b, leaf) == a + ([leaf] + m) + b
    ensures Sorted(side, a + (m + [leaf]) + b) ==> InsertOrder(side, a + m + b, leaf) == a + (m + [leaf]) + b
  {
    if Sorted(side, a + ([leaf] + m) + b) {
      assert a + ([leaf] + m) + b == a + [leaf] + (m + b);
      assert a + m + b == a + (m + b);
      InsertOrderAt(side, a, leaf, m + b);
    }
    if Sorted(side, a + (m + [leaf]) + b) {
      assert a + (m + [leaf]) + b == (a + m) + [leaf] + b;
      InsertOrderAt(side, a + m, leaf, b);
    }
  }

  lemma ClobberKeeps(ns: seq<AnyNode>, p: Path, h: Handle, was: LeafNode, leaf: LeafNode, desc: bool)
    requires Stored(ns, Plug(p, Tip(h, was))) && WellKeyed(Plug(p, Tip(h, was))) && Distinct(Plug(p, Tip(h, was)))
    requires was.key == leaf.key
    ensures h < |ns| && ns[h] == Leaf(was) && h in Handles(Plug(p, Tip(h, was)))
    ensures PathStored(ns[h := Leaf(leaf)], p, h, was.Expiry())
    ensures var t, t' := Plug(p, Tip(h, was)), Plug(p, Tip(h, leaf));
      && WellKeyed(t') && Distinct(t') && Handles(t') == Handles(t) && PathHandles(p) <= Handles(t) && t.h == t'.h
      && Orders(t', desc) == InsertOrder(SideOf(desc), Orders(t, desc), leaf) && |Orders(t', desc)| == |Orders(t, desc)|
      && FindOrder(Orders(t, desc), leaf.key) == Some(was)
  {
    var t, t' := Tip(h, was), Tip(h, leaf);
    PlugWellKeyed(p, t);
    PlugWellKeyed(p, t');
    PlugDistinct(p, t);
    PlugDistinct(p, t');
    PlugRoot(p, t, t');
    PlugStored(ns, p, t);
    PathFrame(ns, ns[h := Leaf(leaf)], p, h, was.Expiry());
    ClobberOrders(p, h, was, leaf, desc);
  }

  lemma ClobberOrders(p: Path, h: Handle, was: LeafNode, leaf: LeafNode, desc: bool)
    requires WellKeyed(Plug(p, Tip(h, was))) && WellKeyed(Plug(p, Tip(h, leaf))) && was.key == leaf.key
    ensures var t, t' := Plug(p, Tip(h, was)), Plug(p, Tip(h, leaf));
      && Orders(t', desc) == InsertOrder(SideOf(desc), Orders(t, desc), leaf) && |Orders(t', desc)| == |Orders(t, desc)|
      && FindOrder(Orders(t, desc), leaf.key) == Some(was)
  {
    PlugOrders(p, Tip(h, was), desc);
    PlugOrders(p, Tip(h, leaf), desc);
    OrdersSorted(Plug(p, Tip(h, was)), desc);
    OrdersSorted(Plug(p, Tip(h, leaf)), desc);
    ReplaceOrderAt(SideOf(desc), Before(p, desc), was, leaf, After(p, desc));
    FoundAt(SideOf(desc), Before(p, desc), was, After(p, desc));
  }

  lemma FoundAt(side: Side, a: seq<LeafNode>, leaf: LeafNode, b: seq<LeafNode>)
    requires Sorted(side, a + [leaf] + b)
    ensures FindOrder(a + [leaf] + b, leaf.key) == Some(leaf)
    ensures RemoveOrder(a + [leaf] + b, leaf.key) == a + b
  {
    var s := a + [leaf] + b;
    assert s[|a|] == leaf;
    KeysOfIn(a);
    assert forall i :: 0 <= i < |a| ==> s[i] == a[i];
    FindOrderAt(a, leaf, b);
  }

  /** Removing a leaf puts its sibling in the cell of their parent. */
  lemma PruneKeeps(p: Path, f: Frame, h: Handle, leaf: LeafNode)
    requires WellKeyed(Plug(Step(f, p), Tip(h, leaf))) && Distinct(Plug(Step(f, p), Tip(h, leaf)))
    ensures var t, t' := Plug(Step(f, p), Tip(h, leaf)), Plug(p, f.sibling.(h := f.h));
      && WellKeyed(t') && Distinct(t') && Handles(t') == Handles(t) - {h, f.sibling.h}
      && {h, f.sibling.h, f.h} <= Handles(t) && h != f.sibling.h && f.h != h && f.h != f.sibling.h
      && PathHandles(p) <= Handles(t') && Plug(p, f.sibling.(h := f.h)).h == t.h
  {
    var t, s := Tip(h, leaf), f.sibling.(h := f.h);
    PlugWellKeyed(Step(f, p), t);
    PlugDistinct(Step(f, p), t);
    assert f.sibling.h in Handles(f.sibling);
    MoveKeeps(f.sibling, f.h);
    PlugWellKeyed(p, s);
    PlugDistinct(p, s);
    PlugRoot(p, s, Fill(f, t));
  }

  /** The cells after a removal, before the parents learn of it. */
  lemma PruneStored(ns: seq<AnyNode>, p: Path, f: Frame, h: Handle, leaf: LeafNode, free1: AnyNode, free2: AnyNode)
    requires Stored(ns, Plug(Step(f, p), Tip(h, leaf))) && Distinct(Plug(Step(f, p), Tip(h, leaf)))
    ensures h < |ns| && f.h < |ns| && f.sibling.h < |ns|
    ensures ns[h] == Leaf(leaf) && ns[f.h].InnerNode? && ns[f.sibling.h].InUse()
    ensures ns[f.h].Child(f.right) == h && ns[f.h].Child(!f.right) == f.sibling.h
    ensures ns[f.sibling.h].EarliestExpiry() == MinExpiry(f.sibling.(h := f.h)) == MinExpiry(f.sibling)
    ensures var ns' := ns[f.sibling.h := free1][f.h := ns[f.sibling.h]][h := free2];
      && Stored(ns', f.sibling.(h := f.h))
      && PathStored(ns', p, f.h, Min(leaf.Expiry(), MinExpiry(f.sibling)))
  {
    hide Distinct, WellKeyed, Plug, Handles;
    var t := Tip(h, leaf);
    PlugStored(ns, Step(f, p), t);
    PlugDistinct(Step(f, p), t);
    StoredInUse(ns, f.sibling);
    RootHandle(ns, f.sibling);
    RootHandle(ns, t);
    var ns' := ns[f.sibling.h := free1][f.h := ns[f.sibling.h]][h := free2];
    StoredMove(ns, ns', f.sibling, f.h);
    MoveKeeps(f.sibling, f.h);
    PathFrame(ns, ns', p, f.h, Min(leaf.Expiry(), MinExpiry(f.sibling)));
  }

  lemma PruneOrders(p: Path, f: Frame, h: Handle, leaf: LeafNode, desc: bool)
    requires WellKeyed(Plug(Step(f, p), Tip(h, leaf)))
    ensures var t, t' := Plug(Step(f, p), Tip(h, leaf)), Plug(p, f.sibling.(h := f.h));
      && FindOrder(Orders(t, desc), leaf.key) == Some(leaf)
      && Orders(t', desc) == RemoveOrder(Orders(t, desc), leaf.key) && |Orders(t', desc)| == |Orders(t, desc)| - 1 > 0
  {
    KeySetOfOrders(f.sibling, desc);
    PlugOrders(Step(f, p), Tip(h, leaf), desc);
    PlugOrders(p, f.sibling.(h := f.h), desc);
    OrdersSorted(Plug(Step(f, p), Tip(h, leaf)), desc);
    var a, m, b := Before(p, desc), Orders(f.sibling, desc), After(p, desc);
    assert Orders(f.sibling.(h := f.h), desc) == m;
    assert a + [] == a && [] + b == b;
    RemoveBeside(SideOf(desc), a, leaf, m, b);
  }

  lemma RemoveBeside(side: Side, a: seq<LeafNode>, leaf: LeafNode, m: seq<LeafNode>, b: seq<LeafNode>)
    ensures Sorted(side, a + [leaf] + (m + b)) ==>
      FindOrder(a + [leaf] + (m + b), leaf.key) == Some(leaf)
        && RemoveOrder(a + [leaf] + (m + b), leaf.key) == a + m + b
    ensures Sorted(side, (a + m) + [leaf] + b) ==>
      FindOrder((a + m) + [leaf] + b, leaf.key) == Some(leaf)
        && RemoveOrder((a + m) + [leaf] + b, leaf.key) == a + m + b
  {
    assert a + m + b == a + (m + b);
    if Sorted(side, a + [leaf] + (m + b)) { FoundAt(side, a, leaf, m + b); }
    if Sorted(side, (a + m) + [leaf] + b) { FoundAt(side, a + m, leaf, b); }
  }

  lemma SplitPlace(ns: seq<AnyNode>, p: Path, t: Tree, leaf: LeafNode, desc: bool)
    requires Stored(ns, Plug(p, t)) && WellKeyed(Plug(p, t)) && Distinct(Plug(p, t))
    requires Admits(p, leaf.key) && SplitsAt(t, leaf.key)
    ensures t.h in Handles(Plug(p, t)) && t.h < |ns| && ns[t.h].InUse() && ns[t.h].EarliestExpiry() == MinExpiry(t)
    ensures leaf.key !in KeysOf(Orders(Plug(p, t), desc))
    ensures |Handles(Plug(p, t))| == 2 * |Orders(Plug(p, t), desc)| - 1
  {
    SplitWellKeyed(p, t, leaf, 0, 0);
    KeySetOfOrders(Plug(p, t), desc);
    HandleCount(Plug(p, t), desc);
    PlugStored(ns, p, t);
    PlugDistinct(p, t);
    StoredInUse(ns, t);
    assert t.h in Handles(t);
  }

  lemma SplitTree(p: Path, t: Tree, leaf: LeafNode, nh: Handle, mh: Handle, desc: bool)
    requires WellKeyed(Plug(p, t)) && Distinct(Plug(p, t)) && Admits(p, leaf.key) && SplitsAt(t, leaf.key)
    requires nh != mh && nh !in Handles(Plug(p, t)) && mh !in Handles(Plug(p, t))
    ensures var t0, t1 := Plug(p, t), Plug(p, Split(t, leaf, nh, mh));
      && WellKeyed(t1) && Distinct(t1) && t1.h == t0.h
      && Handles(t1) == Handles(t0) + {nh, mh} && PathHandles(p) <= Handles(t0)
      && Orders(t1, desc) == InsertOrder(SideOf(desc), Orders(t0, desc), leaf)
      && |Orders(t1, desc)| == |Orders(t0, desc)| + 1
    ensures Split(t, leaf, nh, mh).h == t.h && MinExpiry(Split(t, leaf, nh, mh)) == Min(leaf.Expiry(), MinExpiry(t))
  {
    SplitWellKeyed(p, t, leaf, nh, mh);
    SplitDistinct(p, t, leaf, nh, mh);
    SplitOrders(p, t, leaf, nh, mh, desc);
    PlugDistinct(p, t);
    PlugRoot(p, t, Split(t, leaf, nh, mh));
  }

  lemma SplitCells(ns: seq<AnyNode>, t: Tree, leaf: LeafNode, nh: Handle, mh: Handle, inner: AnyNode)
    requires Stored(ns, t) && Distinct(t) && SplitsAt(t, leaf.key)
    requires nh != mh && nh !in Handles(t) && mh !in Handles(t) && nh < |ns| && mh < |ns|
    requires var t' := Split(t, leaf, nh, mh);
      inner == InnerNode(t'.prefixLen, t'.key, t'.left.h, t'.right.h, MinExpiry(t'.left), MinExpiry(t'.right))
    ensures Stored(ns[nh := Leaf(leaf)][mh := ns[t.h]][t.h := inner], Split(t, leaf, nh, mh))
  {
    assert t.h in Handles(t);
    var ns' := ns[nh := Leaf(leaf)][mh := ns[t.h]][t.h := inner];
    StoredMove(ns, ns', t, mh);
    assert Stored(ns', Tip(nh, leaf));
  }

  /** The cells after a split, before the parents learn of it. */
  lemma SplitStored(ns: seq<AnyNode>, p: Path, t: Tree, leaf: LeafNode, nh: Handle, mh: Handle, inner: AnyNode)
    requires Stored(ns, Plug(p, t)) && Distinct(Plug(p, t)) && SplitsAt(t, leaf.key)
    requires nh != mh && nh !in Handles(Plug(p, t)) && mh !in Handles(Plug(p, t)) && nh < |ns| && mh < |ns|
    requires var t' := Split(t, leaf, nh, mh);
      inner == InnerNode(t'.prefixLen, t'.key, t'.left.h, t'.right.h, MinExpiry(t'.left), MinExpiry(t'.right))
    ensures t.h < |ns| && t.h != nh && t.h != mh
    ensures var ns' := ns[nh := Leaf(leaf)][mh := ns[t.h]][t.h := inner];
      Stored(ns', Split(t, leaf, nh, mh)) && PathStored(ns', p, t.h, MinExpiry(t))
  {
    hide Handles, PathHandles, Stored, PathStored, Distinct, Plug, Split, MinExpiry;
    PlugStored(ns, p, t);
    PlugDistinct(p, t);
    RootHandle(ns, t);
    var ns' := ns[nh := Leaf(leaf)][mh := ns[t.h]][t.h := inner];
    PathFrame(ns, ns', p, t.h, MinExpiry(t));
    SplitCells(ns, t, leaf, nh, mh, inner);
  }

  /** A key that is stored lies where the critical bits lead. */
  lemma WalkFinds(t: Tree, key: Key)
    requires t.Fork? && WellKeyed(t) && key in KeySet(t)
    ensures t.prefixLen < 128 && key in KeySet(t.Child(CritBit(key, t.prefixLen)))
  {
    assert OnSide(key, t.prefixLen, t.key, true) || OnSide(key, t.prefixLen, t.key, false);
  }

  // ----- Searching

  /** Choosing at every node the child that expires first, the left one on a tie, leads to the soonest order. */
  lemma {:induction false} SoonestInTree(t: Tree, desc: bool)
    ensures Orders(t, desc) != [] && Soonest(SideOf(desc), Orders(t, desc)).Expiry() == MinExpiry(t)
    ensures t.Fork? ==>
      var c := t.Child(MinExpiry(t.left) > MinExpiry(t.right));
      Orders(c, desc) != [] && Soonest(SideOf(desc), Orders(t, desc)) == Soonest(SideOf(desc), Orders(c, desc))
    ensures t.Tip? ==> Soonest(SideOf(desc), Orders(t, desc)) == t.leaf
  {
    if t.Fork? {
      SoonestInTree(t.left, desc);
      SoonestInTree(t.right, desc);
      if desc {
        SoonestConcat(Bid, Orders(t.right, desc), Orders(t.left, desc));
      } else {
        SoonestConcat(Ask, Orders(t.left, desc), Orders(t.right, desc));
      }
    }
  }

  /** One end of the priority order: the best order if `first`, else the worst. */
  function EndOf(s: seq<LeafNode>, first: bool): LeafNode
    requires s != []
  {
    if first then s[0] else s[|s| - 1]
  }

  lemma EndInTree(t: Tree, desc: bool, right: bool)
    requires t.Fork?
    ensures Orders(t, desc) != [] && Orders(t.Child(right), desc) != []
    ensures EndOf(Orders(t, desc), right == desc) == EndOf(Orders(t.Child(right), desc), right == desc)
  {
    KeySetOfOrders(t.left, desc);
    KeySetOfOrders(t.right, desc);
  }

  lemma RemoveEnd(side: Side, s: seq<LeafNode>)
    requires Sorted(side, s) && s != []
    ensures var n := |s| - 1;
      && FindOrder(s, s[n].key) == Some(s[n]) && RemoveOrder(s, s[n].key) == s[..n]
      && FindOrder(s, s[0].key) == Some(s[0]) && RemoveOrder(s, s[0].key) == s[1..]
  {
    var n := |s| - 1;
    assert s == s[..n] + [s[n]] + [] && s[..n] + [] == s[..n];
    FoundAt(side, s[..n], s[n], []);
  }

  // ----- Partial fills

  function WithTipQuantity(t: Tree, h: Handle, q: int): Tree {
    match t
    case Tip(g, leaf) => if g == h then Tip(g, leaf.(quantity := q)) else t
    case Fork(g, p, key, l, r) => Fork(g, p, key, WithTipQuantity(l, h, q), WithTipQuantity(r, h, q))
  }

  lemma {:induction false} QuantityAbsent(t: Tree, h: Handle, q: int)
    requires h !in Handles(t)
    ensures WithTipQuantity(t, h, q) == t
  {
    if t.Fork? {
      QuantityAbsent(t.left, h, q);
      QuantityAbsent(t.right, h, q);
    }
  }

  lemma {:induction false} QuantityKeeps(ns: seq<AnyNode>, t: Tree, h: Handle, q: int)
    requires Stored(ns, t) && WellKeyed(t) && Distinct(t) && h in Handles(t) && h < |ns| && ns[h].Leaf?
    ensures var t', ns' := WithTipQuantity(t, h, q), ns[h := Leaf(ns[h].leaf.(quantity := q))];
      && Stored(ns', t') && WellKeyed(t') && Distinct(t') && t'.h == t.h
      && Handles(t') == Handles(t) && KeySet(t') == KeySet(t) && MinExpiry(t') == MinExpiry(t)
    ensures ns[h].leaf.key in KeySet(t)
  {
    var ns' := ns[h := Leaf(ns[h].leaf.(quantity := q))];
    if t.Fork? {
      if h in Handles(t.left) {
        QuantityKeeps(ns, t.left, h, q);
        QuantityAbsent(t.right, h, q);
        StoredFrame(ns, ns', t.right);
      } else {
        assert h in Handles(t.right);
        QuantityKeeps(ns, t.right, h, q);
        QuantityAbsent(t.left, h, q);
        StoredFrame(ns, ns', t.left);
      }
    }
  }

  lemma {:induction false} QuantityOrders(ns: seq<AnyNode>, t: Tree, h: Handle, q: int, desc: bool)
    requires Stored(ns, t) && WellKeyed(t) && Distinct(t) && h in Handles(t) && h < |ns| && ns[h].Leaf?
    ensures Orders(WithTipQuantity(t, h, q), desc) == WithQuantity(Orders(t, desc), ns[h].leaf.key, q)
  {
    if t.Fork? {
      var key := ns[h].leaf.key;
      KeySetOfOrders(t.left, desc);
      KeySetOfOrders(t.right, desc);
      OrdersSorted(t, desc);
      WithQuantityConcat(Orders(t.left, desc), Orders(t.right, desc), key, q);
      WithQuantityConcat(Orders(t.right, desc), Orders(t.left, desc), key, q);
      forall x, y | x in KeySet(t.left) && y in KeySet(t.right)
        ensures x != y
      {
        assert OnSide(x, t.prefixLen, t.key, false) && OnSide(y, t.prefixLen, t.key, true);
      }
      var c := if h in Handles(t.left) then t.left else t.right;
      QuantityKeeps(ns, c, h, q);
      QuantityOrders(ns, c, h, q, desc);
      QuantityAbsent(if h in Handles(t.left) then t.right else t.left, h, q);
    }
  }

  // ----- Allocation of cells

  ghost predicate Link(ns: seq<AnyNode>, free: seq<Handle>, i: nat)
    requires i < |free|
  {
    free[i] < |ns| && if i == |free| - 1 then ns[free[i]].LastFreeNode? else ns[free[i]] == FreeNode(free[i + 1])
  }

  /** The free list from its head to its last node. */
  ghost predicate FreeChain(ns: seq<AnyNode>, head: Handle, free: seq<Handle>) {
    && (free != [] ==> head == free[0])
    && forall i :: 0 <= i < |free| ==> Link(ns, free, i)
  }

  lemma PushFree(ns: seq<AnyNode>, head: Handle, free: seq<Handle>, h: Handle)
    requires FreeChain(ns, head, free) && h < |ns| && h !in free
    ensures FreeChain(ns[h := if free == [] then LastFreeNode(head) else FreeNode(head)], h, [h] + free)
  {
    var ns', free' := ns[h := if free == [] then LastFreeNode(head) else FreeNode(head)], [h] + free;
    forall i | 0 <= i < |free'|
      ensures Link(ns', free', i)
    {
      if i > 0 { assert Link(ns, free, i - 1); }
    }
  }

  lemma PopFree(ns: seq<AnyNode>, head: Handle, free: seq<Handle>, val: AnyNode)
    requires FreeChain(ns, head, free) && free != []
    requires forall i, j :: 0 <= i < j < |free| ==> free[i] != free[j]
    ensures head < |ns| && if |free| > 1 then ns[head].FreeNode? else ns[head].LastFreeNode?
    ensures FreeChain(ns[head := val], ns[head].next, free[1..])
  {
    assert Link(ns, free, 0);
    var ns', rest := ns[head := val], free[1..];
    forall i | 0 <= i < |rest|
      ensures Link(ns', rest, i)
    {
      assert Link(ns, free, i + 1);
    }
  }

  /** Used cells, free-list cells and the unused tail partition the array. */
  ghost predicate Partition(used: set<Handle>, free: seq<Handle>, bump: nat) {
    && (forall i, j :: 0 <= i < j < |free| ==> free[i] != free[j])
    && (forall h :: h in used ==> h < bump && h !in free)
    && (forall h :: h in free ==> h < bump)
    && (forall h :: 0 <= h < bump ==> h in used || h in free)
  }

  /** The cells are accounted for: `used`, the free list and the tail from `bump` on. */
  ghost predicate SlabOk(ns: seq<AnyNode>, free: seq<Handle>, head: Handle, len: nat, bump: nat, used: set<Handle>) {
    && |ns| == MAX_BOOK_NODES && bump <= MAX_BOOK_NODES && len == |free|
    && FreeChain(ns, head, free) && Partition(used, free, bump)
  }

  /** The cells hold a well-formed tree of `count` orders. */
  ghost predicate TreeOk(ns: seq<AnyNode>, tree: Option<Tree>, root: Handle, count: nat, desc: bool) {
    match tree
    case None => count == 0
    case Some(t) =>
      && root == t.h && count == |Orders(t, desc)| > 0
      && Stored(ns, t) && WellKeyed(t) && Distinct(t)
  }

  lemma UsedInRange(ns: seq<AnyNode>, free: seq<Handle>, head: Handle, len: nat, bump: nat, used: set<Handle>)
    requires SlabOk(ns, free, head, len, bump, used)
    ensures forall h :: h in used ==> h < |ns|
  {
  }

  lemma SlabFrame(ns: seq<AnyNode>, ns': seq<AnyNode>, free: seq<Handle>, head: Handle, len: nat, bump: nat,
                  used: set<Handle>)
    requires SlabOk(ns, free, head, len, bump, used) && AgreeOutside(ns, ns', used)
    ensures SlabOk(ns', free, head, len, bump, used)
  {
    ChainFrame(ns, ns', head, free, used);
  }

  lemma ChainFrame(ns: seq<AnyNode>, ns': seq<AnyNode>, head: Handle, free: seq<Handle>, used: set<Handle>)
    requires FreeChain(ns, head, free) && AgreeOutside(ns, ns', used)
    requires forall h :: h in used ==> h !in free
    ensures FreeChain(ns', head, free)
  {
    forall i | 0 <= i < |free|
      ensures Link(ns', free, i)
    {
      assert Link(ns, free, i) && free[i] in free;
    }
  }

  lemma PartitionMoves(used: set<Handle>, free: seq<Handle>, bump: nat)
    requires Partition(used, free, bump)
    ensures forall h :: h in used ==> Partition(used - {h}, [h] + free, bump)
    ensures free != [] ==> free[0] !in used && Partition(used + {free[0]}, free[1..], bump)
    ensures free == [] ==> bump !in used && Partition(used + {bump}, free, bump + 1)
  {
    if free != [] {
      assert free == [free[0]] + free[1..];
      assert forall h :: h in free[1..] ==> h in free;
    }
  }

  lemma StackTop(stack: seq<(Handle, bool)>, i: nat, f: Frame, up: Path)
    requires i < |stack| && stack[..i + 1] == StackOf(Step(f, up))
    ensures stack[i] == (f.h, f.right) && stack[..i] == StackOf(up)
  {
    assert stack[..i + 1][i] == stack[i] && stack[..i + 1][..i] == stack[..i];
  }

  lemma StackLast(stack: seq<(Handle, bool)>, f: Frame, up: Path)
    requires stack == StackOf(Step(f, up))
    ensures |stack| > 0 && stack[..|stack| - 1] == StackOf(up)
  {
  }

  /** One step of the walk back up: the parent gets the new expiry of the child it was reached from. */
  lemma LiftExpiry(ns: seq<AnyNode>, f: Frame, up: Path, t: Tree, stale: nat)
    requires Stored(ns, t) && PathStored(ns, Step(f, up), t.h, stale) && Distinct(Plug(Step(f, up), t))
    ensures f.h < |ns| && ns[f.h].InnerNode? && f.h in PathHandles(Step(f, up))
    ensures ns[f.h].ChildExpiry(f.right) == stale && ns[f.h].EarliestExpiry() == Min(stale, MinExpiry(f.sibling))
    ensures
      var ns' := ns[f.h := ns[f.h].WithChildExpiry(f.right, MinExpiry(t))];
      Stored(ns', Fill(f, t)) && PathStored(ns', up, f.h, Min(stale, MinExpiry(f.sibling)))
      && ns'[f.h].EarliestExpiry() == MinExpiry(Fill(f, t))
  {
    var ns' := ns[f.h := ns[f.h].WithChildExpiry(f.right, MinExpiry(t))];
    PlugDistinct(Step(f, up), t);
    StoredFrame(ns, ns', t);
    StoredFrame(ns, ns', f.sibling);
    PathFrame(ns, ns', up, f.h, Min(stale, MinExpiry(f.sibling)));
  }

  lemma {:induction false} RangeSize(n: nat, s: set<nat>)
    requires forall h: nat :: h in s <==> h < n
    ensures |s| == n
  {
    if n == 0 {
      assert s == {};
    } else {
      RangeSize(n - 1, s - {n - 1});
    }
  }

  function SetOf(s: seq<nat>): set<nat> {
    if s == [] then {} else {s[0]} + SetOf(s[1..])
  }

  lemma {:induction false} SetOfDistinct(s: seq<nat>)
    ensures forall h :: h in SetOf(s) <==> h in s
    ensures (forall i, j :: 0 <= i < j < |s| ==> s[i] != s[j]) ==> |SetOf(s)| == |s|
  {
    if s != [] { SetOfDistinct(s[1..]); }
  }

  lemma PartitionSize(used: set<Handle>, free: seq<Handle>, bump: nat)
    requires Partition(used, free, bump)
    ensures bump == |used| + |free|
  {
    SetOfDistinct(free);
    RangeSize(bump, used + SetOf(free));
    assert used !! SetOf(free);
  }

  class BookSide {
    const side: Side
    var bumpIndex: nat
    var freeListLen: nat
    var freeListHead: Handle
    var rootNode: Handle
    var leafCount: nat
    const nodes: array<AnyNode>

    ghost var tree: Option<Tree>
    ghost var free: seq<Handle>

    ghost function Used(): set<Handle>
      reads this
    {
      if tree.None? then {} else Handles(tree.value)
    }

    /** The orders of this side in priority order. */
    ghost function Resting(): seq<LeafNode>
      reads this
    {
      if tree.None? then [] else Orders(tree.value, side == Bid)
    }

    ghost predicate Slab(used: set<Handle>)
      reads this, nodes
    {
      SlabOk(nodes[..], free, freeListHead, freeListLen, bumpIndex, used)
    }

    ghost predicate Valid()
      reads this, nodes
    {
      && nodes.Length == MAX_BOOK_NODES && Slab(Used())
      && TreeOk(nodes[..], tree, rootNode, leafCount, side == Bid)
    }

    constructor (s: Side)
      ensures Valid() && fresh(nodes) && side == s && Resting() == []
    {
      side := s;
      bumpIndex, freeListLen, freeListHead, rootNode, leafCount := 0, 0, 0, 0, 0;
      nodes := new AnyNode[MAX_BOOK_NODES](_ => Uninitialized);
      tree, free := None, [];
    }

    /** Frees a cell and returns what it held. */
    method Remove(h: Handle, ghost used: set<Handle>) returns (val: AnyNode)
      requires Slab(used) && h in used && nodes[h].InUse()
      modifies this`freeListLen, this`freeListHead, this`free, nodes
      ensures Slab(used - {h}) && val == old(nodes[h])
      ensures nodes[..] == old(nodes[..])[h := nodes[h]]
    {
      PushFree(nodes[..], freeListHead, free, h);
      PartitionMoves(used, free, bumpIndex);
      val := nodes[h];
      nodes[h] := if freeListLen == 0 then LastFreeNode(freeListHead) else FreeNode(freeListHead);
      freeListLen := freeListLen + 1;
      freeListHead := h;
      free := [h] + free;
      assert nodes[..] == old(nodes[..])[h := nodes[h]];
    }

    /** Takes a cell from the free list, or else from the tail, for a node. */
    method Insert(val: AnyNode, ghost used: set<Handle>) returns (r: Result<Handle>)
      requires Slab(used) && val.InUse()
      modifies this`bumpIndex, this`freeListLen, this`freeListHead, this`free, nodes
      ensures r.Ok? <==> |used| < MAX_BOOK_NODES
      ensures r.Ok? ==>
        var h := r.value;
        h !in used && h < MAX_BOOK_NODES && Slab(used + {h}) && nodes[..] == old(nodes[..])[h := val]
      ensures r.Err? ==> r.error == OutOfSpace && Slab(used) && nodes[..] == old(nodes[..])
    {
      PartitionSize(used, free, bumpIndex);
      PartitionMoves(used, free, bumpIndex);
      if freeListLen == 0 {
        if !(bumpIndex < nodes.Length) {
          return Err(OutOfSpace);
        }
        var key := bumpIndex;
        nodes[key] := val;
        bumpIndex := bumpIndex + 1;
        assert nodes[..] == old(nodes[..])[key := val];
        return Ok(key);
      }
      var key := freeListHead;
      PopFree(nodes[..], key, free, val);
      if nodes[key].FreeNode? {
        assert freeListLen > 1;
      } else {
        assert nodes[key].LastFreeNode? && freeListLen == 1;
      }
      freeListHead := nodes[key].next;
      freeListLen := freeListLen - 1;
      free := free[1..];
      nodes[key] := val;
      assert nodes[..] == old(nodes[..])[key := val];
      r := Ok(key);
    }

    /**
     * Carries a changed expiry from the place `p` towards the root. `stale` is the expiry the parents still
     * assume for the subtree `t`; the walk may stop where that is already right.
     */
    method UpdateParentEarliestExpiry(stack: seq<(Handle, bool)>, outdated: nat, updated: nat,
                                      ghost p: Path, ghost t: Tree, ghost stale: nat)
      requires stack == StackOf(p) && Distinct(Plug(p, t))
      requires Stored(nodes[..], t) && PathStored(nodes[..], p, t.h, stale)
      requires updated == MinExpiry(t) && (outdated == stale || updated == stale)
      modifies nodes
      ensures Stored(nodes[..], Plug(p, t))
      ensures AgreeOutside(old(nodes[..]), nodes[..], PathHandles(p))
    {
      hide Distinct, Handles;
      var outdatedExpiry, newExpiry := outdated, updated;
      var i := |stack|;
      ghost var q: Path, cur: Tree, assumed: nat := p, t, stale;
      while i > 0
        invariant 0 <= i <= |stack| && stack[..i] == StackOf(q)
        invariant Plug(q, cur) == Plug(p, t) && PathHandles(q) <= PathHandles(p)
        invariant Stored(nodes[..], cur) && PathStored(nodes[..], q, cur.h, assumed)
        invariant newExpiry == MinExpiry(cur) && (outdatedExpiry == assumed || newExpiry == assumed)
        invariant AgreeOutside(old(nodes[..]), nodes[..], PathHandles(p))
      {
        i := i - 1;
        var (parent, critBit) := stack[i];
        ghost var f, up := q.f, q.up;
        StackTop(stack, i, f, up);
        assert q == Step(f, up);
        LiftExpiry(nodes[..], f, up, cur, assumed);
        if nodes[parent].ChildExpiry(critBit) != outdatedExpiry {
          PlugStored(nodes[..], q, cur);
          return;
        }
        outdatedExpiry := nodes[parent].EarliestExpiry();
        ghost var ns := nodes[..];
        nodes[parent] := nodes[parent].WithChildExpiry(critBit, newExpiry);
        newExpiry := nodes[parent].EarliestExpiry();
        assert nodes[..] == ns[parent := ns[parent].WithChildExpiry(critBit, MinExpiry(cur))];
        q, cur, assumed := up, Fill(f, cur), Min(assumed, MinExpiry(f.sibling));
      }
      assert q == Root;
    }

    /**
     * Adds an order, or replaces the one with the same key. It fails only when a new order finds 512 others,
     * and then leaves the stored orders as they were.
     */
    method InsertLeaf(newLeaf: LeafNode) returns (r: Result<(Handle, Option<LeafNode>)>)
      requires Valid()
      modifies this, nodes
      ensures Valid()
      ensures r.Ok? <==> newLeaf.key in KeysOf(old(Resting())) || |old(Resting())| < SIDE_CAPACITY
      ensures r.Ok? ==>
        && Resting() == InsertOrder(side, old(Resting()), newLeaf)
        && r.value.1 == FindOrder(old(Resting()), newLeaf.key)
        && r.value.0 in Used() && r.value.0 < nodes.Length && nodes[r.value.0] == Leaf(newLeaf)
      ensures r.Err? ==> r.error == OutOfSpace && Resting() == old(Resting())
    {
      hide FreeChain, Partition;
      var stack: seq<(Handle, bool)> := [];
      if leafCount == 0 {
        var handle := Insert(Leaf(newLeaf), {});
        rootNode := handle.value;
        leafCount := 1;
        tree := Some(Tip(handle.value, newLeaf));
        return Ok((handle.value, None));
      }
      var root := rootNode;
      ghost var p, t := Root, tree.value;
      var contents := nodes[root];
      while contents.InnerNode? && SharedPrefixLen(contents.key, newLeaf.key) >= contents.prefixLen
        invariant Plug(p, t) == tree.value && t.h == root && stack == StackOf(p)
        invariant Stored(nodes[..], t) && WellKeyed(t) && Admits(p, newLeaf.key) && contents == nodes[root]
        modifies {}
        decreases t
      {
        SharedPrefixTest(contents.key, newLeaf.key, contents.prefixLen);
        var critBit := CritBit(newLeaf.key, contents.prefixLen);
        stack := stack + [(root, critBit)];
        root := contents.Child(critBit);
        p := Step(Frame(t.h, t.prefixLen, t.key, critBit, t.Child(!critBit)), p);
        t := t.Child(critBit);
        contents := nodes[root];
      }
      if contents.Leaf? && contents.Key() == newLeaf.key {
        r := Clobber(root, stack, newLeaf, p, t);
      } else {
        r := SplitNode(root, stack, newLeaf, SharedPrefixLen(contents.Key(), newLeaf.key), p, t);
      }
    }

    method Clobber(root: Handle, stack: seq<(Handle, bool)>, newLeaf: LeafNode, ghost p: Path, ghost t: Tree)
      returns (r: Result<(Handle, Option<LeafNode>)>)
      requires Valid() && tree == Some(Plug(p, t)) && stack == StackOf(p)
      requires t.Tip? && t.h == root && t.leaf.key == newLeaf.key
      modifies this, nodes
      ensures Valid() && r.Ok?
      ensures Resting() == InsertOrder(side, old(Resting()), newLeaf)
      ensures newLeaf.key in KeysOf(old(Resting())) && r.value.1 == FindOrder(old(Resting()), newLeaf.key)
      ensures r.value.0 in Used() && r.value.0 < nodes.Length && nodes[r.value.0] == Leaf(newLeaf)
    {
      ghost var ns, t', used := nodes[..], Tip(root, newLeaf), Used();
      ClobberKeeps(ns, p, root, t.leaf, newLeaf, side == Bid);
      FindOrderIn(Resting(), newLeaf.key);
      var oldRoot := nodes[root].leaf;
      nodes[root] := Leaf(newLeaf);
      assert nodes[..] == ns[root := Leaf(newLeaf)];
      UpdateParentEarliestExpiry(stack, oldRoot.Expiry(), newLeaf.Expiry(), p, t', oldRoot.Expiry());
      SlabFrame(ns, nodes[..], free, freeListHead, freeListLen, bumpIndex, used);
      tree := Some(Plug(p, t'));
      PlugStored(nodes[..], p, t');
      r := Ok((root, Some(oldRoot)));
    }

    /** Two cells, for a new leaf and for the node it displaces; on failure the first is given back. */
    method InsertPair(leaf: AnyNode, moved: AnyNode, ghost used: set<Handle>) returns (r: Result<(Handle, Handle)>)
      requires Slab(used) && leaf.InUse() && moved.InUse()
      modifies this`bumpIndex, this`freeListLen, this`freeListHead, this`free, nodes
      ensures r.Ok? <==> |used| + 2 <= MAX_BOOK_NODES
      ensures r.Ok? ==>
        var (a, b) := r.value;
        && a !in used && b !in used && a != b && a < MAX_BOOK_NODES && b < MAX_BOOK_NODES
        && Slab(used + {a, b}) && nodes[..] == old(nodes[..])[a := leaf][b := moved]
      ensures r.Err? ==> r.error == OutOfSpace && Slab(used) && forall h :: h in used ==> nodes[h] == old(nodes[h])
    {
      hide FreeChain, Partition;
      UsedInRange(nodes[..], free, freeListHead, freeListLen, bumpIndex, used);
      var first := Insert(leaf, used);
      if first.Err? {
        return Err(first.error);
      }
      var a := first.value;
      var second := Insert(moved, used + {a});
      if second.Err? {
        var _ := Remove(a, used + {a});
        assert used + {a} - {a} == used;
        return Err(second.error);
      }
      assert used + {a} + {second.value} == used + {a, second.value};
      r := Ok((a, second.value));
    }

    method SplitNode(root: Handle, stack: seq<(Handle, bool)>, newLeaf: LeafNode, shared: nat, ghost p: Path,
                     ghost t: Tree)
      returns (r: Result<(Handle, Option<LeafNode>)>)
      requires Valid() && tree == Some(Plug(p, t)) && stack == StackOf(p)
      requires t.h == root && Admits(p, newLeaf.key) && SplitsAt(t, newLeaf.key)
      requires shared == SharedPrefixLen(t.NodeKey(), newLeaf.key)
      modifies this, nodes
      ensures Valid() && newLeaf.key !in KeysOf(old(Resting()))
      ensures r.Ok? <==> |old(Resting())| < SIDE_CAPACITY
      ensures r.Ok? ==>
        && Resting() == InsertOrder(side, old(Resting()), newLeaf)
        && r.value.1 == None == FindOrder(old(Resting()), newLeaf.key)
        && r.value.0 in Used() && r.value.0 < nodes.Length && nodes[r.value.0] == Leaf(newLeaf)
      ensures r.Err? ==> r.error == OutOfSpace && Resting() == old(Resting())
    {
      hide Handles, Orders, WellKeyed, Distinct, Stored, Plug, Split, KeysOf, FreeChain, Partition;
      hide InsertOrder, FindOrder, StackOf, SharedPrefixLen, Admits;
      ghost var ns, t0, n := nodes[..], tree.value, |Resting()|;
      SplitPlace(ns, p, t, newLeaf, side == Bid);
      FindOrderIn(Resting(), newLeaf.key);
      assert |Handles(t0)| == 2 * n - 1;
      var cells := InsertPair(Leaf(newLeaf), nodes[root], Handles(t0));
      assert cells.Ok? <==> n < SIDE_CAPACITY;
      if cells.Err? {
        StoredInUse(ns, t0);
        StoredFrame(ns, nodes[..], t0);
        return Err(cells.error);
      }
      var (nh, mh) := cells.value;
      ghost var ns1, t1 := nodes[..], Plug(p, Split(t, newLeaf, nh, mh));
      SplitTree(p, t, newLeaf, nh, mh, side == Bid);
      AttachSplit(root, stack, newLeaf, shared, nh, mh, p, t, ns);
      SlabFrame(ns1, nodes[..], free, freeListHead, freeListLen, bumpIndex, Handles(t1));
      leafCount := leafCount + 1;
      tree := Some(t1);
      r := Ok((nh, None));
    }

    /** Turns `root` into the common ancestor of the new leaf in `nh` and of what was there, now in `mh`. */
    method AttachSplit(root: Handle, stack: seq<(Handle, bool)>, newLeaf: LeafNode, shared: nat, nh: Handle, mh: Handle,
                       ghost p: Path, ghost t: Tree, ghost ns: seq<AnyNode>)
      requires stack == StackOf(p) && t.h == root
      requires Stored(ns, Plug(p, t)) && WellKeyed(Plug(p, t)) && Distinct(Plug(p, t))
      requires Admits(p, newLeaf.key) && SplitsAt(t, newLeaf.key) && shared == SharedPrefixLen(t.NodeKey(), newLeaf.key)
      requires nh != mh && nh !in Handles(Plug(p, t)) && mh !in Handles(Plug(p, t))
      requires nh < |ns| && mh < |ns| && root < |ns| && nodes[..] == ns[nh := Leaf(newLeaf)][mh := ns[root]]
      modifies nodes
      ensures Stored(nodes[..], Plug(p, Split(t, newLeaf, nh, mh)))
      ensures AgreeOutside(old(nodes[..]), nodes[..], Handles(Plug(p, t)))
      ensures nodes[nh] == Leaf(newLeaf)
    {
      hide Handles, Orders, WellKeyed, Distinct, Stored, PathStored, PathHandles, Plug, KeysOf;
      ghost var t', ns1 := Split(t, newLeaf, nh, mh), nodes[..];
      SplitTree(p, t, newLeaf, nh, mh, false);
      SplitPlace(ns, p, t, newLeaf, false);
      assert nodes[..][mh] == nodes[mh];
      var critBit := CritBit(newLeaf.key, shared);
      var newLeafExpiry, oldRootExpiry := newLeaf.Expiry(), nodes[mh].EarliestExpiry();
      nodes[root] := if critBit
        then InnerNode(shared, newLeaf.key, mh, nh, oldRootExpiry, newLeafExpiry)
        else InnerNode(shared, newLeaf.key, nh, mh, newLeafExpiry, oldRootExpiry);
      assert nodes[..] == ns1[root := nodes[root]];
      SplitStored(ns, p, t, newLeaf, nh, mh, nodes[root]);
      RaiseExpiry(stack, oldRootExpiry, newLeafExpiry, p, t');
    }

    /** The parents need to hear of a new leaf only if it expires before the rest of its subtree. */
    method RaiseExpiry(stack: seq<(Handle, bool)>, oldRootExpiry: nat, newLeafExpiry: nat, ghost p: Path, ghost t: Tree)
      requires stack == StackOf(p) && Distinct(Plug(p, t))
      requires Stored(nodes[..], t) && PathStored(nodes[..], p, t.h, oldRootExpiry)
      requires MinExpiry(t) == Min(newLeafExpiry, oldRootExpiry)
      modifies nodes
      ensures Stored(nodes[..], Plug(p, t))
      ensures AgreeOutside(old(nodes[..]), nodes[..], PathHandles(p))
    {
      if newLeafExpiry < oldRootExpiry {
        UpdateParentEarliestExpiry(stack, oldRootExpiry, newLeafExpiry, p, t, oldRootExpiry);
      } else {
        PlugStored(nodes[..], p, t);
      }
    }

    /** Takes the order with a key off the tree, if there is one. */
    method RemoveByKey(searchKey: Key) returns (r: Option<LeafNode>)
      requires Valid()
      modifies this, nodes
      ensures Valid()
      ensures r == FindOrder(old(Resting()), searchKey)
      ensures Resting() == RemoveOrder(old(Resting()), searchKey)
    {
      hide Handles, Distinct, PathStored, FreeChain, Partition;
      FindOrderIn(Resting(), searchKey);
      if leafCount == 0 {
        return None;
      }
      var parent := rootNode;
      if nodes[parent].Leaf? {
        var leaf := nodes[parent].leaf;
        if leaf.key != searchKey {
          RemoveAbsent(Resting(), searchKey);
          return None;
        }
        r := RemoveRoot();
        return;
      }
      var critBit := CritBit(searchKey, nodes[parent].prefixLen);
      var child := nodes[parent].Child(critBit);
      var stack := [(parent, critBit)];
      ghost var t0 := tree.value;
      ghost var f, up := Frame(parent, t0.prefixLen, t0.key, critBit, t0.Child(!critBit)), Root;
      ghost var t := t0.Child(critBit);
      if searchKey in KeySet(t0) { WalkFinds(t0, searchKey); }
      assert stack == StackOf(Step(f, Root));
      while nodes[child].InnerNode?
        invariant Plug(Step(f, up), t) == t0 && stack == StackOf(Step(f, up))
        invariant t.h == child && f.h == parent && f.right == critBit
        invariant Stored(nodes[..], t) && WellKeyed(t)
        invariant searchKey in KeySet(t0) ==> searchKey in KeySet(t)
        modifies {}
        decreases t
      {
        if searchKey in KeySet(t) { WalkFinds(t, searchKey); }
        parent := child;
        critBit := CritBit(searchKey, nodes[parent].prefixLen);
        child := nodes[parent].Child(critBit);
        stack := stack + [(parent, critBit)];
        up := Step(f, up);
        f := Frame(parent, t.prefixLen, t.key, critBit, t.Child(!critBit));
        t := t.Child(critBit);
      }
      if nodes[child].leaf.key != searchKey {
        KeySetOfOrders(t0, side == Bid);
        RemoveAbsent(Resting(), searchKey);
        return None;
      }
      r := Prune(parent, child, critBit, stack, f, up, t.leaf);
    }

    method RemoveRoot() returns (r: Option<LeafNode>)
      requires Valid() && tree.Some? && tree.value.Tip?
      modifies this, nodes
      ensures Valid() && Resting() == [] && r == Some(old(tree).value.leaf) && old(Resting()) == [r.value]
    {
      var parent := rootNode;
      assert leafCount == 1;
      rootNode := 0;
      leafCount := 0;
      var oldRoot := Remove(parent, {parent});
      tree := None;
      assert {parent} - {parent} == {};
      r := Some(oldRoot.leaf);
    }

    /** Frees `child` and the cell `other` of its sibling, whose contents replace `parent`. */
    method ReplaceParent(parent: Handle, child: Handle, other: Handle, ghost used: set<Handle>)
      returns (removed: AnyNode, otherContents: AnyNode)
      requires Slab(used) && {parent, child, other} <= used && nodes.Length == MAX_BOOK_NODES
      requires parent != child && parent != other && child != other
      requires nodes[child].InUse() && nodes[other].InUse()
      modifies this`freeListLen, this`freeListHead, this`free, nodes
      ensures Slab(used - {other, child}) && removed == old(nodes[child]) && otherContents == old(nodes[other])
      ensures nodes[..] == old(nodes[..])[other := nodes[other]][parent := otherContents][child := nodes[child]]
    {
      otherContents := Remove(other, used);
      ghost var ns1 := nodes[..];
      nodes[parent] := otherContents;
      assert nodes[..] == ns1[parent := otherContents];
      SlabFrame(ns1, nodes[..], free, freeListHead, freeListLen, bumpIndex, used - {other});
      removed := Remove(child, used - {other});
      assert used - {other} - {child} == used - {other, child};
    }

    method Detach(parent: Handle, child: Handle, critBit: bool, ghost f: Frame, ghost p: Path, ghost leaf: LeafNode)
      returns (removedLeaf: LeafNode, newExpiry: nat, ghost stale: nat)
      requires Valid() && tree == Some(Plug(Step(f, p), Tip(child, leaf)))
      requires f.h == parent && f.right == critBit
      modifies this`freeListLen, this`freeListHead, this`free, nodes
      ensures var sibling := f.sibling.(h := f.h);
        && Stored(nodes[..], sibling) && newExpiry == MinExpiry(sibling) && removedLeaf == leaf
        && PathStored(nodes[..], p, sibling.h, stale) && (removedLeaf.Expiry() == stale || newExpiry == stale)
        && Slab(Handles(Plug(p, sibling)))
    {
      hide Handles, Orders, WellKeyed, Distinct, Stored, PathStored, PathHandles, Plug, SlabOk;
      ghost var ns, used := nodes[..], Used();
      PruneKeeps(p, f, child, leaf);
      PruneStored(ns, p, f, child, leaf, Uninitialized, Uninitialized);
      var other := nodes[parent].Child(!critBit);
      var removed, otherContents := ReplaceParent(parent, child, other, used);
      PruneStored(ns, p, f, child, leaf, nodes[other], nodes[child]);
      assert used - {other, child} == Handles(Plug(p, f.sibling.(h := f.h)));
      removedLeaf, newExpiry := removed.leaf, otherContents.EarliestExpiry();
      stale := Min(removedLeaf.Expiry(), newExpiry);
    }

    /** Replaces `parent` by its remaining child and tells the nodes above. */
    method Prune(parent: Handle, child: Handle, critBit: bool, stack: seq<(Handle, bool)>,
                 ghost f: Frame, ghost p: Path, ghost leaf: LeafNode)
      returns (r: Option<LeafNode>)
      requires Valid() && tree == Some(Plug(Step(f, p), Tip(child, leaf))) && stack == StackOf(Step(f, p))
      requires f.h == parent && f.right == critBit
      modifies this, nodes
      ensures Valid() && r == Some(leaf)
      ensures r == FindOrder(old(Resting()), leaf.key)
      ensures Resting() == RemoveOrder(old(Resting()), leaf.key)
    {
      hide Handles, Orders, WellKeyed, Distinct, Stored, PathStored, PathHandles, Plug, SlabOk, StackOf, MinExpiry;
      ghost var s, t1 := f.sibling.(h := f.h), Plug(p, f.sibling.(h := f.h));
      PruneKeeps(p, f, child, leaf);
      PruneOrders(p, f, child, leaf, side == Bid);
      var removedLeaf, newExpiry, stale := Detach(parent, child, critBit, f, p, leaf);
      leafCount := leafCount - 1;
      ghost var ns := nodes[..];
      StackLast(stack, f, p);
      UpdateParentEarliestExpiry(stack[..|stack| - 1], removedLeaf.Expiry(), newExpiry, p, s, stale);
      SlabFrame(ns, nodes[..], free, freeListHead, freeListLen, bumpIndex, Handles(t1));
      tree := Some(t1);
      r := Some(removedLeaf);
    }

    lemma Capacity()
      requires Valid()
      ensures |Resting()| <= SIDE_CAPACITY
      ensures |Used()| == if Resting() == [] then 0 else 2 * |Resting()| - 1
      ensures freeListLen <= 1 && bumpIndex >= MAX_BOOK_NODES - 1 <==> |Resting()| == SIDE_CAPACITY
    {
      PartitionSize(Used(), free, bumpIndex);
      if tree.Some? { HandleCount(tree.value, side == Bid); }
      hide Stored, WellKeyed, Distinct, FreeChain, Partition, Orders, Handles;
    }

    /** A side is full exactly with 512 orders: then their 1023 nodes leave one cell, and an order needs two. */
    predicate IsFull()
      requires Valid()
      reads this, nodes
      ensures IsFull() <==> |Resting()| == SIDE_CAPACITY
    {
      Capacity();
      freeListLen <= 1 && bumpIndex >= nodes.Length - 1
    }

    lemma RestingSorted()
      requires Valid()
      ensures Sorted(side, Resting())
    {
      if tree.Some? { OrdersSorted(tree.value, side == Bid); }
    }

    /** The leaf with the highest or the lowest key. */
    method FindMinMax(findMax: bool) returns (r: Option<Handle>)
      requires Valid()
      ensures r.None? <==> Resting() == []
      ensures r.Some? ==> r.value < nodes.Length && nodes[r.value] == Leaf(EndOf(Resting(), findMax == (side == Bid)))
    {
      hide Handles, Distinct, FreeChain, Partition, WellKeyed;
      if leafCount == 0 {
        return None;
      }
      var root := rootNode;
      ghost var t := tree.value;
      ghost var desc := side == Bid;
      while nodes[root].InnerNode?
        invariant t.h == root && Stored(nodes[..], t) && Orders(t, desc) != []
        invariant EndOf(Resting(), findMax == desc) == EndOf(Orders(t, desc), findMax == desc)
        decreases t
      {
        EndInTree(t, desc, findMax);
        root := nodes[root].Child(findMax);
        t := t.Child(findMax);
      }
      r := Some(root);
    }

    /** `remove_min` and `remove_max`. */
    method RemoveExtreme(findMax: bool) returns (r: Option<LeafNode>)
      requires Valid()
      modifies this, nodes
      ensures Valid() && (r.None? <==> old(Resting()) == [])
      ensures r.None? ==> Resting() == old(Resting())
      ensures r.Some? ==>
        && r.value == EndOf(old(Resting()), findMax == (side == Bid))
        && Resting() ==
           if findMax == (side == Bid) then old(Resting())[1..] else old(Resting())[..|old(Resting())| - 1]
    {
      hide SlabOk, TreeOk, FindOrder, RemoveOrder, Orders;
      var h := FindMinMax(findMax);
      if h.None? {
        return None;
      }
      RestingSorted();
      RemoveEnd(side, Resting());
      r := RemoveByKey(nodes[h.value].leaf.key);
    }

    /** The order that expires first, found without looking at the others. */
    method FindEarliestExpiry() returns (r: Option<(Handle, nat)>)
      requires Valid()
      ensures r.None? <==> Resting() == []
      ensures r.Some? ==>
        var (h, e) := r.value;
        h < nodes.Length && nodes[h] == Leaf(Soonest(side, Resting())) && e == Soonest(side, Resting()).Expiry()
    {
      hide Handles, Distinct, FreeChain, Partition, WellKeyed, Soonest;
      if leafCount == 0 {
        return None;
      }
      var current := rootNode;
      ghost var t := tree.value;
      ghost var desc := side == Bid;
      while nodes[current].InnerNode?
        invariant t.h == current && Stored(nodes[..], t) && Orders(t, desc) != []
        invariant Soonest(side, Resting()) == Soonest(side, Orders(t, desc))
        decreases t
      {
        SoonestInTree(t, desc);
        var right := nodes[current].expiry0 > nodes[current].expiry1;
        KeySetOfOrders(t.Child(right), desc);
        current := nodes[current].Child(right);
        t := t.Child(right);
      }
      SoonestInTree(t, desc);
      r := Some((current, nodes[current].EarliestExpiry()));
    }

    /** Removes the order that expires first if that is before `now`. */
    method RemoveOneExpired(now: nat) returns (r: Option<LeafNode>)
      requires Valid()
      modifies this, nodes
      ensures Valid()
      ensures r.Some? <==> old(Resting()) != [] && Soonest(side, old(Resting())).Expiry() < now
      ensures r.Some? ==>
        r.value == Soonest(side, old(Resting())) && Resting() == RemoveOrder(old(Resting()), r.value.key)
      ensures r.None? ==> Resting() == old(Resting())
    {
      hide SlabOk, TreeOk, FindOrder, RemoveOrder, Orders, Soonest;
      var found := FindEarliestExpiry();
      if found.None? {
        return None;
      }
      var (expired, expiresAt) := found.value;
      if expiresAt < now {
        RestingSorted();
        SoonestIsSoonest(side, Resting());
        FindMember(side, Resting(), nodes[expired].leaf);
        r := RemoveByKey(nodes[expired].leaf.key);
      } else {
        r := None;
      }
    }

    /** Writes the quantity of a leaf through its handle. */
    method SetQuantity(h: Handle, q: int)
      requires Valid() && h in Used() && h < nodes.Length && nodes[h].Leaf?
      modifies this`tree, nodes
      ensures Valid() && Used() == old(Used())
      ensures Resting() == WithQuantity(old(Resting()), old(nodes[h]).leaf.key, q)
    {
      hide FreeChain, Partition, Stored, WellKeyed, Distinct, Handles, Orders;
      ghost var ns, t := nodes[..], tree.value;
      QuantityKeeps(ns, t, h, q);
      QuantityOrders(ns, t, h, q, side == Bid);
      nodes[h] := Leaf(nodes[h].leaf.(quantity := q));
      assert nodes[..] == ns[h := Leaf(ns[h].leaf.(quantity := q))];
      SlabFrame(ns, nodes[..], free, freeListHead, freeListLen, bumpIndex, Used());
      tree := Some(WithTipQuantity(t, h, q));
      WithQuantityLength(old(Resting()), ns[h].leaf.key, q);
    }
  }
}
