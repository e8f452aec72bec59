/** The critbit tree that the node array of a BookSide encodes, and how one place in it is changed. */
module CritBitTree {
  import opened OrderKeys
  import opened Types
  import opened OrderLists

  type Handle = nat

  datatype AnyNode =
    | Uninitialized
    | InnerNode(prefixLen: nat, key: Key, child0: Handle, child1: Handle, expiry0: nat, expiry1: nat)
    | Leaf(leaf: LeafNode)
    | FreeNode(next: Handle)
    | LastFreeNode(next: Handle)
  {
    predicate InUse() { InnerNode? || Leaf? }

    function Key(): Key
      requires InUse()
    {
      if Leaf? then leaf.key else key
    }

    function Child(right: bool): Handle
      requires InnerNode?
    {
      if right then child1 else child0
    }

    function ChildExpiry(right: bool): nat
      requires InnerNode?
    {
      if right then expiry1 else expiry0
    }

    function WithChildExpiry(right: bool, e: nat): AnyNode
      requires InnerNode?
    {
      if right then this.(expiry1 := e) else this.(expiry0 := e)
    }

    function EarliestExpiry(): nat
      requires InUse()
    {
      if Leaf? then leaf.Expiry() else Min(expiry0, expiry1)
    }
  }

  /** A tree with the handle of every node. */
  datatype Tree =
    | Tip(h: Handle, leaf: LeafNode)
    | Fork(h: Handle, prefixLen: nat, key: Key, left: Tree, right: Tree)
  {
    function NodeKey(): Key { if Tip? then leaf.key else key }

    function Child(r: bool): Tree
      requires Fork?
    {
      if r then right else left
    }
  }

  function Join(h: Handle, p: nat, key: Key, r: bool, child: Tree, other: Tree): Tree {
    if r then Fork(h, p, key, other, child) else Fork(h, p, key, child, other)
  }

  // ----- What a tree stores

  /** The orders of a tree in ascending or descending order of their keys. */
  function Orders(t: Tree, desc: bool): seq<LeafNode> {
    match t
    case Tip(_, leaf) => [leaf]
    case Fork(_, _, _, l, r) => if desc then Orders(r, desc) + Orders(l, desc) else Orders(l, desc) + Orders(r, desc)
  }

  function KeySet(t: Tree): set<Key> {
    match t
    case Tip(_, leaf) => {leaf.key}
    case Fork(_, _, _, l, r) => KeySet(l) + KeySet(r)
  }

  function Handles(t: Tree): set<Handle> {
    match t
    case Tip(h, _) => {h}
    case Fork(h, _, _, l, r) => {h} + Handles(l) + Handles(r)
  }

  function MinExpiry(t: Tree): nat {
    match t
    case Tip(_, leaf) => leaf.Expiry()
    case Fork(_, _, _, l, r) => Min(MinExpiry(l), MinExpiry(r))
  }

  /** Below a node all keys share its prefix, and its critical bit says on which side they are. */
  ghost predicate OnSide(k: Key, p: nat, key: Key, r: bool) {
    p < 128 && Prefix(k, p) == Prefix(key, p) && CritBit(k, p) == r
  }

  ghost predicate AllOnSide(s: set<Key>, p: nat, key: Key, r: bool) {
    forall k :: k in s ==> OnSide(k, p, key, r)
  }

  ghost predicate WellKeyed(t: Tree) {
    match t
    case Tip(_, _) => true
    case Fork(_, p, key, l, r) =>
      && p < 128 && WellKeyed(l) && WellKeyed(r)
      && AllOnSide(KeySet(l), p, key, false) && AllOnSide(KeySet(r), p, key, true)
  }

  ghost predicate Distinct(t: Tree) {
    match t
    case Tip(_, _) => true
    case Fork(h, _, _, l, r) =>
      && Distinct(l) && Distinct(r)
      && h !in Handles(l) && h !in Handles(r) && Handles(l) !! Handles(r)
  }

  /** The node array holds the tree, each inner node with the exact earliest expiry of either child. */
  ghost predicate Stored(ns: seq<AnyNode>, t: Tree) {
    t.h < |ns| &&
    match t
    case Tip(h, leaf) => ns[h] == Leaf(leaf)
    case Fork(h, p, key, l, r) =>
      && ns[h] == InnerNode(p, key, l.h, r.h, MinExpiry(l), MinExpiry(r))
      && Stored(ns, l) && Stored(ns, r)
  }

  lemma {:induction false} KeySetOfOrders(t: Tree, desc: bool)
    ensures KeySet(t) == KeysOf(Orders(t, desc)) != {} && |Orders(t, desc)| > 0
  {
    if t.Fork? {
      KeySetOfOrders(t.left, desc);
      KeySetOfOrders(t.right, desc);
      KeysOfConcat(Orders(t.left, desc), Orders(t.right, desc));
      KeysOfConcat(Orders(t.right, desc), Orders(t.left, desc));
    }
  }

  /**
   * A child node shares the prefix of its parent and has the critical bit of its side, and the prefix of an inner child
   * is longer: going down ends.
   */
  lemma ChildBelow(t: Tree, r: bool)
    requires t.Fork? && WellKeyed(t)
    ensures OnSide(t.Child(r).NodeKey(), t.prefixLen, t.key, r)
    ensures SharedPrefixLen(t.key, t.Child(r).NodeKey()) >= t.prefixLen
    ensures t.Child(r).Fork? ==> t.Child(r).prefixLen > t.prefixLen
  {
    var c, p := t.Child(r), t.prefixLen;
    if c.Fork? {
      KeySetOfOrders(c.left, false);
      KeySetOfOrders(c.right, false);
      var x :| x in KeySet(c.left);
      var y :| y in KeySet(c.right);
      assert x in KeySet(c) && y in KeySet(c);
      assert OnSide(x, p, t.key, r) && OnSide(y, p, t.key, r);
      assert OnSide(x, c.prefixLen, c.key, false) && OnSide(y, c.prefixLen, c.key, true);
      if c.prefixLen < p { PrefixShorter(x, y, p, c.prefixLen); }
      PrefixShorter(c.key, x, c.prefixLen, p);
    }
    SharedPrefixTest(t.key, c.NodeKey(), p);
  }

  function SideOf(desc: bool): Side { if desc then Bid else Ask }

  /** In-order traversal lists the keys in order: the search-tree property of the critical bits. */
  lemma {:induction false} OrdersSorted(t: Tree, desc: bool)
    requires WellKeyed(t)
    ensures Sorted(SideOf(desc), Orders(t, desc))
  {
    if t.Fork? {
      OrdersSorted(t.left, desc);
      OrdersSorted(t.right, desc);
      KeySetOfOrders(t.left, desc);
      KeySetOfOrders(t.right, desc);
      forall x, y | x in KeySet(t.left) && y in KeySet(t.right)
        ensures x < y
      {
        CritBitOrders(x, y, t.prefixLen);
      }
      if desc {
        SortedConcat(Bid, Orders(t.right, desc), Orders(t.left, desc));
      } else {
        SortedConcat(Ask, Orders(t.left, desc), Orders(t.right, desc));
      }
    }
  }

  lemma RootHandle(ns: seq<AnyNode>, t: Tree)
    ensures t.h in Handles(t)
    ensures Stored(ns, t) ==> t.h < |ns|
  {
  }

  lemma {:induction false} HandleCount(t: Tree, desc: bool)
    requires Distinct(t)
    ensures |Handles(t)| == 2 * |Orders(t, desc)| - 1
  {
    if t.Fork? {
      HandleCount(t.left, desc);
      HandleCount(t.right, desc);
      assert Handles(t) == {t.h} + (Handles(t.left) + Handles(t.right));
    }
  }

  lemma {:induction false} StoredFrame(ns: seq<AnyNode>, ns': seq<AnyNode>, t: Tree)
    requires Stored(ns, t) && |ns| == |ns'|
    requires forall h :: h in Handles(t) && h < |ns| ==> ns[h] == ns'[h]
    ensures Stored(ns', t)
  {
    if t.Fork? {
      StoredFrame(ns, ns', t.left);
      StoredFrame(ns, ns', t.right);
    }
  }

  lemma {:induction false} StoredInUse(ns: seq<AnyNode>, t: Tree)
    requires Stored(ns, t)
    ensures forall h :: h in Handles(t) ==> h < |ns| && ns[h].InUse()
    ensures ns[t.h].EarliestExpiry() == MinExpiry(t) && ns[t.h].Key() == t.NodeKey()
  {
    if t.Fork? {
      StoredInUse(ns, t.left);
      StoredInUse(ns, t.right);
    }
  }

  /** The root of a stored tree can be moved to another cell. */
  lemma StoredMove(ns: seq<AnyNode>, ns': seq<AnyNode>, t: Tree, h: Handle)
    requires Stored(ns, t) && |ns| == |ns'| && h < |ns|
    requires ns'[h] == ns[t.h] && h !in Handles(t) - {t.h} && Distinct(t)
    requires forall g :: g in Handles(t) && g != t.h && g < |ns| ==> ns[g] == ns'[g]
    ensures Stored(ns', t.(h := h))
  {
    if t.Fork? {
      StoredFrame(ns, ns', t.left);
      StoredFrame(ns, ns', t.right);
    }
  }

  lemma MoveKeeps(t: Tree, h: Handle)
    requires Distinct(t) && h !in Handles(t) - {t.h}
    ensures var m := t.(h := h);
      && Distinct(m) && Handles(m) == Handles(t) - {t.h} + {h} && KeySet(m) == KeySet(t)
      && MinExpiry(m) == MinExpiry(t) && m.NodeKey() == t.NodeKey() && (WellKeyed(m) <==> WellKeyed(t))
    ensures forall desc :: Orders(t.(h := h), desc) == Orders(t, desc)
  {
  }

  // ----- A place in the tree

  /** One step down: the node passed, the side taken and the subtree left aside. */
  datatype Frame = Frame(h: Handle, prefixLen: nat, key: Key, right: bool, sibling: Tree)

  datatype Path = Root | Step(f: Frame, up: Path)

  function Fill(f: Frame, t: Tree): Tree {
    Join(f.h, f.prefixLen, f.key, f.right, t, f.sibling)
  }

  function Plug(p: Path, t: Tree): Tree {
    match p
    case Root => t
    case Step(f, up) => Plug(up, Fill(f, t))
  }

  /** The explicit stack kept on the way down, the root at the bottom. */
  function StackOf(p: Path): seq<(Handle, bool)> {
    match p
    case Root => []
    case Step(f, up) => StackOf(up) + [(f.h, f.right)]
  }

  function PathHandles(p: Path): set<Handle> {
    match p
    case Root => {}
    case Step(f, up) => {f.h} + Handles(f.sibling) + PathHandles(up)
  }

  /** A key that the walk down would send to this place. */
  ghost predicate Admits(p: Path, k: Key) {
    match p
    case Root => true
    case Step(f, up) => OnSide(k, f.prefixLen, f.key, f.right) && Admits(up, k)
  }

  ghost predicate AllAdmitted(p: Path, s: set<Key>) {
    forall k :: k in s ==> Admits(p, k)
  }

  ghost predicate PathWellKeyed(p: Path) {
    match p
    case Root => true
    case Step(f, up) =>
      && f.prefixLen < 128 && WellKeyed(f.sibling) && PathWellKeyed(up)
      && AllOnSide(KeySet(f.sibling), f.prefixLen, f.key, !f.right) && AllAdmitted(up, KeySet(f.sibling))
  }

  ghost predicate PathDistinct(p: Path) {
    match p
    case Root => true
    case Step(f, up) =>
      && Distinct(f.sibling) && PathDistinct(up)
      && f.h !in Handles(f.sibling) && f.h !in PathHandles(up) && Handles(f.sibling) !! PathHandles(up)
  }

  function FrameNode(f: Frame, c: Handle, e: nat): AnyNode {
    if f.right then InnerNode(f.prefixLen, f.key, f.sibling.h, c, MinExpiry(f.sibling), e)
    else InnerNode(f.prefixLen, f.key, c, f.sibling.h, e, MinExpiry(f.sibling))
  }

  /** The path is stored as if the subtree at its end had root `c` and earliest expiry `e`. */
  ghost predicate PathStored(ns: seq<AnyNode>, p: Path, c: Handle, e: nat) {
    match p
    case Root => true
    case Step(f, up) =>
      && f.h < |ns| && ns[f.h] == FrameNode(f, c, e)
      && Stored(ns, f.sibling) && PathStored(ns, up, f.h, Min(e, MinExpiry(f.sibling)))
  }

  function Before(p: Path, desc: bool): seq<LeafNode> {
    match p
    case Root => []
    case Step(f, up) => Before(up, desc) + if f.right != desc then Orders(f.sibling, desc) else []
  }

  function After(p: Path, desc: bool): seq<LeafNode> {
    match p
    case Root => []
    case Step(f, up) => (if f.right == desc then Orders(f.sibling, desc) else []) + After(up, desc)
  }

  lemma {:induction false} PlugWellKeyed(p: Path, t: Tree)
    ensures WellKeyed(Plug(p, t)) <==>
            WellKeyed(t) && PathWellKeyed(p) && AllAdmitted(p, KeySet(t))
  {
    if p.Step? {
      var f := p.f;
      PlugWellKeyed(p.up, Fill(f, t));
      assert KeySet(Fill(f, t)) == KeySet(t) + KeySet(f.sibling);
      assert AllAdmitted(p, KeySet(t)) <==>
             AllOnSide(KeySet(t), f.prefixLen, f.key, f.right) && AllAdmitted(p.up, KeySet(t));
      assert AllAdmitted(p.up, KeySet(Fill(f, t))) <==>
             AllAdmitted(p.up, KeySet(t)) && AllAdmitted(p.up, KeySet(f.sibling));
    }
  }

  lemma {:induction false} PlugDistinct(p: Path, t: Tree)
    ensures Handles(Plug(p, t)) == PathHandles(p) + Handles(t)
    ensures Distinct(Plug(p, t)) <==> Distinct(t) && PathDistinct(p) && PathHandles(p) !! Handles(t)
  {
    if p.Step? { PlugDistinct(p.up, Fill(p.f, t)); }
  }

  lemma {:induction false} PlugStored(ns: seq<AnyNode>, p: Path, t: Tree)
    ensures Stored(ns, Plug(p, t)) <==> Stored(ns, t) && PathStored(ns, p, t.h, MinExpiry(t))
  {
    if p.Step? { PlugStored(ns, p.up, Fill(p.f, t)); }
  }

  lemma {:induction false} PlugOrders(p: Path, t: Tree, desc: bool)
    ensures Orders(Plug(p, t), desc) == Before(p, desc) + Orders(t, desc) + After(p, desc)
  {
    if p.Step? {
      PlugOrders(p.up, Fill(p.f, t), desc);
      Regroup(Before(p.up, desc), Orders(t, desc), Orders(p.f.sibling, desc), After(p.up, desc));
    }
  }

  lemma Regroup(a: seq<LeafNode>, m: seq<LeafNode>, o: seq<LeafNode>, b: seq<LeafNode>)
    ensures a + (m + o) + b == (a + []) + m + (o + b)
    ensures a + (o + m) + b == (a + o) + m + ([] + b)
  {
  }

  lemma {:induction false} PlugRoot(p: Path, t: Tree, t': Tree)
    requires t.h == t'.h
    ensures Plug(p, t).h == Plug(p, t').h
  {
    if p.Step? { PlugRoot(p.up, Fill(p.f, t), Fill(p.f, t')); }
  }

  lemma {:induction false} PlugKeys(p: Path, t: Tree)
    ensures KeySet(t) <= KeySet(Plug(p, t))
  {
    if p.Step? { PlugKeys(p.up, Fill(p.f, t)); }
  }

  lemma {:induction false} PathFrame(ns: seq<AnyNode>, ns': seq<AnyNode>, p: Path, c: Handle, e: nat)
    requires PathStored(ns, p, c, e) && |ns| == |ns'|
    requires forall h :: h in PathHandles(p) && h < |ns| ==> ns[h] == ns'[h]
    ensures PathStored(ns', p, c, e)
  {
    if p.Step? {
      StoredFrame(ns, ns', p.f.sibling);
      PathFrame(ns, ns', p.up, p.f.h, Min(e, MinExpiry(p.f.sibling)));
    }
  }
}
