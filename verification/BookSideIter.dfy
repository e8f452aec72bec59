/** Iteration over one side of the book without recursion: an explicit stack of half-visited inner nodes. */
module BookSideIters {
  import opened Types
  import opened OrderLists
  import opened CritBitTree
  import opened BookSides

  function Size(t: Tree): nat {
    if t.Tip? then 1 else 1 + Size(t.left) + Size(t.right)
  }

  /** What the second children of the nodes on the stack still hold, the top of the stack first. */
  function Later(pending: seq<Tree>, desc: bool, now: nat): seq<LeafNode>
    requires forall t :: t in pending ==> t.Fork?
  {
    if pending == [] then [] else
    var n := |pending| - 1;
    ValidAt(Orders(pending[n].Child(!desc), desc), now) + Later(pending[..n], desc, now)
  }

  function LaterSize(pending: seq<Tree>, desc: bool): nat
    requires forall t :: t in pending ==> t.Fork?
  {
    if pending == [] then 0 else
    var n := |pending| - 1;
    Size(pending[n].Child(!desc)) + LaterSize(pending[..n], desc)
  }

  /** One subtree of the book: stored, and made of cells the book uses. */
  ghost predicate Within(ns: seq<AnyNode>, t: Tree, used: set<Handle>) {
    Stored(ns, t) && Handles(t) <= used
  }

  lemma ForkWithin(ns: seq<AnyNode>, t: Tree, used: set<Handle>, r: bool)
    requires Within(ns, t, used) && t.Fork?
    ensures t.h < |ns| && t.h in used && ns[t.h].InnerNode? && ns[t.h].Child(r) == t.Child(r).h
    ensures Within(ns, t.Child(r), used)
  {
  }

  lemma TipWithin(ns: seq<AnyNode>, t: Tree, used: set<Handle>)
    requires Within(ns, t, used)
    ensures t.h < |ns| && t.h in used && (ns[t.h].InnerNode? <==> t.Fork?)
    ensures t.Tip? ==> ns[t.h] == Leaf(t.leaf)
  {
  }

  lemma Descend(pending: seq<Tree>, t: Tree, left: bool, now: nat)
    requires t.Fork? && forall t :: t in pending ==> t.Fork?
    ensures ValidAt(Orders(t, left), now) + Later(pending, left, now) ==
            ValidAt(Orders(t.Child(left), left), now) + Later(pending + [t], left, now)
    ensures Size(t) + LaterSize(pending, left) > Size(t.Child(left)) + LaterSize(pending + [t], left)
  {
    ValidAtConcat(Orders(t.Child(left), left), Orders(t.Child(!left), left), now);
    assert (pending + [t])[..|pending|] == pending;
  }

  lemma LaterTop(pending: seq<Tree>, left: bool, now: nat)
    requires forall t :: t in pending ==> t.Fork?
    ensures var n := |pending| - 1;
      Later(pending, left, now) ==
        if n < 0 then [] else ValidAt(Orders(pending[n].Child(!left), left), now) + Later(pending[..n], left, now)
  {
  }

  lemma AtTip(pending: seq<Tree>, t: Tree, left: bool, now: nat)
    requires t.Tip? && forall t :: t in pending ==> t.Fork?
    ensures ValidAt(Orders(t, left), now) == if t.leaf.IsValid(now) then [t.leaf] else []
    ensures var n := |pending| - 1;
      if n < 0 then Later(pending, left, now) == []
      else
        && Later(pending, left, now) ==
           ValidAt(Orders(pending[n].Child(!left), left), now) + Later(pending[..n], left, now)
        && Size(t) + LaterSize(pending, left) > Size(pending[n].Child(!left)) + LaterSize(pending[..n], left)
  {
    assert [t.leaf][1..] == [];
  }

  class BookSideIter {
    const bookSide: BookSide
    var stack: seq<Handle>
    var nextLeaf: Option<(Handle, LeafNode)>
    const left: bool
    const right: bool
    const nowTs: nat
    ghost var pending: seq<Tree>

    ghost predicate StackOk()
      reads this, bookSide, bookSide.nodes
    {
      && left == (bookSide.side == Bid) && right == !left
      && |stack| == |pending|
      && forall i :: 0 <= i < |pending| ==>
        && pending[i].Fork? && stack[i] == pending[i].h && Within(bookSide.nodes[..], pending[i], bookSide.Used())
    }

    ghost predicate Valid()
      reads this, bookSide, bookSide.nodes
    {
      && StackOk()
      && (nextLeaf.None? ==> pending == [])
      && (nextLeaf.Some? ==>
        && nextLeaf.value.0 < bookSide.nodes.Length && nextLeaf.value.0 in bookSide.Used()
        && bookSide.nodes[nextLeaf.value.0] == Leaf(nextLeaf.value.1))
    }

    /** The orders still to be returned. */
    ghost function Upcoming(): seq<LeafNode>
      requires Valid()
      reads this, bookSide, bookSide.nodes
    {
      (if nextLeaf.Some? then [nextLeaf.value.1] else []) + Later(pending, left, nowTs)
    }

    /** Exactly the orders of the book valid at `now`, in priority order. */
    constructor (book: BookSide, now: nat)
      requires book.Valid()
      ensures bookSide == book && nowTs == now && Valid()
      ensures Upcoming() == ValidAt(book.Resting(), now)
    {
      hide SlabOk, WellKeyed, Distinct, ValidAt, Later, Orders, Stored;
      bookSide := book;
      stack, pending := [], [];
      nextLeaf := None;
      left, right := book.side == Bid, book.side != Bid;
      nowTs := now;
      new;
      LaterTop([], left, now);
      if book.leafCount != 0 {
        var leaf := FindLeftmostValidLeaf(book.rootNode, book.tree.value);
        nextLeaf := leaf;
      } else {
        assert ValidAt(book.Resting(), now) == [] by { EmptyValid(now); }
      }
    }

    static lemma EmptyValid(now: nat)
      ensures ValidAt([], now) == []
    {
    }

    method FindLeftmostValidLeaf(start: Handle, ghost t0: Tree) returns (r: Option<(Handle, LeafNode)>)
      requires StackOk() && t0.h == start && Within(bookSide.nodes[..], t0, bookSide.Used())
      modifies this`stack, this`pending
      ensures StackOk()
      ensures r.None? ==> pending == []
      ensures r.Some? ==>
        && r.value.0 < bookSide.nodes.Length && r.value.0 in bookSide.Used()
        && bookSide.nodes[r.value.0] == Leaf(r.value.1)
      ensures
        (if r.Some? then [r.value.1] else []) + Later(pending, left, nowTs) ==
        ValidAt(Orders(t0, left), nowTs) + old(Later(pending, left, nowTs))
    {
      hide Later, LaterSize, Size, ValidAt, Orders, Within;
      var current := start;
      ghost var t := t0;
      while true
        invariant StackOk() && t.h == current && Within(bookSide.nodes[..], t, bookSide.Used())
        invariant ValidAt(Orders(t, left), nowTs) + Later(pending, left, nowTs) ==
                  ValidAt(Orders(t0, left), nowTs) + old(Later(pending, left, nowTs))
        decreases Size(t) + LaterSize(pending, left)
      {
        TipWithin(bookSide.nodes[..], t, bookSide.Used());
        assert bookSide.nodes[..][current] == bookSide.nodes[current];
        match bookSide.nodes[current]
        case InnerNode(_, _, child0, child1, _, _) =>
          Descend(pending, t, left, nowTs);
          ForkWithin(bookSide.nodes[..], t, bookSide.Used(), left);
          stack := stack + [current];
          pending := pending + [t];
          current := if left then child1 else child0;
          t := t.Child(left);
        case Leaf(leaf) =>
          AtTip(pending, t, left, nowTs);
          if leaf.IsValid(nowTs) {
            return Some((current, leaf));
          }
          if |stack| == 0 {
            return None;
          }
          var inner := stack[|stack| - 1];
          t := pending[|pending| - 1];
          ForkWithin(bookSide.nodes[..], t, bookSide.Used(), right);
          t := t.Child(right);
          stack := stack[..|stack| - 1];
          pending := pending[..|pending| - 1];
          current := bookSide.nodes[inner].Child(right);
      }
    }

    /** Returns the next order and moves on. */
    method Next() returns (r: Option<(Handle, LeafNode)>)
      requires Valid()
      modifies this
      ensures Valid()
      ensures r.None? <==> old(Upcoming()) == []
      ensures r.None? ==> Upcoming() == []
      ensures r.Some? ==>
        && [r.value.1] + Upcoming() == old(Upcoming())
        && r.value.0 < bookSide.nodes.Length && r.value.0 in bookSide.Used()
        && bookSide.nodes[r.value.0] == Leaf(r.value.1)
    {
      hide Later, ValidAt, Orders, Within;
      LaterTop(pending, left, nowTs);
      if nextLeaf.None? {
        return None;
      }
      r := nextLeaf;
      if |stack| == 0 {
        nextLeaf := None;
      } else {
        ghost var t := pending[|pending| - 1];
        ForkWithin(bookSide.nodes[..], t, bookSide.Used(), right);
        assert bookSide.nodes[..][t.h] == bookSide.nodes[t.h];
        t := t.Child(right);
        var start := bookSide.nodes[stack[|stack| - 1]].Child(right);
        stack := stack[..|stack| - 1];
        pending := pending[..|pending| - 1];
        var leaf := FindLeftmostValidLeaf(start, t);
        nextLeaf := leaf;
      }
    }
  }
}
