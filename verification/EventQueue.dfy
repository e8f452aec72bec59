/** The ring buffer of events. */
module EventQueues {
  import opened Types

  /** The cell `i` places after `head` in a ring of `n`. */
  function Place(head: nat, i: nat, n: nat): nat
    requires n > 0
  {
    (head + i) % n
  }

  lemma PlaceExact(head: nat, i: nat, n: nat)
    requires head < n && i <= n
    ensures Place(head, i, n) == if head + i < n then head + i else head + i - n
  {
  }

  lemma PlaceDistinct(head: nat, i: nat, j: nat, n: nat)
    requires head < n && i < j < n
    ensures Place(head, i, n) != Place(head, j, n)
  {
    PlaceExact(head, i, n);
    PlaceExact(head, j, n);
  }

  lemma PlaceAfterPop(head: nat, i: nat, n: nat)
    requires head < n && i + 1 < n
    ensures Place(Place(head, 1, n), i, n) == Place(head, i + 1, n)
  {
    PlaceExact(head, 1, n);
    PlaceExact(head, i + 1, n);
    PlaceExact(Place(head, 1, n), i, n);
  }

  class Queue<T(0)> {
    const buf: array<T>
    var head: nat
    var count: nat
    var seqNum: nat

    ghost predicate Valid()
      reads this
    {
      && count <= buf.Length && count <= seqNum
      && (if buf.Length == 0 then head == 0 else head < buf.Length)
    }

    /** The element `i` places behind the head. */
    function Get(i: nat): T
      requires Valid() && i < count
      reads this, buf
    {
      buf[Place(head, i, buf.Length)]
    }

    /** The queued elements, oldest first. */
    ghost function Contents(): (s: seq<T>)
      requires Valid()
      reads this, buf
      ensures |s| == count && forall i :: 0 <= i < count ==> s[i] == Get(i)
    {
      seq(count, i requires 0 <= i < count && Valid() reads this, buf => Get(i))
    }

    constructor (capacity: nat, zero: T)
      ensures Valid() && fresh(buf) && buf.Length == capacity && seqNum == 0 && Contents() == []
    {
      buf := new T[capacity](_ => zero);
      head, count, seqNum := 0, 0, 0;
    }

    /** Appends an element unless the buffer is full. */
    method PushBack(value: T) returns (ok: bool)
      requires Valid()
      modifies this`count, this`seqNum, buf
      ensures Valid() && ok == (|old(Contents())| < buf.Length)
      ensures Contents() == if ok then old(Contents()) + [value] else old(Contents())
      ensures seqNum == old(seqNum) + if ok then 1 else 0
    {
      if count == buf.Length {
        return false;
      }
      ghost var was := Contents();
      forall i | 0 <= i < count
        ensures Place(head, i, buf.Length) != Place(head, count, buf.Length)
      {
        PlaceDistinct(head, i, count, buf.Length);
      }
      var slot := Place(head, count, buf.Length);
      buf[slot] := value;
      count := count + 1;
      seqNum := seqNum + 1;
      assert forall i :: 0 <= i < |was| ==> Get(i) == was[i];
      ok := true;
    }

    /** Takes the oldest element off. */
    method PopFront() returns (r: Option<T>)
      requires Valid()
      modifies this`head, this`count
      ensures Valid()
      ensures if old(Contents()) == [] then r == None && Contents() == []
              else r == Some(old(Contents())[0]) && Contents() == old(Contents())[1..]
      ensures seqNum == old(seqNum)
    {
      if count == 0 {
        return None;
      }
      var value := buf[head];
      ghost var was, n := Contents(), buf.Length;
      PlaceExact(head, 0, n);
      assert was[0] == Get(0);
      forall i | 0 <= i < count - 1
        ensures Place(Place(head, 1, n), i, n) == Place(head, i + 1, n)
      {
        PlaceAfterPop(head, i, n);
      }
      count := count - 1;
      head := Place(head, 1, buf.Length);
      assert forall i :: 0 <= i < count ==> Get(i) == was[1..][i];
      r := Some(value);
    }

    /** Drops the newest elements until `desiredLen` are left. */
    method RevertPushes(desiredLen: nat) returns (ok: bool)
      requires Valid()
      modifies this`count, this`seqNum
      ensures Valid() && ok == (desiredLen <= |old(Contents())|)
      ensures Contents() == if ok then old(Contents())[..desiredLen] else old(Contents())
      ensures seqNum == old(seqNum) - if ok then |old(Contents())| - desiredLen else 0
    {
      if !(desiredLen <= count) {
        return false;
      }
      ghost var was := Contents();
      var lenDiff := count - desiredLen;
      count := desiredLen;
      seqNum := seqNum - lenDiff;
      assert forall i :: 0 <= i < count ==> Get(i) == was[i];
      ok := true;
    }
  }
}
