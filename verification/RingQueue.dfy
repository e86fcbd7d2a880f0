/**
 * The bounded circular queues of channels and ports (kernel/executive/ipc/ipc.c): a fixed array of
 * slots, a head, a count and a limit. Each operation is proved against the queue's contents, oldest
 * first, so that the rest of the model can speak of sequences.
 */
module RingQueue {
  import opened Status

  /** ZI_IPC_QUEUE_CAPACITY */
  const QUEUE_CAPACITY := 8

  /** The slot that lies `i` places after the head. */
  function Slot(head: nat, i: nat, limit: nat): nat {
    if head + i < limit then head + i else head + i - limit
  }

  /** The source computes slots with a remainder. */
  lemma SlotIsRemainder(head: nat, i: nat, limit: nat)
    requires head < limit && i <= limit
    ensures (head + i) % limit == Slot(head, i, limit)
  {
    if head + i >= limit {
      assert head + i == limit * 1 + (head + i - limit);
    }
  }

  class Ring<T> {
    const slots: array<Option<T>>
    const limit: nat
    var head: nat
    var count: nat

    ghost predicate Valid()
      reads this, slots
    {
      && slots.Length == QUEUE_CAPACITY
      && 1 <= limit <= QUEUE_CAPACITY
      && head < limit
      && count <= limit
      && (forall i :: 0 <= i < limit ==> (slots[Slot(head, i, limit)].Some? <==> i < count))
    }

    /** What the queue holds, oldest first. */
    ghost function Contents(): (s: seq<T>)
      requires Valid()
      reads this, slots
      ensures |s| == count
      ensures forall i :: 0 <= i < count ==> s[i] == slots[Slot(head, i, limit)].value
    {
      seq(count, i requires 0 <= i < count && Valid() reads this, slots => slots[Slot(head, i, limit)].value)
    }

    constructor (limit: nat)
      requires 1 <= limit <= QUEUE_CAPACITY
      ensures Valid() && fresh(slots)
      ensures this.limit == limit && Contents() == []
    {
      slots := new Option<T>[QUEUE_CAPACITY](_ => None);
      this.limit, head, count := limit, 0, 0;
    }

    /** The enqueue of connect and send: the caller has seen that the queue is not full. */
    method Push(x: T)
      requires Valid() && count < limit
      modifies this, slots
      ensures Valid()
      ensures Contents() == old(Contents()) + [x]
    {
      SlotIsRemainder(head, count, limit);
      var tail := (head + count) % limit;
      slots[tail] := Some(x);
      count := count + 1;
    }

    /** The dequeue of accept and receive, and one round of the drain loops: the slot is cleared. */
    method Pop() returns (x: T)
      requires Valid() && count > 0
      modifies this, slots
      ensures Valid()
      ensures x == old(Contents())[0]
      ensures Contents() == old(Contents())[1..]
    {
      assert Slot(head, 0, limit) == head;
      x := slots[head].value;
      slots[head] := None;
      SlotIsRemainder(head, 1, limit);
      head := (head + 1) % limit;
      count := count - 1;
      assert forall i :: 0 <= i < limit ==> Slot(head, i, limit) == Slot(old(head), i + 1, limit);
    }

    /** The drain loop of a close: everything queued, oldest first, leaving the queue empty. */
    method Drain() returns (all: seq<T>)
      requires Valid()
      modifies this, slots
      ensures Valid() && Contents() == []
      ensures all == old(Contents())
    {
      ghost var was := Contents();
      all := [];
      while count != 0
        invariant Valid()
        invariant |all| <= |was|
        invariant all == was[..|all|]
        invariant Contents() == was[|all|..]
        decreases count
      {
        hide Valid, Contents;
        ghost var n := |all|;
        var x := Pop();
        assert x == was[n];
        all := all + [x];
        assert was[..n + 1] == was[..n] + [was[n]];
        assert was[n..][1..] == was[n + 1..];
      }
    }
  }
}
