/** The fixed ring of blocked Sister ids that both the semaphore and the mutex
    keep: eight slots, FIFO, an arrival at a full ring is silently not queued.
 */
module Waiters {
  import opened Basics
  import opened Rings

  const MAX_WAITERS: nat := 8

  /** What enqueue does to the queue of waiting ids. */
  function Enqueued(queue: seq<nat>, sister: nat): seq<nat> {
    if |queue| >= MAX_WAITERS then queue else queue + [sister]
  }

  class WaiterRing {
    const slots: array<nat>
    var head: nat
    var tail: nat
    var waiting: nat

    ghost predicate Valid()
      reads this
    {
      && slots.Length == MAX_WAITERS
      && head < MAX_WAITERS
      && waiting <= MAX_WAITERS
      && tail == (head + waiting) % MAX_WAITERS
    }

    /** The queued ids, longest-waiting first. */
    ghost function Queue(): (q: seq<nat>)
      requires Valid()
      reads this, slots
      ensures |q| == waiting
    {
      Window(slots[..], head, waiting)
    }

    constructor ()
      ensures Valid() && fresh(slots) && Queue() == []
    {
      slots := new nat[MAX_WAITERS](_ => 0);
      head, tail, waiting := 0, 0, 0;
    }

    method Enqueue(sister: nat)
      requires Valid()
      modifies this, slots
      ensures Valid()
      ensures Queue() == Enqueued(old(Queue()), sister)
    {
      if waiting >= MAX_WAITERS {
        return;
      }
      SlotIsModulo(head, waiting, MAX_WAITERS);
      Push(slots[..], head, waiting, sister);
      slots[tail] := sister;
      assert slots[..] == old(slots[..])[tail := sister];
      tail := (tail + 1) % MAX_WAITERS;
      waiting := waiting + 1;
    }

    method Dequeue() returns (sister: nat)
      requires Valid() && Queue() != []
      modifies this
      ensures Valid()
      ensures sister == old(Queue())[0]
      ensures Queue() == old(Queue())[1..]
    {
      Pop(slots[..], head, waiting);
      sister := slots[head];
      head := (head + 1) % MAX_WAITERS;
      waiting := waiting - 1;
    }
  }
}
