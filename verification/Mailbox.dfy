/** The mailbox (RadioNoise): a four-slot buffer guarded by two semaphores and a
    mutex, used by any number of Sisters at once.

    Each atomic step is one locked section of a semaphore or mutex call, one
    buffer access, or one index update; Sisters interleave between any two steps.
 */
module Mailbox {
  import opened Basics
  import opened Rings
  import opened Waiters
  import S = Semaphore
  import M = Mutex

  const CAPACITY: nat := 4

  /** The buffer and its indices, as the two critical sections update them. */
  class RadioNoise {
    const buffer: array<int>
    var head: nat
    var tail: nat
    /** Messages stored and not yet fetched; the code has no such field, the
        semaphores count instead. */
    ghost var count: nat

    ghost predicate Valid()
      reads this
    {
      && buffer.Length == CAPACITY
      && head < CAPACITY && count <= CAPACITY
      && tail == (head + count) % CAPACITY
    }

    ghost function Contents(): seq<int>
      requires Valid()
      reads this, buffer
    {
      Window(buffer[..], head, count)
    }

    constructor ()
      ensures Valid() && fresh(buffer) && Contents() == []
    {
      buffer := new int[CAPACITY](_ => 0);
      head, tail, count := 0, 0, 0;
    }

    method Put(message: int)
      requires Valid() && |Contents()| < CAPACITY
      modifies this, buffer
      ensures Valid() && Contents() == old(Contents()) + [message]
    {
      SlotIsModulo(head, count, CAPACITY);
      Push(buffer[..], head, count, message);
      buffer[tail] := message;
      tail := (tail + 1) % CAPACITY;
      count := count + 1;
    }

    method Take() returns (message: int)
      requires Valid() && Contents() != []
      modifies this
      ensures Valid() && [message] + Contents() == old(Contents())
    {
      Pop(buffer[..], head, count);
      message := buffer[head];
      head := (head + 1) % CAPACITY;
      count := count - 1;
    }
  }

  /** Where a Sister stands inside send or receive. */
  datatype Pc =
    | Idle
    | SendBlocked(msg: int)    // blocked in wait(free_slots)
    | SendReady(msg: int)      // holds a free slot, about to lock
    | SendLocking(msg: int)    // holds a free slot, blocked on the mutex
    | SendStore(msg: int)      // owns the mutex, about to store
    | SendAdvance              // has stored, about to advance the tail
    | SendUnlock               // about to unlock
    | SendPost                 // about to post filled_slots
    | RecvBlocked              // blocked in wait(filled_slots)
    | RecvReady                // holds a message, about to lock
    | RecvLocking              // holds a message, blocked on the mutex
    | RecvFetch                // owns the mutex, about to fetch
    | RecvAdvance(got: int)    // has fetched, about to advance the head
    | RecvUnlock(got: int)
    | RecvPost(got: int)       // about to post free_slots and return `got`

  /** `sent` and `received` list messages in the order the mutex holders stored
      and fetched them. */
  datatype Box = Box(buffer: seq<int>, head: nat, tail: nat, free: S.Sem, filled: S.Sem, mutex: M.Lock,
                     pc: seq<Pc>, sent: seq<int>, received: seq<int>)

  function Init(sisters: nat): Box {
    Box([0, 0, 0, 0], 0, 0, S.Sem(CAPACITY, []), S.Sem(0, []), M.Lock(false, M.NO_OWNER, []),
        seq(sisters, _ => Idle), [], [])
  }

  predicate Sized(b: Box) {
    |b.buffer| == CAPACITY && b.head < CAPACITY && b.tail < CAPACITY
  }

  /** What an idle Sister calls next. */
  datatype Choice = CallSend(message: int) | CallRecv

  /** What a Sister is blocked on. */
  datatype Place = Nowhere | FreeSlots | FilledSlots | TheMutex

  function BlockedOn(p: Pc): Place {
    match p
    case SendBlocked(_) => FreeSlots
    case RecvBlocked => FilledSlots
    case SendLocking(_) => TheMutex
    case RecvLocking => TheMutex
    case _ => Nowhere
  }

  /** Where a blocked Sister continues: holding the permit, or owning the mutex. */
  function Resumed(p: Pc): Pc {
    match p
    case SendBlocked(m) => SendReady(m)
    case RecvBlocked => RecvReady
    case SendLocking(m) => SendStore(m)
    case RecvLocking => RecvFetch
    case _ => p
  }

  function Wake(pc: seq<Pc>, who: Option<nat>): (r: seq<Pc>)
    ensures |r| == |pc|
  {
    if who.Some? && who.value < |pc| then pc[who.value := Resumed(pc[who.value])] else pc
  }

  /** The lock call of the mailbox mutex (Levels play no part here). */
  function LockStep(l: M.Lock, t: nat): (M.Lock, bool) {
    if !l.held then (M.Lock(true, t, l.queue), true)
    else (l.(queue := Enqueued(l.queue, t)), false)
  }

  function UnlockStep(l: M.Lock, t: nat): (M.Lock, Option<nat>) {
    if l.owner != t then (l, None)
    else if |l.queue| > 0 then (M.Lock(l.held, l.queue[0], l.queue[1..]), Some(l.queue[0]))
    else (M.Lock(false, M.NO_OWNER, l.queue), None)
  }

  /** These are the mutex steps of module Mutex, Levels aside. */
  lemma MutexSteps(l: M.Lock, levels: seq<nat>, base: seq<nat>, t: nat)
    requires t < |levels| == |base|
    ensures var (a, _, owned) := M.Acquire(l, levels, t); LockStep(l, t) == (a, owned)
    ensures var (r, _, woken) := M.Release(l, levels, base, t); UnlockStep(l, t) == (r, woken)
  {
  }

  /** An idle Sister calls send or receive, which first waits on a semaphore. */
  function Call(b: Box, t: nat, choice: Choice): Box
    requires t < |b.pc|
  {
    match choice
    case CallSend(m) =>
      var (s, granted) := S.Wait(b.free, t);
      b.(free := s, pc := b.pc[t := if granted then SendReady(m) else SendBlocked(m)])
    case CallRecv =>
      var (s, granted) := S.Wait(b.filled, t);
      b.(filled := s, pc := b.pc[t := if granted then RecvReady else RecvBlocked])
  }

  /** A permit holder calls lock. */
  function Lock(b: Box, t: nat): Box
    requires t < |b.pc| && (b.pc[t].SendReady? || b.pc[t].RecvReady?)
  {
    var (l, owned) := LockStep(b.mutex, t);
    var waiting := if b.pc[t].SendReady? then SendLocking(b.pc[t].msg) else RecvLocking;
    b.(mutex := l, pc := b.pc[t := if owned then Resumed(waiting) else waiting])
  }

  function Store(b: Box, t: nat): Box
    requires Sized(b) && t < |b.pc| && b.pc[t].SendStore?
  {
    var m := b.pc[t].msg;
    b.(buffer := b.buffer[b.tail := m], sent := b.sent + [m], pc := b.pc[t := SendAdvance])
  }

  function Fetch(b: Box, t: nat): Box
    requires Sized(b) && t < |b.pc|
  {
    var m := b.buffer[b.head];
    b.(received := b.received + [m], pc := b.pc[t := RecvAdvance(m)])
  }

  function AdvanceTail(b: Box, t: nat): Box
    requires t < |b.pc|
  {
    b.(tail := (b.tail + 1) % CAPACITY, pc := b.pc[t := SendUnlock])
  }

  function AdvanceHead(b: Box, t: nat): Box
    requires t < |b.pc| && b.pc[t].RecvAdvance?
  {
    b.(head := (b.head + 1) % CAPACITY, pc := b.pc[t := RecvUnlock(b.pc[t].got)])
  }

  function Unlock(b: Box, t: nat): Box
    requires t < |b.pc| && (b.pc[t].SendUnlock? || b.pc[t].RecvUnlock?)
  {
    var (l, next) := UnlockStep(b.mutex, t);
    var after := if b.pc[t].SendUnlock? then SendPost else RecvPost(b.pc[t].got);
    b.(mutex := l, pc := Wake(b.pc[t := after], next))
  }

  function PostFilled(b: Box, t: nat): Box
    requires t < |b.pc|
  {
    var (s, w) := S.Post(b.filled);
    b.(filled := s, pc := Wake(b.pc[t := Idle], w))
  }

  function PostFree(b: Box, t: nat): Box
    requires t < |b.pc|
  {
    var (s, w) := S.Post(b.free);
    b.(free := s, pc := Wake(b.pc[t := Idle], w))
  }

  /** Sister `t` takes its next step. A blocked Sister does not move. */
  function Step(b: Box, t: nat, choice: Choice): (b': Box)
    requires Sized(b) && t < |b.pc|
    ensures Sized(b') && |b'.pc| == |b.pc|
  {
    match b.pc[t]
    case Idle => Call(b, t, choice)
    case SendBlocked(_) => b
    case SendReady(_) => Lock(b, t)
    case SendLocking(_) => b
    case SendStore(_) => Store(b, t)
    case SendAdvance => AdvanceTail(b, t)
    case SendUnlock => Unlock(b, t)
    case SendPost => PostFilled(b, t)
    case RecvBlocked => b
    case RecvReady => Lock(b, t)
    case RecvLocking => b
    case RecvFetch => Fetch(b, t)
    case RecvAdvance(_) => AdvanceHead(b, t)
    case RecvUnlock(_) => Unlock(b, t)
    case RecvPost(_) => PostFree(b, t)
  }

  datatype Move = Move(who: nat, choice: Choice)

  function Run(sisters: nat, moves: seq<Move>): (b: Box)
    ensures Sized(b) && |b.pc| == sisters
  {
    if moves == [] then Init(sisters)
    else
      var p, m := Run(sisters, moves[..|moves| - 1]), moves[|moves| - 1];
      if m.who < sisters then Step(p, m.who, m.choice) else p
  }

  // Counting Sisters by what they hold.

  /** Claimed: holds a free slot, has not stored. Stored: has stored, not posted.
      Owed: holds a message permit, has not fetched. Fetched: has fetched, not posted. */
  datatype Holding = Nothing | Claimed | Stored | Owed | Fetched

  function Holds(p: Pc): Holding {
    match p
    case Idle => Nothing
    case SendBlocked(_) => Nothing
    case SendReady(_) => Claimed
    case SendLocking(_) => Claimed
    case SendStore(_) => Claimed
    case SendAdvance => Stored
    case SendUnlock => Stored
    case SendPost => Stored
    case RecvBlocked => Nothing
    case RecvReady => Owed
    case RecvLocking => Owed
    case RecvFetch => Owed
    case RecvAdvance(_) => Fetched
    case RecvUnlock(_) => Fetched
    case RecvPost(_) => Fetched
  }

  function One(p: Pc, h: Holding): nat {
    if Holds(p) == h then 1 else 0
  }

  function Count(pc: seq<Pc>, h: Holding): nat {
    if pc == [] then 0 else Count(pc[..|pc| - 1], h) + One(pc[|pc| - 1], h)
  }

  lemma {:induction false} CountUpdate(pc: seq<Pc>, t: nat, q: Pc, h: Holding)
    requires t < |pc|
    ensures Count(pc[t := q], h) ==
            Count(pc, h) - One(pc[t], h) + One(q, h)
  {
    var n := |pc| - 1;
    if t < n {
      CountUpdate(pc[..n], t, q, h);
      assert pc[t := q][..n] == pc[..n][t := q];
    } else {
      assert pc[t := q][..n] == pc[..n];
    }
  }

  lemma {:induction false} CountSome(pc: seq<Pc>, t: nat)
    requires t < |pc|
    ensures Count(pc, Holds(pc[t])) >= 1
  {
    var n := |pc| - 1;
    if t < n {
      CountSome(pc[..n], t);
    }
  }

  lemma {:induction false} CountNone(n: nat, h: Holding)
    requires h != Nothing
    ensures Count(seq(n, _ => Idle), h) == 0
  {
    if n > 0 {
      CountNone(n - 1, h);
      assert seq(n, _ => Idle)[..n - 1] == seq(n - 1, _ => Idle);
    }
  }

  // The invariant.

  predicate InSection(p: Pc) {
    p.SendStore? || p.SendAdvance? || p.SendUnlock? || p.RecvFetch? || p.RecvAdvance? || p.RecvUnlock?
  }

  /** A waiter queue holds distinct Sisters, all blocked there. */
  ghost predicate Queued(q: seq<nat>, pc: seq<Pc>, place: Place) {
    && (forall i, j :: 0 <= i < j < |q| ==> q[i] != q[j])
    && (forall i :: 0 <= i < |q| ==> q[i] < |pc| && BlockedOn(pc[q[i]]) == place)
  }

  ghost predicate QueuesInv(b: Box) {
    && Queued(b.free.queue, b.pc, FreeSlots)
    && Queued(b.filled.queue, b.pc, FilledSlots)
    && Queued(b.mutex.queue, b.pc, TheMutex)
  }

  /** The mutex: exactly the owner is in the critical section. */
  ghost predicate MutexInv(b: Box) {
    && |b.pc| <= M.NO_OWNER
    && (!b.mutex.held ==> b.mutex.owner == M.NO_OWNER && b.mutex.queue == [])
    && (b.mutex.held ==> b.mutex.owner < |b.pc|)
    && (forall t :: 0 <= t < |b.pc| ==> (InSection(b.pc[t]) <==> b.mutex.held && b.mutex.owner == t))
  }

  /** The semaphores: permits and holders add up to the capacity. */
  ghost predicate PermitInv(b: Box) {
    && b.free.permits >= 0 && b.filled.permits >= 0
    && |b.received| <= |b.sent|
    && b.filled.permits + Count(b.pc, Stored) + Count(b.pc, Owed) == |b.sent| - |b.received|
    && b.free.permits + Count(b.pc, Claimed) + Count(b.pc, Fetched) == CAPACITY - (|b.sent| - |b.received|)
  }

  /** How far the mutex owner is behind on advancing an index. */
  function TailLag(b: Box): nat {
    if b.mutex.owner < |b.pc| && b.pc[b.mutex.owner].SendAdvance? then 1 else 0
  }

  function HeadLag(b: Box): nat {
    if b.mutex.owner < |b.pc| && b.pc[b.mutex.owner].RecvAdvance? then 1 else 0
  }

  /** The buffer: unread messages sit in consecutive slots, oldest at the head. */
  ghost predicate BufferInv(b: Box) {
    && Sized(b)
    && (b.tail + TailLag(b)) % CAPACITY == |b.sent| % CAPACITY
    && (b.head + HeadLag(b)) % CAPACITY == |b.received| % CAPACITY
    && b.received <= b.sent
    && Unread(b.buffer, b.sent, |b.received|)
  }

  ghost predicate Inv(b: Box) {
    QueuesInv(b) && MutexInv(b) && PermitInv(b) && BufferInv(b)
  }

  lemma InitInv(sisters: nat)
    requires sisters <= M.NO_OWNER
    ensures Inv(Init(sisters))
  {
    CountNone(sisters, Claimed);
    CountNone(sisters, Stored);
    CountNone(sisters, Owed);
    CountNone(sisters, Fetched);
  }

  /** A Sister that is not blocked at a place may move without disturbing its queue. */
  lemma MoveKeepsQueue(q: seq<nat>, pc: seq<Pc>, place: Place, t: nat, p: Pc)
    requires Queued(q, pc, place) && t < |pc| && BlockedOn(pc[t]) != place
    ensures Queued(q, pc[t := p], place)
  {
  }

  lemma JoinKeepsQueue(q: seq<nat>, pc: seq<Pc>, place: Place, t: nat, p: Pc)
    requires Queued(q, pc, place) && t < |pc| && BlockedOn(pc[t]) != place && BlockedOn(p) == place
    ensures Queued(Enqueued(q, t), pc[t := p], place)
  {
  }

  lemma LeaveKeepsQueue(q: seq<nat>, pc: seq<Pc>, place: Place)
    requires Queued(q, pc, place) && |q| > 0
    ensures Queued(q[1..], Wake(pc, Some(q[0])), place)
  {
  }

  /** The three queues after a Sister that was not blocked moves on. */
  lemma MoveKeepsQueues(b: Box, t: nat, p: Pc)
    requires QueuesInv(b) && t < |b.pc| && BlockedOn(b.pc[t]) == Nowhere
    ensures BlockedOn(p) == Nowhere ==> QueuesInv(b.(pc := b.pc[t := p]))
    ensures BlockedOn(p) == FreeSlots ==>
              QueuesInv(b.(free := b.free.(queue := Enqueued(b.free.queue, t)), pc := b.pc[t := p]))
    ensures BlockedOn(p) == FilledSlots ==>
              QueuesInv(b.(filled := b.filled.(queue := Enqueued(b.filled.queue, t)), pc := b.pc[t := p]))
    ensures BlockedOn(p) == TheMutex ==>
              QueuesInv(b.(mutex := b.mutex.(queue := Enqueued(b.mutex.queue, t)), pc := b.pc[t := p]))
  {
    MoveKeepsQueue(b.free.queue, b.pc, FreeSlots, t, p);
    MoveKeepsQueue(b.filled.queue, b.pc, FilledSlots, t, p);
    MoveKeepsQueue(b.mutex.queue, b.pc, TheMutex, t, p);
    match BlockedOn(p)
    case Nowhere =>
    case FreeSlots => JoinKeepsQueue(b.free.queue, b.pc, FreeSlots, t, p);
    case FilledSlots => JoinKeepsQueue(b.filled.queue, b.pc, FilledSlots, t, p);
    case TheMutex => JoinKeepsQueue(b.mutex.queue, b.pc, TheMutex, t, p);
  }

  /** A step outside the semaphores and the mutex. */
  lemma LocalKeeps(b: Box, t: nat, p: Pc)
    requires QueuesInv(b) && MutexInv(b) && t < |b.pc|
    requires InSection(b.pc[t]) && InSection(p)
    ensures QueuesInv(b.(pc := b.pc[t := p])) && MutexInv(b.(pc := b.pc[t := p]))
  {
    MoveKeepsQueues(b, t, p);
  }

  lemma CallKeeps(b: Box, t: nat, choice: Choice)
    requires Inv(b) && t < |b.pc| && b.pc[t].Idle?
    ensures Inv(Call(b, t, choice))
  {
    hide Count;
    var b' := Call(b, t, choice);
    MoveKeepsQueues(b, t, b'.pc[t]);
    MoveCounts(b.pc, t, b'.pc[t]);
    assert b'.mutex == b.mutex;
    SameLag(b, b');
  }

  lemma LockKeeps(b: Box, t: nat)
    requires Inv(b) && t < |b.pc| && (b.pc[t].SendReady? || b.pc[t].RecvReady?)
    ensures Inv(Lock(b, t))
  {
    hide Count;
    var b' := Lock(b, t);
    MoveKeepsQueues(b, t, b'.pc[t]);
    MoveCounts(b.pc, t, b'.pc[t]);
    assert InSection(b.pc[t]) <==> b.mutex.held && b.mutex.owner == t;
    SameLag(b, b');
  }

  /** No owner is between a buffer access and its index update, before or after,
      or the owner did not move: the indices are as they were. */
  lemma SameLag(b: Box, b': Box)
    requires BufferInv(b)
    requires b'.buffer == b.buffer && b'.head == b.head && b'.tail == b.tail
    requires b'.sent == b.sent && b'.received == b.received
    requires TailLag(b') == TailLag(b) && HeadLag(b') == HeadLag(b)
    ensures BufferInv(b')
  {
  }

  /** Waking the head of a queue after `t` moved: what one count becomes. */
  lemma WakeCount(pc: seq<Pc>, q: seq<nat>, place: Place, t: nat, p: Pc, h: Holding)
    requires Queued(q, pc, place) && t < |pc| && BlockedOn(pc[t]) == Nowhere && place != Nowhere
    ensures q == [] ==> Count(pc[t := p], h) == Count(pc, h) - One(pc[t], h) + One(p, h)
    ensures q != [] ==> q[0] < |pc| && q[0] != t && BlockedOn(pc[q[0]]) == place
    ensures q != [] ==> (Count(Wake(pc[t := p], Some(q[0])), h) ==
                         Count(pc, h) - One(pc[t], h) + One(p, h) - One(pc[q[0]], h) + One(Resumed(pc[q[0]]), h))
  {
    CountUpdate(pc, t, p, h);
    if |q| > 0 {
      CountUpdate(pc[t := p], q[0], Resumed(pc[q[0]]), h);
    }
  }

  lemma WakeCounts(pc: seq<Pc>, q: seq<nat>, place: Place, t: nat, p: Pc)
    requires Queued(q, pc, place) && t < |pc| && BlockedOn(pc[t]) == Nowhere && place != Nowhere
    ensures q != [] ==> q[0] < |pc|
    ensures var pc' := if q == [] then pc[t := p] else Wake(pc[t := p], Some(q[0]));
            var woken := if q == [] then 0 else 1;
            && Count(pc', Stored) == Count(pc, Stored) - One(pc[t], Stored) + One(p, Stored)
            && Count(pc', Fetched) == Count(pc, Fetched) - One(pc[t], Fetched) + One(p, Fetched)
            && Count(pc', Owed) == Count(pc, Owed) - One(pc[t], Owed) + One(p, Owed)
                                   + (if place == FilledSlots then woken else 0)
            && Count(pc', Claimed) == Count(pc, Claimed) - One(pc[t], Claimed) + One(p, Claimed)
                                      + (if place == FreeSlots then woken else 0)
  {
    WakeCount(pc, q, place, t, p, Stored);
    WakeCount(pc, q, place, t, p, Fetched);
    WakeCount(pc, q, place, t, p, Owed);
    WakeCount(pc, q, place, t, p, Claimed);
  }

  lemma MoveCounts(pc: seq<Pc>, t: nat, p: Pc)
    requires t < |pc|
    ensures forall h :: h != Nothing ==> Count(pc[t := p], h) == Count(pc, h) - One(pc[t], h) + One(p, h)
    ensures forall h :: Holds(pc[t]) == h ==> Count(pc, h) >= 1
  {
    hide Count;
    CountUpdate(pc, t, p, Claimed);
    CountUpdate(pc, t, p, Stored);
    CountUpdate(pc, t, p, Owed);
    CountUpdate(pc, t, p, Fetched);
    CountSome(pc, t);
  }

  lemma UnlockKeepsMutex(b: Box, t: nat)
    requires QueuesInv(b) && MutexInv(b) && t < |b.pc| && (b.pc[t].SendUnlock? || b.pc[t].RecvUnlock?)
    ensures MutexInv(Unlock(b, t))
    ensures TailLag(Unlock(b, t)) == 0 == TailLag(b) && HeadLag(Unlock(b, t)) == 0 == HeadLag(b)
  {
    hide Count;
    assert b.mutex.held && b.mutex.owner == t;
  }

  lemma UnlockKeepsQueues(b: Box, t: nat)
    requires QueuesInv(b) && MutexInv(b) && t < |b.pc| && (b.pc[t].SendUnlock? || b.pc[t].RecvUnlock?)
    ensures QueuesInv(Unlock(b, t))
  {
    hide Count;
    assert b.mutex.held && b.mutex.owner == t;
    var p := if b.pc[t].SendUnlock? then SendPost else RecvPost(b.pc[t].got);
    MoveKeepsQueues(b, t, p);
    if |b.mutex.queue| > 0 {
      LeaveKeepsQueue(b.mutex.queue, b.pc[t := p], TheMutex);
    }
  }

  lemma UnlockKeepsPermits(b: Box, t: nat)
    requires PermitInv(b) && Queued(b.mutex.queue, b.pc, TheMutex)
    requires t < |b.pc| && (b.pc[t].SendUnlock? || b.pc[t].RecvUnlock?) && b.mutex.owner == t
    ensures PermitInv(Unlock(b, t))
  {
    hide Count;
    if b.pc[t].SendUnlock? {
      WakeCounts(b.pc, b.mutex.queue, TheMutex, t, SendPost);
    } else {
      WakeCounts(b.pc, b.mutex.queue, TheMutex, t, RecvPost(b.pc[t].got));
    }
  }

  lemma UnlockKeeps(b: Box, t: nat)
    requires Inv(b) && t < |b.pc| && (b.pc[t].SendUnlock? || b.pc[t].RecvUnlock?)
    ensures Inv(Unlock(b, t))
  {
    hide Count;
    UnlockKeepsQueues(b, t);
    UnlockKeepsMutex(b, t);
    SameLag(b, Unlock(b, t));
    UnlockKeepsPermits(b, t);
  }

  lemma PostFilledKeeps(b: Box, t: nat)
    requires Inv(b) && t < |b.pc| && b.pc[t].SendPost?
    ensures Inv(PostFilled(b, t))
  {
    hide Count;
    WakeCounts(b.pc, b.filled.queue, FilledSlots, t, Idle);
    MoveKeepsQueues(b, t, Idle);
    if |b.filled.queue| > 0 {
      LeaveKeepsQueue(b.filled.queue, b.pc[t := Idle], FilledSlots);
    }
    SameLag(b, PostFilled(b, t));
  }

  lemma PostFreeKeeps(b: Box, t: nat)
    requires Inv(b) && t < |b.pc| && b.pc[t].RecvPost?
    ensures Inv(PostFree(b, t))
  {
    hide Count;
    WakeCounts(b.pc, b.free.queue, FreeSlots, t, Idle);
    MoveKeepsQueues(b, t, Idle);
    if |b.free.queue| > 0 {
      LeaveKeepsQueue(b.free.queue, b.pc[t := Idle], FreeSlots);
    }
    SameLag(b, PostFree(b, t));
  }

  /** Unread messages sit in consecutive slots. */
  ghost predicate Unread(buffer: seq<int>, sent: seq<int>, from: nat) {
    && |buffer| == CAPACITY && from <= |sent| <= from + CAPACITY
    && (forall i :: from <= i < |sent| ==> buffer[i % CAPACITY] == sent[i])
  }

  lemma StoreKeepsUnread(buffer: seq<int>, sent: seq<int>, from: nat, m: int)
    requires Unread(buffer, sent, from) && |sent| < from + CAPACITY
    ensures forall i :: from <= i < |sent| ==> i % CAPACITY != |sent| % CAPACITY
    ensures Unread(buffer[|sent| % CAPACITY := m], sent + [m], from)
  {
  }

  lemma StoreKeepsBuffer(b: Box, t: nat)
    requires BufferInv(b) && t < |b.pc| && b.mutex.owner == t
    requires b.pc[t].SendStore? && |b.sent| < |b.received| + CAPACITY
    ensures BufferInv(Store(b, t))
    ensures forall i :: |b.received| <= i < |b.sent| ==> i % CAPACITY != b.tail
  {
    assert TailLag(b) == 0 && HeadLag(b) == 0 && b.tail == |b.sent| % CAPACITY;
    StoreKeepsUnread(b.buffer, b.sent, |b.received|, b.pc[t].msg);
    assert TailLag(Store(b, t)) == 1 && HeadLag(Store(b, t)) == 0;
  }

  lemma FetchKeepsBuffer(b: Box, t: nat)
    requires BufferInv(b) && t < |b.pc| && b.mutex.owner == t
    requires b.pc[t].RecvFetch? && |b.received| < |b.sent|
    ensures BufferInv(Fetch(b, t)) && b.buffer[b.head] == b.sent[|b.received|]
  {
    assert b.head == |b.received| % CAPACITY;
  }

  lemma StoreKeeps(b: Box, t: nat)
    requires Inv(b) && t < |b.pc| && b.pc[t].SendStore?
    ensures Inv(Store(b, t))
    ensures forall i :: |b.received| <= i < |b.sent| ==> i % CAPACITY != b.tail
  {
    hide Count;
    var b' := Store(b, t);
    LocalKeeps(b, t, SendAdvance);
    assert QueuesInv(b') && MutexInv(b');
    MoveCounts(b.pc, t, SendAdvance);
    assert PermitInv(b');
    StoreKeepsBuffer(b, t);
  }

  lemma FetchKeeps(b: Box, t: nat)
    requires Inv(b) && t < |b.pc| && b.pc[t].RecvFetch?
    ensures |b.received| < |b.sent| && b.buffer[b.head] == b.sent[|b.received|]
    ensures Inv(Fetch(b, t))
  {
    hide Count;
    var b' := Fetch(b, t);
    var p := RecvAdvance(b.buffer[b.head]);
    LocalKeeps(b, t, p);
    assert QueuesInv(b') && MutexInv(b');
    MoveCounts(b.pc, t, p);
    assert PermitInv(b');
    FetchKeepsBuffer(b, t);
  }

  lemma AdvanceTailKeeps(b: Box, t: nat)
    requires Inv(b) && t < |b.pc| && b.pc[t].SendAdvance?
    ensures Inv(AdvanceTail(b, t))
  {
    hide Count;
    LocalKeeps(b, t, SendUnlock);
    assert QueuesInv(AdvanceTail(b, t)) && MutexInv(AdvanceTail(b, t));
    MoveCounts(b.pc, t, SendUnlock);
    assert PermitInv(AdvanceTail(b, t));
    assert TailLag(b) == 1 && HeadLag(b) == 0;
    assert BufferInv(AdvanceTail(b, t));
  }

  lemma AdvanceHeadKeeps(b: Box, t: nat)
    requires Inv(b) && t < |b.pc| && b.pc[t].RecvAdvance?
    ensures Inv(AdvanceHead(b, t))
  {
    hide Count;
    var p := RecvUnlock(b.pc[t].got);
    LocalKeeps(b, t, p);
    assert QueuesInv(AdvanceHead(b, t)) && MutexInv(AdvanceHead(b, t));
    MoveCounts(b.pc, t, p);
    assert PermitInv(AdvanceHead(b, t));
    assert TailLag(b) == 0 && HeadLag(b) == 1;
    assert BufferInv(AdvanceHead(b, t));
  }

  lemma StepKeeps(b: Box, t: nat, choice: Choice)
    requires Inv(b) && t < |b.pc|
    ensures Inv(Step(b, t, choice))
  {
    hide Count;
    match b.pc[t]
    case Idle => CallKeeps(b, t, choice);
    case SendReady(_) => LockKeeps(b, t);
    case RecvReady => LockKeeps(b, t);
    case SendStore(_) => StoreKeeps(b, t);
    case RecvFetch => FetchKeeps(b, t);
    case SendAdvance => AdvanceTailKeeps(b, t);
    case RecvAdvance(_) => AdvanceHeadKeeps(b, t);
    case SendUnlock => UnlockKeeps(b, t);
    case RecvUnlock(_) => UnlockKeeps(b, t);
    case SendPost => PostFilledKeeps(b, t);
    case RecvPost(_) => PostFreeKeeps(b, t);
    case _ =>
  }

  lemma {:induction false} RunInv(sisters: nat, moves: seq<Move>)
    requires sisters <= M.NO_OWNER
    ensures Inv(Run(sisters, moves))
  {
    InitInv(sisters);
    if moves != [] {
      var p, m := Run(sisters, moves[..|moves| - 1]), moves[|moves| - 1];
      RunInv(sisters, moves[..|moves| - 1]);
      if m.who < sisters {
        StepKeeps(p, m.who, m.choice);
      }
    }
  }

  /** In every interleaving of any number of senders and receivers the mailbox is
      a FIFO of capacity four: what has been received is a prefix of what has been
      sent, at most four messages are outstanding, permits and holders total four,
      and at most one Sister is touching the buffer. */
  lemma FifoOfCapacityFour(sisters: nat, moves: seq<Move>)
    requires sisters <= M.NO_OWNER
    ensures var b := Run(sisters, moves);
            && b.received <= b.sent
            && |b.sent| - |b.received| <= CAPACITY
            && b.free.permits + b.filled.permits + Count(b.pc, Claimed) + Count(b.pc, Stored)
               + Count(b.pc, Owed) + Count(b.pc, Fetched) == CAPACITY
            && (forall s, t :: 0 <= s < sisters && 0 <= t < sisters && InSection(b.pc[s]) && InSection(b.pc[t]) ==>
                s == t)
  {
    RunInv(sisters, moves);
  }

  /** No store overwrites a message that has not been fetched, and every fetch
      returns the oldest such message. */
  lemma NoOverwriteNoStaleRead(sisters: nat, moves: seq<Move>, t: nat)
    requires sisters <= M.NO_OWNER && t < sisters
    ensures var b := Run(sisters, moves);
            && (b.pc[t].SendStore? ==>
                  forall i :: |b.received| <= i < |b.sent| ==>
                      i % CAPACITY != b.tail && b.buffer[i % CAPACITY] == b.sent[i])
            && (b.pc[t].RecvFetch? ==> |b.received| < |b.sent| && b.buffer[b.head] == b.sent[|b.received|])
  {
    RunInv(sisters, moves);
    var b := Run(sisters, moves);
    if b.pc[t].SendStore? {
      StoreKeeps(b, t);
    } else if b.pc[t].RecvFetch? {
      FetchKeeps(b, t);
    }
  }

  // Sisters that come to rest.

  function QueueAt(b: Box, place: Place): seq<nat> {
    match place
    case Nowhere => []
    case FreeSlots => b.free.queue
    case FilledSlots => b.filled.queue
    case TheMutex => b.mutex.queue
  }

  /** Blocked, and in no queue from which it could be woken. */
  predicate Lost(b: Box, t: nat)
    requires t < |b.pc|
  {
    BlockedOn(b.pc[t]) != Nowhere && t !in QueueAt(b, BlockedOn(b.pc[t]))
  }

  ghost predicate AllQueued(b: Box) {
    forall t :: 0 <= t < |b.pc| ==> !Lost(b, t)
  }

  /** The step blocks at a ring that is full already. */
  predicate Crowds(b: Box, t: nat, choice: Choice)
    requires Sized(b) && t < |b.pc|
  {
    match b.pc[t]
    case Idle =>
      var s := if choice.CallSend? then b.free else b.filled;
      s.permits <= 0 && |s.queue| >= MAX_WAITERS
    case SendReady(_) => b.mutex.held && |b.mutex.queue| >= MAX_WAITERS
    case RecvReady => b.mutex.held && |b.mutex.queue| >= MAX_WAITERS
    case _ => false
  }

  /** No step of the run met a full ring. */
  predicate Uncrowded(sisters: nat, moves: seq<Move>) {
    moves != [] ==>
      var n := |moves| - 1;
      && Uncrowded(sisters, moves[..n])
      && (moves[n].who < sisters ==> !Crowds(Run(sisters, moves[..n]), moves[n].who, moves[n].choice))
  }

  lemma QueuedIn(b: Box, place: Place, t: nat)
    requires QueuesInv(b) && place != Nowhere && t in QueueAt(b, place)
    ensures t < |b.pc| && BlockedOn(b.pc[t]) == place
  {
  }

  /** Whom a step wakes: the head of a queue, if anyone. */
  ghost predicate WakesFrom(b: Box, b': Box, u: nat, place: Place)
    requires u < |b.pc|
  {
    && |b'.pc| == |b.pc|
    && (forall p :: p != place ==> QueueAt(b', p) == QueueAt(b, p))
    && var q := QueueAt(b, place);
       if q == [] then
         QueueAt(b', place) == [] && forall t :: 0 <= t < |b.pc| && t != u ==> b'.pc[t] == b.pc[t]
       else
         QueueAt(b', place) == q[1..] && forall t :: 0 <= t < |b.pc| && t != u && t != q[0] ==> b'.pc[t] == b.pc[t]
  }

  /** A step that wakes the head of a queue loses nobody and finds nobody. */
  lemma WakeLost(b: Box, b': Box, u: nat, place: Place, t: nat)
    requires QueuesInv(b) && QueuesInv(b') && u < |b.pc| && t < |b.pc| && place != Nowhere && WakesFrom(b, b', u, place)
    requires BlockedOn(b.pc[u]) == Nowhere == BlockedOn(b'.pc[u])
    requires QueueAt(b, place) != [] && QueueAt(b, place)[0] < |b.pc| ==>
               BlockedOn(b'.pc[QueueAt(b, place)[0]]) == Nowhere
    ensures Lost(b', t) <==> Lost(b, t)
  {
    var q := QueueAt(b, place);
    if q != [] {
      QueuedIn(b, place, q[0]);
      assert q == [q[0]] + q[1..];
    }
  }

  /** A step that only moves u, which does not block. */
  lemma MoveLost(b: Box, b': Box, u: nat, t: nat)
    requires u < |b.pc| == |b'.pc| && t < |b.pc| && BlockedOn(b.pc[u]) == Nowhere == BlockedOn(b'.pc[u])
    requires forall p :: QueueAt(b', p) == QueueAt(b, p)
    requires forall x :: 0 <= x < |b.pc| && x != u ==> b'.pc[x] == b.pc[x]
    ensures Lost(b', t) <==> Lost(b, t)
  {
  }

  /** A step that blocks u at a place loses it exactly when the ring there is full. */
  lemma BlockLost(b: Box, b': Box, u: nat, place: Place, t: nat)
    requires QueuesInv(b) && u < |b.pc| == |b'.pc| && t < |b.pc| && place != Nowhere
    requires BlockedOn(b.pc[u]) == Nowhere && BlockedOn(b'.pc[u]) == place
    requires QueueAt(b', place) == Enqueued(QueueAt(b, place), u)
    requires forall p :: p != place ==> QueueAt(b', p) == QueueAt(b, p)
    requires forall x :: 0 <= x < |b.pc| && x != u ==> b'.pc[x] == b.pc[x]
    ensures Lost(b', t) <==> Lost(b, t) || (t == u && |QueueAt(b, place)| >= MAX_WAITERS)
  {
    if u in QueueAt(b, place) {
      QueuedIn(b, place, u);
    }
  }

  /** A Sister is lost by a step exactly when it was lost before, or the step crowds it out. */
  lemma LostIff(b: Box, u: nat, choice: Choice, t: nat)
    requires Inv(b) && u < |b.pc| && t < |b.pc|
    ensures Lost(Step(b, u, choice), t) <==> Lost(b, t) || (t == u && Crowds(b, u, choice))
  {
    hide Lost;
    assert Sized(b);
    hide Inv;
    match b.pc[u]
    case Idle => CallLost(b, u, choice, t);
    case SendReady(_) => LockLost(b, u, t);
    case RecvReady => LockLost(b, u, t);
    case SendStore(_) => LocalLost(b, u, choice, t);
    case RecvFetch => LocalLost(b, u, choice, t);
    case SendAdvance => LocalLost(b, u, choice, t);
    case RecvAdvance(_) => LocalLost(b, u, choice, t);
    case SendUnlock => UnlockLost(b, u, t);
    case RecvUnlock(_) => UnlockLost(b, u, t);
    case SendPost => PostLost(b, u, t);
    case RecvPost(_) => PostLost(b, u, t);
    case _ =>
  }

  lemma CallLost(b: Box, u: nat, choice: Choice, t: nat)
    requires Inv(b) && u < |b.pc| && t < |b.pc| && b.pc[u].Idle?
    ensures Lost(Call(b, u, choice), t) <==> Lost(b, t) || (t == u && Crowds(b, u, choice))
  {
    hide Count;
    hide Lost;
    hide BufferInv;
    hide PermitInv;
    hide MutexInv;
    var b' := Call(b, u, choice);
    if BlockedOn(b'.pc[u]) == Nowhere {
      MoveLost(b, b', u, t);
    } else {
      BlockLost(b, b', u, BlockedOn(b'.pc[u]), t);
    }
  }

  lemma LocalLost(b: Box, u: nat, choice: Choice, t: nat)
    requires Sized(b) && u < |b.pc| && t < |b.pc|
    requires b.pc[u].SendStore? || b.pc[u].RecvFetch? || b.pc[u].SendAdvance? || b.pc[u].RecvAdvance?
    ensures Lost(Step(b, u, choice), t) <==> Lost(b, t)
  {
    hide Lost;
    MoveLost(b, Step(b, u, choice), u, t);
  }

  lemma PostLost(b: Box, u: nat, t: nat)
    requires Inv(b) && u < |b.pc| && t < |b.pc| && (b.pc[u].SendPost? || b.pc[u].RecvPost?)
    ensures Lost(if b.pc[u].SendPost? then PostFilled(b, u) else PostFree(b, u), t) <==> Lost(b, t)
  {
    hide Lost;
    hide Count;
    hide BufferInv;
    hide PermitInv;
    if b.pc[u].SendPost? {
      PostFilledKeeps(b, u);
      if b.filled.queue != [] {
        QueuedIn(b, FilledSlots, b.filled.queue[0]);
      }
      WakeLost(b, PostFilled(b, u), u, FilledSlots, t);
    } else {
      PostFreeKeeps(b, u);
      if b.free.queue != [] {
        QueuedIn(b, FreeSlots, b.free.queue[0]);
      }
      WakeLost(b, PostFree(b, u), u, FreeSlots, t);
    }
  }

  lemma LockLost(b: Box, u: nat, t: nat)
    requires Inv(b) && u < |b.pc| && t < |b.pc| && (b.pc[u].SendReady? || b.pc[u].RecvReady?)
    ensures Lost(Lock(b, u), t) <==>
            Lost(b, t) || (t == u && b.mutex.held && |b.mutex.queue| >= MAX_WAITERS)
  {
    hide Lost;
    if b.mutex.held {
      BlockLost(b, Lock(b, u), u, TheMutex, t);
    } else {
      MoveLost(b, Lock(b, u), u, t);
    }
  }

  lemma UnlockLost(b: Box, u: nat, t: nat)
    requires Inv(b) && u < |b.pc| && t < |b.pc| && (b.pc[u].SendUnlock? || b.pc[u].RecvUnlock?)
    ensures Lost(Unlock(b, u), t) <==> Lost(b, t)
  {
    hide Lost;
    hide Count;
    hide BufferInv;
    hide PermitInv;
    UnlockKeepsQueues(b, u);
    assert b.mutex.held && b.mutex.owner == u;
    if b.mutex.queue != [] {
      QueuedIn(b, TheMutex, b.mutex.queue[0]);
    }
    WakeLost(b, Unlock(b, u), u, TheMutex, t);
  }

  lemma AllQueuedStep(b: Box, u: nat, choice: Choice)
    requires Inv(b) && u < |b.pc|
    ensures AllQueued(Step(b, u, choice)) <==> AllQueued(b) && !Crowds(b, u, choice)
  {
    hide Lost;
    hide Crowds;
    hide Step;
    assert Sized(b);
    hide Inv;
    var b' := Step(b, u, choice);
    forall t | 0 <= t < |b.pc|
      ensures Lost(b', t) <==> Lost(b, t) || (t == u && Crowds(b, u, choice))
    {
      LostIff(b, u, choice, t);
    }
    if !AllQueued(b) {
      var t :| 0 <= t < |b.pc| && Lost(b, t);
      assert Lost(b', t);
    } else if Crowds(b, u, choice) {
      assert Lost(b', u);
    }
  }

  /** Everyone who is blocked can be woken exactly when no ring was full on anyone's arrival. */
  lemma {:induction false} AllQueuedIff(sisters: nat, moves: seq<Move>)
    requires sisters <= M.NO_OWNER
    ensures AllQueued(Run(sisters, moves)) <==> Uncrowded(sisters, moves)
  {
    if moves == [] {
      assert Run(sisters, moves) == Init(sisters);
    } else {
      var n := |moves| - 1;
      var b, m := Run(sisters, moves[..n]), moves[n];
      RunInv(sisters, moves[..n]);
      hide Crowds;
      hide AllQueued;
      hide Step;
      hide Inv;
      AllQueuedIff(sisters, moves[..n]);
      if m.who < sisters {
        AllQueuedStep(b, m.who, m.choice);
      }
    }
  }

  /** Permits are banked only while nobody waits for them. */
  ghost predicate Thrifty(b: Box) {
    (b.free.queue != [] ==> b.free.permits <= 0) && (b.filled.queue != [] ==> b.filled.permits <= 0)
  }

  lemma {:induction false} RunThrifty(sisters: nat, moves: seq<Move>)
    ensures Thrifty(Run(sisters, moves))
  {
    if moves != [] {
      RunThrifty(sisters, moves[..|moves| - 1]);
    }
  }

  /** Nobody can take a step without a new call. */
  predicate AtRest(b: Box) {
    forall t :: 0 <= t < |b.pc| ==> b.pc[t].Idle? || BlockedOn(b.pc[t]) != Nowhere
  }

  lemma {:induction false} NoneHolding(pc: seq<Pc>, h: Holding)
    requires h != Nothing && forall t :: 0 <= t < |pc| ==> Holds(pc[t]) != h
    ensures Count(pc, h) == 0
  {
    if pc != [] {
      NoneHolding(pc[..|pc| - 1], h);
    }
  }

  /** At rest nobody waits for the mutex. */
  lemma RestUnlocked(b: Box, t: nat)
    requires Inv(b) && AllQueued(b) && AtRest(b) && t < |b.pc|
    ensures BlockedOn(b.pc[t]) != TheMutex
  {
    hide Count;
    assert !Lost(b, t);
    assert b.mutex.held ==> InSection(b.pc[b.mutex.owner]);
  }

  /** No deadlock: when the Sisters come to rest in a run that met no full ring, nobody is
      blocked on the mutex, and whoever is blocked waits for the other side, senders
      with four messages outstanding or receivers with none. */
  lemma RestIsFullOrEmpty(sisters: nat, moves: seq<Move>)
    requires sisters <= M.NO_OWNER && Uncrowded(sisters, moves) && AtRest(Run(sisters, moves))
    ensures var b := Run(sisters, moves);
            forall t :: 0 <= t < sisters ==>
              && BlockedOn(b.pc[t]) != TheMutex
              && (BlockedOn(b.pc[t]) == FreeSlots ==> |b.sent| == |b.received| + CAPACITY)
              && (BlockedOn(b.pc[t]) == FilledSlots ==> |b.sent| == |b.received|)
  {
    var b := Run(sisters, moves);
    RunInv(sisters, moves);
    RunThrifty(sisters, moves);
    AllQueuedIff(sisters, moves);
    forall t | 0 <= t < sisters
      ensures BlockedOn(b.pc[t]) != TheMutex
    {
      RestUnlocked(b, t);
    }
    NoneHolding(b.pc, Claimed);
    NoneHolding(b.pc, Stored);
    NoneHolding(b.pc, Owed);
    NoneHolding(b.pc, Fetched);
    forall t | 0 <= t < sisters
      ensures BlockedOn(b.pc[t]) == FreeSlots ==> b.free.queue != []
      ensures BlockedOn(b.pc[t]) == FilledSlots ==> b.filled.queue != []
    {
      assert !Lost(b, t);
    }
  }

  /** Distinct Sisters that leave one out are fewer than all. */
  lemma Fewer(q: seq<nat>, n: nat, t: nat)
    requires t < n && t !in q && (forall i :: 0 <= i < |q| ==> q[i] < n)
    requires forall i, j :: 0 <= i < j < |q| ==> q[i] != q[j]
    ensures |q| < n
  {
    Crowded(q + [t], n);
  }

  /** Eight Sisters never meet a full ring. */
  lemma {:induction false} EightAreUncrowded(sisters: nat, moves: seq<Move>)
    requires sisters <= MAX_WAITERS
    ensures Uncrowded(sisters, moves)
  {
    if moves != [] {
      var n := |moves| - 1;
      EightAreUncrowded(sisters, moves[..n]);
      if moves[n].who < sisters {
        RunInv(sisters, moves[..n]);
        EnoughRoom(Run(sisters, moves[..n]), moves[n].who, moves[n].choice);
      }
    }
  }

  lemma EnoughRoom(b: Box, t: nat, choice: Choice)
    requires Inv(b) && t < |b.pc| <= MAX_WAITERS
    ensures !Crowds(b, t, choice)
  {
    hide Count;
    if BlockedOn(b.pc[t]) == Nowhere {
      Fewer(b.free.queue, |b.pc|, t);
      Fewer(b.filled.queue, |b.pc|, t);
      Fewer(b.mutex.queue, |b.pc|, t);
    }
  }
}
