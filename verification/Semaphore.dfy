/** The counting semaphore (Imprimatur): permits, and a FIFO of blocked Sisters
    that receive permits by direct hand-off.
 */
module Semaphore {
  import opened Basics
  import opened Waiters

  datatype Sem = Sem(permits: int, queue: seq<nat>)

  /** The locked section of a wait by `sister`: the flag says whether it got a
      permit at once; otherwise it is blocked (and queued, if there was room). */
  function Wait(s: Sem, sister: nat): (r: (Sem, bool)) {
    if s.permits > 0 then (s.(permits := s.permits - 1), true)
    else (s.(queue := Enqueued(s.queue, sister)), false)
  }

  /** The locked section of a post: the Sister the permit is handed to, if any. */
  function Post(s: Sem): (r: (Sem, Option<nat>)) {
    if |s.queue| > 0 then (s.(queue := s.queue[1..]), Some(s.queue[0]))
    else (s.(permits := s.permits + 1), None)
  }

  class Imprimatur {
    var permits: int
    const ring: WaiterRing

    ghost predicate Valid()
      reads this, ring
    {
      ring.Valid()
    }

    ghost function View(): Sem
      requires Valid()
      reads this, ring, ring.slots
    {
      Sem(permits, ring.Queue())
    }

    constructor (initial: int)
      ensures Valid() && fresh(ring) && fresh(ring.slots)
      ensures View() == Sem(initial, [])
    {
      permits := initial;
      ring := new WaiterRing();
    }

    method WaitBy(sister: nat) returns (granted: bool)
      requires Valid()
      modifies this, ring, ring.slots
      ensures Valid()
      ensures (View(), granted) == Wait(old(View()), sister)
    {
      if permits > 0 {
        permits := permits - 1;
        return true;
      }
      ring.Enqueue(sister);
      return false;
    }

    method PostPermit() returns (woken: Option<nat>)
      requires Valid()
      modifies this, ring
      ensures Valid()
      ensures (View(), woken) == Post(old(View()))
    {
      if ring.waiting > 0 {
        var sister := ring.Dequeue();
        woken := Some(sister);
      } else {
        permits := permits + 1;
        woken := None;
      }
    }
  }

  // Runs of one semaphore under any sequence of calls.

  datatype Op = WaitOp(sister: nat) | PostOp

  /** The semaphore together with what has happened to it so far: permits handed
      out, posts, every Sister whose wait was not granted, those the queue took
      in, and those a post woke. */
  datatype Log = Log(sem: Sem, grants: nat, posts: nat, blocked: seq<nat>, arrivals: seq<nat>, woken: seq<nat>)

  function Start(initial: int): Log {
    Log(Sem(initial, []), 0, 0, [], [], [])
  }

  function Apply(l: Log, op: Op): Log {
    match op
    case WaitOp(t) =>
      var (s, granted) := Wait(l.sem, t);
      if granted then l.(sem := s, grants := l.grants + 1)
      else l.(sem := s, blocked := l.blocked + [t],
              arrivals := if s.queue != l.sem.queue then l.arrivals + [t] else l.arrivals)
    case PostOp =>
      var (s, w) := Post(l.sem);
      match w
      case Some(t) => l.(sem := s, posts := l.posts + 1, grants := l.grants + 1, woken := l.woken + [t])
      case None => l.(sem := s, posts := l.posts + 1)
  }

  function Run(initial: int, ops: seq<Op>): Log {
    if ops == [] then Start(initial)
    else Apply(Run(initial, ops[..|ops| - 1]), ops[|ops| - 1])
  }

  /** Over every run: permits are conserved, a permit is banked only when nobody
      is queued, and hand-off is in arrival order with no queued Sister lost. */
  lemma {:induction false} Conserved(initial: int, ops: seq<Op>)
    requires initial >= 0
    ensures var l := Run(initial, ops);
            && l.grants + l.sem.permits == initial + l.posts
            && l.sem.permits >= 0
            && (l.sem.permits > 0 ==> l.sem.queue == [])
            && |l.sem.queue| <= MAX_WAITERS
            && l.woken + l.sem.queue == l.arrivals
  {
    if ops != [] {
      Conserved(initial, ops[..|ops| - 1]);
    }
  }

  /** The i-th call of the run is a wait that finds no permit and no waiter slot. */
  predicate Overflows(initial: int, ops: seq<Op>, i: nat)
    requires i < |ops|
  {
    var s := Run(initial, ops[..i]).sem;
    ops[i].WaitOp? && s.permits <= 0 && |s.queue| >= MAX_WAITERS
  }

  ghost predicate NoOverflow(initial: int, ops: seq<Op>) {
    forall i :: 0 <= i < |ops| ==> !Overflows(initial, ops, i)
  }

  lemma NoOverflowSplit(initial: int, ops: seq<Op>)
    requires ops != []
    ensures NoOverflow(initial, ops) <==>
            NoOverflow(initial, ops[..|ops| - 1]) && !Overflows(initial, ops, |ops| - 1)
  {
    var before := ops[..|ops| - 1];
    assert forall i :: 0 <= i < |before| ==> before[..i] == ops[..i];
    assert forall i :: 0 <= i < |before| ==> Overflows(initial, before, i) == Overflows(initial, ops, i);
  }

  /** Without an overflow the blocked Sisters are those woken and then those queued, in order. */
  lemma {:induction false} BlockedAreServed(initial: int, ops: seq<Op>)
    ensures var l := Run(initial, ops);
            && |l.woken + l.sem.queue| <= |l.blocked|
            && (NoOverflow(initial, ops) ==> l.woken + l.sem.queue == l.blocked)
            && (|l.woken + l.sem.queue| == |l.blocked| ==> NoOverflow(initial, ops))
  {
    if ops != [] {
      BlockedAreServed(initial, ops[..|ops| - 1]);
      NoOverflowSplit(initial, ops);
    }
  }

  /** Every Sister that blocked was woken or is still queued, if and only if no
      wait met a full waiter ring. */
  lemma LostIffOverflow(initial: int, ops: seq<Op>)
    ensures var l := Run(initial, ops);
            multiset(l.blocked) == multiset(l.woken + l.sem.queue) <==> NoOverflow(initial, ops)
  {
    BlockedAreServed(initial, ops);
    var l := Run(initial, ops);
    assert |multiset(l.blocked)| == |l.blocked| && |multiset(l.woken + l.sem.queue)| == |l.woken + l.sem.queue|;
  }

  lemma NotWokenStep(p: Log, op: Op, t: nat, n: nat)
    requires t !in p.sem.queue && n <= |p.woken| && t !in p.woken[n..] && op != WaitOp(t)
    ensures var m := Apply(p, op); t !in m.sem.queue && p.woken <= m.woken && t !in m.woken[n..]
  {
    if op.PostOp? && |p.sem.queue| > 0 {
      var w := p.sem.queue[0];
      assert w in p.sem.queue && (p.woken + [w])[n..] == p.woken[n..] + [w];
    }
  }

  /** A Sister whose wait overflowed is woken by no later post unless it waits again. */
  lemma {:induction false} LostIsNotWoken(initial: int, before: seq<Op>, t: nat, after: seq<Op>)
    requires Overflows(initial, before + [WaitOp(t)], |before|)
    requires t !in Run(initial, before).sem.queue && WaitOp(t) !in after
    ensures var l, m := Run(initial, before), Run(initial, before + [WaitOp(t)] + after);
            t !in m.sem.queue && l.woken <= m.woken && t !in m.woken[|l.woken|..]
  {
    var ops := before + [WaitOp(t)];
    assert ops[..|before|] == before;
    if after == [] {
      assert ops + after == ops;
    } else {
      var front, last := after[..|after| - 1], after[|after| - 1];
      assert last in after && forall o :: o in front ==> o in after;
      LostIsNotWoken(initial, before, t, front);
      assert (ops + after)[..|ops + after| - 1] == ops + front;
      assert Run(initial, ops + after) == Apply(Run(initial, ops + front), last);
      hide Run;
      hide Overflows;
      NotWokenStep(Run(initial, ops + front), last, t, |Run(initial, before).woken|);
      hide Apply;
    }
  }
}
