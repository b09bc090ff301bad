/** The mutex (Judgement): hand-off on release, and priority inheritance by
    lending the waiter's Level to the owner.
 */
module Mutex {
  import opened Basics
  import opened Waiters

  const NO_OWNER: nat := 0xffff_ffff

  datatype Lock = Lock(held: bool, owner: nat, queue: seq<nat>)

  /** Raise Sister `s` to Level `to`, if that is higher. */
  function LevelUpper(levels: seq<nat>, s: nat, to: nat): (r: seq<nat>)
    ensures |r| == |levels|
  {
    if s < |levels| && to > levels[s] then levels[s := to] else levels
  }

  /** The locked section of a lock call by `me`: new lock, new Levels, and
      whether `me` now owns the lock (otherwise it is blocked). */
  function Acquire(l: Lock, levels: seq<nat>, me: nat): (r: (Lock, seq<nat>, bool))
    requires me < |levels|
  {
    if !l.held then (Lock(true, me, l.queue), levels, true)
    else (l.(queue := Enqueued(l.queue, me)), LevelUpper(levels, l.owner, levels[me]), false)
  }

  /** The locked section of an unlock call by `me`; a non-owner's call does nothing. */
  function Release(l: Lock, levels: seq<nat>, base: seq<nat>, me: nat): (r: (Lock, seq<nat>, Option<nat>))
    requires me < |levels| == |base|
  {
    if l.owner != me then (l, levels, None)
    else
      var restored := levels[me := base[me]];
      if |l.queue| > 0 then (Lock(l.held, l.queue[0], l.queue[1..]), restored, Some(l.queue[0]))
      else (Lock(false, NO_OWNER, l.queue), restored, None)
  }

  class Judgement {
    var held: bool
    var owner: nat
    const ring: WaiterRing

    ghost predicate Valid()
      reads this, ring
    {
      ring.Valid()
    }

    ghost function View(): Lock
      requires Valid()
      reads this, ring, ring.slots
    {
      Lock(held, owner, ring.Queue())
    }

    constructor ()
      ensures Valid() && fresh(ring) && fresh(ring.slots)
      ensures View() == Lock(false, NO_OWNER, [])
    {
      held, owner := false, NO_OWNER;
      ring := new WaiterRing();
    }

    method LockBy(me: nat, levels: array<nat>) returns (owned: bool)
      requires Valid()
      requires me < levels.Length && levels != ring.slots
      modifies this, ring, ring.slots, levels
      ensures Valid()
      ensures (View(), levels[..], owned) == Acquire(old(View()), old(levels[..]), me)
    {
      if !held {
        held := true;
        owner := me;
        return true;
      }
      if owner < levels.Length && levels[me] > levels[owner] {
        levels[owner] := levels[me];
      }
      ring.Enqueue(me);
      return false;
    }

    method UnlockBy(me: nat, levels: array<nat>, base: array<nat>) returns (woken: Option<nat>)
      requires Valid()
      requires me < levels.Length == base.Length
      requires levels != ring.slots && levels != base
      modifies this, ring, levels
      ensures Valid()
      ensures (View(), levels[..], woken) == Release(old(View()), old(levels[..]), base[..], me)
    {
      if owner != me {
        return None;
      }
      levels[me] := base[me];
      if ring.waiting > 0 {
        var next := ring.Dequeue();
        owner := next;
        woken := Some(next);
      } else {
        held := false;
        owner := NO_OWNER;
        woken := None;
      }
    }
  }

  // Any number of Sisters using one lock, in any interleaving.

  /** Where a Sister stands: outside, blocked inside the lock call, or between a
      lock call that returned and its unlock. */
  datatype Phase = Outside | Blocked | Inside

  /** `lenders` are the Sisters that blocked on the lock during the present
      ownership; `arrivals` and `handed` record who joined the queue and who got
      the lock from it, in order. */
  datatype System = System(lock: Lock, phase: seq<Phase>, level: seq<nat>, base: seq<nat>,
                           lenders: set<nat>, arrivals: seq<nat>, handed: seq<nat>)

  datatype Call = LockCall(who: nat) | UnlockCall(who: nat)

  function Init(base: seq<nat>): System {
    System(Lock(false, NO_OWNER, []), seq(|base|, _ => Outside), base, base, {}, [], [])
  }

  predicate Sized(s: System) {
    |s.phase| == |s.level| == |s.base|
  }

  /** A Sister only calls lock when it is outside; a blocked Sister calls nothing. */
  predicate Enabled(s: System, c: Call) {
    && c.who < |s.phase|
    && (c.LockCall? ==> s.phase[c.who] == Outside)
    && (c.UnlockCall? ==> s.phase[c.who] != Blocked)
  }

  function Step(s: System, c: Call): (s': System)
    requires Sized(s) && Enabled(s, c)
    ensures Sized(s')
  {
    var me := c.who;
    match c
    case LockCall(_) =>
      var (lock, level, owned) := Acquire(s.lock, s.level, me);
      if owned then s.(lock := lock, level := level, phase := s.phase[me := Inside], lenders := {})
      else
        var queued := lock.queue != s.lock.queue;
        s.(lock := lock, level := level, phase := s.phase[me := Blocked], lenders := s.lenders + {me},
           arrivals := if queued then s.arrivals + [me] else s.arrivals)
    case UnlockCall(_) =>
      var (lock, level, woken) := Release(s.lock, s.level, s.base, me);
      if s.lock.owner != me then s
      else
        var left := s.phase[me := Outside];
        match woken
        case None => s.(lock := lock, level := level, phase := left, lenders := {})
        case Some(next) =>
          s.(lock := lock, level := level, lenders := {}, handed := s.handed + [next],
             phase := if next < |left| then left[next := Inside] else left)
  }

  /** The state after a sequence of calls, skipping those no Sister can make. */
  function Run(base: seq<nat>, calls: seq<Call>): (s: System)
    ensures Sized(s)
  {
    if calls == [] then Init(base)
    else
      var p, c := Run(base, calls[..|calls| - 1]), calls[|calls| - 1];
      if Enabled(p, c) then Step(p, c) else p
  }

  ghost predicate Distinct(q: seq<nat>) {
    forall i, j :: 0 <= i < j < |q| ==> q[i] != q[j]
  }

  ghost predicate Inv(s: System) {
    && Sized(s)
    && |s.phase| <= NO_OWNER
    && (s.lock.held <==> s.lock.owner < |s.phase|)
    && (!s.lock.held ==> s.lock.owner == NO_OWNER && s.lock.queue == [])
    && (forall t :: 0 <= t < |s.phase| ==> (s.phase[t] == Inside <==> s.lock.held && s.lock.owner == t))
    && Distinct(s.lock.queue)
    && (forall w :: w in s.lock.queue ==> w < |s.phase| && s.phase[w] == Blocked)
    && s.handed + s.lock.queue == s.arrivals
    && (forall t :: 0 <= t < |s.phase| && t != s.lock.owner ==> s.level[t] == s.base[t])
    && (s.lock.held ==> s.level[s.lock.owner] >= s.base[s.lock.owner])
    && (forall w :: w in s.lenders ==>
          w < |s.phase| && s.lock.held && w != s.lock.owner && s.phase[w] == Blocked
          && s.level[w] <= s.level[s.lock.owner])
  }

  lemma StepKeeps(s: System, c: Call)
    requires Inv(s) && Enabled(s, c)
    ensures Inv(Step(s, c))
  {
    var s' := Step(s, c);
    if c.UnlockCall? && s.lock.owner == c.who && |s.lock.queue| > 0 {
      var q := s.lock.queue;
      assert q == [q[0]] + q[1..];
      assert q[0] in q;
      assert s'.handed + s'.lock.queue == s.handed + q;
      forall w | w in q[1..]
        ensures w in q && w != q[0]
      {
        var i :| 0 <= i < |q[1..]| && q[1..][i] == w;
        assert q[i + 1] == w;
      }
    } else if c.LockCall? && s.lock.held {
      assert c.who !in s.lock.queue;
    }
  }

  lemma {:induction false} RunInv(base: seq<nat>, calls: seq<Call>)
    requires |base| <= NO_OWNER
    ensures Inv(Run(base, calls))
  {
    if calls != [] {
      var p, c := Run(base, calls[..|calls| - 1]), calls[|calls| - 1];
      RunInv(base, calls[..|calls| - 1]);
      if Enabled(p, c) {
        StepKeeps(p, c);
      }
    }
  }

  /** In every run at most one Sister is between lock and unlock, and it is the
      owner; hand-off follows queueing order; and the owner's Level is at least
      that of every Sister that blocked during its ownership. */
  lemma MutualExclusion(base: seq<nat>, calls: seq<Call>)
    requires |base| <= NO_OWNER
    ensures var s := Run(base, calls);
            && (forall a, b :: 0 <= a < |s.phase| && 0 <= b < |s.phase| && s.phase[a] == Inside && s.phase[b] == Inside
                  ==> a == b)
            && (forall a :: 0 <= a < |s.phase| && s.phase[a] == Inside ==> s.lock.held && s.lock.owner == a)
            && s.handed + s.lock.queue == s.arrivals
            && (forall w :: w in s.lenders ==>
                s.lock.owner < |s.level| && w < |s.level| && s.level[w] <= s.level[s.lock.owner])
  {
    RunInv(base, calls);
  }

  /** Inheritance does not follow a hand-off: the new owner starts at its own
      Level, so a Sister still queued outranks it exactly when its own Level is higher. */
  lemma BoostIsNotPassedOn(base: seq<nat>, calls: seq<Call>, w: nat)
    requires |base| <= NO_OWNER
    requires var s := Run(base, calls);
             s.lock.held && |s.lock.queue| > 0 && w in s.lock.queue[1..]
    ensures var s := Run(base, calls);
            && Enabled(s, UnlockCall(s.lock.owner))
            && var s' := Step(s, UnlockCall(s.lock.owner));
               && s'.lock.owner == s.lock.queue[0] && s'.lock.owner < |s'.level| && w < |s'.level|
               && (s'.level[w] > s'.level[s'.lock.owner] <==> s.base[w] > s.base[s'.lock.owner])
  {
    RunInv(base, calls);
    var s := Run(base, calls);
    assert s.phase[s.lock.owner] == Inside;
    assert s.lock.queue[0] in s.lock.queue;
    assert w in s.lock.queue;
    StepKeeps(s, UnlockCall(s.lock.owner));
  }

  // The ninth waiter.

  /** The i-th call is a lock call that blocks on a full waiter ring. */
  predicate Overflows(base: seq<nat>, calls: seq<Call>, i: nat)
    requires i < |calls|
  {
    var s := Run(base, calls[..i]);
    calls[i].LockCall? && Enabled(s, calls[i]) && s.lock.held && |s.lock.queue| >= MAX_WAITERS
  }

  ghost predicate NoOverflow(base: seq<nat>, calls: seq<Call>) {
    forall i :: 0 <= i < |calls| ==> !Overflows(base, calls, i)
  }

  lemma NoOverflowSplit(base: seq<nat>, calls: seq<Call>)
    requires calls != []
    ensures NoOverflow(base, calls) <==>
            NoOverflow(base, calls[..|calls| - 1]) && !Overflows(base, calls, |calls| - 1)
  {
    var before := calls[..|calls| - 1];
    assert forall i :: 0 <= i < |before| ==> before[..i] == calls[..i];
    assert forall i :: 0 <= i < |before| ==> Overflows(base, before, i) == Overflows(base, calls, i);
  }

  /** A blocked Sister that is not in the waiter ring. */
  predicate Stranded(s: System, t: nat)
    requires Sized(s)
  {
    t < |s.phase| && s.phase[t] == Blocked && t !in s.lock.queue
  }

  ghost predicate AllQueued(s: System)
    requires Sized(s)
  {
    forall t :: 0 <= t < |s.phase| && s.phase[t] == Blocked ==> t in s.lock.queue
  }

  lemma StrandedStays(s: System, c: Call, t: nat)
    requires Inv(s) && Enabled(s, c) && Stranded(s, t)
    ensures Stranded(Step(s, c), t)
  {
    if c.UnlockCall? && s.lock.owner == c.who && |s.lock.queue| > 0 {
      assert s.lock.queue[0] in s.lock.queue;
    }
  }

  /** A Sister whose lock call overflowed stays blocked and never owns the lock, whatever is called later. */
  lemma {:induction false} NinthWaiterBlocksForever(base: seq<nat>, before: seq<Call>, t: nat, after: seq<Call>)
    requires |base| <= NO_OWNER && Overflows(base, before + [LockCall(t)], |before|)
    ensures var s := Run(base, before + [LockCall(t)] + after);
            Stranded(s, t) && s.phase[t] == Blocked && s.lock.owner != t
  {
    var calls := before + [LockCall(t)];
    assert calls[..|before|] == before;
    RunInv(base, calls + after);
    if after == [] {
      RunInv(base, before);
      assert calls + after == calls;
    } else {
      var front, last := after[..|after| - 1], after[|after| - 1];
      NinthWaiterBlocksForever(base, before, t, front);
      assert (calls + after)[..|calls + after| - 1] == calls + front;
      RunInv(base, calls + front);
      if Enabled(Run(base, calls + front), last) {
        StrandedStays(Run(base, calls + front), last, t);
      }
    }
  }

  lemma StepQueues(s: System, c: Call)
    requires Inv(s) && Enabled(s, c) && AllQueued(s)
    requires !(c.LockCall? && s.lock.held && |s.lock.queue| >= MAX_WAITERS)
    ensures AllQueued(Step(s, c))
  {
    var s', q := Step(s, c), s.lock.queue;
    forall t | 0 <= t < |s'.phase| && s'.phase[t] == Blocked
      ensures t in s'.lock.queue
    {
      if c.UnlockCall? && s.lock.owner == c.who && |q| > 0 {
        assert q == [q[0]] + q[1..];
      } else if c.LockCall? && t == c.who && s.lock.held {
        assert s'.lock.queue == q + [t];
      }
    }
  }

  /** Every blocked Sister is in the waiter ring, if and only if no lock call of
      the run met a full ring. */
  lemma {:induction false} AllQueuedIffNoOverflow(base: seq<nat>, calls: seq<Call>)
    requires |base| <= NO_OWNER
    ensures AllQueued(Run(base, calls)) <==> NoOverflow(base, calls)
  {
    if calls != [] {
      var n := |calls| - 1;
      var before, c := calls[..n], calls[n];
      AllQueuedIffNoOverflow(base, before);
      NoOverflowSplit(base, calls);
      RunInv(base, before);
      var s := Run(base, before);
      if Overflows(base, calls, n) {
        assert calls == before + [LockCall(c.who)] + [];
        NinthWaiterBlocksForever(base, before, c.who, []);
      } else if Enabled(s, c) {
        if AllQueued(s) {
          StepQueues(s, c);
        } else {
          var t :| 0 <= t < |s.phase| && s.phase[t] == Blocked && t !in s.lock.queue;
          StrandedStays(s, c, t);
        }
      }
    }
  }
}
