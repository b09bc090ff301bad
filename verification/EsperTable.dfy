/** The process table as the code keeps it: arrays updated in place, scanned by
    loops. Each method is tied to the function of module Espers it computes.
 */
module EsperTable {
  import opened Espers

  lemma FirstOtherStep(t: Table, cur: int, step: nat)
    requires Sized(t) && cur >= -1 && step >= 1
    ensures step > MAX_ESPERS ==> FirstOther(t, cur, step) == -1
    ensures step <= MAX_ESPERS && Around(cur, step) != cur && Claimable(t, Around(cur, step)) ==>
              FirstOther(t, cur, step) == Around(cur, step)
    ensures step <= MAX_ESPERS && (Around(cur, step) == cur || !Claimable(t, Around(cur, step))) ==>
              FirstOther(t, cur, step) == FirstOther(t, cur, step + 1)
  {
  }

  class Scheduler {
    const espers: array<Esper>
    const running: array<int>
    const active: array<int>
    var nextPid: nat
    var online: nat

    ghost predicate Valid()
      reads this
    {
      && espers.Length == MAX_ESPERS
      && running.Length == active.Length == MAX_CPUS
      && running != active
    }

    ghost function View(): (t: Table)
      requires Valid()
      reads this, espers, running, active
      ensures Sized(t)
    {
      Table(espers[..], running[..], active[..], nextPid, online)
    }

    constructor (cores: nat)
      ensures Valid() && fresh(espers) && fresh(running) && fresh(active)
      ensures View() == Init(cores)
    {
      espers := new Esper[MAX_ESPERS](_ => Blank(0).(state := Free));
      running := new int[MAX_CPUS](_ => -1);
      active := new int[MAX_CPUS](_ => -1);
      nextPid, online := 1, cores;
      new;
      assert espers[..] == Init(cores).espers;
      assert running[..] == Init(cores).running;
      assert active[..] == Init(cores).active;
    }

    method RunsSomewhere(i: int) returns (yes: bool)
      requires Valid()
      ensures yes == RunningSomewhere(running[..], i)
    {
      for c := 0 to MAX_CPUS
        invariant forall d :: 0 <= d < c ==> running[d] != i
      {
        if running[c] == i {
          assert running[..][c] == i;
          return true;
        }
      }
      return false;
    }

    method Referenced(i: int) returns (yes: bool)
      requires Valid()
      ensures yes == SlotInUse(View(), i)
    {
      for c := 0 to MAX_CPUS
        invariant forall d :: 0 <= d < c ==> running[d] != i && active[d] != i
      {
        if running[c] == i || active[c] == i {
          assert running[..][c] == i || active[..][c] == i;
          return true;
        }
      }
      return false;
    }

    method WakeSleepersNow(now: nat)
      requires Valid()
      modifies espers
      ensures View() == WakeSleepers(old(View()), now)
    {
      for i := 0 to MAX_ESPERS
        invariant forall k :: 0 <= k < i ==> espers[k] == Sleeper(old(espers[k]), now)
        invariant forall k :: i <= k < MAX_ESPERS ==> espers[k] == old(espers[k])
      {
        if espers[i].state == Waiting && espers[i].wakeAt != 0 && now >= espers[i].wakeAt {
          espers[i] := espers[i].(wakeAt := 0, state := Ready);
        }
      }
      assert espers[..] == WakeSleepers(old(View()), now).espers;
    }

    method PickFor(cpu: nat, after: int, now: nat) returns (next: int)
      requires Valid() && cpu < MAX_CPUS && after >= -1
      modifies espers, running
      ensures (View(), next) == PickAndClaim(old(View()), cpu, after, now)
    {
      if cpu >= online {
        return -1;
      }
      if cpu == 0 {
        WakeSleepersNow(now);
      }
      ghost var w := View();
      for step := 1 to MAX_ESPERS + 1
        invariant View() == w && espers[..] == w.espers && running[..] == w.running
        invariant FirstClaimable(w, after, 1) == FirstClaimable(w, after, step)
      {
        var i := (after + step) % MAX_ESPERS;
        assert i == Around(after, step);
        var busy := RunsSomewhere(i);
        if espers[i].state == Ready && !busy {
          espers[i] := espers[i].(state := Running);
          running[cpu] := i;
          assert espers[..] == Claim(w, cpu, i).espers;
          assert running[..] == Claim(w, cpu, i).running;
          return i;
        }
      }
      return -1;
    }

    method ClearSlotOf(cpu: nat, i: int)
      requires Valid() && cpu < MAX_CPUS
      modifies running
      ensures View() == ClearSlot(old(View()), cpu, i)
    {
      if running[cpu] == i {
        running[cpu] := -1;
      }
    }

    method Park(cpu: nat, cur: int, now: nat) returns (next: int)
      requires Valid() && cpu < MAX_CPUS && cur >= -1
      modifies espers, running
      ensures (View(), next) == ParkAndPick(old(View()), cpu, cur, now)
    {
      if 0 <= cur < MAX_ESPERS && espers[cur].state == Running {
        espers[cur] := espers[cur].(state := Waiting);
        assert View() == WithState(old(View()), cur, Waiting);
        ClearSlotOf(cpu, cur);
      }
      next := PickFor(cpu, cur, now);
    }

    method ParkLocked(cpu: nat, cur: int, now: nat) returns (next: int)
      requires Valid() && cpu < MAX_CPUS && cur >= -1
      modifies espers, running
      ensures (View(), next) == ParkAndPickLocked(old(View()), cpu, cur, now)
    {
      if 0 <= cur < MAX_ESPERS {
        espers[cur] := espers[cur].(state := Waiting);
        assert View() == WithState(old(View()), cur, Waiting);
        ClearSlotOf(cpu, cur);
      }
      next := PickFor(cpu, cur, now);
    }

    method ParkKeep(cpu: nat, cur: int, now: nat) returns (next: int)
      requires Valid() && cpu < MAX_CPUS && cur >= -1
      modifies espers, running
      ensures (View(), next) == ParkAndPickKeep(old(View()), cpu, cur, now)
    {
      next := ParkLocked(cpu, cur, now);
      ghost var p := View();
      if next < 0 && 0 <= cur < MAX_ESPERS {
        espers[cur] := espers[cur].(state := Running);
        running[cpu] := cur;
        assert espers[..] == Claim(p, cpu, cur).espers;
        assert running[..] == Claim(p, cpu, cur).running;
      }
    }

    /** set_running, for an entry of the table. */
    method TakeBack(cpu: nat, idx: int)
      requires Valid() && cpu < MAX_CPUS && (idx == -1 || InTable(idx))
      modifies espers, running
      ensures View() == SetRunning(old(View()), cpu, idx)
    {
      ghost var p := View();
      running[cpu] := idx;
      if idx >= 0 {
        espers[idx] := espers[idx].(state := Running);
      }
      assert espers[..] == SetRunning(p, cpu, idx).espers;
      assert running[..] == SetRunning(p, cpu, idx).running;
    }

    method Preempt(cpu: nat, cur: int, now: nat) returns (next: int)
      requires Valid() && cpu < MAX_CPUS && cur >= -1
      modifies espers, running
      ensures (View(), next) == PreemptAndPick(old(View()), cpu, cur, now)
    {
      if cpu == 0 {
        WakeSleepersNow(now);
      }
      ghost var w := View();
      next := -1;
      if cpu < online {
        next := OtherThan(cur);
      }
      if next < 0 {
        return -1;
      }
      if 0 <= cur < MAX_ESPERS && espers[cur].state == Running {
        espers[cur] := espers[cur].(state := Ready);
        assert View() == WithState(w, cur, Ready);
      }
      ghost var d := View();
      espers[next] := espers[next].(state := Running);
      running[cpu] := next;
      assert espers[..] == Claim(d, cpu, next).espers;
      assert running[..] == Claim(d, cpu, next).running;
    }

    method OtherThan(cur: int) returns (next: int)
      requires Valid() && cur >= -1
      ensures next == FirstOther(View(), cur, 1)
    {
      hide FirstOther;
      ghost var w := View();
      for step := 1 to MAX_ESPERS + 1
        invariant FirstOther(w, cur, 1) == FirstOther(w, cur, step)
      {
        FirstOtherStep(w, cur, step);
        var i := (cur + step) % MAX_ESPERS;
        assert i == Around(cur, step);
        if i == cur {
          continue;
        }
        var busy := RunsSomewhere(i);
        if espers[i].state == Ready && !busy {
          return i;
        }
      }
      FirstOtherStep(w, cur, MAX_ESPERS + 1);
      return -1;
    }

    method WakeParentOf(i: int)
      requires Valid() && 0 <= i < MAX_ESPERS
      modifies espers
      ensures View() == MaybeWakeParent(old(View()), i)
    {
      var parent := espers[i].parent;
      if parent < 0 || parent >= MAX_ESPERS {
        return;
      }
      var p := espers[parent];
      if InWait4(p) {
        if p.wait4Target <= 0 || espers[i].pid == p.wait4Target {
          espers[parent] := p.(reg0 := espers[i].pid, pendingStatus := espers[i].exitCode,
                               hasPendingStatus := p.statusPtr != 0, state := Ready);
          espers[i] := espers[i].(state := Free);
        }
        return;
      }
      if p.childHandler == 0 || p.childHandler == 1 {
        return;
      }
      if p.state == Waiting && p.ipc != PtraceStop {
        espers[parent] := p.(reg0 := if p.ipc == PollWait then -4 else p.reg0,
                             ipc := NoIpc, pipeWait := -1, wakeAt := 0, state := Ready);
      }
    }

    method Detach(dead: int)
      requires Valid()
      modifies espers
      ensures View() == DetachTracees(old(View()), dead)
    {
      if dead < 0 {
        return;
      }
      for i := 0 to MAX_ESPERS
        invariant forall k :: 0 <= k < i ==> espers[k] == Untraced(old(espers[k]), dead)
        invariant forall k :: i <= k < MAX_ESPERS ==> espers[k] == old(espers[k])
      {
        if espers[i].tracer != dead {
          continue;
        }
        espers[i] := espers[i].(tracer := -1);
        if espers[i].state == Waiting && espers[i].ipc == PtraceStop {
          espers[i] := espers[i].(ipc := NoIpc, state := Ready);
        }
      }
      assert espers[..] == DetachTracees(old(View()), dead).espers;
    }

    method ExitEntry(cpu: nat, i: int, code: int)
      requires Valid() && cpu < MAX_CPUS && 0 <= i < MAX_ESPERS
      modifies espers, running
      ensures View() == ExitOne(old(View()), cpu, i, code)
    {
      espers[i] := espers[i].(state := Exited, exitCode := code);
      assert espers[..] == old(espers[..])[i := old(espers[i]).(state := Exited, exitCode := code)];
      ClearSlotOf(cpu, i);
      WakeParentOf(i);
      Detach(i);
    }

    method Exit(cpu: nat, me: int, code: int, now: nat) returns (next: int)
      requires Valid() && cpu < MAX_CPUS && me >= -1
      modifies espers, running
      ensures (View(), next) == ExitAndPick(old(View()), cpu, me, code, now)
    {
      if 0 <= me < MAX_ESPERS {
        ExitEntry(cpu, me, code);
      }
      next := PickFor(cpu, me, now);
    }

    method GroupExit(cpu: nat, fault: int, mm: int, code: int, now: nat) returns (next: int)
      requires Valid() && cpu < MAX_CPUS && fault >= -1
      modifies espers, running
      ensures (View(), next) == GroupExitAndPick(old(View()), cpu, fault, mm, code, now)
    {
      for i := 0 to MAX_ESPERS
        invariant GroupExitFrom(View(), cpu, mm, code, i) == GroupExitFrom(old(View()), cpu, mm, code, 0)
      {
        if Dead(espers[i].state) || espers[i].mm != mm {
          continue;
        }
        ExitEntry(cpu, i, code);
      }
      next := PickFor(cpu, fault, now);
    }

    method Fault(cpu: nat, me: int, now: nat) returns (next: int)
      requires Valid() && cpu < MAX_CPUS && me >= -1
      modifies espers, running
      ensures (View(), next) == FaultAndPick(old(View()), cpu, me, now)
    {
      if 0 <= me < MAX_ESPERS {
        espers[me] := espers[me].(state := Faulted);
        assert View() == WithState(old(View()), me, Faulted);
        ClearSlotOf(cpu, me);
        Detach(me);
      }
      next := PickFor(cpu, me, now);
    }

    method Vfork(cpu: nat, parent: int, child: int, now: nat) returns (next: int)
      requires Valid() && cpu < MAX_CPUS && parent >= -1
      modifies espers, running
      ensures (View(), next) == VforkHandoff(old(View()), cpu, parent, child, now)
    {
      if 0 <= child < MAX_ESPERS && espers[child].state == Waiting {
        espers[child] := espers[child].(state := Ready);
      }
      assert View() == MakeReady(old(View()), child);
      next := Park(cpu, parent, now);
    }

    method KillEntry(i: int, sig: int, delivered: bool) returns (action: KillAction)
      requires Valid() && 0 <= i < MAX_ESPERS
      modifies espers
      ensures (View(), action) == KillOne(old(View()), i, sig, delivered)
    {
      if Dead(espers[i].state) {
        return Nothing;
      }
      if delivered {
        return Delivered;
      }
      espers[i] := espers[i].(exitCode := 128 + sig, state := Exited, pipeWait := -1);
      var parent := espers[i].parent;
      if 0 <= parent < MAX_ESPERS {
        var p := espers[parent];
        if p.state == Waiting && p.pipeWait < 0 && p.ipc != PtraceStop {
          espers[parent] := p.(reg0 := espers[i].pid, pendingStatus := espers[i].exitCode,
                               hasPendingStatus := p.statusPtr != 0, state := Ready);
          espers[i] := espers[i].(state := Free);
        }
      }
      return Killed;
    }

    method KillGroup(pgrp: nat, sig: int, delivered: seq<bool>) returns (hits: nat)
      requires Valid() && |delivered| == MAX_ESPERS
      modifies espers
      ensures View() == KillPgrp(old(View()), pgrp, sig, delivered)
    {
      hits := 0;
      if pgrp == 0 {
        return;
      }
      for i := 0 to MAX_ESPERS
        invariant KillPgrpFrom(View(), pgrp, sig, delivered, i) == KillPgrpFrom(old(View()), pgrp, sig, delivered, 0)
      {
        if espers[i].pgrp != pgrp || Dead(espers[i].state) {
          continue;
        }
        ghost var t := View();
        if espers[i].state == Waiting {
          espers[i] := espers[i].(reg0 := -4, ipc := NoIpc, pipeWait := -1, wakeAt := 0, state := Ready);
        }
        assert View() == PrepInterrupt(t, i);
        var action := KillEntry(i, sig, delivered[i]);
        if action != Nothing {
          hits := hits + 1;
        }
        if action == Killed {
          Detach(i);
        }
      }
    }

    method UnusedEntry() returns (slot: int)
      requires Valid()
      ensures slot == FirstFree(View(), 0)
    {
      for i := 0 to MAX_ESPERS
        invariant FirstFree(View(), 0) == FirstFree(View(), i)
      {
        var busy := Referenced(i);
        if espers[i].state == Free && !busy {
          return i;
        }
      }
      return -1;
    }

    method OldestFinished() returns (slot: int)
      requires Valid()
      ensures slot == Oldest(View(), MAX_ESPERS)
    {
      slot := -1;
      for k := 0 to MAX_ESPERS
        invariant slot == Oldest(View(), k)
      {
        if espers[k].state == Exited || espers[k].state == Faulted {
          var busy := Referenced(k);
          if busy {
            continue;
          }
          if slot < 0 || espers[k].pid < espers[slot].pid {
            slot := k;
          }
        }
      }
    }

    method New() returns (slot: int)
      requires Valid()
      modifies this`nextPid, espers
      ensures Valid() && (View(), slot) == Create(old(View()))
    {
      slot := UnusedEntry();
      if slot < 0 {
        slot := OldestFinished();
      }
      if slot < 0 {
        return -1;
      }
      espers[slot] := Blank(nextPid);
      nextPid := nextPid + 1;
      assert espers[..] == old(espers[..])[slot := Blank(old(nextPid))];
    }
  }
}
