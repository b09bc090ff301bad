/** What every run of the process scheduler keeps: one run slot per running
    Esper, stable pids while a core references an entry, no revival of the dead,
    and a bound on how long a claimable Esper waits.
 */
module EsperRuns {
  import opened Espers

  predicate OnCpu(t: Table, c: nat, i: int)
    requires Sized(t) && c < MAX_CPUS
  {
    t.running[c] == i
  }

  /** No entry is in two run slots, every running Esper is in one, no ready or
      waiting Esper is in any. */
  ghost predicate Slots(t: Table)
    requires Sized(t)
  {
    && (forall c :: 0 <= c < MAX_CPUS ==> -1 <= t.running[c] < MAX_ESPERS)
    && (forall c, d :: 0 <= c < d < MAX_CPUS && t.running[c] != -1 ==> t.running[c] != t.running[d])
    && (forall i :: 0 <= i < MAX_ESPERS && t.espers[i].state == Running ==> RunningSomewhere(t.running, i))
    && (forall c :: 0 <= c < MAX_CPUS && t.running[c] != -1 ==>
          t.espers[t.running[c]].state != Ready && t.espers[t.running[c]].state != Waiting)
  }

  ghost predicate Inv(t: Table) {
    && Sized(t) && Slots(t)
    && (forall i :: 0 <= i < MAX_ESPERS ==> t.espers[i].pid < t.nextPid)
  }

  /** Each Esper keeps its pid and its state, dies, or is woken from a wait. */
  ghost predicate Gentle(t: Table, t': Table) {
    && Sized(t) && Sized(t')
    && t'.running == t.running && t'.active == t.active && t'.nextPid == t.nextPid && t'.online == t.online
    && (forall i :: 0 <= i < MAX_ESPERS ==>
          && t'.espers[i].pid == t.espers[i].pid
          && (|| t'.espers[i].state == t.espers[i].state
              || Dead(t'.espers[i].state)
              || (t.espers[i].state == Waiting && t'.espers[i].state == Ready)))
  }

  /** Pids unchanged, and the dead stay dead. */
  ghost predicate Quiet(t: Table, t': Table) {
    && Sized(t) && Sized(t') && t'.nextPid == t.nextPid
    && (forall i :: 0 <= i < MAX_ESPERS ==>
          && t'.espers[i].pid == t.espers[i].pid
          && (Dead(t.espers[i].state) ==> Dead(t'.espers[i].state)))
  }

  /** The core's slot does not name a running Esper, so a claim may overwrite it. */
  predicate CoreFree(t: Table, cpu: nat)
    requires Sized(t) && cpu < MAX_CPUS
  {
    t.running[cpu] == -1 || !InTable(t.running[cpu]) || t.espers[t.running[cpu]].state != Running
  }

  lemma GentleKeeps(t: Table, t': Table)
    requires Inv(t) && Gentle(t, t')
    ensures Inv(t') && Quiet(t, t')
    ensures forall c :: 0 <= c < MAX_CPUS && CoreFree(t, c) ==> CoreFree(t', c)
  {
  }

  lemma GentleTrans(a: Table, b: Table, c: Table)
    requires Gentle(a, b) && Gentle(b, c)
    ensures Gentle(a, c)
  {
  }

  lemma WakeSleepersGentle(t: Table, now: nat)
    requires Sized(t)
    ensures Gentle(t, WakeSleepers(t, now))
  {
  }

  lemma DetachGentle(t: Table, dead: int)
    requires Sized(t)
    ensures Gentle(t, DetachTracees(t, dead))
  {
  }

  lemma WakeParentGentle(t: Table, i: int)
    requires Sized(t) && InTable(i) && Dead(t.espers[i].state)
    ensures Gentle(t, MaybeWakeParent(t, i))
    ensures Dead(MaybeWakeParent(t, i).espers[i].state)
  {
  }

  lemma KillOneGentle(t: Table, i: int, sig: int, delivered: bool)
    requires Sized(t) && InTable(i)
    ensures Gentle(t, KillOne(t, i, sig, delivered).0)
  {
  }

  lemma KillGentle(t: Table, i: int, sig: int, delivered: bool)
    requires Sized(t) && InTable(i)
    ensures Gentle(t, KillAndDetach(t, i, sig, delivered))
  {
    hide DetachTracees;
    hide KillOne;
    var k := KillOne(t, i, sig, delivered).0;
    KillOneGentle(t, i, sig, delivered);
    DetachGentle(k, i);
    GentleTrans(t, k, DetachTracees(k, i));
  }

  lemma PrepGentle(t: Table, i: int)
    requires Sized(t) && InTable(i)
    ensures Gentle(t, PrepInterrupt(t, i))
  {
  }

  lemma {:induction false} KillPgrpGentle(t: Table, pgrp: nat, sig: int, delivered: seq<bool>, i: nat)
    requires Sized(t) && |delivered| == MAX_ESPERS && i <= MAX_ESPERS
    ensures Gentle(t, KillPgrpFrom(t, pgrp, sig, delivered, i))
    decreases MAX_ESPERS - i
  {
    hide KillAndDetach;
    hide PrepInterrupt;
    if i < MAX_ESPERS {
      if t.espers[i].pgrp != pgrp || Dead(t.espers[i].state) {
        KillPgrpGentle(t, pgrp, sig, delivered, i + 1);
      } else {
        var p := PrepInterrupt(t, i);
        var k := KillAndDetach(p, i, sig, delivered[i]);
        PrepGentle(t, i);
        KillGentle(p, i, sig, delivered[i]);
        KillPgrpGentle(k, pgrp, sig, delivered, i + 1);
        GentleTrans(t, p, k);
        GentleTrans(t, k, KillPgrpFrom(t, pgrp, sig, delivered, i));
      }
    }
  }

  lemma ClearSlotKeeps(t: Table, cpu: nat, i: int)
    requires Inv(t) && cpu < MAX_CPUS && InTable(i) && t.espers[i].state != Running
    ensures Inv(ClearSlot(t, cpu, i)) && Quiet(t, ClearSlot(t, cpu, i))
    ensures CoreFree(t, cpu) ==> CoreFree(ClearSlot(t, cpu, i), cpu)
    ensures t.running[cpu] == i ==> CoreFree(ClearSlot(t, cpu, i), cpu)
  {
    var t' := ClearSlot(t, cpu, i);
    forall k | 0 <= k < MAX_ESPERS && t'.espers[k].state == Running
      ensures RunningSomewhere(t'.running, k)
    {
      assert RunningSomewhere(t.running, k);
      var c :| 0 <= c < MAX_CPUS && t.running[c] == k;
      assert t'.running[c] == k;
    }
  }

  /** The caller of `cpu`, if running, parks and gives up its slot. */
  lemma ParkKeeps(t: Table, cpu: nat, cur: int)
    requires Inv(t) && cpu < MAX_CPUS && InTable(cur) && t.running[cpu] == cur && t.espers[cur].state == Running
    ensures var p := ClearSlot(WithState(t, cur, Waiting), cpu, cur);
            Inv(p) && Quiet(t, p) && CoreFree(p, cpu) && p.espers[cur].state == Waiting
  {
    var p := ClearSlot(WithState(t, cur, Waiting), cpu, cur);
    forall k | 0 <= k < MAX_ESPERS && p.espers[k].state == Running
      ensures RunningSomewhere(p.running, k)
    {
      assert RunningSomewhere(t.running, k);
      var c :| 0 <= c < MAX_CPUS && t.running[c] == k;
      assert p.running[c] == k;
    }
  }

  lemma ClaimKeeps(t: Table, cpu: nat, i: int)
    requires Inv(t) && cpu < MAX_CPUS && InTable(i) && CoreFree(t, cpu)
    requires t.espers[i].state == Ready || t.espers[i].state == Waiting
    ensures Inv(Claim(t, cpu, i)) && Quiet(t, Claim(t, cpu, i))
  {
    var t' := Claim(t, cpu, i);
    forall k | 0 <= k < MAX_ESPERS && t'.espers[k].state == Running
      ensures RunningSomewhere(t'.running, k)
    {
      if k == i {
        assert t'.running[cpu] == i;
      } else {
        assert RunningSomewhere(t.running, k);
        var c :| 0 <= c < MAX_CPUS && t.running[c] == k;
        assert t'.running[c] == k;
      }
    }
  }

  lemma QuietTrans(a: Table, b: Table, c: Table)
    requires Quiet(a, b) && Quiet(b, c)
    ensures Quiet(a, c)
  {
  }

  lemma PickKeeps(t: Table, cpu: nat, after: int, now: nat)
    requires Inv(t) && cpu < MAX_CPUS && after >= -1 && CoreFree(t, cpu)
    ensures var (t', next) := PickAndClaim(t, cpu, after, now);
            Inv(t') && Quiet(t, t') && (next == -1 ==> CoreFree(t', cpu) && (t' == t || t' == WakeSleepers(t, now)))
  {
    hide WakeSleepers;
    hide FirstClaimable;
    hide Claim;
    var w := if cpu == 0 then WakeSleepers(t, now) else t;
    WakeSleepersGentle(t, now);
    assert Gentle(t, w);
    GentleKeeps(t, w);
    var next := FirstClaimable(w, after, 1);
    if next != -1 {
      ClaimKeeps(w, cpu, next);
      QuietTrans(t, w, Claim(w, cpu, next));
    }
  }

  /** What waking the parent and detaching tracees leave alone. */
  lemma AfterDeath(t: Table, i: int)
    requires Sized(t) && InTable(i) && Dead(t.espers[i].state)
    ensures var u := DetachTracees(MaybeWakeParent(t, i), i);
            && Gentle(t, u) && Dead(u.espers[i].state)
            && (forall k :: 0 <= k < MAX_ESPERS ==> u.espers[k].mm == t.espers[k].mm)
  {
    var w := MaybeWakeParent(t, i);
    WakeParentGentle(t, i);
    WakeParentMm(t, i);
    hide MaybeWakeParent;
    DetachGentle(w, i);
    DetachMm(w, i);
    hide DetachTracees;
    GentleTrans(t, w, DetachTracees(w, i));
  }

  lemma WakeParentMm(t: Table, i: int)
    requires Sized(t) && InTable(i)
    ensures forall k :: 0 <= k < MAX_ESPERS ==> MaybeWakeParent(t, i).espers[k].mm == t.espers[k].mm
  {
  }

  lemma DetachMm(t: Table, i: int)
    requires Sized(t)
    ensures forall k :: 0 <= k < MAX_ESPERS ==> DetachTracees(t, i).espers[k].mm == t.espers[k].mm
  {
  }

  lemma ExitOneKeeps(t: Table, cpu: nat, i: int, code: int)
    requires Inv(t) && cpu < MAX_CPUS && InTable(i)
    ensures var t' := ExitOne(t, cpu, i, code);
            Inv(t') && Quiet(t, t') && Dead(t'.espers[i].state)
            && (CoreFree(t, cpu) || t.running[cpu] == i ==> CoreFree(t', cpu))
            && (t'.running[cpu] == t.running[cpu] || t'.running[cpu] == -1)
            && (forall k :: 0 <= k < MAX_ESPERS ==> t'.espers[k].mm == t.espers[k].mm)
  {
    hide MaybeWakeParent;
    hide DetachTracees;
    var d := t.(espers := t.espers[i := t.espers[i].(state := Exited, exitCode := code)]);
    assert Gentle(t, d);
    GentleKeeps(t, d);
    var c := ClearSlot(d, cpu, i);
    ClearSlotKeeps(d, cpu, i);
    AfterDeath(c, i);
    var u := DetachTracees(MaybeWakeParent(c, i), i);
    GentleKeeps(c, u);
    QuietTrans(t, d, c);
    QuietTrans(t, c, u);
    hide Inv;
    hide Quiet;
  }

  /** A group exit keeps everything and leaves no live member: so the caller's
      core is free when the caller belongs to the group. */
  lemma {:induction false} GroupExitKeeps(t: Table, cpu: nat, mm: int, code: int, i: nat)
    requires Inv(t) && cpu < MAX_CPUS && i <= MAX_ESPERS
    ensures var t' := GroupExitFrom(t, cpu, mm, code, i);
            && Inv(t') && Quiet(t, t')
            && (forall k :: i <= k < MAX_ESPERS && t.espers[k].mm == mm ==> Dead(t'.espers[k].state))
            && (t'.running[cpu] == t.running[cpu] || t'.running[cpu] == -1)
    decreases MAX_ESPERS - i
  {
    hide ExitOne;
    if i < MAX_ESPERS {
      if Dead(t.espers[i].state) || t.espers[i].mm != mm {
        GroupExitKeeps(t, cpu, mm, code, i + 1);
      } else {
        var e := ExitOne(t, cpu, i, code);
        ExitOneKeeps(t, cpu, i, code);
        GroupExitKeeps(e, cpu, mm, code, i + 1);
        QuietTrans(t, e, GroupExitFrom(t, cpu, mm, code, i));
      }
    }
  }

  lemma PreemptKeeps(t: Table, cpu: nat, now: nat)
    requires Inv(t) && cpu < MAX_CPUS
    ensures var (t', next) := PreemptAndPick(t, cpu, t.running[cpu], now); Inv(t') && Quiet(t, t')
  {
    hide WakeSleepers;
    hide FirstOther;
    var cur := t.running[cpu];
    var w := if cpu == 0 then WakeSleepers(t, now) else t;
    WakeSleepersGentle(t, now);
    assert Gentle(t, w);
    GentleKeeps(t, w);
    var next := if cpu < t.online then FirstOther(w, cur, 1) else -1;
    if next != -1 {
      if cur != -1 && w.espers[cur].state == Running {
        SwapKeeps(w, cpu, cur, next);
        QuietTrans(t, w, Claim(WithState(w, cur, Ready), cpu, next));
      } else {
        ClaimKeeps(w, cpu, next);
        QuietTrans(t, w, Claim(w, cpu, next));
      }
    }
  }

  /** The current Esper becomes ready and `next` takes its slot, in one step. */
  lemma SwapKeeps(t: Table, cpu: nat, cur: int, next: int)
    requires Inv(t) && cpu < MAX_CPUS && InTable(cur) && t.running[cpu] == cur && t.espers[cur].state == Running
    requires InTable(next) && Claimable(t, next)
    ensures var t' := Claim(WithState(t, cur, Ready), cpu, next); Inv(t') && Quiet(t, t')
  {
    var t' := Claim(WithState(t, cur, Ready), cpu, next);
    forall k | 0 <= k < MAX_ESPERS && t'.espers[k].state == Running
      ensures RunningSomewhere(t'.running, k)
    {
      if k == next {
        assert t'.running[cpu] == next;
      } else {
        assert RunningSomewhere(t.running, k);
        var c :| 0 <= c < MAX_CPUS && t.running[c] == k;
        assert t'.running[c] == k;
      }
    }
  }

  lemma ParkAndPickKeeps(t: Table, cpu: nat, now: nat)
    requires Inv(t) && cpu < MAX_CPUS
    ensures var t' := ParkAndPick(t, cpu, t.running[cpu], now).0; Inv(t') && Quiet(t, t')
  {
    hide PickAndClaim;
    var cur := t.running[cpu];
    if InTable(cur) && t.espers[cur].state == Running {
      ParkKeeps(t, cpu, cur);
      var p := ClearSlot(WithState(t, cur, Waiting), cpu, cur);
      PickKeeps(p, cpu, cur, now);
      QuietTrans(t, p, PickAndClaim(p, cpu, cur, now).0);
    } else {
      PickKeeps(t, cpu, cur, now);
    }
  }

  predicate StillRunning(t: Table, cpu: nat)
    requires Sized(t) && cpu < MAX_CPUS
  {
    InTable(t.running[cpu]) ==> t.espers[t.running[cpu]].state == Running
  }

  lemma ParkLockedKeeps(t: Table, cpu: nat, now: nat)
    requires Inv(t) && cpu < MAX_CPUS && StillRunning(t, cpu)
    ensures var t' := ParkAndPickLocked(t, cpu, t.running[cpu], now).0; Inv(t') && Quiet(t, t')
    ensures var t' := ParkAndPickKeep(t, cpu, t.running[cpu], now).0; Inv(t') && Quiet(t, t')
  {
    hide PickAndClaim;
    hide Claim;
    var cur := t.running[cpu];
    if InTable(cur) {
      ParkKeeps(t, cpu, cur);
      var p := ClearSlot(WithState(t, cur, Waiting), cpu, cur);
      PickKeeps(p, cpu, cur, now);
      var (q, next) := PickAndClaim(p, cpu, cur, now);
      QuietTrans(t, p, q);
      if next < 0 {
        assert q.espers[cur].state == Ready || q.espers[cur].state == Waiting;
        ClaimKeeps(q, cpu, cur);
        QuietTrans(t, q, Claim(q, cpu, cur));
      }
    } else {
      PickKeeps(t, cpu, cur, now);
    }
  }

  /** A new process gets an entry that is dead and that no core references. */
  lemma CreateKeeps(t: Table)
    requires Inv(t)
    ensures var (t', slot) := Create(t);
            && Inv(t') && t'.running == t.running && t'.nextPid >= t.nextPid
            && (slot == -1 ==> t' == t)
            && (slot != -1 ==>
                  && InTable(slot) && Dead(t.espers[slot].state) && !SlotInUse(t, slot)
                  && t'.espers[slot].pid == t.nextPid)
            && (forall i :: 0 <= i < MAX_ESPERS && i != slot ==> t'.espers[i] == t.espers[i])
  {
    hide FirstFree;
    hide Oldest;
    var (t', slot) := Create(t);
    forall i | 0 <= i < MAX_ESPERS && t'.espers[i].state == Running
      ensures RunningSomewhere(t'.running, i)
    {
      assert t.espers[i].state == Running;
    }
  }

  /** Creation fails exactly when every dead entry is still referenced by a core
      or no entry is dead. */
  lemma CreateFailsIff(t: Table)
    requires Sized(t)
    ensures Create(t).1 == -1 <==>
            forall i :: 0 <= i < MAX_ESPERS && Dead(t.espers[i].state) ==> SlotInUse(t, i)
  {
  }

  // Runs. A core that calls a primitive passes its own run slot as the current index.

  datatype Event =
    | EvPick(cpu: nat, after: int, now: nat)
    | EvPark(cpu: nat, now: nat)
    | EvParkLocked(cpu: nat, now: nat)
    | EvParkKeep(cpu: nat, now: nat)
    | EvPreempt(cpu: nat, now: nat)
    | EvExit(cpu: nat, code: int, now: nat)
    | EvGroupExit(cpu: nat, mm: int, code: int, now: nat)
    | EvFault(cpu: nat, now: nat)
    | EvFaultCurrent(cpu: nat)
    | EvVfork(cpu: nat, child: int, now: nat)
    | EvMakeReady(idx: int)
    | EvKill(idx: int, sig: int, handled: bool)
    | EvKillPgrp(pgrp: nat, sig: int, delivered: seq<bool>)
    | EvCreate
    | EvSetActive(cpu: nat, idx: int)
    | EvSetOnline(n: nat)
    | EvRewrite(idx: int, entry: Esper)
    | EvFree(idx: int)
    | EvSetRunning(cpu: nat, idx: int)

  function CpuOf(e: Event): nat {
    match e
    case EvPick(c, _, _) => c
    case EvPark(c, _) => c
    case EvParkLocked(c, _) => c
    case EvParkKeep(c, _) => c
    case EvPreempt(c, _) => c
    case EvExit(c, _, _) => c
    case EvGroupExit(c, _, _, _) => c
    case EvFault(c, _) => c
    case EvFaultCurrent(c) => c
    case EvVfork(c, _, _) => c
    case EvSetActive(c, _) => c
    case EvSetRunning(c, _) => c
    case _ => 0
  }

  /** No other core has the entry, and the core leaves nobody running behind. */
  predicate Takeable(t: Table, cpu: nat, idx: int)
    requires Sized(t) && cpu < MAX_CPUS && (idx == -1 || InTable(idx))
  {
    && (t.running[cpu] == idx || CoreFree(t, cpu))
    && (idx != -1 ==> forall c :: 0 <= c < MAX_CPUS && c != cpu ==> t.running[c] != idx)
  }

  /** What the callers guarantee. The idle loop picks only when its core runs
      nobody; the two unguarded parks are called by an Esper that is still running;
      a group exit names the caller's own address space; syscalls may rewrite
      any field of an entry except its state and pid; wait4 frees a finished entry
      and a failed fork one that has not run; and set_running, which the caller of a
      vfork that found no successor uses, takes an entry that no other core has. */
  predicate Enabled(t: Table, e: Event)
    requires Sized(t)
  {
    && CpuOf(e) < MAX_CPUS
    && (match e
        case EvPick(cpu, after, _) => CoreFree(t, cpu) && after >= -1
        case EvParkLocked(cpu, _) => StillRunning(t, cpu)
        case EvParkKeep(cpu, _) => StillRunning(t, cpu)
        case EvGroupExit(cpu, mm, _, _) => InTable(t.running[cpu]) ==> t.espers[t.running[cpu]].mm == mm
        case EvKill(idx, _, _) => InTable(idx)
        case EvKillPgrp(_, _, delivered) => |delivered| == MAX_ESPERS
        case EvRewrite(idx, entry) =>
          InTable(idx) && entry.state == t.espers[idx].state && entry.pid == t.espers[idx].pid
        case EvFree(idx) =>
          InTable(idx) && (Dead(t.espers[idx].state) || t.espers[idx].state == Waiting)
        case EvSetRunning(cpu, idx) =>
          (idx == -1 || (InTable(idx) && !Dead(t.espers[idx].state))) && Takeable(t, cpu, idx)
        case _ => true)
  }

  ghost function Step(t: Table, e: Event): (t': Table)
    requires Inv(t) && Enabled(t, e)
    ensures Sized(t')
  {
    match e
    case EvPick(cpu, after, now) => PickAndClaim(t, cpu, after, now).0
    case EvPark(cpu, now) => ParkAndPick(t, cpu, t.running[cpu], now).0
    case EvParkLocked(cpu, now) => ParkAndPickLocked(t, cpu, t.running[cpu], now).0
    case EvParkKeep(cpu, now) => ParkAndPickKeep(t, cpu, t.running[cpu], now).0
    case EvPreempt(cpu, now) => PreemptAndPick(t, cpu, t.running[cpu], now).0
    case EvExit(cpu, code, now) => ExitAndPick(t, cpu, t.running[cpu], code, now).0
    case EvGroupExit(cpu, mm, code, now) => GroupExitAndPick(t, cpu, t.running[cpu], mm, code, now).0
    case EvFault(cpu, now) => FaultAndPick(t, cpu, t.running[cpu], now).0
    case EvFaultCurrent(cpu) => FaultCurrent(t, cpu, t.running[cpu])
    case EvVfork(cpu, child, now) => VforkHandoff(t, cpu, t.running[cpu], child, now).0
    case EvMakeReady(idx) => MakeReady(t, idx)
    case EvKill(idx, sig, handled) => KillAndDetach(t, idx, sig, handled)
    case EvKillPgrp(pgrp, sig, delivered) => KillPgrp(t, pgrp, sig, delivered)
    case EvCreate => Create(t).0
    case EvSetActive(cpu, idx) => t.(active := t.active[cpu := idx])
    case EvSetOnline(n) => t.(online := n)
    case EvRewrite(idx, entry) => t.(espers := t.espers[idx := entry])
    case EvFree(idx) => WithState(t, idx, Free)
    case EvSetRunning(cpu, idx) => SetRunning(t, cpu, idx)
  }

  lemma ExitKeeps(t: Table, cpu: nat, code: int, now: nat)
    requires Inv(t) && cpu < MAX_CPUS
    ensures var t' := ExitAndPick(t, cpu, t.running[cpu], code, now).0; Inv(t') && Quiet(t, t')
  {
    hide PickAndClaim;
    hide ExitOne;
    var me := t.running[cpu];
    if InTable(me) {
      var d := ExitOne(t, cpu, me, code);
      ExitOneKeeps(t, cpu, me, code);
      PickKeeps(d, cpu, me, now);
      QuietTrans(t, d, PickAndClaim(d, cpu, me, now).0);
    } else {
      PickKeeps(t, cpu, me, now);
    }
  }

  lemma GroupExitPickKeeps(t: Table, cpu: nat, mm: int, code: int, now: nat)
    requires Inv(t) && cpu < MAX_CPUS && (InTable(t.running[cpu]) ==> t.espers[t.running[cpu]].mm == mm)
    ensures var t' := GroupExitAndPick(t, cpu, t.running[cpu], mm, code, now).0; Inv(t') && Quiet(t, t')
  {
    hide PickAndClaim;
    hide GroupExitFrom;
    var d := GroupExitFrom(t, cpu, mm, code, 0);
    GroupExitKeeps(t, cpu, mm, code, 0);
    PickKeeps(d, cpu, t.running[cpu], now);
    QuietTrans(t, d, PickAndClaim(d, cpu, t.running[cpu], now).0);
  }

  lemma FaultCurrentKeeps(t: Table, cpu: nat)
    requires Inv(t) && cpu < MAX_CPUS
    ensures var t' := FaultCurrent(t, cpu, t.running[cpu]); Inv(t') && Quiet(t, t') && CoreFree(t', cpu)
  {
    var me := t.running[cpu];
    if InTable(me) {
      var d := WithState(t, me, Faulted);
      assert Gentle(t, d);
      GentleKeeps(t, d);
      ClearSlotKeeps(d, cpu, me);
      QuietTrans(t, d, ClearSlot(d, cpu, me));
    }
  }

  lemma FaultKeeps(t: Table, cpu: nat, now: nat)
    requires Inv(t) && cpu < MAX_CPUS
    ensures var t' := FaultAndPick(t, cpu, t.running[cpu], now).0; Inv(t') && Quiet(t, t')
  {
    hide PickAndClaim;
    hide DetachTracees;
    hide FaultCurrent;
    var me := t.running[cpu];
    if InTable(me) {
      var f := FaultCurrent(t, cpu, me);
      FaultCurrentKeeps(t, cpu);
      var d := DetachTracees(f, me);
      DetachGentle(f, me);
      GentleKeeps(f, d);
      PickKeeps(d, cpu, me, now);
      QuietTrans(t, f, d);
      QuietTrans(t, d, PickAndClaim(d, cpu, me, now).0);
    } else {
      PickKeeps(t, cpu, me, now);
    }
  }

  lemma VforkKeeps(t: Table, cpu: nat, child: int, now: nat)
    requires Inv(t) && cpu < MAX_CPUS
    ensures var t' := VforkHandoff(t, cpu, t.running[cpu], child, now).0; Inv(t') && Quiet(t, t')
  {
    hide ParkAndPick;
    var m := MakeReady(t, child);
    assert Gentle(t, m);
    GentleKeeps(t, m);
    ParkAndPickKeeps(m, cpu, now);
    QuietTrans(t, m, ParkAndPick(m, cpu, t.running[cpu], now).0);
  }

  lemma RewriteKeeps(t: Table, idx: int, entry: Esper)
    requires Inv(t) && InTable(idx) && entry.state == t.espers[idx].state && entry.pid == t.espers[idx].pid
    ensures Inv(t.(espers := t.espers[idx := entry])) && Quiet(t, t.(espers := t.espers[idx := entry]))
  {
    GentleKeeps(t, t.(espers := t.espers[idx := entry]));
  }

  /** set_running keeps the slots in order exactly when no other core has the entry
      and the core leaves nobody running behind. */
  lemma SetRunningKeepsIff(t: Table, cpu: nat, idx: int)
    requires Inv(t) && cpu < MAX_CPUS && (idx == -1 || InTable(idx))
    ensures Inv(SetRunning(t, cpu, idx)) <==> Takeable(t, cpu, idx)
    ensures Quiet(t, SetRunning(t, cpu, idx)) <==> idx == -1 || !Dead(t.espers[idx].state)
  {
    var t' := SetRunning(t, cpu, idx);
    assert t'.running[cpu] == idx && (idx != -1 ==> t'.espers[idx].state == Running);
    if Takeable(t, cpu, idx) {
      SetRunningSlots(t, cpu, idx);
    } else if idx != -1 && exists c :: 0 <= c < MAX_CPUS && c != cpu && t.running[c] == idx {
      var c :| 0 <= c < MAX_CPUS && c != cpu && t.running[c] == idx;
      assert t'.running[c] == t'.running[cpu] != -1;
    } else {
      var o := t.running[cpu];
      assert t'.espers[o].state == Running && !RunningSomewhere(t'.running, o);
    }
  }

  lemma SetRunningSlots(t: Table, cpu: nat, idx: int)
    requires Inv(t) && cpu < MAX_CPUS && (idx == -1 || InTable(idx)) && Takeable(t, cpu, idx)
    ensures Inv(SetRunning(t, cpu, idx))
  {
    var t' := SetRunning(t, cpu, idx);
    forall i | 0 <= i < MAX_ESPERS && t'.espers[i].state == Running
      ensures RunningSomewhere(t'.running, i)
    {
      if i == idx {
        assert t'.running[cpu] == idx;
      } else {
        assert RunningSomewhere(t.running, i);
        var c :| 0 <= c < MAX_CPUS && t.running[c] == i;
        assert t'.running[c] == i;
      }
    }
  }

  /** Every primitive keeps the invariant, and unless it creates a process, keeps
      all pids and revives nobody. */
  lemma StepKeeps(t: Table, e: Event)
    requires Inv(t) && Enabled(t, e)
    ensures Inv(Step(t, e))
    ensures e != EvCreate ==> Quiet(t, Step(t, e))
  {
    hide PickAndClaim;
    hide ParkAndPick;
    hide ParkAndPickLocked;
    hide ParkAndPickKeep;
    hide PreemptAndPick;
    hide ExitAndPick;
    hide GroupExitAndPick;
    hide FaultAndPick;
    hide FaultCurrent;
    hide VforkHandoff;
    hide KillAndDetach;
    hide KillPgrpFrom;
    hide SetRunning;
    hide Create;
    match e
    case EvPick(cpu, after, now) => PickKeeps(t, cpu, after, now);
    case EvPark(cpu, now) => ParkAndPickKeeps(t, cpu, now);
    case EvParkLocked(cpu, now) => ParkLockedKeeps(t, cpu, now);
    case EvParkKeep(cpu, now) => ParkLockedKeeps(t, cpu, now);
    case EvPreempt(cpu, now) => PreemptKeeps(t, cpu, now);
    case EvExit(cpu, code, now) => ExitKeeps(t, cpu, code, now);
    case EvGroupExit(cpu, mm, code, now) => GroupExitPickKeeps(t, cpu, mm, code, now);
    case EvFault(cpu, now) => FaultKeeps(t, cpu, now);
    case EvFaultCurrent(cpu) => FaultCurrentKeeps(t, cpu);
    case EvVfork(cpu, child, now) => VforkKeeps(t, cpu, child, now);
    case EvMakeReady(idx) => GentleKeeps(t, Step(t, e));
    case EvKill(idx, sig, handled) =>
      KillGentle(t, idx, sig, handled);
      GentleKeeps(t, Step(t, e));
    case EvKillPgrp(pgrp, sig, delivered) =>
      KillPgrpGentle(t, pgrp, sig, delivered, 0);
      GentleKeeps(t, Step(t, e));
    case EvCreate => CreateKeeps(t);
    case EvSetActive(cpu, idx) =>
    case EvSetOnline(n) =>
    case EvRewrite(idx, entry) => RewriteKeeps(t, idx, entry);
    case EvFree(idx) => GentleKeeps(t, Step(t, e));
    case EvSetRunning(cpu, idx) => SetRunningKeepsIff(t, cpu, idx);
  }

  lemma InitInv(online: nat)
    ensures Inv(Init(online))
  {
  }

  ghost function Run(t: Table, events: seq<Event>): (t': Table)
    requires Inv(t)
    ensures Inv(t')
    decreases |events|
  {
    if events == [] then t
    else
      var p, e := Run(t, events[..|events| - 1]), events[|events| - 1];
      if Enabled(p, e) then StepKeeps(p, e); Step(p, e) else p
  }

  /** In every state of every run: no Esper occupies two run slots, every running
      Esper occupies exactly one, and no ready or waiting Esper occupies any. */
  lemma OneSlotPerRunningEsper(online: nat, events: seq<Event>)
    ensures Inv(Init(online))
    ensures var t := Run(Init(online), events);
            && (forall c, d :: 0 <= c < d < MAX_CPUS && t.running[c] != -1 ==> t.running[c] != t.running[d])
            && (forall i :: 0 <= i < MAX_ESPERS && t.espers[i].state == Running ==>
                  exists c :: 0 <= c < MAX_CPUS && OnCpu(t, c, i) && forall d :: 0 <= d < MAX_CPUS && d != c ==>
                      !OnCpu(t, d, i))
            && (forall i :: 0 <= i < MAX_ESPERS && (t.espers[i].state == Ready || t.espers[i].state == Waiting) ==>
                  forall c :: 0 <= c < MAX_CPUS ==> !OnCpu(t, c, i))
  {
    InitInv(online);
    var t := Run(Init(online), events);
    hide Run;
    forall i | 0 <= i < MAX_ESPERS && t.espers[i].state == Running
      ensures exists c :: 0 <= c < MAX_CPUS && OnCpu(t, c, i) && forall d :: 0 <= d < MAX_CPUS && d != c ==>
                !OnCpu(t, d, i)
    {
      assert RunningSomewhere(t.running, i);
      var c :| 0 <= c < MAX_CPUS && t.running[c] == i;
      assert OnCpu(t, c, i);
    }
  }

  /** At every moment of the run some core's run slot or active slot names the entry. */
  ghost predicate Referenced(t: Table, events: seq<Event>, i: int)
    requires Inv(t)
  {
    forall k :: 0 <= k < |events| ==> SlotInUse(Run(t, events[..k]), i)
  }

  lemma ReferencedBefore(t: Table, events: seq<Event>, i: int)
    requires Inv(t) && Referenced(t, events, i) && events != []
    ensures Referenced(t, events[..|events| - 1], i) && SlotInUse(Run(t, events[..|events| - 1]), i)
  {
    hide Inv;
    hide Run;
    hide SlotInUse;
    var n := |events| - 1;
    forall k | 0 <= k < n
      ensures SlotInUse(Run(t, events[..n][..k]), i)
    {
      assert events[..n][..k] == events[..k];
    }
  }

  /** While some core names an entry, the entry keeps its pid. */
  lemma {:induction false} PidKeptWhileReferenced(t: Table, events: seq<Event>, i: int)
    requires Inv(t) && InTable(i) && Referenced(t, events, i)
    ensures Run(t, events).espers[i].pid == t.espers[i].pid
  {
    if events == [] {
      RunNone(t);
    } else {
      hide Slots;
      hide Run;
      hide Step;
      hide Enabled;
      hide SlotInUse;
      ReferencedBefore(t, events, i);
      hide Referenced;
      var before, e := events[..|events| - 1], events[|events| - 1];
      PidKeptWhileReferenced(t, before, i);
      RunOne(t, before, e);
      assert before + [e] == events;
      PidStep(Run(t, before), e, i);
    }
  }

  lemma RunNone(t: Table)
    requires Inv(t)
    ensures Run(t, []) == t
  {
  }

  lemma PidStep(p: Table, e: Event, i: int)
    requires Inv(p) && InTable(i) && SlotInUse(p, i)
    ensures Enabled(p, e) ==> Step(p, e).espers[i].pid == p.espers[i].pid
  {
    if Enabled(p, e) {
      StepKeeps(p, e);
      CreateKeeps(p);
      if e == EvCreate {
        CreateStep(p, e);
      }
    }
    hide Step;
    hide Enabled;
    hide Create;
  }

  lemma CreateStep(p: Table, e: Event)
    requires Inv(p) && Enabled(p, e) && e == EvCreate
    ensures Step(p, e) == Create(p).0
  {
  }

  /** Every entry keeps its pid with the dead staying dead, or has been reissued
      under a pid never used before. */
  ghost predicate Evolves(t: Table, t': Table) {
    && Sized(t) && Sized(t') && t'.nextPid >= t.nextPid
    && (forall i :: 0 <= i < MAX_ESPERS ==>
          || (t'.espers[i].pid == t.espers[i].pid && (Dead(t.espers[i].state) ==> Dead(t'.espers[i].state)))
          || t'.espers[i].pid >= t.nextPid)
  }

  lemma {:induction false} RunEvolves(t: Table, events: seq<Event>)
    requires Inv(t)
    ensures Evolves(t, Run(t, events))
  {
    if events != [] {
      var p, e := Run(t, events[..|events| - 1]), events[|events| - 1];
      RunEvolves(t, events[..|events| - 1]);
      if Enabled(p, e) {
        StepKeeps(p, e);
        CreateKeeps(p);
        assert Evolves(p, Step(p, e));
      }
    }
  }

  /** An Esper that was killed or exited is never ready or running again under
      the same pid. */
  lemma NoRevival(t: Table, events: seq<Event>, i: int)
    requires Inv(t) && InTable(i) && Dead(t.espers[i].state)
    requires Run(t, events).espers[i].pid == t.espers[i].pid
    ensures Dead(Run(t, events).espers[i].state)
  {
    RunEvolves(t, events);
  }

  /** The unguarded park revives its caller exactly when the caller is no longer
      running, that is, when another core killed it first. */
  lemma UnguardedParkRevivesIff(t: Table, cpu: nat, now: nat)
    requires Inv(t) && cpu < MAX_CPUS && InTable(t.running[cpu])
    ensures Quiet(t, ParkAndPickLocked(t, cpu, t.running[cpu], now).0) <==> t.espers[t.running[cpu]].state == Running
  {
    hide Claim;
    var cur := t.running[cpu];
    if t.espers[cur].state == Running {
      ParkLockedKeeps(t, cpu, now);
    } else {
      var p := ClearSlot(WithState(t, cur, Waiting), cpu, cur);
      assert Dead(t.espers[cur].state);
      StaysAlive(p, cpu, cur, now);
    }
  }

  /** So does the park that keeps its caller when there is no successor. */
  lemma UnguardedKeepRevivesIff(t: Table, cpu: nat, now: nat)
    requires Inv(t) && cpu < MAX_CPUS && InTable(t.running[cpu])
    ensures Quiet(t, ParkAndPickKeep(t, cpu, t.running[cpu], now).0) <==> t.espers[t.running[cpu]].state == Running
  {
    hide Claim;
    var cur := t.running[cpu];
    if t.espers[cur].state == Running {
      ParkLockedKeeps(t, cpu, now);
    } else {
      var p := ClearSlot(WithState(t, cur, Waiting), cpu, cur);
      assert Dead(t.espers[cur].state);
      StaysAlive(p, cpu, cur, now);
      var q := PickAndClaim(p, cpu, cur, now).0;
      hide PickAndClaim;
      Revived(q, cpu, cur);
    }
  }

  lemma Revived(q: Table, cpu: nat, i: int)
    requires Sized(q) && cpu < MAX_CPUS && InTable(i)
    ensures !Dead(Claim(q, cpu, i).espers[i].state)
  {
  }

  // A process that parks just after another core killed it.

  lemma RunStep(t: Table, events: seq<Event>, e: Event)
    requires Inv(t) && Enabled(Run(t, events), e)
    ensures Run(t, events + [e]) == Step(Run(t, events), e)
  {
    assert (events + [e])[..|events|] == events;
  }

  /** The one process of a two-core machine, and where it runs. */
  function Lone(e: Esper, slot: int): Table {
    Init(2).(espers := Init(2).espers[0 := e], running := Init(2).running[1 := slot], nextPid := 2)
  }

  lemma LoneCreated()
    ensures Create(Init(2)).0 == Lone(Blank(1), -1)
  {
    assert FirstFree(Init(2), 0) == 0;
    assert Init(2).running[1 := -1] == Init(2).running;
  }

  lemma LonePicked()
    ensures PickAndClaim(Lone(Blank(1).(state := Ready), -1), 1, -1, 0).0 == Lone(Blank(1).(state := Running), 0)
  {
    var t := Lone(Blank(1).(state := Ready), -1);
    assert Around(-1, 1) == 0 && Claimable(t, 0);
    assert FirstClaimable(t, -1, 1) == 0;
    assert Claim(t, 1, 0) == Lone(Blank(1).(state := Running), 0);
  }

  lemma LoneKilled()
    ensures var t := Lone(Blank(1).(state := Running), 0);
            KillAndDetach(t, 0, 9, false) == Lone(Blank(1).(state := Exited, exitCode := 137), 0)
  {
    var t := Lone(Blank(1).(state := Running), 0);
    var k := KillOne(t, 0, 9, false).0;
    assert k.espers[0] == Blank(1).(state := Exited, exitCode := 137);
    assert k == Lone(Blank(1).(state := Exited, exitCode := 137), 0);
    assert DetachTracees(k, 0).espers == k.espers;
  }

  lemma LoneSteps()
    ensures Inv(Init(2))
    ensures MakeReady(Lone(Blank(1), -1), 0) == Lone(Blank(1).(state := Ready), -1)
    ensures CoreFree(Lone(Blank(1).(state := Ready), -1), 1)
  {
    InitInv(2);
    hide Inv;
  }

  /** Create a process, make it ready, let core 1 pick it, kill it from elsewhere. */
  lemma LoneRun()
    ensures Inv(Init(2))
    ensures Run(Init(2), [EvCreate, EvMakeReady(0), EvPick(1, -1, 0), EvKill(0, 9, false)]) ==
            Lone(Blank(1).(state := Exited, exitCode := 137), 0)
  {
    LoneSteps();
    LoneCreated();
    LonePicked();
    LoneKilled();
    hide Lone;
    hide Inv;
    hide Create;
    hide MakeReady;
    hide PickAndClaim;
    hide KillAndDetach;
    hide CoreFree;
    var t0, e0, e1, e2, e3 := Init(2), EvCreate, EvMakeReady(0), EvPick(1, -1, 0), EvKill(0, 9, false);
    hide Init;
    assert Run(t0, []) == t0;
    hide Run;
    RunStep(t0, [], e0);
    assert [] + [e0] == [e0];
    RunStep(t0, [e0], e1);
    assert [e0] + [e1] == [e0, e1];
    RunStep(t0, [e0, e1], e2);
    assert [e0, e1] + [e2] == [e0, e1, e2];
    RunStep(t0, [e0, e1, e2], e3);
    assert [e0, e1, e2] + [e3] == [e0, e1, e2, e3];
  }

  /** Its core still holds it then, and either park brings it back to life. */
  lemma KilledThenParked()
    ensures Inv(Init(2))
    ensures var t := Run(Init(2), [EvCreate, EvMakeReady(0), EvPick(1, -1, 0), EvKill(0, 9, false)]);
            && t.running[1] == 0 && t.espers[0].state == Exited
            && !Quiet(t, ParkAndPickLocked(t, 1, 0, 0).0) && !Quiet(t, ParkAndPickKeep(t, 1, 0, 0).0)
  {
    LoneRun();
    var t := Run(Init(2), [EvCreate, EvMakeReady(0), EvPick(1, -1, 0), EvKill(0, 9, false)]);
    assert t.running[1] == 0 && t.espers[0].state == Exited;
    hide Run;
    hide Lone;
    hide Quiet;
    hide ParkAndPickLocked;
    hide ParkAndPickKeep;
    UnguardedParkRevivesIff(t, 1, 0);
    UnguardedKeepRevivesIff(t, 1, 0);
  }

  // A vfork on a core that may not pick.

  /** Two processes on a two-core machine, and what each core runs. */
  function Duo(parent: Esper, child: Esper, slot0: int, slot1: int, online: nat): Table {
    Init(2).(espers := Init(2).espers[0 := parent][1 := child], running := Init(2).running[0 := slot0][1 := slot1],
             nextPid := 3, online := online)
  }

  lemma DuoCreated()
    ensures Create(Lone(Blank(1).(state := Running), 0)).0 == Duo(Blank(1).(state := Running), Blank(2), -1, 0, 2)
  {
    var t := Lone(Blank(1).(state := Running), 0);
    assert t.espers[0].state == Running && t.espers[1].state == Free;
    assert FirstFree(t, 1) == 1;
    assert FirstFree(t, 0) == 1;
    var t', d := Create(t).0, Duo(Blank(1).(state := Running), Blank(2), -1, 0, 2);
    assert t'.running == d.running && t'.espers == d.espers;
  }

  lemma DuoForked()
    ensures VforkHandoff(Duo(Blank(1).(state := Running), Blank(2), -1, 0, 1), 1, 0, 1, 0).0 ==
            Duo(Blank(1), Blank(2).(state := Ready), -1, -1, 1)
  {
    var t := Duo(Blank(1).(state := Running), Blank(2), -1, 0, 1);
    var t' := Duo(Blank(1), Blank(2).(state := Ready), -1, -1, 1);
    var m := MakeReady(t, 1);
    assert m == Duo(Blank(1).(state := Running), Blank(2).(state := Ready), -1, 0, 1);
    var p := ClearSlot(WithState(m, 0, Waiting), 1, 0);
    assert p.espers == t'.espers && p.running == t'.running;
    hide FirstClaimable;
  }

  lemma DuoWoken()
    ensures MakeReady(Duo(Blank(1), Blank(2).(state := Ready), -1, -1, 1), 0) ==
            Duo(Blank(1).(state := Ready), Blank(2).(state := Ready), -1, -1, 1)
  {
  }

  lemma DuoPicked()
    ensures PickAndClaim(Duo(Blank(1).(state := Ready), Blank(2).(state := Ready), -1, -1, 1), 0, -1, 0).0 ==
            Duo(Blank(1).(state := Running), Blank(2).(state := Ready), 0, -1, 1)
  {
    var t := Duo(Blank(1).(state := Ready), Blank(2).(state := Ready), -1, -1, 1);
    var t' := Duo(Blank(1).(state := Running), Blank(2).(state := Ready), 0, -1, 1);
    assert WakeSleepers(t, 0).espers == t.espers;
    assert Around(-1, 1) == 0 && Claimable(t, 0);
    assert FirstClaimable(t, -1, 1) == 0;
    assert Claim(t, 0, 0).espers == t'.espers && Claim(t, 0, 0).running == t'.running;
  }

  /** Create, make ready, pick on core 1, kill nobody: the run before the fork. */
  lemma LoneRunning()
    ensures Inv(Init(2))
    ensures Run(Init(2), [EvCreate, EvMakeReady(0), EvPick(1, -1, 0)]) == Lone(Blank(1).(state := Running), 0)
  {
    LoneSteps();
    LoneCreated();
    LonePicked();
    hide Lone;
    hide Inv;
    hide Create;
    hide MakeReady;
    hide PickAndClaim;
    hide CoreFree;
    var t0, e0, e1, e2 := Init(2), EvCreate, EvMakeReady(0), EvPick(1, -1, 0);
    hide Init;
    assert Run(t0, []) == t0;
    hide Run;
    RunStep(t0, [], e0);
    assert [] + [e0] == [e0];
    RunStep(t0, [e0], e1);
    assert [e0] + [e1] == [e0, e1];
    RunStep(t0, [e0, e1], e2);
    assert [e0, e1] + [e2] == [e0, e1, e2];
  }

  function ForkRun(): seq<Event> {
    [EvCreate, EvMakeReady(0), EvPick(1, -1, 0), EvCreate, EvSetOnline(1), EvVfork(1, 1, 0), EvMakeReady(0),
     EvPick(0, -1, 0)]
  }

  lemma DuoRun()
    ensures Inv(Init(2))
    ensures Run(Init(2), ForkRun()) == Duo(Blank(1).(state := Running), Blank(2).(state := Ready), 0, -1, 1)
  {
    LoneRunning();
    DuoCreated();
    DuoForked();
    DuoWoken();
    DuoPicked();
    DuoFacts();
    hide Lone;
    hide Duo;
    hide Inv;
    hide Create;
    hide MakeReady;
    hide PickAndClaim;
    hide VforkHandoff;
    hide CoreFree;
    var t0, e0, e1, e2 := Init(2), EvCreate, EvMakeReady(0), EvPick(1, -1, 0);
    var e4, e5, e7 := EvSetOnline(1), EvVfork(1, 1, 0), EvPick(0, -1, 0);
    hide Init;
    hide Run;
    RunStep(t0, [e0, e1, e2], e0);
    assert [e0, e1, e2] + [e0] == [e0, e1, e2, e0];
    RunStep(t0, [e0, e1, e2, e0], e4);
    assert [e0, e1, e2, e0] + [e4] == [e0, e1, e2, e0, e4];
    RunStep(t0, [e0, e1, e2, e0, e4], e5);
    assert [e0, e1, e2, e0, e4] + [e5] == [e0, e1, e2, e0, e4, e5];
    RunStep(t0, [e0, e1, e2, e0, e4, e5], e1);
    assert [e0, e1, e2, e0, e4, e5] + [e1] == [e0, e1, e2, e0, e4, e5, e1];
    RunStep(t0, [e0, e1, e2, e0, e4, e5, e1], e7);
    assert [e0, e1, e2, e0, e4, e5, e1] + [e7] == ForkRun();
  }

  lemma DuoFacts()
    ensures var t := Duo(Blank(1).(state := Running), Blank(2), -1, 0, 2);
            t.(online := 1) == Duo(Blank(1).(state := Running), Blank(2), -1, 0, 1)
    ensures Duo(Blank(1).(state := Running), Blank(2), -1, 0, 1).running[1] == 0
    ensures CoreFree(Duo(Blank(1).(state := Ready), Blank(2).(state := Ready), -1, -1, 1), 0)
  {
  }

  /** A process forks on a core above the cap, so that it is parked and nobody is
      picked; it is woken, core 0 picks it; and then its own core takes it back with
      set_running: it is in two run slots. */
  lemma ForkedOnTwoCores()
    ensures Inv(Init(2))
    ensures var t := Run(Init(2), ForkRun());
            && t.running[0] == 0 && t.running[1] == -1
            && !Inv(SetRunning(t, 1, 0)) && SetRunning(t, 1, 0).running[0] == SetRunning(t, 1, 0).running[1] == 0
  {
    DuoRun();
    var t := Run(Init(2), ForkRun());
    hide Run;
    assert t.running[0] == 0 && t.running[1] == -1;
    hide Duo;
    SetRunningKeepsIff(t, 1, 0);
    hide Inv;
  }

  lemma StaysAlive(p: Table, cpu: nat, i: int, now: nat)
    requires Sized(p) && cpu < MAX_CPUS && InTable(i) && !Dead(p.espers[i].state)
    ensures !Dead(PickAndClaim(p, cpu, i, now).0.espers[i].state)
  {
    hide FirstClaimable;
  }

  // Bounded waiting.

  /** How many places after `after` entry `i` comes, going round. */
  function Distance(after: int, i: nat): (d: nat)
    requires -1 <= after < MAX_ESPERS && i < MAX_ESPERS
    ensures d < MAX_ESPERS
  {
    (i - after - 1) % MAX_ESPERS
  }

  /** A pick never passes over a claimable Esper: it takes it, or one nearer. */
  lemma {:induction false} PickIsNearer(t: Table, after: int, i: nat, step: nat)
    requires Sized(t) && -1 <= after < MAX_ESPERS && i < MAX_ESPERS && Claimable(t, i)
    requires 1 <= step <= Distance(after, i) + 1
    ensures var r := FirstClaimable(t, after, step);
            0 <= r < MAX_ESPERS && (r == i || Distance(r, i) < Distance(after, i))
    decreases MAX_ESPERS - step
  {
    if Claimable(t, Around(after, step)) {
      NearerByArithmetic(after, i, step);
    } else if step == Distance(after, i) + 1 {
      NearerByArithmetic(after, i, step);
    } else {
      PickIsNearer(t, after, i, step + 1);
    }
  }

  lemma NearerByArithmetic(after: int, i: nat, step: nat)
    requires -1 <= after < MAX_ESPERS && i < MAX_ESPERS && 1 <= step <= Distance(after, i) + 1
    ensures step == Distance(after, i) + 1 ==> Around(after, step) == i
    ensures step <= Distance(after, i) ==> Distance(Around(after, step), i) < Distance(after, i)
  {
  }

  /** Preempt's scan from a current Esper that is not itself claimable is the same scan. */
  lemma {:induction false} PreemptScansAlike(t: Table, cur: int, step: nat)
    requires Sized(t) && -1 <= cur < MAX_ESPERS && step >= 1
    requires InTable(cur) ==> !Claimable(t, cur)
    ensures FirstOther(t, cur, step) == FirstClaimable(t, cur, step)
    decreases MAX_ESPERS + 1 - step
  {
    if step <= MAX_ESPERS {
      PreemptScansAlike(t, cur, step + 1);
    }
  }

  /** Where a core's k-th pick starts: after its previous pick. */
  function StartOf(picks: seq<int>, after: int, k: nat): (s: int)
    requires k <= |picks| && after >= -1
    ensures s >= -1
  {
    if k == 0 then after else if picks[k - 1] >= 0 then picks[k - 1] else -1
  }

  /** A core's successive picks, each starting after the previous one, against
      whatever tables it finds at those moments. */
  ghost predicate PickChain(tables: seq<Table>, picks: seq<int>, after: int)
    requires after >= -1
  {
    && |picks| == |tables|
    && (forall k :: 0 <= k < |tables| ==> Sized(tables[k]))
    && (forall k :: 0 <= k < |tables| ==> picks[k] == FirstClaimable(tables[k], StartOf(picks, after, k), 1))
  }

  lemma {:induction false} SomePickTakes(tables: seq<Table>, picks: seq<int>, after: int, i: nat)
    requires -1 <= after < MAX_ESPERS && i < MAX_ESPERS
    requires PickChain(tables, picks, after)
    requires |tables| > Distance(after, i)
    requires forall k :: 0 <= k < |tables| ==> Sized(tables[k]) && Claimable(tables[k], i)
    ensures i in picks
    decreases |tables|
  {
    hide FirstClaimable;
    assert Claimable(tables[0], i);
    PickIsNearer(tables[0], after, i, 1);
    var r := picks[0];
    assert r == FirstClaimable(tables[0], StartOf(picks, after, 0), 1);
    if r != i {
      var ts, ps := tables[1..], picks[1..];
      forall k | 0 <= k < |ts|
        ensures ps[k] == FirstClaimable(ts[k], StartOf(ps, r, k), 1)
        ensures Claimable(ts[k], i)
      {
        assert ts[k] == tables[k + 1] && ps[k] == picks[k + 1];
        assert StartOf(ps, r, k) == StartOf(picks, after, k + 1);
        assert Claimable(tables[k + 1], i);
      }
      SomePickTakes(ts, ps, r, i);
    }
  }

  // The same over runs.

  /** The table a pick of this core looks at. */
  function Woken(t: Table, cpu: nat, now: nat): (t': Table)
    requires Sized(t)
    ensures Sized(t')
  {
    if cpu == 0 then WakeSleepers(t, now) else t
  }

  /** The primitives that pick a successor for their core. */
  predicate Picks(e: Event) {
    || e.EvPick? || e.EvPark? || e.EvParkLocked? || e.EvParkKeep? || e.EvPreempt? || e.EvExit? || e.EvGroupExit?
    || e.EvFault? || e.EvVfork?
  }

  function Parked(t: Table, cpu: nat, cur: int): (t': Table)
    requires Sized(t) && cpu < MAX_CPUS
    ensures Sized(t')
  {
    if InTable(cur) then ClearSlot(WithState(t, cur, Waiting), cpu, cur) else t
  }

  /** What the primitive has done before it picks. */
  function Before(t: Table, e: Event): (t': Table)
    requires Sized(t) && CpuOf(e) < MAX_CPUS && Picks(e)
    ensures Sized(t')
  {
    var cpu := CpuOf(e);
    var cur := t.running[cpu];
    match e
    case EvPark(_, _) => if InTable(cur) && t.espers[cur].state == Running then Parked(t, cpu, cur) else t
    case EvParkLocked(_, _) => Parked(t, cpu, cur)
    case EvParkKeep(_, _) => Parked(t, cpu, cur)
    case EvExit(_, code, _) => if InTable(cur) then ExitOne(t, cpu, cur, code) else t
    case EvGroupExit(_, mm, code, _) => GroupExitFrom(t, cpu, mm, code, 0)
    case EvFault(_, _) => if InTable(cur) then DetachTracees(FaultCurrent(t, cpu, cur), cur) else t
    case EvVfork(_, child, _) =>
      var m := MakeReady(t, child);
      if InTable(cur) && m.espers[cur].state == Running then Parked(m, cpu, cur) else m
    case _ => t
  }

  /** The table the pick looks at: core 0 wakes the sleepers first. */
  function Seen(t: Table, e: Event): (t': Table)
    requires Sized(t) && CpuOf(e) < MAX_CPUS && Picks(e)
    ensures Sized(t')
  {
    Woken(Before(t, e), CpuOf(e), e.now)
  }

  /** What the pick takes, -1 for nothing: it goes round from the core's own slot. */
  function Taken(t: Table, e: Event): int
    requires Inv(t) && CpuOf(e) < MAX_CPUS && Picks(e)
  {
    FirstClaimable(Seen(t, e), t.running[CpuOf(e)], 1)
  }

  lemma {:induction false} GroupExitOnline(t: Table, cpu: nat, mm: int, code: int, i: nat)
    requires Sized(t) && cpu < MAX_CPUS && i <= MAX_ESPERS
    ensures GroupExitFrom(t, cpu, mm, code, i).online == t.online
    ensures forall c :: 0 <= c < MAX_CPUS && c != cpu ==> GroupExitFrom(t, cpu, mm, code, i).running[c] == t.running[c]
    decreases MAX_ESPERS - i
  {
    if i < MAX_ESPERS {
      if Dead(t.espers[i].state) || t.espers[i].mm != mm {
        GroupExitOnline(t, cpu, mm, code, i + 1);
      } else {
        GroupExitOnline(ExitOne(t, cpu, i, code), cpu, mm, code, i + 1);
      }
    }
  }

  lemma BeforeFrame(t: Table, e: Event)
    requires Sized(t) && CpuOf(e) < MAX_CPUS && Picks(e)
    ensures Before(t, e).online == t.online
    ensures forall c :: 0 <= c < MAX_CPUS && c != CpuOf(e) ==> Before(t, e).running[c] == t.running[c]
  {
    hide GroupExitFrom;
    if e.EvGroupExit? {
      GroupExitOnline(t, e.cpu, e.mm, e.code, 0);
    }
  }

  /** The preempted Esper is on the core, so the pick would not take it anyway. */
  lemma PreemptTakes(t: Table, cpu: nat, now: nat)
    requires Inv(t) && cpu < MAX_CPUS && cpu < t.online
    requires FirstClaimable(Woken(t, cpu, now), t.running[cpu], 1) >= 0
    ensures PreemptAndPick(t, cpu, t.running[cpu], now).0.running[cpu] ==
            FirstClaimable(Woken(t, cpu, now), t.running[cpu], 1)
  {
    var w := Woken(t, cpu, now);
    assert w.running == t.running;
    PreemptScansAlike(w, t.running[cpu], 1);
    hide FirstClaimable;
    hide FirstOther;
    hide WakeSleepers;
  }

  lemma PickSets(t: Table, cpu: nat, after: int, now: nat)
    requires Sized(t) && cpu < MAX_CPUS && cpu < t.online && after >= -1
    requires FirstClaimable(Woken(t, cpu, now), after, 1) >= 0
    ensures var (t', next) := PickAndClaim(t, cpu, after, now);
            next == t'.running[cpu] == FirstClaimable(Woken(t, cpu, now), after, 1)
  {
    hide FirstClaimable;
    hide WakeSleepers;
  }

  /** A core's slot after it picked holds what the pick took. */
  lemma PickClaims(t: Table, e: Event)
    requires Inv(t) && Enabled(t, e) && Picks(e) && CpuOf(e) < t.online && Taken(t, e) >= 0
    requires e.EvPick? ==> e.after == t.running[e.cpu]
    ensures Step(t, e).running[CpuOf(e)] == Taken(t, e)
  {
    hide FirstClaimable;
    hide Woken;
    hide PickAndClaim;
    hide PreemptAndPick;
    hide GroupExitFrom;
    hide ExitOne;
    hide DetachTracees;
    hide FaultCurrent;
    BeforeFrame(t, e);
    if e.EvPreempt? {
      PreemptTakes(t, e.cpu, e.now);
    } else {
      PickSets(Before(t, e), CpuOf(e), t.running[CpuOf(e)], e.now);
    }
  }

  /** The events that may change a core's slot. */
  predicate Moves(e: Event, cpu: nat) {
    CpuOf(e) == cpu && (Picks(e) || e.EvFaultCurrent? || e.EvSetRunning?)
  }

  lemma PickFrame(t: Table, cpu: nat, after: int, now: nat, c: nat)
    requires Sized(t) && cpu < MAX_CPUS && after >= -1 && c < MAX_CPUS && c != cpu
    ensures PickAndClaim(t, cpu, after, now).0.running[c] == t.running[c]
    ensures PreemptAndPick(t, cpu, after, now).0.running[c] == t.running[c]
  {
    hide FirstClaimable;
    hide FirstOther;
  }

  /** All other events leave it alone. */
  lemma OthersKeepSlot(t: Table, e: Event, c: nat)
    requires Inv(t) && Enabled(t, e) && c < MAX_CPUS && !Moves(e, c)
    ensures Step(t, e).running[c] == t.running[c]
  {
    hide PickAndClaim;
    hide PreemptAndPick;
    hide GroupExitFrom;
    hide ExitOne;
    hide DetachTracees;
    hide FaultCurrent;
    hide KillPgrpFrom;
    hide KillAndDetach;
    if Picks(e) {
      BeforeFrame(t, e);
      var p, cpu, cur := Before(t, e), CpuOf(e), t.running[CpuOf(e)];
      PickFrame(p, cpu, cur, e.now, c);
      PickFrame(t, cpu, cur, e.now, c);
      if e.EvPick? {
        PickFrame(t, cpu, e.after, e.now, c);
      }
    } else {
      match e
      case EvKill(idx, sig, handled) => KillGentle(t, idx, sig, handled);
      case EvKillPgrp(pgrp, sig, delivered) => KillPgrpGentle(t, pgrp, sig, delivered, 0);
      case EvFaultCurrent(cpu) => FaultFrame(t, cpu, c);
      case _ =>
    }
  }

  lemma FaultFrame(t: Table, cpu: nat, c: nat)
    requires Sized(t) && cpu < MAX_CPUS && c < MAX_CPUS && c != cpu
    ensures FaultCurrent(t, cpu, t.running[cpu]).running[c] == t.running[c]
  {
  }

  /** Event p of the run is a pick by this core, which is online. */
  ghost predicate PickAt(t: Table, events: seq<Event>, p: nat, cpu: nat)
    requires Inv(t)
  {
    p < |events| &&
    var u, e := Run(t, events[..p]), events[p];
    && Picks(e) && CpuOf(e) == cpu && Enabled(u, e) && cpu < u.online
    && (e.EvPick? ==> e.after == u.running[cpu])
  }

  /** Events `at` are successive picks of the core: between two of them nothing else
      changes its slot. */
  ghost predicate Rounds(t: Table, events: seq<Event>, at: seq<nat>, cpu: nat)
    requires Inv(t)
  {
    && (forall k :: 0 <= k < |at| ==> PickAt(t, events, at[k], cpu))
    && (forall k :: 0 < k < |at| ==> at[k - 1] < at[k])
    && (forall k, j :: 0 < k < |at| && at[k - 1] < j < at[k] ==> !Moves(events[j], cpu))
  }

  lemma SlotKept(t: Table, events: seq<Event>, q: nat, cpu: nat)
    requires Inv(t) && cpu < MAX_CPUS && q < |events| && !Moves(events[q], cpu)
    ensures Run(t, events[..q + 1]).running[cpu] == Run(t, events[..q]).running[cpu]
  {
    hide Slots;
    hide Run;
    hide Step;
    hide Enabled;
    hide Moves;
    assert events[..q + 1] == events[..q] + [events[q]];
    RunOne(t, events[..q], events[q]);
    var u := Run(t, events[..q]);
    if Enabled(u, events[q]) {
      OthersKeepSlot(u, events[q], cpu);
    }
  }

  lemma {:induction false} SlotStays(t: Table, events: seq<Event>, p: nat, q: nat, cpu: nat)
    requires Inv(t) && cpu < MAX_CPUS && p <= q <= |events|
    requires forall j :: p <= j < q ==> !Moves(events[j], cpu)
    ensures Run(t, events[..q]).running[cpu] == Run(t, events[..p]).running[cpu]
    decreases q - p
  {
    hide Slots;
    hide Run;
    hide Moves;
    if p < q {
      SlotStays(t, events, p, q - 1, cpu);
      SlotKept(t, events, q - 1, cpu);
    }
  }

  lemma RunOne(t: Table, events: seq<Event>, e: Event)
    requires Inv(t)
    ensures Run(t, events + [e]) == if Enabled(Run(t, events), e) then Step(Run(t, events), e) else Run(t, events)
  {
    assert (events + [e])[..|events|] == events;
  }

  /** The table that the pick at event p looks at, in the run. */
  ghost function SeenAt(t: Table, events: seq<Event>, p: nat, cpu: nat): (t': Table)
    requires Inv(t) && PickAt(t, events, p, cpu)
    ensures Sized(t')
  {
    Seen(Run(t, events[..p]), events[p])
  }

  ghost function TakenAt(t: Table, events: seq<Event>, p: nat, cpu: nat): int
    requires Inv(t) && PickAt(t, events, p, cpu)
  {
    Taken(Run(t, events[..p]), events[p])
  }

  lemma PickLeaves(t: Table, events: seq<Event>, p: nat, cpu: nat)
    requires Inv(t) && PickAt(t, events, p, cpu) && TakenAt(t, events, p, cpu) >= 0
    ensures Run(t, events[..p + 1]).running[cpu] == TakenAt(t, events, p, cpu)
  {
    hide Inv;
    hide Taken;
    hide Step;
    assert events[..p + 1] == events[..p] + [events[p]];
    RunOne(t, events[..p], events[p]);
    PickClaims(Run(t, events[..p]), events[p]);
    hide Run;
    hide Enabled;
  }

  /** A pick starts where the one before it ended. */
  lemma PicksChain(t: Table, events: seq<Event>, at: seq<nat>, cpu: nat, k: nat)
    requires Inv(t) && cpu < MAX_CPUS && Rounds(t, events, at, cpu) && 0 < k < |at|
    requires TakenAt(t, events, at[k - 1], cpu) >= 0
    ensures Run(t, events[..at[k]]).running[cpu] == TakenAt(t, events, at[k - 1], cpu)
  {
    hide Inv;
    hide TakenAt;
    hide Run;
    hide Moves;
    assert PickAt(t, events, at[k - 1], cpu) && PickAt(t, events, at[k], cpu);
    PickLeaves(t, events, at[k - 1], cpu);
    SlotStays(t, events, at[k - 1] + 1, at[k], cpu);
  }

  lemma TakesSome(t: Table, e: Event, i: nat)
    requires Inv(t) && CpuOf(e) < MAX_CPUS && Picks(e) && i < MAX_ESPERS && Claimable(Seen(t, e), i)
    ensures Taken(t, e) >= 0
  {
    PickIsNearer(Seen(t, e), t.running[CpuOf(e)], i, 1);
    hide FirstClaimable;
  }

  ghost predicate ClaimableAt(t: Table, events: seq<Event>, p: nat, cpu: nat, i: nat)
    requires Inv(t) && PickAt(t, events, p, cpu) && i < MAX_ESPERS
  {
    Claimable(SeenAt(t, events, p, cpu), i)
  }

  lemma TakesSomeAt(t: Table, events: seq<Event>, p: nat, cpu: nat, i: nat)
    requires Inv(t) && PickAt(t, events, p, cpu) && i < MAX_ESPERS && ClaimableAt(t, events, p, cpu, i)
    ensures TakenAt(t, events, p, cpu) >= 0
  {
    TakesSome(Run(t, events[..p]), events[p], i);
    hide Run;
    hide Taken;
    hide Claimable;
  }

  /** Each pick takes the first claimable Esper after the one before it. */
  lemma RoundTakes(t: Table, events: seq<Event>, at: seq<nat>, cpu: nat, k: nat)
    requires Inv(t) && cpu < MAX_CPUS && Rounds(t, events, at, cpu) && k < |at|
    requires k > 0 ==> TakenAt(t, events, at[k - 1], cpu) >= 0
    ensures TakenAt(t, events, at[k], cpu) ==
            FirstClaimable(SeenAt(t, events, at[k], cpu),
                           if k == 0 then Run(t, events[..at[0]]).running[cpu]
                           else TakenAt(t, events, at[k - 1], cpu), 1)
  {
    if k > 0 {
      PicksChain(t, events, at, cpu, k);
    }
    PickedFrom(t, events, at[k], cpu);
    hide Run;
    hide TakenAt;
    hide SeenAt;
    hide FirstClaimable;
  }

  ghost function TakenBy(t: Table, events: seq<Event>, at: seq<nat>, cpu: nat): (r: seq<int>)
    requires Inv(t) && forall k :: 0 <= k < |at| ==> PickAt(t, events, at[k], cpu)
    ensures |r| == |at| && forall k :: 0 <= k < |at| ==> r[k] == TakenAt(t, events, at[k], cpu)
  {
    seq(|at|, k requires 0 <= k < |at| => TakenAt(t, events, at[k], cpu))
  }

  ghost function SeenBy(t: Table, events: seq<Event>, at: seq<nat>, cpu: nat): (r: seq<Table>)
    requires Inv(t) && forall k :: 0 <= k < |at| ==> PickAt(t, events, at[k], cpu)
    ensures |r| == |at| && forall k :: 0 <= k < |at| ==> r[k] == SeenAt(t, events, at[k], cpu)
  {
    seq(|at|, k requires 0 <= k < |at| => SeenAt(t, events, at[k], cpu))
  }

  lemma OneTaken(t: Table, events: seq<Event>, at: seq<nat>, cpu: nat, i: nat, start: int, k: nat)
    requires Inv(t) && cpu < MAX_CPUS && i < MAX_ESPERS && Rounds(t, events, at, cpu) && k < |at|
    requires start == Run(t, events[..at[0]]).running[cpu] && start >= -1
    requires ClaimableAt(t, events, at[k], cpu, i) && (k > 0 ==> ClaimableAt(t, events, at[k - 1], cpu, i))
    ensures var picks := TakenBy(t, events, at, cpu);
            picks[k] == FirstClaimable(SeenAt(t, events, at[k], cpu), StartOf(picks, start, k), 1)
  {
    hide Run;
    hide TakenAt;
    hide SeenAt;
    hide FirstClaimable;
    hide TakenBy;
    hide ClaimableAt;
    if k > 0 {
      TakesSomeAt(t, events, at[k - 1], cpu, i);
    }
    RoundTakes(t, events, at, cpu, k);
    hide Rounds;
    hide PickAt;
    hide Inv;
  }

  lemma TakenInTurn(t: Table, events: seq<Event>, at: seq<nat>, cpu: nat, i: nat, start: int)
    requires Inv(t) && cpu < MAX_CPUS && i < MAX_ESPERS && Rounds(t, events, at, cpu) && at != []
    requires start == Run(t, events[..at[0]]).running[cpu] && start >= -1
    requires forall k :: 0 <= k < |at| ==> ClaimableAt(t, events, at[k], cpu, i)
    ensures PickChain(SeenBy(t, events, at, cpu), TakenBy(t, events, at, cpu), start)
  {
    RoundsPick(t, events, at, cpu);
    var picks, tables := TakenBy(t, events, at, cpu), SeenBy(t, events, at, cpu);
    hide *;
    forall k | 0 <= k < |at|
      ensures picks[k] == FirstClaimable(SeenAt(t, events, at[k], cpu), StartOf(picks, start, k), 1)
    {
      OneTaken(t, events, at, cpu, i, start, k);
    }
    ChainOf(t, events, at, cpu, start);
  }

  lemma ChainOf(t: Table, events: seq<Event>, at: seq<nat>, cpu: nat, start: int)
    requires Inv(t) && start >= -1 && forall k :: 0 <= k < |at| ==> PickAt(t, events, at[k], cpu)
    requires forall k :: 0 <= k < |at| ==>
               TakenBy(t, events, at, cpu)[k] ==
               FirstClaimable(SeenAt(t, events, at[k], cpu), StartOf(TakenBy(t, events, at, cpu), start, k), 1)
    ensures PickChain(SeenBy(t, events, at, cpu), TakenBy(t, events, at, cpu), start)
  {
    hide PickAt;
    hide TakenBy;
    hide SeenBy;
    hide FirstClaimable;
    hide SeenAt;
    hide TakenAt;
    hide StartOf;
  }

  lemma InTurnTakes(t: Table, events: seq<Event>, at: seq<nat>, cpu: nat, i: nat, start: int) returns (k: nat)
    requires Inv(t) && i < MAX_ESPERS && -1 <= start < MAX_ESPERS && |at| > Distance(start, i)
    requires forall k :: 0 <= k < |at| ==> PickAt(t, events, at[k], cpu)
    requires forall k :: 0 <= k < |at| ==> ClaimableAt(t, events, at[k], cpu, i)
    requires PickChain(SeenBy(t, events, at, cpu), TakenBy(t, events, at, cpu), start)
    ensures k < |at| && TakenAt(t, events, at[k], cpu) == i
  {
    hide PickAt;
    hide TakenAt;
    hide SeenAt;
    hide TakenBy;
    hide SeenBy;
    hide FirstClaimable;
    hide Claimable;
    hide Distance;
    var picks, tables := TakenBy(t, events, at, cpu), SeenBy(t, events, at, cpu);
    forall j | 0 <= j < |tables|
      ensures Sized(tables[j]) && Claimable(tables[j], i)
    {
      assert ClaimableAt(t, events, at[j], cpu, i);
    }
    hide PickChain;
    SomePickTakes(tables, picks, start, i);
    k :| 0 <= k < |picks| && picks[k] == i;
  }

  /** If an Esper is claimable whenever the core picks (on a park, a preemption, an exit,
      a fault, a vfork or from idle), then within sixty-four picks the core is running
      it, whatever the other cores do in between. */
  lemma BoundedWaiting(t: Table, events: seq<Event>, at: seq<nat>, cpu: nat, i: nat)
    requires Inv(t) && cpu < MAX_CPUS && i < MAX_ESPERS && Rounds(t, events, at, cpu) && at != []
    requires |at| > Distance(Run(t, events[..at[0]]).running[cpu], i)
    requires forall k :: 0 <= k < |at| ==> ClaimableAt(t, events, at[k], cpu, i)
    ensures exists k :: 0 <= k < |at| && Run(t, events[..at[k] + 1]).running[cpu] == i
  {
    RoundsPick(t, events, at, cpu);
    var start := Run(t, events[..at[0]]).running[cpu];
    assert -1 <= start < MAX_ESPERS;
    hide Distance;
    hide Run;
    hide ClaimableAt;
    hide Rounds;
    hide PickChain;
    hide TakenAt;
    TakenInTurn(t, events, at, cpu, i, start);
    var k := InTurnTakes(t, events, at, cpu, i, start);
    PickLeaves(t, events, at[k], cpu);
  }

  lemma RoundsPick(t: Table, events: seq<Event>, at: seq<nat>, cpu: nat)
    requires Inv(t) && Rounds(t, events, at, cpu)
    ensures forall k :: 0 <= k < |at| ==> PickAt(t, events, at[k], cpu)
  {
  }

  lemma PickedFrom(t: Table, events: seq<Event>, p: nat, cpu: nat)
    requires Inv(t) && PickAt(t, events, p, cpu)
    ensures TakenAt(t, events, p, cpu) ==
            FirstClaimable(SeenAt(t, events, p, cpu), Run(t, events[..p]).running[cpu], 1)
  {
    hide FirstClaimable;
    hide Run;
  }
}
