/** The user-process scheduler (Esper, Fortis931): the process table, each core's
    run slot, and the locked primitives that change them.
 */
module Espers {

  const MAX_ESPERS: nat := 64
  const MAX_CPUS: nat := 8

  datatype State = Free | Ready | Running | Waiting | Exited | Faulted

  /** What kind of IPC wait an Esper is parked in, as far as the scheduler looks. */
  datatype IpcWait = NoIpc | PtraceStop | PollWait | OtherIpc

  datatype Esper = Esper(
    state: State,
    pid: nat,
    parent: int,            // table index of the parent, or -1
    mm: int,                // address space shared by a thread group
    pgrp: nat,
    exitCode: int,
    reg0: int,              // saved first register
    wakeAt: nat,            // nanosleep deadline, 0 if none
    pipeWait: int,          // pipe waited for, or -1
    ipc: IpcWait,
    futexWait: bool,
    sigsuspendWait: bool,
    wait4Target: int,       // pid waited for, <= 0 for any child
    statusPtr: nat,
    pendingStatus: int,
    hasPendingStatus: bool,
    childHandler: nat,      // SIGCHLD disposition: 0 default, 1 ignore
    tracer: int)            // table index of the ptrace tracer, or -1

  /** `running` is the scheduler's claim and `active` what each core really
      executes; both hold a table index or -1. `online` is the core cap. */
  datatype Table = Table(espers: seq<Esper>, running: seq<int>, active: seq<int>, nextPid: nat, online: nat)

  predicate Sized(t: Table) {
    && |t.espers| == MAX_ESPERS
    && |t.running| == |t.active| == MAX_CPUS
  }

  predicate Dead(s: State) {
    s == Free || s == Exited || s == Faulted
  }

  predicate InTable(i: int) {
    0 <= i < MAX_ESPERS
  }

  predicate RunningSomewhere(running: seq<int>, i: int) {
    exists c :: 0 <= c < |running| && running[c] == i
  }

  predicate SlotInUse(t: Table, i: int) {
    RunningSomewhere(t.running, i) || RunningSomewhere(t.active, i)
  }

  function WithState(t: Table, i: int, s: State): (t': Table)
    requires Sized(t) && InTable(i)
    ensures Sized(t')
  {
    t.(espers := t.espers[i := t.espers[i].(state := s)])
  }

  function ClearSlot(t: Table, cpu: nat, i: int): (t': Table)
    requires Sized(t) && cpu < MAX_CPUS
    ensures Sized(t')
  {
    if t.running[cpu] == i then t.(running := t.running[cpu := -1]) else t
  }

  // Picking.

  predicate Claimable(t: Table, i: int)
    requires Sized(t) && InTable(i)
  {
    t.espers[i].state == Ready && !RunningSomewhere(t.running, i)
  }

  function Around(after: int, step: nat): (i: nat)
    requires after >= -1 && step >= 1
    ensures InTable(i)
  {
    (after + step) % MAX_ESPERS
  }

  /** The first claimable Esper at or after the given step past `after`, or -1. */
  function FirstClaimable(t: Table, after: int, step: nat): (r: int)
    requires Sized(t) && after >= -1 && step >= 1
    ensures r == -1 || (InTable(r) && Claimable(t, r))
    decreases MAX_ESPERS + 1 - step
  {
    if step > MAX_ESPERS then -1
    else if Claimable(t, Around(after, step)) then Around(after, step)
    else FirstClaimable(t, after, step + 1)
  }

  function Sleeper(e: Esper, now: nat): (r: Esper) {
    if e.state == Waiting && e.wakeAt != 0 && now >= e.wakeAt then e.(wakeAt := 0, state := Ready) else e
  }

  function WakeSleepers(t: Table, now: nat): (t': Table)
    requires Sized(t)
    ensures Sized(t')
  {
    t.(espers := seq(MAX_ESPERS, i requires 0 <= i < MAX_ESPERS => Sleeper(t.espers[i], now)))
  }

  function Claim(t: Table, cpu: nat, i: int): (t': Table)
    requires Sized(t) && cpu < MAX_CPUS && InTable(i)
    ensures Sized(t')
  {
    WithState(t, i, Running).(running := t.running[cpu := i])
  }

  /** A capped core picks nothing; only core 0 wakes sleepers. */
  function PickAndClaim(t: Table, cpu: nat, after: int, now: nat): (r: (Table, int))
    requires Sized(t) && cpu < MAX_CPUS && after >= -1
    ensures Sized(r.0) && (r.1 == -1 || InTable(r.1))
  {
    if cpu >= t.online then (t, -1)
    else
      var w := if cpu == 0 then WakeSleepers(t, now) else t;
      var next := FirstClaimable(w, after, 1);
      if next == -1 then (w, -1) else (Claim(w, cpu, next), next)
  }

  // The public primitives. `cpu` is the calling core.

  function ParkAndPick(t: Table, cpu: nat, cur: int, now: nat): (r: (Table, int))
    requires Sized(t) && cpu < MAX_CPUS && cur >= -1
    ensures Sized(r.0)
  {
    var p := if InTable(cur) && t.espers[cur].state == Running then ClearSlot(WithState(t, cur, Waiting), cpu, cur)
             else t;
    PickAndClaim(p, cpu, cur, now)
  }

  /** The variant without the "still running" check, used with the lock held. */
  function ParkAndPickLocked(t: Table, cpu: nat, cur: int, now: nat): (r: (Table, int))
    requires Sized(t) && cpu < MAX_CPUS && cur >= -1
    ensures Sized(r.0)
  {
    var p := if InTable(cur) then ClearSlot(WithState(t, cur, Waiting), cpu, cur) else t;
    PickAndClaim(p, cpu, cur, now)
  }

  /** As above, but with no successor the caller keeps running. */
  function ParkAndPickKeep(t: Table, cpu: nat, cur: int, now: nat): (r: (Table, int))
    requires Sized(t) && cpu < MAX_CPUS && cur >= -1
    ensures Sized(r.0)
  {
    var (p, next) := ParkAndPickLocked(t, cpu, cur, now);
    if next < 0 && InTable(cur) then (Claim(p, cpu, cur), next) else (p, next)
  }

  /** The timer preempts: another claimable Esper, or keep the current one. */
  function PreemptAndPick(t: Table, cpu: nat, cur: int, now: nat): (r: (Table, int))
    requires Sized(t) && cpu < MAX_CPUS && cur >= -1
    ensures Sized(r.0)
  {
    var w := if cpu == 0 then WakeSleepers(t, now) else t;
    var next := if cpu < t.online then FirstOther(w, cur, 1) else -1;
    if next == -1 then (w, -1)
    else
      var d := if InTable(cur) && w.espers[cur].state == Running then WithState(w, cur, Ready) else w;
      (Claim(d, cpu, next), next)
  }

  /** Preempt's own scan skips the current Esper. */
  function FirstOther(t: Table, cur: int, step: nat): (r: int)
    requires Sized(t) && cur >= -1 && step >= 1
    ensures r == -1 || (InTable(r) && Claimable(t, r) && r != cur)
    decreases MAX_ESPERS + 1 - step
  {
    if step > MAX_ESPERS then -1
    else if Around(cur, step) != cur && Claimable(t, Around(cur, step)) then Around(cur, step)
    else FirstOther(t, cur, step + 1)
  }

  /** Parent parked in wait4: waiting, with no other wait predicate set. */
  predicate InWait4(p: Esper) {
    && p.state == Waiting && p.pipeWait < 0 && p.ipc == NoIpc && !p.futexWait && p.wakeAt == 0 && !p.sigsuspendWait
  }

  function Reaped(p: Esper, pid: nat, code: int): Esper {
    p.(reg0 := pid, pendingStatus := code, hasPendingStatus := p.statusPtr != 0, state := Ready)
  }

  function Interrupted(p: Esper): Esper {
    p.(reg0 := if p.ipc == PollWait then -4 else p.reg0, ipc := NoIpc, pipeWait := -1, wakeAt := 0, state := Ready)
  }

  /** Entry `i` has exited: reap it into a parent waiting for it, or interrupt a
      parked parent that has a SIGCHLD handler. */
  function MaybeWakeParent(t: Table, i: int): (t': Table)
    requires Sized(t) && InTable(i)
    ensures Sized(t')
  {
    var me := t.espers[i];
    if !InTable(me.parent) then t
    else
      var p := t.espers[me.parent];
      if InWait4(p) then
        if p.wait4Target <= 0 || me.pid == p.wait4Target then
          WithState(t.(espers := t.espers[me.parent := Reaped(p, me.pid, me.exitCode)]), i, Free)
        else t
      else if p.childHandler == 0 || p.childHandler == 1 then t
      else if p.state == Waiting && p.ipc != PtraceStop then t.(espers := t.espers[me.parent := Interrupted(p)])
      else t
  }

  function Untraced(e: Esper, dead: int): Esper {
    if e.tracer != dead then e
    else if e.state == Waiting && e.ipc == PtraceStop then e.(tracer := -1, ipc := NoIpc, state := Ready)
    else e.(tracer := -1)
  }

  function DetachTracees(t: Table, dead: int): (t': Table)
    requires Sized(t)
    ensures Sized(t')
  {
    if dead < 0 then t
    else t.(espers := seq(MAX_ESPERS, i requires 0 <= i < MAX_ESPERS => Untraced(t.espers[i], dead)))
  }

  /** One Esper exits on core `cpu`. */
  function ExitOne(t: Table, cpu: nat, i: int, code: int): (t': Table)
    requires Sized(t) && cpu < MAX_CPUS && InTable(i)
    ensures Sized(t')
  {
    var dead := t.(espers := t.espers[i := t.espers[i].(state := Exited, exitCode := code)]);
    DetachTracees(MaybeWakeParent(ClearSlot(dead, cpu, i), i), i)
  }

  function ExitAndPick(t: Table, cpu: nat, me: int, code: int, now: nat): (r: (Table, int))
    requires Sized(t) && cpu < MAX_CPUS && me >= -1
    ensures Sized(r.0)
  {
    PickAndClaim(if InTable(me) then ExitOne(t, cpu, me, code) else t, cpu, me, now)
  }

  /** Every live Esper of the address space exits, in table order. */
  function GroupExitFrom(t: Table, cpu: nat, mm: int, code: int, i: nat): (t': Table)
    requires Sized(t) && cpu < MAX_CPUS && i <= MAX_ESPERS
    ensures Sized(t')
    decreases MAX_ESPERS - i
  {
    if i == MAX_ESPERS then t
    else if Dead(t.espers[i].state) || t.espers[i].mm != mm then GroupExitFrom(t, cpu, mm, code, i + 1)
    else GroupExitFrom(ExitOne(t, cpu, i, code), cpu, mm, code, i + 1)
  }

  function GroupExitAndPick(t: Table, cpu: nat, fault: int, mm: int, code: int, now: nat): (r: (Table, int))
    requires Sized(t) && cpu < MAX_CPUS && fault >= -1
    ensures Sized(r.0)
  {
    PickAndClaim(GroupExitFrom(t, cpu, mm, code, 0), cpu, fault, now)
  }

  function FaultCurrent(t: Table, cpu: nat, me: int): (t': Table)
    requires Sized(t) && cpu < MAX_CPUS
    ensures Sized(t')
  {
    if InTable(me) then ClearSlot(WithState(t, me, Faulted), cpu, me) else t
  }

  function FaultAndPick(t: Table, cpu: nat, me: int, now: nat): (r: (Table, int))
    requires Sized(t) && cpu < MAX_CPUS && me >= -1
    ensures Sized(r.0)
  {
    PickAndClaim(if InTable(me) then DetachTracees(FaultCurrent(t, cpu, me), me) else t, cpu, me, now)
  }

  function MakeReady(t: Table, i: int): (t': Table)
    requires Sized(t)
    ensures Sized(t')
  {
    if InTable(i) && t.espers[i].state == Waiting then WithState(t, i, Ready) else t
  }

  /** vfork: ready the child, park the parent, pick on this core. */
  function VforkHandoff(t: Table, cpu: nat, parent: int, child: int, now: nat): (r: (Table, int))
    requires Sized(t) && cpu < MAX_CPUS && parent >= -1
    ensures Sized(r.0)
  {
    ParkAndPick(MakeReady(t, child), cpu, parent, now)
  }

  /** A signal interrupts a parked syscall. */
  function PrepInterrupt(t: Table, i: int): (t': Table)
    requires Sized(t) && InTable(i)
    ensures Sized(t')
  {
    var e := t.espers[i];
    if e.state != Waiting then t
    else t.(espers := t.espers[i := e.(reg0 := -4, ipc := NoIpc, pipeWait := -1, wakeAt := 0, state := Ready)])
  }

  datatype KillAction = Delivered | Killed | Nothing

  /** The kill step. `delivered` says whether signal delivery handled it. */
  function KillOne(t: Table, i: int, sig: int, delivered: bool): (r: (Table, KillAction))
    requires Sized(t) && InTable(i)
    ensures Sized(r.0)
  {
    var e := t.espers[i];
    if Dead(e.state) then (t, Nothing)
    else if delivered then (t, Delivered)
    else
      var k := t.(espers := t.espers[i := e.(exitCode := 128 + sig, state := Exited, pipeWait := -1)]);
      if !InTable(e.parent) then (k, Killed)
      else
        var p := k.espers[e.parent];
        if p.state == Waiting && p.pipeWait < 0 && p.ipc != PtraceStop then
          (WithState(k.(espers := k.espers[e.parent := Reaped(p, e.pid, 128 + sig)]), i, Free), Killed)
        else (k, Killed)
  }

  function KillAndDetach(t: Table, i: int, sig: int, delivered: bool): (t': Table)
    requires Sized(t) && InTable(i)
    ensures Sized(t')
  {
    var (k, action) := KillOne(t, i, sig, delivered);
    if action == Killed then DetachTracees(k, i) else k
  }

  /** Kill of a process group; `delivered[i]` is the delivery outcome for entry i. */
  function KillPgrpFrom(t: Table, pgrp: nat, sig: int, delivered: seq<bool>, i: nat): (t': Table)
    requires Sized(t) && |delivered| == MAX_ESPERS && i <= MAX_ESPERS
    ensures Sized(t')
    decreases MAX_ESPERS - i
  {
    if i == MAX_ESPERS then t
    else if t.espers[i].pgrp != pgrp || Dead(t.espers[i].state) then KillPgrpFrom(t, pgrp, sig, delivered, i + 1)
    else KillPgrpFrom(KillAndDetach(PrepInterrupt(t, i), i, sig, delivered[i]), pgrp, sig, delivered, i + 1)
  }

  /** Group 0 is nobody's. */
  function KillPgrp(t: Table, pgrp: nat, sig: int, delivered: seq<bool>): (t': Table)
    requires Sized(t) && |delivered| == MAX_ESPERS
    ensures Sized(t')
  {
    if pgrp == 0 then t else KillPgrpFrom(t, pgrp, sig, delivered, 0)
  }

  // Creating.

  /** The first free entry no core references, from index i on, or -1. */
  function FirstFree(t: Table, i: nat): (r: int)
    requires Sized(t) && i <= MAX_ESPERS
    ensures r == -1 || (InTable(r) && t.espers[r].state == Free && !SlotInUse(t, r))
    ensures r == -1 ==> forall j :: i <= j < MAX_ESPERS ==> t.espers[j].state != Free || SlotInUse(t, j)
    decreases MAX_ESPERS - i
  {
    if i == MAX_ESPERS then -1
    else if t.espers[i].state == Free && !SlotInUse(t, i) then i
    else FirstFree(t, i + 1)
  }

  /** The finished entry with the lowest pid among indices below i that no core references, or -1. */
  function Oldest(t: Table, i: nat): (r: int)
    requires Sized(t) && i <= MAX_ESPERS
    ensures r == -1 || (0 <= r < i && (t.espers[r].state == Exited || t.espers[r].state == Faulted) && !SlotInUse(t, r))
    ensures forall j ::
              (0 <= j < i && (t.espers[j].state == Exited || t.espers[j].state == Faulted) && !SlotInUse(t, j)) ==>
              r != -1 && t.espers[r].pid <= t.espers[j].pid
  {
    if i == 0 then -1
    else
      var best := Oldest(t, i - 1);
      var e := t.espers[i - 1];
      if (e.state == Exited || e.state == Faulted) && !SlotInUse(t, i - 1) && (best == -1 || e.pid < t.espers[best].pid)
      then i - 1 else best
  }

  function Blank(pid: nat): Esper {
    Esper(Waiting, pid, -1, 0, pid, 0, 0, 0, -1, NoIpc, false, false, 0, 0, 0, false, 0, -1)
  }

  function Create(t: Table): (r: (Table, int))
    requires Sized(t)
    ensures Sized(r.0)
  {
    var free := FirstFree(t, 0);
    var slot := if free >= 0 then free else Oldest(t, MAX_ESPERS);
    if slot < 0 then (t, -1)
    else (t.(espers := t.espers[slot := Blank(t.nextPid)], nextPid := t.nextPid + 1), slot)
  }

  /** set_running: core `cpu` takes entry i, whoever has it, or with -1 clears its slot. */
  function SetRunning(t: Table, cpu: nat, i: int): (t': Table)
    requires Sized(t) && cpu < MAX_CPUS && (i == -1 || InTable(i))
    ensures Sized(t')
  {
    if i == -1 then t.(running := t.running[cpu := -1]) else Claim(t, cpu, i)
  }

  /** Power-on: every entry free, every slot empty. */
  function Init(online: nat): (t: Table)
    ensures Sized(t)
  {
    Table(seq(MAX_ESPERS, _ => Blank(0).(state := Free)), seq(MAX_CPUS, _ => -1), seq(MAX_CPUS, _ => -1), 1, online)
  }
}
