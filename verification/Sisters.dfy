/** The kernel-thread scheduler (MisakaNetwork): Sisters, the cores that run
    them, and the locked sections that move them between states.
 */
module Sisters {

  const MAX_SISTERS: nat := 24
  const MAX_CPUS: nat := 8
  const LEVEL_IDLE: nat := 0
  const LEVEL_SHELL: nat := 5

  datatype State = Free | Ready | Running | Sleeping | Blocked | Dead

  /** `idle` marks the Sisters that idle_entry and become_idle create. */
  datatype Sister = Sister(state: State, base: nat, level: nat, owner: nat, wakeAt: nat, idle: bool)

  datatype Net = Net(sisters: seq<Sister>, current: seq<nat>, online: seq<bool>)

  predicate Sized(n: Net) {
    && |n.sisters| == MAX_SISTERS
    && |n.current| == |n.online| == MAX_CPUS
    && (forall c :: 0 <= c < MAX_CPUS ==> n.current[c] < MAX_SISTERS)
  }

  // Choosing the next Sister.

  /** The highest Level among the ready Sisters below index k, or -1. */
  function Best(ss: seq<Sister>, k: nat): int
    requires k <= |ss|
  {
    if k == 0 then -1
    else
      var b := Best(ss, k - 1);
      if ss[k - 1].state == Ready && ss[k - 1].level > b then ss[k - 1].level else b
  }

  /** The slot `step` places after `from`, going round. */
  function Around(from: nat, step: nat): (i: nat)
    ensures i < MAX_SISTERS
  {
    (from + step) % MAX_SISTERS
  }

  predicate ReadyAt(ss: seq<Sister>, i: nat, level: int)
    requires i < |ss|
  {
    ss[i].state == Ready && ss[i].level == level
  }

  /** The first ready Sister of Level `best` at or after the given step past `from`. */
  function Scan(ss: seq<Sister>, from: nat, best: int, step: nat): nat
    requires |ss| == MAX_SISTERS
    decreases MAX_SISTERS + 1 - step
  {
    if step > MAX_SISTERS then from
    else if ReadyAt(ss, Around(from, step), best) then Around(from, step)
    else Scan(ss, from, best, step + 1)
  }

  function Pick(ss: seq<Sister>, from: nat): nat
    requires |ss| == MAX_SISTERS
  {
    if Best(ss, MAX_SISTERS) < 0 then from else Scan(ss, from, Best(ss, MAX_SISTERS), 1)
  }

  lemma {:induction false} BestIsMaximum(ss: seq<Sister>, k: nat)
    requires k <= |ss|
    ensures forall i :: 0 <= i < k && ss[i].state == Ready ==> ss[i].level <= Best(ss, k)
    ensures Best(ss, k) >= 0 ==> exists i :: 0 <= i < k && ss[i].state == Ready && ss[i].level == Best(ss, k)
    ensures Best(ss, k) >= -1
  {
    if k > 0 {
      BestIsMaximum(ss, k - 1);
    }
  }

  /** `r` is the nearest ready Sister of Level `level` at or after `step`. */
  ghost predicate Nearest(ss: seq<Sister>, from: nat, level: int, step: nat, r: nat)
    requires |ss| == MAX_SISTERS
  {
    exists k :: step <= k <= MAX_SISTERS && r == Around(from, k) && ReadyAt(ss, r, level)
                && forall j :: step <= j < k ==> !ReadyAt(ss, Around(from, j), level)
  }

  lemma {:induction false} ScanFindsNearest(ss: seq<Sister>, from: nat, best: int, step: nat, found: nat)
    requires |ss| == MAX_SISTERS && from < MAX_SISTERS && 1 <= step <= found <= MAX_SISTERS
    requires ReadyAt(ss, Around(from, found), best)
    ensures Nearest(ss, from, best, step, Scan(ss, from, best, step))
    decreases MAX_SISTERS - step
  {
    if ReadyAt(ss, Around(from, step), best) {
      assert Scan(ss, from, best, step) == Around(from, step);
    } else {
      ScanFindsNearest(ss, from, best, step + 1, found);
      var r := Scan(ss, from, best, step + 1);
      var k :| step + 1 <= k <= MAX_SISTERS && r == Around(from, k) && ReadyAt(ss, r, best)
               && forall j :: step + 1 <= j < k ==> !ReadyAt(ss, Around(from, j), best);
      assert forall j :: step <= j < k ==> !ReadyAt(ss, Around(from, j), best);
    }
  }

  /** The choice is a ready Sister of the highest ready Level, the nearest one
      after `from` going round; it is `from` itself when nobody is ready. */
  lemma PickIsHighestNearest(ss: seq<Sister>, from: nat)
    requires |ss| == MAX_SISTERS && from < MAX_SISTERS
    ensures Pick(ss, from) < MAX_SISTERS
    ensures (forall i :: 0 <= i < MAX_SISTERS ==> ss[i].state != Ready) ==> Pick(ss, from) == from
    ensures (exists i :: 0 <= i < MAX_SISTERS && ss[i].state == Ready) ==>
              && ss[Pick(ss, from)].state == Ready
              && (forall i :: 0 <= i < MAX_SISTERS && ss[i].state == Ready ==> ss[i].level <= ss[Pick(ss, from)].level)
              && Nearest(ss, from, ss[Pick(ss, from)].level, 1, Pick(ss, from))
  {
    hide Best;
    hide Scan;
    BestIsMaximum(ss, MAX_SISTERS);
    var best := Best(ss, MAX_SISTERS);
    if best >= 0 {
      var i :| 0 <= i < MAX_SISTERS && ss[i].state == Ready && ss[i].level == best;
      var k := StepsTo(from, i);
      ScanFindsNearest(ss, from, best, 1, k);
    }
  }

  lemma StepsTo(from: nat, i: nat) returns (k: nat)
    requires from < MAX_SISTERS && i < MAX_SISTERS
    ensures 1 <= k <= MAX_SISTERS && Around(from, k) == i
  {
    k := if i > from then i - from else i + MAX_SISTERS - from;
  }

  // The locked sections, as functions of the scheduler state.

  function SetState(ss: seq<Sister>, i: nat, s: State): seq<Sister>
    requires i < |ss|
  {
    ss[i := ss[i].(state := s)]
  }

  /** The core takes on Sister `next`, or keeps its present one. */
  function SwitchTo(n: Net, cpu: nat, next: nat): (n': Net)
    requires Sized(n) && cpu < MAX_CPUS && next < MAX_SISTERS
    ensures Sized(n')
  {
    n.(sisters := n.sisters[next := n.sisters[next].(state := Running, owner := cpu)],
       current := n.current[cpu := next])
  }

  function Dispatch(n: Net, cpu: nat): (n': Net)
    requires Sized(n) && cpu < MAX_CPUS
    ensures Sized(n')
  {
    PickIsHighestNearest(n.sisters, n.current[cpu]);
    SwitchTo(n, cpu, Pick(n.sisters, n.current[cpu]))
  }

  function WakeDue(ss: seq<Sister>, now: nat): (r: seq<Sister>)
    ensures |r| == |ss|
  {
    seq(|ss|, i requires 0 <= i < |ss| =>
      if ss[i].state == Sleeping && now >= ss[i].wakeAt then ss[i].(state := Ready) else ss[i])
  }

  function Demote(n: Net, cpu: nat): (n': Net)
    requires Sized(n) && cpu < MAX_CPUS
    ensures Sized(n')
  {
    var cur := n.current[cpu];
    if n.sisters[cur].state == Running then n.(sisters := SetState(n.sisters, cur, Ready)) else n
  }

  function Resched(n: Net, cpu: nat, now: nat): (n': Net)
    requires Sized(n) && cpu < MAX_CPUS
    ensures Sized(n')
  {
    Dispatch(Demote(n.(sisters := WakeDue(n.sisters, now)), cpu), cpu)
  }

  function Yield(n: Net, cpu: nat): (n': Net)
    requires Sized(n) && cpu < MAX_CPUS
    ensures Sized(n')
  {
    Dispatch(Demote(n, cpu), cpu)
  }

  /** Take the current Sister off to state `s` and run another. */
  function Leave(n: Net, cpu: nat, s: State): (n': Net)
    requires Sized(n) && cpu < MAX_CPUS
    ensures Sized(n')
  {
    Dispatch(n.(sisters := SetState(n.sisters, n.current[cpu], s)), cpu)
  }

  function Sleep(n: Net, cpu: nat, until: nat): (n': Net)
    requires Sized(n) && cpu < MAX_CPUS
    ensures Sized(n')
  {
    var cur := n.current[cpu];
    Leave(n.(sisters := n.sisters[cur := n.sisters[cur].(wakeAt := until)]), cpu, Sleeping)
  }

  function Unblock(n: Net, id: nat): (n': Net)
    requires Sized(n)
    ensures Sized(n')
  {
    if id < MAX_SISTERS && n.sisters[id].state == Blocked then n.(sisters := SetState(n.sisters, id, Ready)) else n
  }

  /** The first free slot, or |ss| when there is none. */
  function FreeSlot(ss: seq<Sister>, k: nat): (r: nat)
    requires k <= |ss|
    ensures k <= r <= |ss|
    ensures r < |ss| ==> ss[r].state == Free
    ensures forall i :: k <= i < r ==> ss[i].state != Free
    decreases |ss| - k
  {
    if k == |ss| || ss[k].state == Free then k else FreeSlot(ss, k + 1)
  }

  function Spawn(n: Net, level: nat): (n': Net)
    requires Sized(n)
    ensures Sized(n')
  {
    var slot := FreeSlot(n.sisters, 0);
    if slot == MAX_SISTERS then n
    else
      var s := n.sisters[slot].(state := Ready, base := level, level := level, owner := 0, idle := false);
      n.(sisters := n.sisters[slot := s])
  }

  /** A woken secondary core adopts its own context as its idle Sister and comes online. */
  function BecomeIdle(n: Net, cpu: nat): (n': Net)
    requires Sized(n) && cpu < MAX_CPUS
    ensures Sized(n')
  {
    var slot := FreeSlot(n.sisters, 0);
    var up := n.(online := n.online[cpu := true]);
    if slot == MAX_SISTERS then up
    else
      var s := n.sisters[slot].(state := Running, owner := cpu, base := LEVEL_IDLE, level := LEVEL_IDLE, idle := true);
      up.(sisters := n.sisters[slot := s], current := n.current[cpu := slot])
  }

  function LevelUpper(n: Net, id: nat, to: nat): (n': Net)
    requires Sized(n)
    ensures Sized(n')
  {
    if id < MAX_SISTERS && to > n.sisters[id].level then n.(sisters := n.sisters[id := n.sisters[id].(level := to)])
    else n
  }

  function LevelRestore(n: Net, id: nat): (n': Net)
    requires Sized(n)
    ensures Sized(n')
  {
    if id < MAX_SISTERS then n.(sisters := n.sisters[id := n.sisters[id].(level := n.sisters[id].base)]) else n
  }

  /** After init: main runs on core 0, and one ready idle Sister exists. */
  function Init(): (n: Net)
    ensures Sized(n)
  {
    var none := Sister(Free, 2, 2, 0, 0, false);
    Net(seq(MAX_SISTERS, i => if i == 0 then Sister(Running, LEVEL_SHELL, LEVEL_SHELL, 0, 0, false)
                              else if i == 1 then Sister(Ready, LEVEL_IDLE, LEVEL_IDLE, 0, 0, true)
                              else none),
        seq(MAX_CPUS, _ => 0),
        seq(MAX_CPUS, c => c == 0))
  }

  // The invariant.

  ghost function OnlineCores(n: Net): set<nat>
    requires Sized(n)
  {
    set c: nat | c < MAX_CPUS && n.online[c]
  }

  ghost function IdleSisters(n: Net): set<nat>
    requires Sized(n)
  {
    set i: nat | i < MAX_SISTERS && n.sisters[i].idle && n.sisters[i].state != Free
  }

  /** Every online core's Sister is running there, and every running Sister is some core's. */
  ghost predicate Placed(n: Net)
    requires Sized(n)
  {
    && (forall c :: 0 <= c < MAX_CPUS && n.online[c] ==>
          n.sisters[n.current[c]].state == Running && n.sisters[n.current[c]].owner == c)
    && (forall i :: 0 <= i < MAX_SISTERS && n.sisters[i].state == Running ==>
          n.sisters[i].owner < MAX_CPUS && n.online[n.sisters[i].owner] && n.current[n.sisters[i].owner] == i)
  }

  /** Idle Sisters never block, sleep or finish, and there is one per online core. */
  ghost predicate IdleInv(n: Net)
    requires Sized(n)
  {
    && (forall i :: 0 <= i < MAX_SISTERS && n.sisters[i].idle && n.sisters[i].state != Free ==>
          n.sisters[i].state == Ready || n.sisters[i].state == Running)
    && |IdleSisters(n)| == |OnlineCores(n)|
  }

  ghost predicate Inv(n: Net) {
    Sized(n) && Placed(n) && IdleInv(n)
  }

  /** An injection does not shrink a set. */
  lemma {:induction false} InjectionSize(a: set<nat>, b: set<nat>, f: map<nat, nat>)
    requires a <= f.Keys
    requires forall x :: x in a ==> f[x] in b
    requires forall x, y :: x in a && y in a && f[x] == f[y] ==> x == y
    ensures |a| <= |b|
  {
    if a != {} {
      var x :| x in a;
      InjectionSize(a - {x}, b - {f[x]}, f);
    }
  }

  /** Pigeonhole: if a core runs a Sister that is not idle, some idle Sister is ready. */
  lemma AnIdleIsReady(n: Net, cpu: nat)
    requires Inv(n) && cpu < MAX_CPUS && n.online[cpu] && !n.sisters[n.current[cpu]].idle
    ensures exists i :: 0 <= i < MAX_SISTERS && n.sisters[i].state == Ready && n.sisters[i].idle
  {
    var idles, cores := IdleSisters(n), OnlineCores(n);
    if forall i :: 0 <= i < MAX_SISTERS && n.sisters[i].idle ==> n.sisters[i].state != Ready {
      var home := map i | i in idles :: n.sisters[i].owner;
      assert cpu in cores;
      forall i | i in idles
        ensures home[i] in cores - {cpu}
      {
        assert n.sisters[i].state == Running && n.current[n.sisters[i].owner] == i;
      }
      assert |cores - {cpu}| == |cores| - 1;
      InjectionSize(idles, cores - {cpu}, home);
    }
  }

  lemma ReadyAfterLeaving(n: Net, cpu: nat, s: State)
    requires Inv(n) && cpu < MAX_CPUS && n.online[cpu] && !n.sisters[n.current[cpu]].idle && s != Ready
               && s != Running && s != Free
    ensures var left := SetState(n.sisters, n.current[cpu], s);
            var next := Pick(left, n.current[cpu]);
            next < MAX_SISTERS && left[next].state == Ready && next != n.current[cpu]
  {
    AnIdleIsReady(n, cpu);
    var left := SetState(n.sisters, n.current[cpu], s);
    var i :| 0 <= i < MAX_SISTERS && n.sisters[i].state == Ready && n.sisters[i].idle;
    assert left[i].state == Ready;
    PickIsHighestNearest(left, n.current[cpu]);
  }

  /** Same idle Sisters and same cores: the counts still agree. */
  lemma SameIdle(n: Net, n': Net)
    requires Sized(n) && Sized(n') && IdleInv(n)
    requires n'.online == n.online
    requires forall i :: 0 <= i < MAX_SISTERS ==>
               n'.sisters[i].idle == n.sisters[i].idle && (n'.sisters[i].state == Free <==> n.sisters[i].state == Free)
    requires forall i :: 0 <= i < MAX_SISTERS && n'.sisters[i].idle && n'.sisters[i].state != Free ==>
               n'.sisters[i].state == Ready || n'.sisters[i].state == Running
    ensures IdleInv(n')
  {
    assert IdleSisters(n') == IdleSisters(n);
    assert OnlineCores(n') == OnlineCores(n);
  }

  /** A Sister that is not idle and blocks, sleeps or finishes leaves its core. */
  lemma LeaveKeeps(n: Net, cpu: nat, s: State)
    requires Inv(n) && cpu < MAX_CPUS && n.online[cpu] && !n.sisters[n.current[cpu]].idle
    requires s == Blocked || s == Sleeping || s == Dead
    ensures Inv(Leave(n, cpu, s))
    ensures var n' := Leave(n, cpu, s);
            n'.current[cpu] != n.current[cpu] && n'.sisters[n.current[cpu]].state == s
    ensures forall i :: 0 <= i < MAX_SISTERS && n.sisters[i].state == Blocked ==>
              Leave(n, cpu, s).sisters[i].state == Blocked
  {
    hide Pick;
    ReadyAfterLeaving(n, cpu, s);
    var n' := Leave(n, cpu, s);
    assert Placed(n');
    SameIdle(n, n');
  }

  lemma YieldKeeps(n: Net, cpu: nat)
    requires Inv(n) && cpu < MAX_CPUS && n.online[cpu]
    ensures Inv(Yield(n, cpu))
    ensures forall i :: 0 <= i < MAX_SISTERS && n.sisters[i].state == Blocked ==>
              Yield(n, cpu).sisters[i].state == Blocked
  {
    hide Pick;
    var d := Demote(n, cpu);
    assert d.sisters[n.current[cpu]].state == Ready;
    PickIsHighestNearest(d.sisters, n.current[cpu]);
    SameIdle(n, Yield(n, cpu));
  }

  lemma WakeKeeps(n: Net, now: nat)
    requires Inv(n)
    ensures Inv(n.(sisters := WakeDue(n.sisters, now)))
  {
    SameIdle(n, n.(sisters := WakeDue(n.sisters, now)));
  }

  lemma SpawnKeeps(n: Net, level: nat)
    requires Inv(n)
    ensures Inv(Spawn(n, level))
    ensures forall i :: 0 <= i < MAX_SISTERS && n.sisters[i].state != Free ==>
              Spawn(n, level).sisters[i] == n.sisters[i]
  {
    var n' := Spawn(n, level);
    assert IdleSisters(n') == IdleSisters(n);
    assert OnlineCores(n') == OnlineCores(n);
  }

  lemma BecomeIdleKeeps(n: Net, cpu: nat)
    requires Inv(n) && cpu < MAX_CPUS && !n.online[cpu] && FreeSlot(n.sisters, 0) < MAX_SISTERS
    ensures Inv(BecomeIdle(n, cpu))
    ensures forall i :: 0 <= i < MAX_SISTERS && n.sisters[i].state == Blocked ==>
              BecomeIdle(n, cpu).sisters[i] == n.sisters[i]
  {
    hide FreeSlot;
    BecomeIdlePlaces(n, cpu);
    BecomeIdleCounts(n, cpu);
  }

  lemma BecomeIdlePlaces(n: Net, cpu: nat)
    requires Sized(n) && Placed(n) && cpu < MAX_CPUS && !n.online[cpu] && FreeSlot(n.sisters, 0) < MAX_SISTERS
    ensures Placed(BecomeIdle(n, cpu))
  {
    hide FreeSlot;
    var n' := BecomeIdle(n, cpu);
    forall c | 0 <= c < MAX_CPUS && n'.online[c]
      ensures n'.sisters[n'.current[c]].state == Running && n'.sisters[n'.current[c]].owner == c
    {
    }
  }

  lemma BecomeIdleCounts(n: Net, cpu: nat)
    requires Sized(n) && IdleInv(n) && cpu < MAX_CPUS && !n.online[cpu] && FreeSlot(n.sisters, 0) < MAX_SISTERS
    ensures IdleInv(BecomeIdle(n, cpu))
  {
    hide FreeSlot;
    var n' := BecomeIdle(n, cpu);
    var slot := FreeSlot(n.sisters, 0);
    assert IdleSisters(n') == IdleSisters(n) + {slot};
    assert |IdleSisters(n')| == |IdleSisters(n)| + 1;
    assert OnlineCores(n') == OnlineCores(n) + {cpu};
    assert |OnlineCores(n')| == |OnlineCores(n)| + 1;
  }

  /** Bringing up a core keeps the invariant exactly when a Sister slot is free:
      with a full table the core comes online running a Sister that is not its own. */
  lemma BecomeIdleKeepsIff(n: Net, cpu: nat)
    requires Inv(n) && cpu < MAX_CPUS && !n.online[cpu]
    ensures Inv(BecomeIdle(n, cpu)) <==> exists i :: 0 <= i < MAX_SISTERS && n.sisters[i].state == Free
    ensures Inv(BecomeIdle(n, cpu)) <==> Placed(BecomeIdle(n, cpu))
  {
    if FreeSlot(n.sisters, 0) < MAX_SISTERS {
      BecomeIdleKeeps(n, cpu);
    } else {
      var n' := BecomeIdle(n, cpu);
      var cur := n'.current[cpu];
      assert n'.sisters == n.sisters;
      assert n.sisters[cur].state == Running ==> n.online[n.sisters[cur].owner];
    }
  }

  lemma InitInv()
    ensures Inv(Init())
  {
    assert IdleSisters(Init()) == {1};
    assert OnlineCores(Init()) == {0};
  }

  // Runs.

  datatype Event =
    | EvResched(cpu: nat, now: nat)
    | EvYield(cpu: nat)
    | EvSleep(cpu: nat, until: nat)
    | EvBlock(cpu: nat)
    | EvFinish(cpu: nat)
    | EvUnblock(id: nat)
    | EvSpawn(level: nat)
    | EvBecomeIdle(cpu: nat)
    | EvLevelUpper(id: nat, to: nat)
    | EvLevelRestore(id: nat)

  /** Only an online core runs these sections, and an idle Sister's loop never
      blocks, sleeps or returns. A core comes up once, with a slot left for it. */
  predicate Enabled(n: Net, e: Event)
    requires Sized(n)
  {
    match e
    case EvResched(cpu, _) => cpu < MAX_CPUS && n.online[cpu]
    case EvYield(cpu) => cpu < MAX_CPUS && n.online[cpu]
    case EvSleep(cpu, _) => cpu < MAX_CPUS && n.online[cpu] && !n.sisters[n.current[cpu]].idle
    case EvBlock(cpu) => cpu < MAX_CPUS && n.online[cpu] && !n.sisters[n.current[cpu]].idle
    case EvFinish(cpu) => cpu < MAX_CPUS && n.online[cpu] && !n.sisters[n.current[cpu]].idle
    case EvBecomeIdle(cpu) => cpu < MAX_CPUS && !n.online[cpu] && FreeSlot(n.sisters, 0) < MAX_SISTERS
    case _ => true
  }

  function Step(n: Net, e: Event): (n': Net)
    requires Sized(n) && Enabled(n, e)
    ensures Sized(n')
  {
    match e
    case EvResched(cpu, now) => Resched(n, cpu, now)
    case EvYield(cpu) => Yield(n, cpu)
    case EvSleep(cpu, until) => Sleep(n, cpu, until)
    case EvBlock(cpu) => Leave(n, cpu, Blocked)
    case EvFinish(cpu) => Leave(n, cpu, Dead)
    case EvUnblock(id) => Unblock(n, id)
    case EvSpawn(level) => Spawn(n, level)
    case EvBecomeIdle(cpu) => BecomeIdle(n, cpu)
    case EvLevelUpper(id, to) => LevelUpper(n, id, to)
    case EvLevelRestore(id) => LevelRestore(n, id)
  }

  function Run(n: Net, events: seq<Event>): (n': Net)
    requires Sized(n)
    ensures Sized(n')
  {
    if events == [] then n
    else
      var p, e := Run(n, events[..|events| - 1]), events[|events| - 1];
      if Enabled(p, e) then Step(p, e) else p
  }

  lemma ReschedKeeps(n: Net, cpu: nat, now: nat)
    requires Inv(n) && cpu < MAX_CPUS && n.online[cpu]
    ensures Inv(Resched(n, cpu, now))
    ensures forall i :: 0 <= i < MAX_SISTERS && n.sisters[i].state == Blocked ==>
              Resched(n, cpu, now).sisters[i].state == Blocked
  {
    hide Dispatch;
    var m := n.(sisters := WakeDue(n.sisters, now));
    WakeKeeps(n, now);
    YieldKeeps(m, cpu);
    assert forall i :: 0 <= i < MAX_SISTERS && n.sisters[i].state == Blocked ==> m.sisters[i].state == Blocked;
  }

  lemma SleepKeeps(n: Net, cpu: nat, until: nat)
    requires Inv(n) && cpu < MAX_CPUS && n.online[cpu] && !n.sisters[n.current[cpu]].idle
    ensures Inv(Sleep(n, cpu, until))
    ensures forall i :: 0 <= i < MAX_SISTERS && n.sisters[i].state == Blocked ==>
              Sleep(n, cpu, until).sisters[i].state == Blocked
  {
    hide Dispatch;
    var cur := n.current[cpu];
    var m := n.(sisters := n.sisters[cur := n.sisters[cur].(wakeAt := until)]);
    SameIdle(n, m);
    LeaveKeeps(m, cpu, Sleeping);
    assert forall i :: 0 <= i < MAX_SISTERS && n.sisters[i].state == Blocked ==> m.sisters[i].state == Blocked;
  }

  lemma UnblockKeeps(n: Net, id: nat)
    requires Inv(n)
    ensures Inv(Unblock(n, id))
    ensures forall i :: 0 <= i < MAX_SISTERS && i != id ==> Unblock(n, id).sisters[i] == n.sisters[i]
  {
    SameIdle(n, Unblock(n, id));
  }

  /** Changing a Sister's Level moves nobody. */
  lemma SameStates(n: Net, n': Net)
    requires Inv(n) && Sized(n') && n'.current == n.current && n'.online == n.online
    requires forall i :: 0 <= i < MAX_SISTERS ==>
               n'.sisters[i].state == n.sisters[i].state && n'.sisters[i].owner == n.sisters[i].owner
               && n'.sisters[i].idle == n.sisters[i].idle
    ensures Inv(n')
  {
    SameIdle(n, n');
  }

  /** Each step keeps the invariant, and a blocked Sister stays blocked unless
      this very step unblocks it. */
  lemma StepKeeps(n: Net, e: Event, s: nat)
    requires Sized(n) && Inv(n) && Enabled(n, e) && s < MAX_SISTERS
    ensures Inv(Step(n, e))
    ensures n.sisters[s].state == Blocked && e != EvUnblock(s) ==> Step(n, e).sisters[s].state == Blocked
  {
    hide Inv;
    hide Resched;
    hide Yield;
    hide Sleep;
    hide Leave;
    hide Unblock;
    hide Spawn;
    hide BecomeIdle;
    hide FreeSlot;
    match e
    case EvResched(cpu, now) => ReschedKeeps(n, cpu, now);
    case EvYield(cpu) => YieldKeeps(n, cpu);
    case EvSleep(cpu, until) => SleepKeeps(n, cpu, until);
    case EvBlock(cpu) => LeaveKeeps(n, cpu, Blocked);
    case EvFinish(cpu) => LeaveKeeps(n, cpu, Dead);
    case EvUnblock(id) => UnblockKeeps(n, id);
    case EvSpawn(level) => SpawnKeeps(n, level);
    case EvBecomeIdle(cpu) => BecomeIdleKeeps(n, cpu);
    case EvLevelUpper(id, to) => SameStates(n, LevelUpper(n, id, to));
    case EvLevelRestore(id) => SameStates(n, LevelRestore(n, id));
  }

  lemma {:induction false} RunInv(n: Net, events: seq<Event>)
    requires Inv(n)
    ensures Inv(Run(n, events))
  {
    if events != [] {
      var p, e := Run(n, events[..|events| - 1]), events[|events| - 1];
      RunInv(n, events[..|events| - 1]);
      if Enabled(p, e) {
        StepKeeps(p, e, 0);
      }
    }
  }

  /** In every state of every run from boot, each online core's Sister is running
      with that core as owner, no Sister is on two cores, and a core running a
      Sister that is not idle always has a ready Sister to switch to. */
  lemma EveryCoreHasItsOwnSister(events: seq<Event>)
    ensures var n := Run(Init(), events);
            && (forall c :: 0 <= c < MAX_CPUS && n.online[c] ==>
                  n.sisters[n.current[c]].state == Running && n.sisters[n.current[c]].owner == c)
            && (forall c, d :: 0 <= c < d < MAX_CPUS && n.online[c] && n.online[d] ==> n.current[c] != n.current[d])
            && (forall c :: 0 <= c < MAX_CPUS && n.online[c] && !n.sisters[n.current[c]].idle ==>
                  exists i :: 0 <= i < MAX_SISTERS && n.sisters[i].state == Ready)
  {
    InitInv();
    RunInv(Init(), events);
    var n := Run(Init(), events);
    forall c | 0 <= c < MAX_CPUS && n.online[c] && !n.sisters[n.current[c]].idle
      ensures exists i :: 0 <= i < MAX_SISTERS && n.sisters[i].state == Ready
    {
      AnIdleIsReady(n, c);
    }
  }

  /** k threads spawned at boot. */
  function Spawns(k: nat): (r: seq<Event>)
    ensures |r| == k
  {
    seq(k, _ => EvSpawn(LEVEL_SHELL))
  }

  lemma {:induction false} SpawnsFill(k: nat)
    ensures var n := Run(Init(), Spawns(k));
            && n.online == Init().online
            && forall i :: 0 <= i < MAX_SISTERS && i < k + 2 ==> n.sisters[i].state != Free
  {
    if k > 0 {
      SpawnsFill(k - 1);
      assert Spawns(k)[..k - 1] == Spawns(k - 1);
      hide FreeSlot;
    }
  }

  /** Twenty-two threads fill the table; the next core to come up has no Sister of its own. */
  lemma FullTableThenBringUp()
    ensures Inv(Run(Init(), Spawns(22))) && !Placed(BecomeIdle(Run(Init(), Spawns(22)), 1))
  {
    InitInv();
    RunInv(Init(), Spawns(22));
    SpawnsFill(22);
    BecomeIdleKeepsIff(Run(Init(), Spawns(22)), 1);
    hide Run;
    hide Inv;
    hide Placed;
    hide BecomeIdle;
  }

  lemma {:induction false} BlockedStays(n: Net, events: seq<Event>, s: nat)
    requires Inv(n) && s < MAX_SISTERS && n.sisters[s].state == Blocked
    requires EvUnblock(s) !in events
    ensures Inv(Run(n, events)) && Run(n, events).sisters[s].state == Blocked
  {
    if events != [] {
      var before := events[..|events| - 1];
      var p, e := Run(n, before), events[|events| - 1];
      assert e in events;
      assert EvUnblock(s) !in before;
      BlockedStays(n, before, s);
      if Enabled(p, e) {
        StepKeeps(p, e, s);
      }
    }
  }

  /** A Sister that blocks does not run again on any core before an unblock names
      it: block returns only after an unblock. */
  lemma BlockReturnsOnlyAfterUnblock(before: seq<Event>, cpu: nat, after: seq<Event>)
    requires var n := Run(Init(), before); Enabled(n, EvBlock(cpu)) && EvUnblock(n.current[cpu]) !in after
    ensures var n := Run(Init(), before);
            var m := Run(Step(n, EvBlock(cpu)), after);
            && m.sisters[n.current[cpu]].state == Blocked
            && forall c :: 0 <= c < MAX_CPUS && m.online[c] ==> m.current[c] != n.current[cpu]
  {
    InitInv();
    RunInv(Init(), before);
    var n := Run(Init(), before);
    LeaveKeeps(n, cpu, Blocked);
    BlockedStays(Step(n, EvBlock(cpu)), after, n.current[cpu]);
  }

  // The code: the tables and the loops over them.

  class MisakaNetwork {
    const sisters: array<Sister>
    const current: array<nat>
    const online: array<bool>

    ghost predicate Valid()
      reads sisters, current, online
    {
      Sized(Net(sisters[..], current[..], online[..]))
    }

    ghost function View(): (n: Net)
      requires Valid()
      reads sisters, current, online
      ensures Sized(n)
    {
      Net(sisters[..], current[..], online[..])
    }

    constructor ()
      ensures Valid() && fresh(sisters) && fresh(current) && fresh(online)
      ensures View() == Init()
    {
      sisters := new Sister[MAX_SISTERS](i =>
        if i == 0 then Sister(Running, LEVEL_SHELL, LEVEL_SHELL, 0, 0, false)
        else if i == 1 then Sister(Ready, LEVEL_IDLE, LEVEL_IDLE, 0, 0, true)
        else Sister(Free, 2, 2, 0, 0, false));
      current := new nat[MAX_CPUS](_ => 0);
      online := new bool[MAX_CPUS](c => c == 0);
      new;
      assert sisters[..] == Init().sisters;
      assert current[..] == Init().current;
      assert online[..] == Init().online;
    }

    method PickNext(from: nat) returns (next: nat)
      requires Valid() && from < MAX_SISTERS
      ensures next == Pick(sisters[..], from) && next < MAX_SISTERS
    {
      var best: int := -1;
      for i := 0 to MAX_SISTERS
        invariant best == Best(sisters[..], i)
      {
        if sisters[i].state == Ready && sisters[i].level > best {
          best := sisters[i].level;
        }
      }
      PickIsHighestNearest(sisters[..], from);
      assert best >= 0 ==> Pick(sisters[..], from) == Scan(sisters[..], from, best, 1);
      hide Best;
      hide Pick;
      if best < 0 {
        return from;
      }
      for step := 1 to MAX_SISTERS + 1
        invariant Pick(sisters[..], from) == Scan(sisters[..], from, best, step)
      {
        var i := (from + step) % MAX_SISTERS;
        assert i == Around(from, step);
        if sisters[i].state == Ready && sisters[i].level == best {
          return i;
        }
      }
      return from;
    }

    method SwitchToNext(cpu: nat, next: nat)
      requires Valid() && cpu < MAX_CPUS && next < MAX_SISTERS
      modifies sisters, current
      ensures Valid() && View() == SwitchTo(old(View()), cpu, next)
    {
      var prev := current[cpu];
      if next == prev {
        sisters[prev] := sisters[prev].(state := Running, owner := cpu);
        assert current[..] == current[..][cpu := next];
        return;
      }
      sisters[next] := sisters[next].(state := Running, owner := cpu);
      current[cpu] := next;
    }

    method WakeDueSleepers(now: nat)
      requires Valid()
      modifies sisters
      ensures Valid() && View() == old(View()).(sisters := WakeDue(old(sisters[..]), now))
    {
      for i := 0 to MAX_SISTERS
        invariant forall k :: 0 <= k < i ==> sisters[k] == WakeDue(old(sisters[..]), now)[k]
        invariant forall k :: i <= k < MAX_SISTERS ==> sisters[k] == old(sisters[k])
      {
        if sisters[i].state == Sleeping && now >= sisters[i].wakeAt {
          sisters[i] := sisters[i].(state := Ready);
        }
      }
      assert sisters[..] == WakeDue(old(sisters[..]), now);
    }

    method ReschedOn(cpu: nat, now: nat)
      requires Valid() && cpu < MAX_CPUS
      modifies sisters, current
      ensures Valid() && View() == Resched(old(View()), cpu, now)
    {
      WakeDueSleepers(now);
      YieldOn(cpu);
    }

    method YieldOn(cpu: nat)
      requires Valid() && cpu < MAX_CPUS
      modifies sisters, current
      ensures Valid() && View() == Yield(old(View()), cpu)
    {
      var cur := current[cpu];
      if sisters[cur].state == Running {
        sisters[cur] := sisters[cur].(state := Ready);
      }
      assert View() == Demote(old(View()), cpu);
      var next := PickNext(cur);
      SwitchToNext(cpu, next);
    }

    method SleepOn(cpu: nat, until: nat)
      requires Valid() && cpu < MAX_CPUS
      modifies sisters, current
      ensures Valid() && View() == Sleep(old(View()), cpu, until)
    {
      var cur := current[cpu];
      sisters[cur] := sisters[cur].(wakeAt := until);
      LeaveOn(cpu, Sleeping);
    }

    /** block_current_locked and sister_finish: mark the current Sister, run another. */
    method LeaveOn(cpu: nat, s: State)
      requires Valid() && cpu < MAX_CPUS
      modifies sisters, current
      ensures Valid() && View() == Leave(old(View()), cpu, s)
    {
      var cur := current[cpu];
      sisters[cur] := sisters[cur].(state := s);
      var next := PickNext(cur);
      SwitchToNext(cpu, next);
    }

    method UnblockSister(id: nat)
      requires Valid()
      modifies sisters
      ensures Valid() && View() == Unblock(old(View()), id)
    {
      if id < MAX_SISTERS && sisters[id].state == Blocked {
        sisters[id] := sisters[id].(state := Ready);
      }
    }

    method AllocSlot() returns (slot: nat)
      requires Valid()
      ensures slot == FreeSlot(sisters[..], 0)
    {
      slot := 0;
      while slot < MAX_SISTERS
        invariant slot <= MAX_SISTERS
        invariant FreeSlot(sisters[..], 0) == FreeSlot(sisters[..], slot)
      {
        if sisters[slot].state == Free {
          return;
        }
        slot := slot + 1;
      }
    }

    method BecomeIdleOn(cpu: nat)
      requires Valid() && cpu < MAX_CPUS
      modifies sisters, current, online
      ensures Valid() && View() == BecomeIdle(old(View()), cpu)
    {
      var slot := AllocSlot();
      if slot < MAX_SISTERS {
        sisters[slot] := sisters[slot].(state := Running, owner := cpu, base := LEVEL_IDLE, level := LEVEL_IDLE,
                                        idle := true);
        current[cpu] := slot;
      }
      online[cpu] := true;
    }
  }
}
