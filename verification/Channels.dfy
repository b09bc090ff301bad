/** AF_UNIX channels: the table of sixteen slots, the pairing of stream ends,
    each end's byte stream, and descriptors that ride on stream positions.
 */
module Channels {
  import opened Basics

  type Fd = nat

  const SLOTS: nat := 16
  const RX_BYTES: nat := 8192
  const PATH_CAP: nat := 108
  const ACCEPT_CAP: nat := 4
  const SCM_MAX: nat := 4

  datatype Kind = Free | Stream | Dgram
  datatype Phase = Closed | Bound | Listening | Connected | PeerGone

  /** A descriptor in flight and the stream position it was attached at. */
  datatype Rider = Rider(fd: Fd, pos: nat)

  /** rx: the bytes in the receive ring; total: how many were ever put there. */
  datatype Channel = Channel(kind: Kind, phase: Phase, refs: nat, path: seq<char>, peer: int, queue: seq<nat>,
                             backlog: nat, rx: seq<byte>, total: nat, scm: seq<Rider>)

  const EMPTY: Channel := Channel(Free, Closed, 0, [], -1, [], 0, [], 0, [])

  /** What happened to one slot since it was last allocated. */
  datatype Log = Log(sent: seq<byte>, got: seq<byte>, attached: seq<Rider>, taken: seq<Rider>)

  /** A finished life of a slot, and the descriptors dropped at its end. */
  datatype Life = Life(log: Log, released: seq<Rider>)

  datatype State = State(table: seq<Channel>, logs: seq<Log>, past: seq<Life>)

  predicate Shape(st: State) {
    |st.table| == |st.logs| == SLOTS
  }

  predicate ValidIdx(st: State, i: int) {
    Shape(st) && 0 <= i < SLOTS && st.table[i].kind != Free
  }

  function FirstFree(table: seq<Channel>, i: nat): (r: nat)
    requires i <= |table|
    ensures i <= r <= |table| && (r < |table| ==> table[r].kind == Free)
    ensures forall k :: i <= k < r ==> table[k].kind != Free
    decreases |table| - i
  {
    if i < |table| && table[i].kind != Free then FirstFree(table, i + 1) else i
  }

  predicate NamedAs(c: Channel, path: seq<char>, kind: Kind) {
    c.kind == kind && c.path == path
  }

  function FirstListener(table: seq<Channel>, path: seq<char>, i: nat): (r: nat)
    requires i <= |table|
    ensures i <= r <= |table|
    ensures r < |table| ==> NamedAs(table[r], path, Stream) && table[r].phase == Listening
    decreases |table| - i
  {
    if i < |table| && !(NamedAs(table[i], path, Stream) && table[i].phase == Listening)
    then FirstListener(table, path, i + 1) else i
  }

  function Capped(path: seq<char>): seq<char> {
    if |path| > PATH_CAP then path[..PATH_CAP] else path
  }

  // Each call on the whole table.

  /** Slot k starts a new life as channel c. */
  function Begin(st: State, k: nat, c: Channel): (r: State)
    requires Shape(st) && k < SLOTS
    ensures Shape(r)
  {
    st.(table := st.table[k := c], logs := st.logs[k := Log([], [], [], [])])
  }

  function Edit(st: State, k: nat, c: Channel): (r: State)
    requires Shape(st) && k < SLOTS
    ensures Shape(r)
  {
    st.(table := st.table[k := c])
  }

  function Socket(st: State, kind: Kind): (r: (State, int))
    requires Shape(st)
    ensures Shape(r.0)
  {
    var k: int := FirstFree(st.table, 0);
    if kind == Free || k == SLOTS then (st, -1)
    else (Begin(st, k, EMPTY.(kind := kind, refs := 1)), k)
  }

  predicate Collides(st: State, path: seq<char>, kind: Kind) {
    path != [] && exists k :: 0 <= k < |st.table| && NamedAs(st.table[k], path, kind)
  }

  function Bind(st: State, i: int, path: seq<char>): (r: (State, bool))
    requires Shape(st)
    ensures Shape(r.0)
  {
    if !ValidIdx(st, i) then (st, false) else
      var c := st.table[i];
      if (c.phase != Closed && c.phase != Bound) || Collides(st, path, c.kind) then (st, false)
      else (Edit(st, i, c.(path := Capped(path), phase := Bound)), true)
  }

  function Listen(st: State, i: int, backlog: nat): (r: (State, bool))
    requires Shape(st)
    ensures Shape(r.0)
  {
    if !ValidIdx(st, i) then (st, false) else
      var c := st.table[i];
      if c.kind != Stream || c.phase != Bound || c.path == [] then (st, false) else
        var b := if backlog == 0 then 1 else if backlog > ACCEPT_CAP then ACCEPT_CAP else backlog;
        (Edit(st, i, c.(phase := Listening, backlog := b)), true)
  }

  /** accept: the oldest queued end; None when there is none to take. */
  function TryAccept(st: State, i: int): (r: (State, Option<nat>))
    requires Shape(st)
    ensures Shape(r.0)
  {
    if !ValidIdx(st, i) then (st, None) else
      var c := st.table[i];
      if c.kind != Stream || c.phase != Listening || c.queue == [] then (st, None)
      else (Edit(st, i, c.(queue := c.queue[1..])), Some(c.queue[0]))
  }

  /** Both ends of a new pair; the far one is a fresh slot. */
  function Paired(st: State, i: nat, k: nat, path: seq<char>): (r: State)
    requires Shape(st) && i < SLOTS && k < SLOTS
    ensures Shape(r)
  {
    var st' := Begin(st, k, EMPTY.(kind := Stream, phase := Connected, refs := 1, peer := i, path := Capped(path)));
    Edit(st', i, st'.table[i].(phase := Connected, peer := k))
  }

  function Connect(st: State, i: int, path: seq<char>): (r: (State, bool))
    requires Shape(st)
    ensures Shape(r.0)
  {
    if !ValidIdx(st, i) || st.table[i].kind != Stream || st.table[i].phase == Connected || path == [] then (st, false)
    else
      var s, k := FirstListener(st.table, path, 0), FirstFree(st.table, 0);
      if s == SLOTS || |st.table[s].queue| >= st.table[s].backlog || k == SLOTS then (st, false) else
        var st' := Paired(st, i, k, st.table[s].path);
        (Edit(st', s, st'.table[s].(queue := st'.table[s].queue + [k])), true)
  }

  function SocketPair(st: State): (r: (State, bool))
    requires Shape(st)
    ensures Shape(r.0)
  {
    var a := FirstFree(st.table, 0);
    if a == SLOTS then (st, false) else
      var b := FirstFree(st.table, a + 1);
      if b == SLOTS then (st, false) else
        (Paired(Begin(st, a, EMPTY.(kind := Stream, refs := 1)), a, b, []), true)
  }

  /** The slot a stream end sends into; -1 when it is not connected. */
  function Target(st: State, i: int): int
    requires Shape(st)
  {
    if ValidIdx(st, i) && st.table[i].kind == Stream && st.table[i].phase == Connected &&
       ValidIdx(st, st.table[i].peer) then st.table[i].peer else -1
  }

  function Send(st: State, i: int, bytes: seq<byte>): (r: (State, int))
    requires Shape(st)
    ensures Shape(r.0)
  {
    var p := Target(st, i);
    if p < 0 then (st, -1) else
      var c, log := st.table[p], st.logs[p];
      var room := if |c.rx| < RX_BYTES then RX_BYTES - |c.rx| else 0;
      var n := if |bytes| > room then room else |bytes|;
      (Edit(st, p, c.(rx := c.rx + bytes[..n], total := c.total + n))
         .(logs := st.logs[p := log.(sent := log.sent + bytes[..n])]), n)
  }

  function TryRecv(st: State, i: int, cap: nat): (r: (State, seq<byte>))
    requires Shape(st)
    ensures Shape(r.0)
  {
    if !ValidIdx(st, i) || st.table[i].kind != Stream then (st, []) else
      var c, log := st.table[i], st.logs[i];
      var n := if cap > |c.rx| then |c.rx| else cap;
      (Edit(st, i, c.(rx := c.rx[n..])).(logs := st.logs[i := log.(got := log.got + c.rx[..n])]), c.rx[..n])
  }

  function Riders(fds: seq<Fd>, pos: nat): (r: seq<Rider>)
    ensures |r| == |fds|
  {
    seq(|fds|, k requires 0 <= k < |fds| => Rider(fds[k], pos))
  }

  function Attach(st: State, i: int, fds: seq<Fd>): (r: (State, nat))
    requires Shape(st)
    ensures Shape(r.0)
  {
    var p := Target(st, i);
    if p < 0 then (st, 0) else
      var c, log := st.table[p], st.logs[p];
      var room := if |c.scm| < SCM_MAX then SCM_MAX - |c.scm| else 0;
      var n := if |fds| > room then room else |fds|;
      var riders := Riders(fds[..n], c.total);
      (Edit(st, p, c.(scm := c.scm + riders)).(logs := st.logs[p := log.(attached := log.attached + riders)]), n)
  }

  /** How many leading riders are past their position. */
  function Ripe(scm: seq<Rider>, consumed: int, most: nat, k: nat): (r: nat)
    requires k <= |scm|
    ensures k <= r <= |scm|
    ensures forall j :: k <= j < r ==> scm[j].pos < consumed
    ensures r < |scm| && k <= most ==> r >= most || scm[r].pos >= consumed
    ensures k <= most ==> r <= most
    decreases |scm| - k
  {
    if k < |scm| && k < most && scm[k].pos < consumed then Ripe(scm, consumed, most, k + 1) else k
  }

  function Take(st: State, i: int, most: nat): (r: (State, seq<Rider>))
    requires Shape(st)
    ensures Shape(r.0)
  {
    if !ValidIdx(st, i) then (st, []) else
      var c, log := st.table[i], st.logs[i];
      var n := Ripe(c.scm, c.total - |c.rx|, most, 0);
      (Edit(st, i, c.(scm := c.scm[n..])).(logs := st.logs[i := log.(taken := log.taken + c.scm[..n])]), c.scm[..n])
  }

  function Close(st: State, i: int): (r: State)
    requires Shape(st)
    ensures Shape(r)
  {
    if !ValidIdx(st, i) then st else
      var c := st.table[i];
      if c.refs > 1 then Edit(st, i, c.(refs := c.refs - 1)) else
        var st' := if c.kind == Stream && ValidIdx(st, c.peer)
                   then Edit(st, c.peer, st.table[c.peer].(phase := PeerGone, peer := -1)) else st;
        Edit(st', i, EMPTY).(past := st.past + [Life(st.logs[i], st'.table[i].scm)])
  }

  function IncRef(st: State, i: int): (r: State)
    requires Shape(st)
    ensures Shape(r)
  {
    if ValidIdx(st, i) then Edit(st, i, st.table[i].(refs := (st.table[i].refs + 1) % 0x1_0000)) else st
  }

  // The invariant.

  /** A slot has a peer exactly when it is connected, and then they are each other's. */
  ghost predicate Pairing(table: seq<Channel>, i: nat)
    requires i < |table|
  {
    var c := table[i];
    && (c.phase == Connected <==> c.peer >= 0)
    && (c.peer >= 0 ==>
          && c.kind == Stream && c.peer < |table| && c.peer != i
          && table[c.peer].peer == i && table[c.peer].kind == Stream)
  }

  ghost predicate StreamOk(c: Channel, log: Log) {
    log.got + c.rx == log.sent && c.total == |log.sent| && |c.rx| <= RX_BYTES
  }

  ghost predicate RidersOk(c: Channel, log: Log) {
    && log.attached == log.taken + c.scm && |c.scm| <= SCM_MAX
    && (forall k :: 0 <= k < |log.attached| ==> log.attached[k].pos <= c.total)
    && (forall j, k :: 0 <= j < k < |log.attached| ==> log.attached[j].pos <= log.attached[k].pos)
    && (forall k :: 0 <= k < |log.taken| ==> log.taken[k].pos < |log.got|)
  }

  ghost predicate SlotOk(st: State, i: nat)
    requires Shape(st) && i < SLOTS
  {
    st.table[i].kind != Free ==> StreamOk(st.table[i], st.logs[i]) && RidersOk(st.table[i], st.logs[i])
  }

  ghost predicate LifeOk(life: Life) {
    life.log.attached == life.log.taken + life.released
  }

  ghost predicate Inv(st: State) {
    && Shape(st)
    && (forall i :: 0 <= i < SLOTS ==> Pairing(st.table, i))
    && (forall i :: 0 <= i < SLOTS ==> SlotOk(st, i))
    && (forall k :: 0 <= k < |st.past| ==> LifeOk(st.past[k]))
  }

  // What each call keeps.

  lemma EditKeeps(st: State, k: nat, c: Channel, log: Log)
    requires Inv(st) && k < SLOTS
    requires c.peer == st.table[k].peer && c.kind == st.table[k].kind
    requires c.phase == Connected <==> st.table[k].phase == Connected
    requires c.kind != Free ==> StreamOk(c, log) && RidersOk(c, log)
    ensures Inv(Edit(st, k, c).(logs := st.logs[k := log]))
  {
    var st' := Edit(st, k, c).(logs := st.logs[k := log]);
    forall i | 0 <= i < SLOTS
      ensures Pairing(st'.table, i) && SlotOk(st', i)
    {
      assert Pairing(st.table, i) && SlotOk(st, i);
    }
  }

  /** Changing only fields that neither the pairing nor the streams depend on. */
  lemma TouchKeeps(st: State, k: nat, c: Channel)
    requires Inv(st) && k < SLOTS
    requires c.peer == st.table[k].peer && c.kind == st.table[k].kind
    requires c.phase == Connected <==> st.table[k].phase == Connected
    requires c.rx == st.table[k].rx && c.total == st.table[k].total && c.scm == st.table[k].scm
    ensures Inv(Edit(st, k, c))
  {
    assert SlotOk(st, k);
    EditKeeps(st, k, c, st.logs[k]);
    assert st.logs[k := st.logs[k]] == st.logs;
  }

  lemma BeginKeeps(st: State, k: nat, c: Channel)
    requires Inv(st) && k < SLOTS && st.table[k].kind == Free
    requires c.peer == -1 && c.phase != Connected && c.rx == [] && c.total == 0 && c.scm == []
    ensures Inv(Begin(st, k, c))
  {
    var st' := Begin(st, k, c);
    forall i | 0 <= i < SLOTS
      ensures Pairing(st'.table, i) && SlotOk(st', i)
    {
      assert Pairing(st.table, i) && SlotOk(st, i) && Pairing(st.table, k);
    }
  }

  /** Pairing an unconnected end with a free slot. */
  lemma PairedKeeps(st: State, i: nat, k: nat, path: seq<char>)
    requires Inv(st) && i < SLOTS && k < SLOTS && i != k
    requires st.table[i].kind == Stream && st.table[i].phase != Connected && st.table[k].kind == Free
    ensures Inv(Paired(st, i, k, path))
  {
    var st' := Paired(st, i, k, path);
    forall j | 0 <= j < SLOTS
      ensures Pairing(st'.table, j) && SlotOk(st', j)
    {
      assert Pairing(st.table, j) && SlotOk(st, j) && Pairing(st.table, k) && Pairing(st.table, i);
    }
  }

  lemma ConnectKeeps(st: State, i: int, path: seq<char>)
    requires Inv(st)
    ensures Inv(Connect(st, i, path).0)
  {
    if Connect(st, i, path).1 {
      var s, k := FirstListener(st.table, path, 0), FirstFree(st.table, 0);
      PairedKeeps(st, i, k, st.table[s].path);
      var st' := Paired(st, i, k, st.table[s].path);
      TouchKeeps(st', s, st'.table[s].(queue := st'.table[s].queue + [k]));
    }
  }

  lemma SocketPairKeeps(st: State)
    requires Inv(st)
    ensures Inv(SocketPair(st).0)
  {
    if SocketPair(st).1 {
      var a := FirstFree(st.table, 0);
      var b := FirstFree(st.table, a + 1);
      BeginKeeps(st, a, EMPTY.(kind := Stream, refs := 1));
      PairedKeeps(Begin(st, a, EMPTY.(kind := Stream, refs := 1)), a, b, []);
    }
  }

  lemma SendKeeps(st: State, i: int, bytes: seq<byte>)
    requires Inv(st)
    ensures Inv(Send(st, i, bytes).0)
  {
    var p := Target(st, i);
    if p >= 0 {
      var n := Send(st, i, bytes).1;
      var c, log := st.table[p], st.logs[p];
      assert SlotOk(st, p);
      assert log.got + (c.rx + bytes[..n]) == log.sent + bytes[..n];
      EditKeeps(st, p, c.(rx := c.rx + bytes[..n], total := c.total + n), log.(sent := log.sent + bytes[..n]));
    }
  }

  lemma RecvKeeps(st: State, i: int, cap: nat)
    requires Inv(st)
    ensures Inv(TryRecv(st, i, cap).0)
  {
    if ValidIdx(st, i) && st.table[i].kind == Stream {
      var c, log := st.table[i], st.logs[i];
      var n := if cap > |c.rx| then |c.rx| else cap;
      assert SlotOk(st, i);
      assert log.got + c.rx[..n] + c.rx[n..] == log.sent;
      EditKeeps(st, i, c.(rx := c.rx[n..]), log.(got := log.got + c.rx[..n]));
    }
  }

  lemma AttachKeeps(st: State, i: int, fds: seq<Fd>)
    requires Inv(st)
    ensures Inv(Attach(st, i, fds).0)
  {
    var p := Target(st, i);
    if p >= 0 {
      var n := Attach(st, i, fds).1;
      var c, log := st.table[p], st.logs[p];
      var riders := Riders(fds[..n], c.total);
      assert SlotOk(st, p);
      assert log.taken + (c.scm + riders) == log.attached + riders;
      EditKeeps(st, p, c.(scm := c.scm + riders), log.(attached := log.attached + riders));
    }
  }

  lemma TakeKeeps(st: State, i: int, most: nat)
    requires Inv(st)
    ensures Inv(Take(st, i, most).0)
  {
    if ValidIdx(st, i) {
      var c, log := st.table[i], st.logs[i];
      var n := Ripe(c.scm, c.total - |c.rx|, most, 0);
      assert SlotOk(st, i);
      assert c.total - |c.rx| == |log.got|;
      assert log.taken + c.scm[..n] + c.scm[n..] == log.attached;
      EditKeeps(st, i, c.(scm := c.scm[n..]), log.(taken := log.taken + c.scm[..n]));
    }
  }

  lemma CloseKeeps(st: State, i: int)
    requires Inv(st)
    ensures Inv(Close(st, i))
  {
    if ValidIdx(st, i) {
      var c := st.table[i];
      if c.refs > 1 {
        TouchKeeps(st, i, c.(refs := c.refs - 1));
      } else {
        var st' := Close(st, i);
        assert Pairing(st.table, i) && SlotOk(st, i);
        forall j | 0 <= j < SLOTS
          ensures Pairing(st'.table, j) && SlotOk(st', j)
        {
          assert Pairing(st.table, j) && SlotOk(st, j);
        }
        forall k | 0 <= k < |st'.past|
          ensures LifeOk(st'.past[k])
        {
          if k < |st.past| {
            assert LifeOk(st.past[k]);
          }
        }
      }
    }
  }

  // Whole runs.

  datatype Event =
    | DoSocket(kind: Kind)
    | DoBind(i: int, path: seq<char>)
    | DoListen(i: int, backlog: nat)
    | DoAccept(i: int)
    | DoConnect(i: int, path: seq<char>)
    | DoPair
    | DoSend(i: int, bytes: seq<byte>)
    | DoRecv(i: int, cap: nat)
    | DoAttach(i: int, fds: seq<Fd>)
    | DoTake(i: int, most: nat)
    | DoClose(i: int)
    | DoIncRef(i: int)

  function Step(st: State, e: Event): (r: State)
    requires Shape(st)
    ensures Shape(r)
  {
    match e
    case DoSocket(kind) => Socket(st, kind).0
    case DoBind(i, path) => Bind(st, i, path).0
    case DoListen(i, backlog) => Listen(st, i, backlog).0
    case DoAccept(i) => TryAccept(st, i).0
    case DoConnect(i, path) => Connect(st, i, path).0
    case DoPair => SocketPair(st).0
    case DoSend(i, bytes) => Send(st, i, bytes).0
    case DoRecv(i, cap) => TryRecv(st, i, cap).0
    case DoAttach(i, fds) => Attach(st, i, fds).0
    case DoTake(i, most) => Take(st, i, most).0
    case DoClose(i) => Close(st, i)
    case DoIncRef(i) => IncRef(st, i)
  }

  function Boot(): (r: State)
    ensures Shape(r)
  {
    State(seq(SLOTS, _ => EMPTY), seq(SLOTS, _ => Log([], [], [], [])), [])
  }

  function Run(events: seq<Event>): (r: State)
    ensures Shape(r)
  {
    if events == [] then Boot() else Step(Run(events[..|events| - 1]), events[|events| - 1])
  }

  lemma StepKeeps(st: State, e: Event)
    requires Inv(st)
    ensures Inv(Step(st, e))
  {
    hide Inv;
    match e
    case DoSocket(kind) => SocketKeeps(st, kind);
    case DoBind(i, path) => QuietKeeps(st, e);
    case DoListen(i, backlog) => QuietKeeps(st, e);
    case DoAccept(i) => QuietKeeps(st, e);
    case DoConnect(i, path) => ConnectKeeps(st, i, path);
    case DoPair => SocketPairKeeps(st);
    case DoSend(i, bytes) => SendKeeps(st, i, bytes);
    case DoRecv(i, cap) => RecvKeeps(st, i, cap);
    case DoAttach(i, fds) => AttachKeeps(st, i, fds);
    case DoTake(i, most) => TakeKeeps(st, i, most);
    case DoClose(i) => CloseKeeps(st, i);
    case DoIncRef(i) => QuietKeeps(st, e);
  }

  lemma SocketKeeps(st: State, kind: Kind)
    requires Inv(st)
    ensures Inv(Socket(st, kind).0)
  {
    var k := FirstFree(st.table, 0);
    if kind != Free && k < SLOTS {
      BeginKeeps(st, k, EMPTY.(kind := kind, refs := 1));
    }
  }

  lemma QuietKeeps(st: State, e: Event)
    requires Inv(st) && (e.DoBind? || e.DoListen? || e.DoAccept? || e.DoIncRef?)
    ensures Inv(Step(st, e))
  {
    var st' := Step(st, e);
    if st' != st {
      TouchKeeps(st, e.i, st'.table[e.i]);
      assert st' == Edit(st, e.i, st'.table[e.i]);
    }
  }

  lemma {:induction false} RunInv(events: seq<Event>)
    ensures Inv(Run(events))
  {
    if events != [] {
      RunInv(events[..|events| - 1]);
      StepKeeps(Run(events[..|events| - 1]), events[|events| - 1]);
    }
  }

  /** Connected ends always come in pairs that name each other, so a peer index
      never points at a slot that was freed or given out again. */
  lemma PeersNeverDangle(events: seq<Event>, i: nat)
    requires i < SLOTS && Run(events).table[i].phase == Connected
    ensures var table := Run(events).table;
            var p := table[i].peer;
            && 0 <= p < SLOTS && p != i && table[p].kind == Stream && table[p].phase == Connected && table[p].peer == i
            && Target(Run(events), i) == p
  {
    RunInv(events);
    var table := Run(events).table;
    assert Pairing(table, i);
    assert Pairing(table, table[i].peer);
  }

  /** In each life of a slot the bytes received are a prefix of the bytes sent to
      it, and the ring holds exactly the rest. */
  lemma ReceivedIsPrefixOfSent(events: seq<Event>, i: nat)
    requires i < SLOTS && Run(events).table[i].kind != Free
    ensures var st := Run(events);
            && st.logs[i].got <= st.logs[i].sent
            && st.logs[i].sent[|st.logs[i].got|..] == st.table[i].rx
  {
    RunInv(events);
    assert SlotOk(Run(events), i);
  }

  /** Descriptors leave in the order they were attached, each after the first byte
      written past its attachment was consumed, and none is lost: attached is taken
      followed by pending while the slot lives, and by released once it was freed. */
  lemma RidersConserved(events: seq<Event>, i: nat, k: nat)
    requires i < SLOTS
    ensures var st := Run(events);
            && (st.table[i].kind != Free ==>
                  && st.logs[i].attached == st.logs[i].taken + st.table[i].scm
                  && (k < |st.logs[i].taken| ==> st.logs[i].taken[k].pos < |st.logs[i].got|))
            && (k < |st.past| ==> st.past[k].log.attached == st.past[k].log.taken + st.past[k].released)
  {
    RunInv(events);
    assert SlotOk(Run(events), i);
    if k < |Run(events).past| {
      assert LifeOk(Run(events).past[k]);
    }
  }

  /** Taking is greedy: what stays is nothing, beyond the limit, or not yet reached. */
  lemma TakeIsGreedy(events: seq<Event>, i: nat, most: nat)
    requires i < SLOTS && Run(events).table[i].kind != Free
    ensures var st := Run(events);
            var (st', out) := Take(st, i, most);
            && st.table[i].scm == out + st'.table[i].scm && |out| <= most
            && (st'.table[i].scm == [] || |out| == most || st'.table[i].scm[0].pos >= |st.logs[i].got|)
  {
    RunInv(events);
    var st := Run(events);
    assert SlotOk(st, i);
    assert st.table[i].total - |st.table[i].rx| == |st.logs[i].got|;
  }
}
