/** The receive side of a TCP socket (Antenna): in-order delivery into a ring,
    two slots for segments that arrive early, 32-bit sequence numbers.
 */
module TcpReceive {
  import opened Basics
  import opened Rings

  const RX_BYTES: nat := 65536
  const OOO_SLOTS: nat := 2
  const OOO_SEG_BYTES: nat := 1460
  const MOD: nat := 0x1_0000_0000

  function Add(a: int, b: int): (r: u32) {
    (a + b) % MOD
  }

  function Sub(a: int, b: int): (r: u32) {
    (a - b) % MOD
  }

  datatype TcpState = Closed | Listen | SynSent | SynRcvd | Established | FinWait1 | FinWait2
                    | CloseWait | LastAck | Closing | TimeWait | Reset

  /** A parked segment; an empty payload is an empty slot. */
  datatype Parked = Parked(at: u32, data: seq<byte>)

  /** A segment as the demultiplexer hands it over. */
  datatype Segment = Segment(ackFlag: bool, finFlag: bool, rstFlag: bool, at: u32, ackNo: u32, data: seq<byte>)

  datatype Rx = Rx(state: TcpState, ring: seq<byte>, rcvNxt: u32, ooo: seq<Parked>, peerFin: bool, sndUna: u32,
                   sndNxt: u32)

  predicate Sized(a: Rx) {
    |a.ring| <= RX_BYTES && |a.ooo| == OOO_SLOTS
  }

  /** How many of n bytes fit. */
  function Fits(fill: nat, n: nat): (r: nat)
    requires fill <= RX_BYTES
    ensures r <= n && fill + r <= RX_BYTES
  {
    if n > RX_BYTES - fill then RX_BYTES - fill else n
  }

  /** Store the prefix that fits and advance the expected number by exactly that much. */
  function Store(a: Rx, data: seq<byte>): (a': Rx)
    requires Sized(a)
    ensures Sized(a')
  {
    var n := Fits(|a.ring|, |data|);
    a.(ring := a.ring + data[..n], rcvNxt := Add(a.rcvNxt, n))
  }

  predicate Drainable(a: Rx, k: nat)
    requires Sized(a) && k < OOO_SLOTS
  {
    && |a.ooo[k].data| > 0 && a.ooo[k].at == a.rcvNxt
    && RX_BYTES - |a.ring| >= |a.ooo[k].data|
  }

  function DrainSlot(a: Rx, k: nat): (a': Rx)
    requires Sized(a) && k < OOO_SLOTS
    ensures Sized(a')
  {
    if Drainable(a, k) then
      var s := Store(a, a.ooo[k].data);
      s.(ooo := s.ooo[k := s.ooo[k].(data := [])])
    else a
  }

  function DrainPass(a: Rx, k: nat): (a': Rx)
    requires Sized(a) && k <= OOO_SLOTS
    ensures Sized(a')
    ensures Occupied(a', OOO_SLOTS) <= Occupied(a, OOO_SLOTS)
    ensures a' == a || Occupied(a', OOO_SLOTS) < Occupied(a, OOO_SLOTS)
    decreases OOO_SLOTS - k
  {
    if k == OOO_SLOTS then a
    else
      var d := DrainSlot(a, k);
      assert d == a || Occupied(d, OOO_SLOTS) < Occupied(a, OOO_SLOTS) by {
        if d != a { DrainFrees(a, k, OOO_SLOTS); }
      }
      DrainPass(d, k + 1)
  }

  function Occupied(a: Rx, k: nat): nat
    requires Sized(a) && k <= OOO_SLOTS
  {
    if k == 0 then 0 else Occupied(a, k - 1) + (if a.ooo[k - 1].data == [] then 0 else 1)
  }

  lemma DrainFrees(a: Rx, k: nat, n: nat)
    requires Sized(a) && k < OOO_SLOTS && n <= OOO_SLOTS && Drainable(a, k)
    ensures Occupied(DrainSlot(a, k), n) == Occupied(a, n) - (if k < n then 1 else 0)
  {
    if n > 0 {
      DrainFrees(a, k, n - 1);
    }
  }

  /** Passes over the slots repeat until one makes no progress. */
  function DrainAll(a: Rx): (a': Rx)
    requires Sized(a)
    ensures Sized(a')
    decreases Occupied(a, OOO_SLOTS)
  {
    var d := DrainPass(a, 0);
    if d == a then a else DrainAll(d)
  }

  function FreeSlot(a: Rx, k: nat): (r: nat)
    requires Sized(a) && k <= OOO_SLOTS
    ensures k <= r <= OOO_SLOTS && (r < OOO_SLOTS ==> a.ooo[r].data == [])
    decreases OOO_SLOTS - k
  {
    if k == OOO_SLOTS || a.ooo[k].data == [] then k else FreeSlot(a, k + 1)
  }

  predicate Duplicate(a: Rx, at: u32)
    requires Sized(a)
  {
    exists k :: 0 <= k < OOO_SLOTS && a.ooo[k].data != [] && a.ooo[k].at == at
  }

  function Park(a: Rx, at: u32, data: seq<byte>): (a': Rx)
    requires Sized(a)
    ensures Sized(a')
  {
    if |data| == 0 || |data| > OOO_SEG_BYTES then a
    else if Sub(at, a.rcvNxt) >= RX_BYTES then a
    else if Duplicate(a, at) then a
    else
      var k := FreeSlot(a, 0);
      if k == OOO_SLOTS then a else a.(ooo := a.ooo[k := Parked(at, data)])
  }

  predicate Receiving(s: TcpState) {
    s == Established || s == FinWait1 || s == FinWait2
  }

  function TakeAck(a: Rx, seg: Segment): (a': Rx)
    requires Sized(a)
    ensures Sized(a')
  {
    if seg.ackFlag && seg.ackNo > a.sndUna then
      a.(sndUna := seg.ackNo, state := if a.state == FinWait1 && seg.ackNo == a.sndNxt then FinWait2 else a.state)
    else a
  }

  function TakeData(a: Rx, seg: Segment): (a': Rx)
    requires Sized(a)
    ensures Sized(a')
  {
    if |seg.data| == 0 then a
    else if seg.at == a.rcvNxt then DrainAll(Store(a, seg.data))
    else if seg.at > a.rcvNxt then Park(a, seg.at, seg.data)
    else a
  }

  function TakeFin(a: Rx, seg: Segment): (a': Rx)
    requires Sized(a)
    ensures Sized(a')
  {
    if seg.finFlag && seg.at == a.rcvNxt then
      a.(rcvNxt := Add(a.rcvNxt, 1), peerFin := true,
         state := match a.state
                  case Established => CloseWait
                  case FinWait2 => TimeWait
                  case FinWait1 => Closing
                  case _ => a.state)
    else a
  }

  /** A segment arrives for a connection that has left SynSent and Listen. */
  function Deliver(a: Rx, seg: Segment): (a': Rx)
    requires Sized(a)
    ensures Sized(a')
  {
    if seg.rstFlag then a.(state := Reset)
    else match a.state
      case SynRcvd =>
        if seg.ackFlag && seg.ackNo == a.sndNxt then
          var e := a.(sndUna := seg.ackNo, state := Established);
          if |seg.data| > 0 && seg.at == e.rcvNxt then Store(e, seg.data) else e
        else a
      case Established => TakeFin(TakeData(TakeAck(a, seg), seg), seg)
      case FinWait1 => TakeFin(TakeData(TakeAck(a, seg), seg), seg)
      case FinWait2 => TakeFin(TakeData(TakeAck(a, seg), seg), seg)
      case LastAck => if seg.ackFlag && seg.ackNo == a.sndNxt then a.(state := Closed) else a
      case Closing => if seg.ackFlag && seg.ackNo == a.sndNxt then a.(state := Closed) else a
      case _ => a
  }

  /** The application takes up to `cap` bytes. */
  function Recv(a: Rx, cap: nat): (r: (Rx, seq<byte>))
    requires Sized(a)
    ensures Sized(r.0) && r.1 + r.0.ring == a.ring
  {
    var n := if cap > |a.ring| then |a.ring| else cap;
    (a.(ring := a.ring[n..]), a.ring[..n])
  }

  /** The application closes its side. */
  function LocalClose(a: Rx): (a': Rx)
    requires Sized(a)
    ensures Sized(a')
  {
    match a.state
    case Established => a.(sndNxt := Add(a.sndNxt, 1), state := FinWait1)
    case CloseWait => a.(sndNxt := Add(a.sndNxt, 1), state := LastAck)
    case _ => a
  }

  // Against a peer that sends one fixed stream.

  /** The sequence number of byte k of the stream. */
  function SeqOf(irs: u32, k: nat): u32 {
    Add(irs, 1 + k)
  }

  lemma SeqInjective(irs: u32, j: nat, k: nat)
    requires j < MOD && k < MOD && SeqOf(irs, j) == SeqOf(irs, k)
    ensures j == k
  {
  }

  /** The bytes at sequence number `at` are the stream's own. */
  ghost predicate Genuine(stream: seq<byte>, irs: u32, at: u32, data: seq<byte>) {
    exists k: nat :: IsPiece(stream, irs, at, data, k)
  }

  predicate IsPiece(stream: seq<byte>, irs: u32, at: u32, data: seq<byte>, k: nat) {
    k + |data| <= |stream| && at == SeqOf(irs, k) && data == stream[k..k + |data|]
  }

  /** `read` is what the application has taken so far. */
  ghost predicate Inv(a: Rx, stream: seq<byte>, irs: u32, read: seq<byte>) {
    && Sized(a) && |stream| < MOD
    && read + a.ring <= stream
    && (!a.peerFin ==> a.rcvNxt == SeqOf(irs, |read| + |a.ring|))
    && (a.peerFin ==> read + a.ring == stream && !Receiving(a.state) && a.state != SynRcvd)
    && (forall k :: 0 <= k < OOO_SLOTS ==> Genuine(stream, irs, a.ooo[k].at, a.ooo[k].data) || a.ooo[k].data == [])
  }

  /** Storing genuine bytes at the expected number extends the received prefix. */
  lemma StoreKeeps(a: Rx, stream: seq<byte>, irs: u32, read: seq<byte>, data: seq<byte>)
    requires Inv(a, stream, irs, read) && !a.peerFin && Genuine(stream, irs, a.rcvNxt, data)
    ensures Inv(Store(a, data), stream, irs, read)
  {
    var k: nat :| IsPiece(stream, irs, a.rcvNxt, data, k);
    var got := |read| + |a.ring|;
    SeqInjective(irs, k, got);
    var n := Fits(|a.ring|, |data|);
    var a' := Store(a, data);
    assert read + a'.ring == stream[..got] + data[..n];
    assert data[..n] == stream[got..got + n];
    assert read + a'.ring == stream[..got + n];
    NextSeq(irs, got, n);
  }

  lemma NextSeq(irs: u32, k: nat, n: nat)
    ensures Add(SeqOf(irs, k), n) == SeqOf(irs, k + n)
  {
  }

  lemma DrainSlotKeeps(a: Rx, stream: seq<byte>, irs: u32, read: seq<byte>, k: nat)
    requires Inv(a, stream, irs, read) && !a.peerFin && k < OOO_SLOTS
    ensures Inv(DrainSlot(a, k), stream, irs, read)
    ensures DrainSlot(a, k).state == a.state && !DrainSlot(a, k).peerFin && |DrainSlot(a, k).ring| >= |a.ring|
  {
    if Drainable(a, k) {
      StoreKeeps(a, stream, irs, read, a.ooo[k].data);
    }
  }

  lemma {:induction false} DrainPassKeeps(a: Rx, stream: seq<byte>, irs: u32, read: seq<byte>, k: nat)
    requires Inv(a, stream, irs, read) && !a.peerFin && k <= OOO_SLOTS
    ensures Inv(DrainPass(a, k), stream, irs, read)
    ensures DrainPass(a, k).state == a.state && !DrainPass(a, k).peerFin && |DrainPass(a, k).ring| >= |a.ring|
    decreases OOO_SLOTS - k
  {
    if k < OOO_SLOTS {
      DrainSlotKeeps(a, stream, irs, read, k);
      DrainPassKeeps(DrainSlot(a, k), stream, irs, read, k + 1);
    }
  }

  lemma {:induction false} DrainAllKeeps(a: Rx, stream: seq<byte>, irs: u32, read: seq<byte>)
    requires Inv(a, stream, irs, read) && !a.peerFin
    ensures Inv(DrainAll(a), stream, irs, read)
    ensures DrainAll(a).state == a.state && !DrainAll(a).peerFin && |DrainAll(a).ring| >= |a.ring|
    decreases Occupied(a, OOO_SLOTS)
  {
    DrainPassKeeps(a, stream, irs, read, 0);
    var d := DrainPass(a, 0);
    if d != a {
      DrainAllKeeps(d, stream, irs, read);
    }
  }

  /** Nothing drains into a full ring. */
  lemma FullRingDrainsNothing(a: Rx)
    requires Sized(a) && |a.ring| == RX_BYTES
    ensures DrainAll(a) == a
  {
    assert DrainSlot(a, 0) == a && DrainSlot(a, 1) == a;
    assert DrainPass(a, 2) == a;
    assert DrainPass(a, 1) == a;
    assert DrainPass(a, 0) == a;
  }

  lemma ParkKeeps(a: Rx, stream: seq<byte>, irs: u32, read: seq<byte>, at: u32, data: seq<byte>)
    requires Inv(a, stream, irs, read) && Genuine(stream, irs, at, data)
    ensures Inv(Park(a, at, data), stream, irs, read)
    ensures Park(a, at, data).rcvNxt == a.rcvNxt && Park(a, at, data).peerFin == a.peerFin
              && Park(a, at, data).ring == a.ring
    ensures Park(a, at, data).state == a.state
  {
    hide FreeSlot;
  }

  lemma TakeDataKeeps(a: Rx, stream: seq<byte>, irs: u32, read: seq<byte>, seg: Segment)
    requires Inv(a, stream, irs, read) && !a.peerFin && (seg.data == [] || Genuine(stream, irs, seg.at, seg.data))
    ensures var a' := TakeData(a, seg);
            Inv(a', stream, irs, read) && !a'.peerFin && a'.state == a.state && |a'.ring| >= |a.ring|
  {
    hide DrainAll;
    hide Park;
    if |seg.data| > 0 {
      if seg.at == a.rcvNxt {
        StoreKeeps(a, stream, irs, read, seg.data);
        DrainAllKeeps(Store(a, seg.data), stream, irs, read);
      } else if seg.at > a.rcvNxt {
        ParkKeeps(a, stream, irs, read, seg.at, seg.data);
      }
    }
  }

  /** A peer's segment: a bare one of any number, or genuine data, with a FIN only
      right after the last byte. */
  ghost predicate FromPeer(stream: seq<byte>, irs: u32, seg: Segment) {
    || (seg.data == [] && !seg.finFlag)
    || exists k: nat :: IsPiece(stream, irs, seg.at, seg.data, k) && (seg.finFlag ==> k + |seg.data| == |stream|)
  }

  /** A FIN that carries data must not arrive in order at a full ring. */
  predicate FinSafe(a: Rx, seg: Segment) {
    seg.finFlag && |seg.data| > 0 && seg.at == a.rcvNxt ==> |a.ring| < RX_BYTES
  }

  lemma DataThenFinKeeps(a: Rx, stream: seq<byte>, irs: u32, read: seq<byte>, seg: Segment)
    requires Inv(a, stream, irs, read) && Receiving(a.state) && FromPeer(stream, irs, seg) && FinSafe(a, seg)
    ensures Inv(TakeFin(TakeData(a, seg), seg), stream, irs, read)
  {
    hide DrainAll;
    hide Park;
    TakeDataKeeps(a, stream, irs, read, seg);
    var d := TakeData(a, seg);
    var now := |read| + |d.ring|;
    if seg.finFlag && seg.at == d.rcvNxt {
      var k: nat :| IsPiece(stream, irs, seg.at, seg.data, k) && k + |seg.data| == |stream|;
      SeqInjective(irs, k, now);
      if |seg.data| > 0 {
        FinWithDataMovesOn(a, stream, irs, read, seg);
      }
      assert read + d.ring == stream;
    }
  }

  /** Unless the ring is full, in-order data moves the expected number past the
      segment's own, so its FIN is not taken in the same call. */
  lemma FinWithDataMovesOn(a: Rx, stream: seq<byte>, irs: u32, read: seq<byte>, seg: Segment)
    requires Inv(a, stream, irs, read) && Receiving(a.state) && Genuine(stream, irs, seg.at, seg.data) && |seg.data| > 0
    ensures |a.ring| < RX_BYTES || seg.at != a.rcvNxt ==> TakeData(a, seg).rcvNxt != seg.at
    ensures |a.ring| == RX_BYTES && seg.at == a.rcvNxt ==> TakeData(a, seg) == a
  {
    hide DrainAll;
    hide Park;
    TakeDataKeeps(a, stream, irs, read, seg);
    var d := TakeData(a, seg);
    if seg.at == a.rcvNxt {
      var s := Store(a, seg.data);
      StoreKeeps(a, stream, irs, read, seg.data);
      DrainAllKeeps(s, stream, irs, read);
      if |a.ring| < RX_BYTES {
        if d.rcvNxt == seg.at {
          SeqInjective(irs, |read| + |d.ring|, |read| + |a.ring|);
        }
      } else {
        assert seg.data[..0] == [];
        assert s == a;
        FullRingDrainsNothing(a);
      }
    } else if seg.at > a.rcvNxt {
      ParkKeeps(a, stream, irs, read, seg.at, seg.data);
    }
  }

  lemma DeliverKeeps(a: Rx, stream: seq<byte>, irs: u32, read: seq<byte>, seg: Segment)
    requires Inv(a, stream, irs, read) && FromPeer(stream, irs, seg) && FinSafe(a, seg)
    ensures Inv(Deliver(a, seg), stream, irs, read)
  {
    hide DrainAll;
    hide Park;
    hide TakeData;
    hide TakeFin;
    assert seg.data == [] || Genuine(stream, irs, seg.at, seg.data);
    if !seg.rstFlag {
      if Receiving(a.state) {
        var b := TakeAck(a, seg);
        assert Inv(b, stream, irs, read) && Receiving(b.state);
        DataThenFinKeeps(b, stream, irs, read, seg);
      } else if a.state == SynRcvd && seg.ackFlag && seg.ackNo == a.sndNxt {
        var e := a.(sndUna := seg.ackNo, state := Established);
        assert Inv(e, stream, irs, read);
        if |seg.data| > 0 && seg.at == e.rcvNxt {
          StoreKeeps(e, stream, irs, read, seg.data);
        }
      }
    }
  }

  // Runs: the network drops, repeats and reorders; the application reads and closes.

  datatype Event = Arrive(seg: Segment) | Take(cap: nat) | CloseCall

  /** A connection whose handshake has fixed the peer's initial number. */
  function Start(irs: u32, state: TcpState, sndNxt: u32): (a: Rx)
    ensures Sized(a)
  {
    Rx(state, [], Add(irs, 1), [Parked(0, []), Parked(0, [])], false, sndNxt, sndNxt)
  }

  datatype Conn = Conn(rx: Rx, read: seq<byte>)

  function Next(c: Conn, e: Event): (c': Conn)
    requires Sized(c.rx)
    ensures Sized(c'.rx)
  {
    match e
    case Arrive(seg) => c.(rx := Deliver(c.rx, seg))
    case Take(cap) => var (a, got) := Recv(c.rx, cap); Conn(a, c.read + got)
    case CloseCall => c.(rx := LocalClose(c.rx))
  }

  function Run(a: Rx, events: seq<Event>): (c: Conn)
    requires Sized(a)
    ensures Sized(c.rx)
  {
    if events == [] then Conn(a, [])
    else Next(Run(a, events[..|events| - 1]), events[|events| - 1])
  }

  /** Every arrival is the peer's, whatever was lost, repeated or reordered, and
      no FIN carrying data arrives in order while the ring is full. */
  ghost predicate Fair(a: Rx, stream: seq<byte>, irs: u32, events: seq<Event>)
    requires Sized(a)
  {
    forall i :: 0 <= i < |events| && events[i].Arrive? ==>
      FromPeer(stream, irs, events[i].seg) && FinSafe(Run(a, events[..i]).rx, events[i].seg)
  }

  lemma {:induction false} RunInv(stream: seq<byte>, irs: u32, state: TcpState, sndNxt: u32, events: seq<Event>)
    requires |stream| < MOD
    requires Fair(Start(irs, state, sndNxt), stream, irs, events)
    ensures var c := Run(Start(irs, state, sndNxt), events); Inv(c.rx, stream, irs, c.read)
  {
    var a := Start(irs, state, sndNxt);
    if events != [] {
      var n := |events| - 1;
      var before := events[..n];
      forall i | 0 <= i < n && before[i].Arrive?
        ensures FromPeer(stream, irs, before[i].seg) && FinSafe(Run(a, before[..i]).rx, before[i].seg)
      {
        assert before[i] == events[i] && before[..i] == events[..i];
      }
      RunInv(stream, irs, state, sndNxt, before);
      assert events[n].Arrive? ==> FromPeer(stream, irs, events[n].seg) && FinSafe(Run(a, before).rx, events[n].seg);
      NextKeeps(Run(a, before), stream, irs, events[n]);
    }
  }

  lemma NextKeeps(c: Conn, stream: seq<byte>, irs: u32, e: Event)
    requires Inv(c.rx, stream, irs, c.read)
    requires e.Arrive? ==> FromPeer(stream, irs, e.seg) && FinSafe(c.rx, e.seg)
    ensures var c' := Next(c, e); Inv(c'.rx, stream, irs, c'.read)
  {
    hide Deliver;
    match e
    case Arrive(seg) => DeliverKeeps(c.rx, stream, irs, c.read, seg);
    case Take(cap) =>
      var (b, got) := Recv(c.rx, cap);
      assert c.read + got + b.ring == c.read + c.rx.ring;
    case CloseCall =>
  }

  /** For any stream shorter than 2^32 bytes and any network behaviour: what the
      application has read, followed by the ring, is a prefix of the stream; until
      a FIN is accepted the expected number counts exactly those bytes; and an
      accepted FIN means the whole stream has arrived. */
  lemma ReceivedIsPrefix(stream: seq<byte>, irs: u32, state: TcpState, sndNxt: u32, events: seq<Event>)
    requires |stream| < MOD
    requires Fair(Start(irs, state, sndNxt), stream, irs, events)
    ensures var c := Run(Start(irs, state, sndNxt), events);
            && c.read + c.rx.ring <= stream
            && (!c.rx.peerFin ==> Sub(c.rx.rcvNxt, irs + 1) == |c.read| + |c.rx.ring|)
            && (c.rx.peerFin ==> c.read + c.rx.ring == stream)
  {
    hide Run;
    hide Sub;
    hide SeqOf;
    RunInv(stream, irs, state, sndNxt, events);
    var c := Run(Start(irs, state, sndNxt), events);
    assert |c.read + c.rx.ring| <= |stream|;
    CountBack(irs, |c.read| + |c.rx.ring|);
  }

  lemma CountBack(irs: u32, k: nat)
    requires k < MOD
    ensures Sub(SeqOf(irs, k), irs + 1) == k
  {
  }

  /** The restriction on FINs that carry data is exact: in order, such a FIN is
      accepted if and only if the ring is full, and then with its data missing. */
  lemma FinWithDataLosesBytesIff(a: Rx, stream: seq<byte>, irs: u32, read: seq<byte>, seg: Segment)
    requires Inv(a, stream, irs, read) && Receiving(a.state)
    requires FromPeer(stream, irs, seg) && seg.finFlag && |seg.data| > 0 && seg.at == a.rcvNxt
    ensures var a' := TakeFin(TakeData(a, seg), seg);
            && (a'.peerFin <==> |a.ring| == RX_BYTES)
            && (a'.peerFin ==> |read + a'.ring| < |stream|)
  {
    assert Genuine(stream, irs, seg.at, seg.data);
    FinWithDataMovesOn(a, stream, irs, read, seg);
    TakeDataKeeps(a, stream, irs, read, seg);
    var k: nat :| IsPiece(stream, irs, seg.at, seg.data, k) && k + |seg.data| == |stream|;
    SeqInjective(irs, k, |read| + |a.ring|);
  }

  // A run that loses the last byte.

  const PIECE: nat := 1024

  /** In-order segments carrying the first k kilobytes. */
  function Pieces(stream: seq<byte>, irs: u32, k: nat): (r: seq<Event>)
    requires PIECE * k <= |stream|
    ensures |r| == k
  {
    if k == 0 then [] else
      Pieces(stream, irs, k - 1) +
      [Arrive(Segment(false, false, false, SeqOf(irs, PIECE * (k - 1)), 0, stream[PIECE * (k - 1)..PIECE * k]))]
  }

  lemma DrainsNothing(a: Rx)
    requires Sized(a) && forall k :: 0 <= k < OOO_SLOTS ==> a.ooo[k].data == []
    ensures DrainAll(a) == a
  {
    assert DrainSlot(a, 0) == a && DrainSlot(a, 1) == a;
    assert DrainPass(a, 2) == a;
    assert DrainPass(a, 1) == a;
    assert DrainPass(a, 0) == a;
  }

  lemma {:induction false} PiecesFill(stream: seq<byte>, irs: u32, sndNxt: u32, k: nat)
    requires PIECE * k <= |stream| && PIECE * k <= RX_BYTES
    ensures Run(Start(irs, Established, sndNxt), Pieces(stream, irs, k)) ==
            Conn(Start(irs, Established, sndNxt).(ring := stream[..PIECE * k], rcvNxt := SeqOf(irs, PIECE * k)), [])
  {
    if k > 0 {
      PiecesFill(stream, irs, sndNxt, k - 1);
      assert Pieces(stream, irs, k)[..k - 1] == Pieces(stream, irs, k - 1);
      var was, now := PIECE * (k - 1), PIECE * k;
      PieceTaken(Start(irs, Established, sndNxt), stream, irs, was, now);
      hide Deliver;
      hide SeqOf;
      hide Start;
    } else {
      assert stream[..0] == [];
    }
  }

  lemma PieceTaken(a: Rx, stream: seq<byte>, irs: u32, was: nat, now: nat)
    requires a.state == Established && |a.ooo| == OOO_SLOTS && forall k :: 0 <= k < OOO_SLOTS ==> a.ooo[k].data == []
    requires was < now <= |stream| && now <= RX_BYTES
    ensures Deliver(a.(ring := stream[..was], rcvNxt := SeqOf(irs, was)),
                    Segment(false, false, false, SeqOf(irs, was), 0, stream[was..now])) ==
            a.(ring := stream[..now], rcvNxt := SeqOf(irs, now))
  {
    var b := a.(ring := stream[..was], rcvNxt := SeqOf(irs, was));
    var data := stream[was..now];
    assert Fits(|b.ring|, |data|) == |data| && data[..|data|] == data;
    NextSeq(irs, was, now - was);
    assert stream[..was] + data == stream[..now];
    DrainsNothing(Store(b, data));
    hide DrainAll;
    hide SeqOf;
  }

  /** The peer fills the ring and then sends its last byte with the FIN, any such stream:
      the FIN is accepted and the byte is gone. */
  lemma FullRingLosesLastByte(stream: seq<byte>, irs: u32, sndNxt: u32)
    requires |stream| == RX_BYTES + 1
    ensures var last := Arrive(Segment(false, true, false, SeqOf(irs, RX_BYTES), 0, stream[RX_BYTES..]));
            var c := Run(Start(irs, Established, sndNxt), Pieces(stream, irs, 64) + [last]);
            c.rx.peerFin && c.read + c.rx.ring == stream[..RX_BYTES]
  {
    PiecesFill(stream, irs, sndNxt, 64);
    var last := Arrive(Segment(false, true, false, SeqOf(irs, RX_BYTES), 0, stream[RX_BYTES..]));
    var events := Pieces(stream, irs, 64) + [last];
    assert events[..64] == Pieces(stream, irs, 64);
    var b := Start(irs, Established, sndNxt).(ring := stream[..RX_BYTES], rcvNxt := SeqOf(irs, RX_BYTES));
    assert Run(Start(irs, Established, sndNxt), events[..64]) == Conn(b, []);
    assert [] + b.ring == b.ring;
    assert last.seg.data[..0] == [];
    AddZero(irs);
    assert Store(b, last.seg.data) == b;
    DrainsNothing(b);
    hide DrainAll;
    hide SeqOf;
    hide Pieces;
    assert TakeData(b, last.seg) == b;
  }

  lemma AddZero(irs: u32)
    ensures Add(SeqOf(irs, RX_BYTES), 0) == SeqOf(irs, RX_BYTES)
  {
  }

  // The socket record as the code keeps it.

  class Antenna {
    const rxBuf: array<byte>
    var rxHead: nat
    var rxTail: nat
    var rxAvail: nat
    var state: TcpState
    var rcvNxt: u32
    var peerFin: bool
    var sndUna: u32
    var sndNxt: u32
    const ooo: array<Parked>

    ghost predicate Valid()
      reads this
    {
      && rxBuf.Length == RX_BYTES && ooo.Length == OOO_SLOTS
      && rxHead < RX_BYTES && rxAvail <= RX_BYTES
      && rxTail == Slot(rxHead, rxAvail, RX_BYTES)
    }

    ghost function View(): (a: Rx)
      requires Valid()
      reads this, rxBuf, ooo
      ensures Sized(a) && |a.ring| == rxAvail
    {
      Rx(state, Window(rxBuf[..], rxHead, rxAvail), rcvNxt, ooo[..], peerFin, sndUna, sndNxt)
    }

    constructor (irs: u32, initial: TcpState, nxt: u32)
      ensures Valid() && fresh(rxBuf) && fresh(ooo) && View() == Start(irs, initial, nxt)
    {
      rxBuf := new byte[RX_BYTES](_ => 0);
      rxHead, rxTail, rxAvail := 0, 0, 0;
      state, rcvNxt, peerFin := initial, Add(irs, 1), false;
      sndUna, sndNxt := nxt, nxt;
      ooo := new Parked[OOO_SLOTS](_ => Parked(0, []));
      new;
      assert ooo[..] == [Parked(0, []), Parked(0, [])];
    }

    /** Store the prefix that fits; the count tells the caller how far to advance. */
    method RxPut(src: seq<byte>) returns (n: nat)
      requires Valid()
      modifies rxBuf, this`rxTail, this`rxAvail
      ensures Valid() && n == Fits(old(rxAvail), |src|)
      ensures View() == old(View()).(ring := old(View()).ring + src[..n])
    {
      hide Slot;
      hide Window;
      n := Fits(rxAvail, |src|);
      ghost var before := Window(rxBuf[..], rxHead, rxAvail);
      for i := 0 to n
        invariant rxAvail == old(rxAvail) && rxTail == Slot(rxHead, rxAvail + i, RX_BYTES)
        invariant Window(rxBuf[..], rxHead, rxAvail + i) == before + src[..i]
      {
        Fill(rxBuf[..], rxHead, rxAvail + i, src[i]);
        ghost var was := rxBuf[..];
        rxBuf[rxTail] := src[i];
        assert rxBuf[..] == was[rxTail := src[i]];
        assert src[..i + 1] == src[..i] + [src[i]];
        rxTail := (rxTail + 1) % RX_BYTES;
      }
      rxAvail := rxAvail + n;
    }

    method DrainOne(k: nat) returns (progress: bool)
      requires Valid() && k < OOO_SLOTS
      modifies rxBuf, ooo, this`rxTail, this`rxAvail, this`rcvNxt
      ensures Valid() && View() == DrainSlot(old(View()), k)
      ensures progress <==> Drainable(old(View()), k)
    {
      progress := false;
      if |ooo[k].data| > 0 && ooo[k].at == rcvNxt && RX_BYTES - rxAvail >= |ooo[k].data| {
        var n := RxPut(ooo[k].data);
        rcvNxt := (rcvNxt + n) % MOD;
        ghost var s := View();
        assert s == Store(old(View()), ooo[k].data);
        ooo[k] := ooo[k].(data := []);
        assert ooo[..] == s.ooo[k := s.ooo[k].(data := [])];
        progress := true;
      }
    }

    method DrainOoo()
      requires Valid()
      modifies rxBuf, ooo, this`rxTail, this`rxAvail, this`rcvNxt
      ensures Valid() && View() == DrainAll(old(View()))
    {
      var progress := true;
      while progress
        invariant Valid()
        invariant DrainAll(View()) == DrainAll(old(View()))
        invariant !progress ==> View() == DrainAll(old(View()))
        decreases progress, Occupied(View(), OOO_SLOTS)
      {
        ghost var a := View();
        progress := false;
        for k := 0 to OOO_SLOTS
          invariant Valid()
          invariant DrainPass(View(), k) == DrainPass(a, 0)
          invariant !progress ==> View() == a
          invariant progress ==> Occupied(View(), OOO_SLOTS) < Occupied(a, OOO_SLOTS)
        {
          ghost var v := View();
          var p := DrainOne(k);
          if p {
            DrainFrees(v, k, OOO_SLOTS);
            progress := true;
          }
        }
        assert View() == DrainPass(a, 0);
      }
    }

    method ParkOoo(at: u32, payload: seq<byte>)
      requires Valid()
      modifies ooo
      ensures Valid() && View() == Park(old(View()), at, payload)
    {
      if |payload| == 0 || |payload| > OOO_SEG_BYTES {
        return;
      }
      if Sub(at, rcvNxt) >= RX_BYTES {
        return;
      }
      for k := 0 to OOO_SLOTS
        invariant forall j :: 0 <= j < k ==> !(ooo[j].data != [] && ooo[j].at == at)
      {
        if |ooo[k].data| > 0 && ooo[k].at == at {
          assert ooo[..][k].data != [];
          return;
        }
      }
      assert !Duplicate(View(), at);
      ghost var a := View();
      for k := 0 to OOO_SLOTS
        invariant FreeSlot(a, 0) == FreeSlot(a, k)
      {
        if |ooo[k].data| == 0 {
          ooo[k] := Parked(at, payload);
          assert ooo[..] == a.ooo[k := Parked(at, payload)];
          return;
        }
      }
    }

    method DeliverTcp(seg: Segment)
      requires Valid()
      modifies this, rxBuf, ooo
      ensures Valid() && View() == Deliver(old(View()), seg)
    {
      hide Window;
      hide TakeData;
      hide TakeFin;
      hide TakeAck;
      if seg.rstFlag {
        state := Reset;
        return;
      }
      match state {
        case SynRcvd =>
          if seg.ackFlag && seg.ackNo == sndNxt {
            sndUna := seg.ackNo;
            state := Established;
            if |seg.data| > 0 && seg.at == rcvNxt {
              ghost var e := View();
              var n := RxPut(seg.data);
              rcvNxt := (rcvNxt + n) % MOD;
              assert View() == Store(e, seg.data);
            }
          }
        case LastAck =>
          if seg.ackFlag && seg.ackNo == sndNxt {
            state := Closed;
          }
        case Closing =>
          if seg.ackFlag && seg.ackNo == sndNxt {
            state := Closed;
          }
        case Established => Segmented(seg);
        case FinWait1 => Segmented(seg);
        case FinWait2 => Segmented(seg);
        case _ =>
      }
    }

    /** The three parts of the data-state case: acknowledgement, payload, FIN. */
    method Segmented(seg: Segment)
      requires Valid()
      modifies this, rxBuf, ooo
      ensures Valid() && View() == TakeFin(TakeData(TakeAck(old(View()), seg), seg), seg)
    {
      hide Window;
      hide DrainAll;
      hide Park;
      if seg.ackFlag && seg.ackNo > sndUna {
        sndUna := seg.ackNo;
        if state == FinWait1 && seg.ackNo == sndNxt {
          state := FinWait2;
        }
      }
      assert View() == TakeAck(old(View()), seg);
      Payload(seg);
      FinPart(seg);
    }

    method Payload(seg: Segment)
      requires Valid()
      modifies this, rxBuf, ooo
      ensures Valid() && View() == TakeData(old(View()), seg)
    {
      hide Window;
      hide DrainAll;
      hide Park;
      if |seg.data| > 0 {
        if seg.at == rcvNxt {
          var got := RxPut(seg.data);
          rcvNxt := (rcvNxt + got) % MOD;
          assert View() == Store(old(View()), seg.data);
          DrainOoo();
        } else if seg.at > rcvNxt {
          ParkOoo(seg.at, seg.data);
        }
      }
    }

    method FinPart(seg: Segment)
      requires Valid()
      modifies this
      ensures Valid() && View() == TakeFin(old(View()), seg)
    {
      hide Window;
      if seg.finFlag && seg.at == rcvNxt {
        rcvNxt := (rcvNxt + 1) % MOD;
        peerFin := true;
        if state == Established {
          state := CloseWait;
        } else if state == FinWait2 {
          state := TimeWait;
        } else if state == FinWait1 {
          state := Closing;
        }
      }
    }

    method TryRecv(cap: nat) returns (got: seq<byte>)
      requires Valid()
      modifies this`rxHead, this`rxAvail
      ensures Valid() && (View(), got) == Recv(old(View()), cap)
    {
      got := [];
      if rxAvail == 0 {
        return;
      }
      hide Slot;
      hide Window;
      var n := if cap > rxAvail then rxAvail else cap;
      got := CopyOut(n);
      Parts(got, Window(rxBuf[..], rxHead, rxAvail - n));
      rxAvail := rxAvail - n;
    }

    /** The copy loop of tcp_try_recv: the head moves past the n oldest bytes. */
    method CopyOut(n: nat) returns (got: seq<byte>)
      requires Valid() && n <= rxAvail
      modifies this`rxHead
      ensures rxHead < RX_BYTES && rxTail == Slot(rxHead, rxAvail - n, RX_BYTES) && |got| == n
      ensures got + Window(rxBuf[..], rxHead, rxAvail - n) == old(Window(rxBuf[..], rxHead, rxAvail))
    {
      hide Slot;
      hide Window;
      got := [];
      ghost var before := Window(rxBuf[..], rxHead, rxAvail);
      for i := 0 to n
        invariant rxHead < RX_BYTES && |got| == i
        invariant rxTail == Slot(rxHead, rxAvail - i, RX_BYTES)
        invariant got + Window(rxBuf[..], rxHead, rxAvail - i) == before
      {
        Drain(rxBuf[..], rxHead, rxAvail - i, got);
        got := got + [rxBuf[rxHead]];
        rxHead := (rxHead + 1) % RX_BYTES;
      }
    }
  }

  lemma Parts(a: seq<byte>, b: seq<byte>)
    ensures (a + b)[..|a|] == a && (a + b)[|a|..] == b
  {
  }
}
