/** The kernel pipe (Aiwass): a byte ring shared by one writer and one reader
    without a lock; only the fill counter is touched by both.
 */
module Pipe {
  import opened Basics
  import opened Rings

  const SIZE: nat := 65536
  const PIPE_BUF: nat := 4096
  const WOULD_BLOCK: int := -2
  const BROKEN_PIPE: int := -1

  /** How many bytes a write of `len` bytes moves when the fill level is `fill`;
      a write of at most PIPE_BUF bytes moves all of them or none. */
  function Accepted(len: nat, fill: nat): (n: nat)
    requires fill <= SIZE
    ensures n <= len && fill + n <= SIZE
    ensures len <= PIPE_BUF ==> n == 0 || n == len
  {
    if len <= PIPE_BUF && SIZE - fill < len then 0
    else if len <= SIZE - fill then len else SIZE - fill
  }

  // The ring as one call at a time sees it.

  class Aiwass {
    const buf: array<byte>
    var head: nat
    var tail: nat
    var avail: nat
    var readRefs: nat
    var writeRefs: nat

    ghost predicate Valid()
      reads this
    {
      && buf.Length == SIZE
      && head < SIZE && avail <= SIZE
      && tail == Slot(head, avail, SIZE)
    }

    ghost function Contents(): (s: seq<byte>)
      requires Valid()
      reads this, buf
      ensures |s| == avail
    {
      Window(buf[..], head, avail)
    }

    constructor ()
      ensures Valid() && fresh(buf) && Contents() == [] && readRefs == 1 && writeRefs == 1
    {
      buf := new byte[SIZE](_ => 0);
      head, tail, avail, readRefs, writeRefs := 0, 0, 0, 1, 1;
    }

    method Write(src: seq<byte>) returns (r: int)
      requires Valid()
      modifies buf, this`tail, this`avail
      ensures Valid()
      ensures readRefs == 0 ==> r == BROKEN_PIPE && Contents() == old(Contents())
      ensures readRefs > 0 ==>
                var n := Accepted(|src|, |old(Contents())|);
                && Contents() == old(Contents()) + src[..n]
                && r == (if |old(Contents())| == SIZE || (n == 0 && |src| > 0) then WOULD_BLOCK else n)
    {
      if readRefs == 0 {
        return BROKEN_PIPE;
      }
      var cur := avail;
      if cur == SIZE {
        assert src[..0] == [];
        return WOULD_BLOCK;
      }
      if |src| <= PIPE_BUF && SIZE - cur < |src| {
        assert src[..0] == [];
        return WOULD_BLOCK;
      }
      var n := 0;
      ghost var before := Contents();
      while n < |src| && cur < SIZE
        invariant n <= |src| && cur == avail + n <= SIZE
        invariant tail == Slot(head, cur, SIZE)
        invariant Window(buf[..], head, cur) == before + src[..n]
      {
        Fill(buf[..], head, cur, src[n]);
        ghost var was := buf[..];
        buf[tail] := src[n];
        assert buf[..] == was[tail := src[n]];
        assert src[..n + 1] == src[..n] + [src[n]];
        tail := (tail + 1) % SIZE;
        n, cur := n + 1, cur + 1;
      }
      avail := avail + n;
      return n;
    }

    method Read(len: nat) returns (r: int, dst: seq<byte>)
      requires Valid()
      modifies this`head, this`avail
      ensures Valid()
      ensures dst + Contents() == old(Contents())
      ensures |dst| == if len <= |old(Contents())| then len else |old(Contents())|
      ensures r == if |old(Contents())| > 0 then |dst| else if writeRefs > 0 then WOULD_BLOCK else 0
    {
      hide Window;
      hide Slot;
      var cur := avail;
      dst := [];
      if cur == 0 {
        return (if writeRefs > 0 then WOULD_BLOCK else 0), [];
      }
      var n := 0;
      ghost var before := Contents();
      while n < len && cur > 0
        invariant 0 <= n <= len && |dst| == n && cur >= 0 && cur + n == avail == old(avail)
        invariant head < SIZE && tail == Slot(head, cur, SIZE)
        invariant dst + Window(buf[..], head, cur) == before
      {
        Drain(buf[..], head, cur, dst);
        dst := dst + [buf[head]];
        head := (head + 1) % SIZE;
        n, cur := n + 1, cur - 1;
      }
      avail := avail - n;
      r := n;
    }
  }

  // The ring under fine interleaving: the writer on one core, the reader on
  // another, each step one load of the counter, one byte copied, or one update
  // of the counter.

  /** `cur` is the caller's private copy of the fill level, taken at the load. */
  datatype Writer = WriterIdle | Writing(src: seq<byte>, n: nat, cur: nat)
  datatype Reader = ReaderIdle | Reading(len: nat, n: nat, cur: nat)

  /** `input` lists every byte stored and `visible` how many of them the counter
      has published; `output` lists every byte fetched and `released` how many of
      them have been given back. */
  datatype State = State(buf: seq<byte>, head: nat, tail: nat, avail: int, writer: Writer, reader: Reader,
                         input: seq<byte>, visible: nat, output: seq<byte>, released: nat)

  datatype Action = WriteCall(src: seq<byte>) | WriterStep | ReadCall(len: nat) | ReaderStep

  function Init(): State {
    State(seq(SIZE, _ => 0), 0, 0, 0, WriterIdle, ReaderIdle, [], 0, [], 0)
  }

  predicate Sized(s: State) {
    |s.buf| == SIZE && s.head < SIZE && s.tail < SIZE
  }

  /** The counter is loaded; a refused write ends here, having done nothing. */
  function LoadToWrite(s: State, src: seq<byte>): State {
    if s.avail == SIZE || (|src| <= PIPE_BUF && SIZE - s.avail < |src|) || s.avail < 0 then s
    else s.(writer := Writing(src, 0, s.avail))
  }

  /** Copy one byte, or publish the copied bytes and return. */
  function WriterMoves(s: State): State
    requires Sized(s)
  {
    match s.writer
    case WriterIdle => s
    case Writing(src, n, cur) =>
      if n < |src| && cur < SIZE then
        s.(buf := s.buf[s.tail := src[n]], tail := (s.tail + 1) % SIZE, input := s.input + [src[n]],
           writer := Writing(src, n + 1, cur + 1))
      else s.(avail := s.avail + n, visible := s.visible + n, writer := WriterIdle)
  }

  function LoadToRead(s: State, len: nat): State {
    if s.avail <= 0 then s else s.(reader := Reading(len, 0, s.avail))
  }

  function ReaderMoves(s: State): State
    requires Sized(s)
  {
    match s.reader
    case ReaderIdle => s
    case Reading(len, n, cur) =>
      if n < len && cur > 0 then
        s.(output := s.output + [s.buf[s.head]], head := (s.head + 1) % SIZE, reader := Reading(len, n + 1, cur - 1))
      else s.(avail := s.avail - n, released := s.released + n, reader := ReaderIdle)
  }

  function Step(s: State, a: Action): (s': State)
    requires Sized(s)
    ensures Sized(s')
  {
    match a
    case WriteCall(src) => if s.writer == WriterIdle then LoadToWrite(s, src) else s
    case WriterStep => WriterMoves(s)
    case ReadCall(len) => if s.reader == ReaderIdle then LoadToRead(s, len) else s
    case ReaderStep => ReaderMoves(s)
  }

  function Run(actions: seq<Action>): (s: State)
    ensures Sized(s)
  {
    if actions == [] then Init() else Step(Run(actions[..|actions| - 1]), actions[|actions| - 1])
  }

  function Copied(w: Writer): nat {
    if w.Writing? then w.n else 0
  }

  function Fetched(r: Reader): nat {
    if r.Reading? then r.n else 0
  }

  ghost predicate CountersInv(s: State) {
    && Sized(s)
    && s.avail == s.visible - s.released
    && |s.input| == s.visible + Copied(s.writer)
    && |s.output| == s.released + Fetched(s.reader)
    && s.released <= |s.output| <= s.visible <= |s.input|
    && |s.input| - s.released <= SIZE
    && s.tail == |s.input| % SIZE
    && s.head == |s.output| % SIZE
  }

  /** The writer's copy of the level is never below the truth, the reader's never above. */
  ghost predicate PrivateInv(s: State) {
    && (s.writer.Writing? ==>
          var w := s.writer;
          && w.n <= |w.src| && s.avail + w.n <= w.cur <= SIZE
          && (|w.src| <= PIPE_BUF ==> w.cur + (|w.src| - w.n) <= SIZE)
          && s.visible + w.n == |s.input| && s.input[s.visible..] == w.src[..w.n])
    && (s.reader.Reading? ==> s.reader.n + s.reader.cur <= s.avail && s.reader.n <= s.reader.len)
  }

  /** Bytes not yet fetched are in their slots, and the output is what went in. */
  ghost predicate BytesInv(s: State) {
    && Sized(s)
    && s.output <= s.input
    && (forall i :: |s.output| <= i < |s.input| ==> s.buf[i % SIZE] == s.input[i])
  }

  ghost predicate Inv(s: State) {
    CountersInv(s) && PrivateInv(s) && BytesInv(s)
  }

  lemma DistinctSlots(i: nat, j: nat)
    requires i < j < i + SIZE
    ensures i % SIZE != j % SIZE
  {
  }

  predicate AboutToStore(s: State) {
    s.writer.Writing? && s.writer.n < |s.writer.src| && s.writer.cur < SIZE
  }

  lemma StoreMissesUnread(s: State)
    requires CountersInv(s) && PrivateInv(s) && AboutToStore(s)
    ensures |s.input| - s.released < SIZE
    ensures forall i :: s.released <= i < |s.input| ==> i % SIZE != s.tail
  {
    forall i | s.released <= i < |s.input|
      ensures i % SIZE != s.tail
    {
      DistinctSlots(i, |s.input|);
    }
  }

  lemma StoreKeepsPrivate(s: State)
    requires CountersInv(s) && PrivateInv(s) && AboutToStore(s)
    ensures PrivateInv(WriterMoves(s))
  {
    var s', w := WriterMoves(s), s.writer;
    assert s'.input[s.visible..] == s.input[s.visible..] + [w.src[w.n]];
    assert w.src[..w.n + 1] == w.src[..w.n] + [w.src[w.n]];
  }

  lemma StoreKeepsCounters(s: State)
    requires CountersInv(s) && AboutToStore(s) && |s.input| - s.released < SIZE
    ensures CountersInv(WriterMoves(s))
  {
    assert (s.tail + 1) % SIZE == (|s.input| + 1) % SIZE;
  }

  lemma StoreKeepsBytes(s: State)
    requires CountersInv(s) && BytesInv(s) && AboutToStore(s)
    requires forall i :: s.released <= i < |s.input| ==> i % SIZE != s.tail
    ensures BytesInv(WriterMoves(s))
  {
    var s', w := WriterMoves(s), s.writer;
    forall i | |s'.output| <= i < |s'.input|
      ensures s'.buf[i % SIZE] == s'.input[i]
    {
      if i < |s.input| {
        assert s.buf[i % SIZE] == s.input[i];
      }
    }
  }

  lemma StoreKeeps(s: State)
    requires Inv(s) && AboutToStore(s)
    ensures Inv(WriterMoves(s))
  {
    hide WriterMoves;
    StoreMissesUnread(s);
    StoreKeepsPrivate(s);
    StoreKeepsCounters(s);
    StoreKeepsBytes(s);
  }

  predicate AboutToFetch(s: State) {
    s.reader.Reading? && s.reader.n < s.reader.len && s.reader.cur > 0
  }

  lemma FetchIsNext(s: State)
    requires Inv(s) && AboutToFetch(s)
    ensures |s.output| < s.visible && s.buf[s.head] == s.input[|s.output|]
  {
    assert s.buf[|s.output| % SIZE] == s.input[|s.output|];
  }

  lemma FetchKeepsCounters(s: State)
    requires CountersInv(s) && AboutToFetch(s) && |s.output| < s.visible
    ensures CountersInv(ReaderMoves(s))
  {
    assert (s.head + 1) % SIZE == (|s.output| + 1) % SIZE;
  }

  lemma FetchKeepsBytes(s: State)
    requires BytesInv(s) && AboutToFetch(s) && |s.output| < |s.input| && s.buf[s.head] == s.input[|s.output|]
    ensures BytesInv(ReaderMoves(s))
  {
    assert s.input[..|s.output| + 1] == s.input[..|s.output|] + [s.input[|s.output|]];
  }

  lemma FetchKeeps(s: State)
    requires Inv(s) && AboutToFetch(s)
    ensures Inv(ReaderMoves(s))
    ensures |s.output| < s.visible && s.buf[s.head] == s.input[|s.output|]
  {
    FetchIsNext(s);
    FetchKeepsCounters(s);
    FetchKeepsBytes(s);
    assert PrivateInv(ReaderMoves(s));
    hide ReaderMoves;
    hide PrivateInv;
    hide BytesInv;
  }

  lemma StepKeeps(s: State, a: Action)
    requires Inv(s)
    ensures Inv(Step(s, a))
  {
    match a
    case WriteCall(_) =>
    case WriterStep =>
      if AboutToStore(s) {
        StoreKeeps(s);
      }
    case ReadCall(_) =>
    case ReaderStep =>
      if AboutToFetch(s) {
        FetchKeeps(s);
      }
  }

  lemma {:induction false} RunInv(actions: seq<Action>)
    ensures Inv(Run(actions))
  {
    if actions != [] {
      RunInv(actions[..|actions| - 1]);
      StepKeeps(Run(actions[..|actions| - 1]), actions[|actions| - 1]);
    }
  }

  /** In every interleaving the output is a prefix of what has been published. */
  lemma OutputIsPrefixOfInput(actions: seq<Action>)
    ensures var s := Run(actions);
            s.visible <= |s.input| && s.output <= s.input[..s.visible] && 0 <= s.avail <= SIZE
  {
    RunInv(actions);
  }

  /** No store lands on a byte that has not been read and released. */
  lemma NoUnreadByteOverwritten(actions: seq<Action>)
    ensures var s := Run(actions);
            AboutToStore(s) ==>
              forall i :: s.released <= i < |s.input| ==> i % SIZE != s.tail
  {
    RunInv(actions);
    var s := Run(actions);
    if AboutToStore(s) {
      StoreMissesUnread(s);
    }
  }

  /** What the reader can see grows only when a write publishes; a write of at
      most PIPE_BUF bytes then makes all its bytes visible in that one step. */
  lemma SmallWritesAppearAtOnce(actions: seq<Action>, a: Action)
    ensures var s := Run(actions);
            var s' := Step(s, a);
            && s'.visible <= |s'.input|
            && (s'.visible == s.visible ||
                  (a == WriterStep && s.writer.Writing? && s.writer.n <= |s.writer.src|
                   && s'.input[..s'.visible] == s.input[..s.visible] + s.writer.src[..s.writer.n]
                   && (|s.writer.src| <= PIPE_BUF ==> s.writer.src[..s.writer.n] == s.writer.src)))
  {
    RunInv(actions);
    var s := Run(actions);
    StepKeeps(s, a);
    var s' := Step(s, a);
    if s'.visible != s.visible {
      var w := s.writer;
      assert s'.input[..s'.visible] == s.input[..s.visible] + s.input[s.visible..];
      if |w.src| <= PIPE_BUF {
        assert w.n == |w.src|;
      }
    }
  }
}
