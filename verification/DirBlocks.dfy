/** Directory blocks as bytes: the record format, and the scans that look up,
    add and remove an entry in place.
 */
module DirBlocks {
  import opened Basics
  import opened LittleEndian
  import opened Dirents

  function Bytes(r: Rec): (s: seq<byte>)
    requires r.len < 0x1_0000
    ensures |s| == HEADER + |r.name|
  {
    Le32(r.ino) + Le16(r.len) + [|r.name|, r.kind] + r.name
  }

  lemma BytesFields(r: Rec)
    requires r.len < 0x1_0000
    ensures var s := Bytes(r);
            && Rd32(s, 0) == r.ino && Rd16(s, 4) == r.len && s[6] == |r.name| && s[7] == r.kind
            && s[HEADER..] == r.name
  {
    Le32Round(r.ino);
    var s, le := Bytes(r), Le32(r.ino);
    assert s[0] == le[0] && s[1] == le[1] && s[2] == le[2] && s[3] == le[3];
    assert s[4] == Le16(r.len)[0] && s[5] == Le16(r.len)[1];
    hide Le32;
  }

  // A block tiled by records.

  ghost predicate At(blk: seq<byte>, off: nat, r: Rec) {
    && RecOk(r) && off + r.len <= |blk|
    && blk[off..off + HEADER + |r.name|] == Bytes(r)
  }

  /** The bytes from off to end are exactly these records. */
  ghost predicate Part(blk: seq<byte>, off: nat, recs: seq<Rec>, end: nat)
    decreases recs
  {
    if recs == [] then off == end
    else At(blk, off, recs[0]) && Part(blk, off + recs[0].len, recs[1..], end)
  }

  lemma AtFields(blk: seq<byte>, off: nat, r: Rec)
    requires At(blk, off, r)
    ensures Rd32(blk, off) == r.ino && Rd16(blk, off + 4) == r.len
    ensures blk[off + 6] == |r.name| && blk[off + 7] == r.kind
    ensures blk[off + HEADER..off + HEADER + |r.name|] == r.name
  {
    BytesFields(r);
    var s := blk[off..off + HEADER + |r.name|];
    assert forall i :: 0 <= i < HEADER ==> s[i] == blk[off + i];
    assert s[HEADER..] == blk[off + HEADER..off + HEADER + |r.name|];
    hide Bytes;
  }

  lemma {:induction false} PartFacts(blk: seq<byte>, off: nat, recs: seq<Rec>, end: nat)
    requires Part(blk, off, recs, end)
    ensures off + Total(recs) == end && (recs != [] ==> end <= |blk|) && AllOk(recs)
    decreases recs
  {
    if recs != [] {
      PartFacts(blk, off + recs[0].len, recs[1..], end);
    }
  }

  lemma {:induction false} PartFrame(blk: seq<byte>, blk': seq<byte>, off: nat, recs: seq<Rec>, end: nat)
    requires Part(blk, off, recs, end) && off <= end <= |blk| == |blk'|
    requires forall i :: off <= i < end ==> blk'[i] == blk[i]
    ensures Part(blk', off, recs, end)
    decreases recs
  {
    if recs != [] {
      var r := recs[0];
      PartFacts(blk, off + r.len, recs[1..], end);
      assert blk'[off..off + HEADER + |r.name|] == blk[off..off + HEADER + |r.name|];
      PartFrame(blk, blk', off + r.len, recs[1..], end);
    }
  }

  lemma {:induction false} PartAppend(blk: seq<byte>, off: nat, a: seq<Rec>, mid: nat, b: seq<Rec>, end: nat)
    requires Part(blk, off, a, mid) && Part(blk, mid, b, end)
    ensures Part(blk, off, a + b, end)
    decreases a
  {
    if a == [] {
      assert a + b == b;
    } else {
      assert (a + b)[1..] == a[1..] + b;
      PartAppend(blk, off + a[0].len, a[1..], mid, b, end);
    }
  }

  lemma PartOne(blk: seq<byte>, off: nat, r: Rec)
    requires At(blk, off, r)
    ensures Part(blk, off, [r], off + r.len)
  {
    assert [r][1..] == [];
  }

  // Writing fields in place.

  method Put16(a: array<byte>, at: nat, v: nat)
    requires at + 2 <= a.Length && v < 0x1_0000
    modifies a
    ensures a[..] == Splice(old(a[..]), at, Le16(v))
  {
    a[at] := v % 256;
    a[at + 1] := v / 256;
  }

  method Put32(a: array<byte>, at: nat, v: u32)
    requires at + 4 <= a.Length
    modifies a
    ensures a[..] == Splice(old(a[..]), at, Le32(v))
  {
    var lo, hi := v % 65536, v / 65536;
    a[at] := lo % 256;
    a[at + 1] := lo / 256;
    a[at + 2] := hi % 256;
    a[at + 3] := hi / 256;
  }

  method PutRec(a: array<byte>, off: nat, r: Rec)
    requires off + 8 + |r.name| <= a.Length && r.len < 0x1_0000
    modifies a
    ensures a[..] == Splice(old(a[..]), off, Bytes(r))
  {
    hide *;
    ghost var was := a[..];
    PutHeader(a, off, r);
    PutName(a, off + 8, r.name);
    BytesAre(r);
    SpliceOn(was, off, Le32(r.ino) + Le16(r.len) + [|r.name|, r.kind], r.name);
  }

  method PutName(a: array<byte>, at: nat, name: Name)
    requires at + |name| <= a.Length
    modifies a
    ensures a[..] == Splice(old(a[..]), at, name)
  {
    var i := 0;
    while i < |name|
      invariant 0 <= i <= |name|
      invariant forall k :: 0 <= k < i ==> a[at + k] == name[k]
      invariant forall k :: 0 <= k < a.Length && !(at <= k < at + i) ==> a[k] == old(a[k])
    {
      a[at + i] := name[i];
      i := i + 1;
    }
    ghost var want := Splice(old(a[..]), at, name);
    forall k | 0 <= k < a.Length
      ensures a[k] == want[k]
    {
      if at <= k < at + |name| {
        assert a[at + (k - at)] == name[k - at];
      }
    }
  }

  lemma BytesAre(r: Rec)
    requires r.len < 0x1_0000
    ensures Bytes(r) == Le32(r.ino) + Le16(r.len) + [|r.name|, r.kind] + r.name
    ensures |Le32(r.ino) + Le16(r.len) + [|r.name|, r.kind]| == 8 && HEADER == 8
  {
  }

  method PutHeader(a: array<byte>, off: nat, r: Rec)
    requires off + 8 <= a.Length && r.len < 0x1_0000
    modifies a
    ensures a[..] == Splice(old(a[..]), off, Le32(r.ino) + Le16(r.len) + [|r.name|, r.kind])
  {
    hide Le32;
    hide Le16;
    hide Splice;
    ghost var was := a[..];
    Put32(a, off, r.ino);
    Put16(a, off + 4, r.len);
    SpliceOn(was, off, Le32(r.ino), Le16(r.len));
    PutByte(a, off + 6, |r.name|);
    SpliceOn(was, off, Le32(r.ino) + Le16(r.len), [|r.name|]);
    PutByte(a, off + 7, r.kind);
    SpliceOn(was, off, Le32(r.ino) + Le16(r.len) + [|r.name|], [r.kind]);
    assert Le32(r.ino) + Le16(r.len) + [|r.name|] + [r.kind] == Le32(r.ino) + Le16(r.len) + [|r.name|, r.kind];
  }

  method PutByte(a: array<byte>, at: nat, v: byte)
    requires at < a.Length
    modifies a
    ensures a[..] == Splice(old(a[..]), at, [v])
  {
    a[at] := v;
  }

  // Comparing names.

  /** The byte loop of a name comparison. */
  method SameBytes(a: array<byte>, off: nat, nlen: nat, buf: seq<byte>) returns (eq: bool)
    requires off + nlen <= a.Length && nlen <= |buf|
    ensures eq <==> a[off..off + nlen] == buf[..nlen]
  {
    ghost var stored := a[off..off + nlen];
    eq := true;
    var i := 0;
    while i < nlen && eq
      invariant 0 <= i <= nlen && (eq ==> stored[..i] == buf[..i]) && (!eq ==> stored != buf[..nlen])
      decreases eq, nlen - i
    {
      assert stored[i] == a[off + i] && buf[..nlen][i] == buf[i];
      if a[off + i] != buf[i] {
        eq := false;
      } else {
        i := i + 1;
      }
    }
    assert eq ==> stored[..nlen] == stored;
  }

  // What each in-place write does to the records.

  lemma RecWritten(blk: seq<byte>, off: nat, r: Rec)
    requires RecOk(r) && off + r.len <= |blk|
    ensures At(Splice(blk, off, Bytes(r)), off, r)
  {
    SpliceAt(blk, off, Bytes(r));
  }

  lemma LenWritten(blk: seq<byte>, off: nat, r: Rec, len: nat)
    requires At(blk, off, r) && RecOk(r.(len := len)) && off + len <= |blk|
    ensures At(Splice(blk, off + 4, Le16(len)), off, r.(len := len))
  {
    SpliceInside(blk, off, HEADER + |r.name|, 4, Le16(len));
    assert Splice(Bytes(r), 4, Le16(len)) == Bytes(r.(len := len));
  }

  lemma InoWritten(blk: seq<byte>, off: nat, r: Rec)
    requires At(blk, off, r)
    ensures At(Splice(blk, off, Le32(0)), off, r.(ino := 0))
  {
    SpliceInside(blk, off, HEADER + |r.name|, 0, Le32(0));
    assert Splice(Bytes(r), 0, Le32(0)) == Bytes(r.(ino := 0));
  }

  lemma AtKept(blk: seq<byte>, blk': seq<byte>, off: nat, r: Rec)
    requires At(blk, off, r) && |blk'| == |blk|
    requires forall i :: off <= i < off + HEADER + |r.name| ==> blk'[i] == blk[i]
    ensures At(blk', off, r)
  {
    var n := HEADER + |r.name|;
    assert blk'[off..off + n] == blk[off..off + n];
  }

  /** The records that replace a middle stretch, with the rest of the block untouched. */
  lemma Replaced(blk: seq<byte>, blk': seq<byte>, pre: seq<Rec>, off: nat, mid: seq<Rec>, on: nat, post: seq<Rec>)
    requires Part(blk, 0, pre, off) && Part(blk', off, mid, on) && Part(blk, on, post, |blk|)
    requires off <= on <= |blk| == |blk'|
    requires forall i :: 0 <= i < |blk| && !(off <= i < on) ==> blk'[i] == blk[i]
    ensures Part(blk', 0, pre + mid + post, |blk|)
  {
    PartFrame(blk, blk', 0, pre, off);
    PartFrame(blk, blk', on, post, |blk|);
    PartAppend(blk', 0, pre, off, mid, on);
    PartAppend(blk', 0, pre + mid, on, post, |blk|);
  }

  // Scans: what is behind the cursor, and what is ahead.

  function Lift(pre: seq<Rec>, o: Option<seq<Rec>>): Option<seq<Rec>> {
    match o
    case None => None
    case Some(x) => Some(pre + x)
  }

  lemma LiftLift(pre: seq<Rec>, r: Rec, o: Option<seq<Rec>>)
    ensures Lift(pre, Lift([r], o)) == Lift(pre + [r], o)
  {
    if o.Some? {
      assert pre + ([r] + o.value) == pre + [r] + o.value;
    }
  }

  ghost predicate Cursor(blk: seq<byte>, recs: seq<Rec>, pre: seq<Rec>, off: nat, rest: seq<Rec>) {
    recs == pre + rest && Part(blk, 0, pre, off) && Part(blk, off, rest, |blk|)
  }

  lemma CursorEnd(blk: seq<byte>, recs: seq<Rec>, pre: seq<Rec>, off: nat, rest: seq<Rec>)
    requires Cursor(blk, recs, pre, off, rest)
    ensures off <= |blk| && (rest == [] <==> off + 8 > |blk|)
  {
    PartFacts(blk, 0, pre, off);
    PartFacts(blk, off, rest, |blk|);
  }

  /** The fields the scan reads are those of the next record. */
  lemma CursorHere(blk: seq<byte>, recs: seq<Rec>, pre: seq<Rec>, off: nat, rest: seq<Rec>)
    requires Cursor(blk, recs, pre, off, rest) && rest != []
    ensures var r := rest[0];
            && At(blk, off, r) && RecOk(r) && 8 + |r.name| <= r.len && off + r.len <= |blk|
            && Rd32(blk, off) == r.ino && Rd16(blk, off + 4) == r.len && blk[off + 6] == |r.name|
            && blk[off + 8..off + 8 + |r.name|] == r.name
  {
    AtFields(blk, off, rest[0]);
  }

  lemma CursorNext(blk: seq<byte>, recs: seq<Rec>, pre: seq<Rec>, off: nat, rest: seq<Rec>)
    requires Cursor(blk, recs, pre, off, rest) && rest != []
    ensures Cursor(blk, recs, pre + [rest[0]], off + rest[0].len, rest[1..])
  {
    PartOne(blk, off, rest[0]);
    PartAppend(blk, 0, pre, off, [rest[0]], off + rest[0].len);
    assert pre + rest == pre + [rest[0]] + rest[1..];
  }

  lemma CursorStart(blk: seq<byte>, recs: seq<Rec>)
    requires Part(blk, 0, recs, |blk|)
    ensures Cursor(blk, recs, [], 0, recs)
  {
  }

  // Looking up, in a block of any bytes.

  /** The caller's name buffer: the name, its terminator, and whatever is behind. */
  const BUFFER: nat := 256

  predicate Buffered(buf: seq<byte>, name: Name) {
    |buf| == BUFFER && buf[..|name|] == name && buf[|name|] == 0
  }

  /** The scan from `off` on: it stops at a record that does not fit the block. */
  function Scanned(blk: seq<byte>, off: nat, buf: seq<byte>): (r: u32)
    requires |buf| == BUFFER
    decreases |blk| - off
  {
    if off + HEADER > |blk| then 0 else
      var len, nlen := Rd16(blk, off + 4), blk[off + 6];
      if len == 0 || off + HEADER + nlen > |blk| || len < HEADER + nlen then 0
      else if Rd32(blk, off) != 0 && blk[off + HEADER..off + HEADER + nlen] == buf[..nlen] && buf[nlen] == 0
      then Rd32(blk, off)
      else Scanned(blk, off + len, buf)
  }

  function Buffer(name: Name): (buf: seq<byte>)
    ensures Buffered(buf, name)
  {
    name + seq(BUFFER - |name|, _ => 0)
  }

  /** dir_lookup on one block, with its checks of each record. */
  method ScanBlock(a: array<byte>, buf: seq<byte>) returns (ino: u32)
    requires |buf| == BUFFER
    ensures ino == Scanned(a[..], 0, buf)
  {
    hide Rd32;
    hide Rd16;
    var off := 0;
    while off + HEADER <= a.Length
      invariant off >= 0 && Scanned(a[..], 0, buf) == Scanned(a[..], off, buf)
      decreases a.Length - off
    {
      ino := Get32(a, off);
      var len := Get16(a, off + 4);
      var nlen: nat := a[off + 6];
      if len == 0 {
        return 0;
      }
      if off + HEADER + nlen > a.Length || len < HEADER + nlen {
        return 0;
      }
      if ino != 0 {
        var eq := SameBytes(a, off + HEADER, nlen, buf);
        if eq && buf[nlen] == 0 {
          return;
        }
      }
      off := off + len;
    }
    ino := 0;
  }

  /** A record's name is the one in the buffer. */
  lemma NameMatches(name: Name, other: Name, buf: seq<byte>)
    requires Buffered(buf, name)
    ensures (other == buf[..|other|] && buf[|other|] == 0) <==> other == name
  {
    NoTerminator(name, buf);
    if other == buf[..|other|] && buf[|other|] == 0 {
      NoTerminator(other, buf);
    }
  }

  lemma NoTerminator(name: Name, buf: seq<byte>)
    requires |buf| == BUFFER && buf[..|name|] == name
    ensures forall i :: 0 <= i < |name| ==> buf[i] != 0
  {
    forall i | 0 <= i < |name|
      ensures buf[i] != 0
    {
      assert name[i] == buf[..|name|][i] && name[i] in name;
    }
  }

  /** On a block tiled by records the scan is the lookup in the record list. */
  lemma {:induction false} ScannedIsFind(blk: seq<byte>, off: nat, recs: seq<Rec>, name: Name, buf: seq<byte>)
    requires Part(blk, off, recs, |blk|) && off <= |blk| && Buffered(buf, name)
    ensures Scanned(blk, off, buf) == Find(recs, name)
    decreases recs
  {
    hide Bytes;
    PartFacts(blk, off, recs, |blk|);
    if recs != [] {
      var r := recs[0];
      AtFields(blk, off, r);
      NameMatches(name, r.name, buf);
      PartFacts(blk, off + r.len, recs[1..], |blk|);
      ScannedIsFind(blk, off + r.len, recs[1..], name, buf);
      hide Part;
      hide Rd32;
      hide Rd16;
      hide Buffered;
    }
  }

  /** One record that fills the block, behind it whatever was there. */
  function OneRecord(ino: u32, name: Name, bs: nat): (blk: seq<byte>)
    requires HEADER + |name| <= bs < 0x1_0000
    ensures |blk| == bs
  {
    Bytes(Rec(ino, bs, 1, name)) + seq(bs - HEADER - |name|, _ => 0)
  }

  /** Any inode under any name can be written down as file data. */
  lemma OneRecordSpells(ino: u32, name: Name, bs: nat, buf: seq<byte>)
    requires HEADER + |name| <= bs < 0x1_0000 && bs % 4 == 0 && Buffered(buf, name)
    ensures Scanned(OneRecord(ino, name, bs), 0, buf) == ino
  {
    var blk, r := OneRecord(ino, name, bs), Rec(ino, bs, 1, name);
    assert blk[0..HEADER + |name|] == Bytes(r);
    hide Bytes;
    PartOne(blk, 0, r);
    ScannedIsFind(blk, 0, [r], name, buf);
    assert [r][1..] == [];
  }

  /** A block of zeros names nothing. */
  lemma ZerosSpellNothing(blk: seq<byte>, buf: seq<byte>)
    requires |buf| == BUFFER && forall i :: 0 <= i < |blk| ==> blk[i] == 0
    ensures Scanned(blk, 0, buf) == 0
  {
  }

  method Get16(a: array<byte>, at: nat) returns (v: nat)
    requires at + 2 <= a.Length
    ensures v == Rd16(a[..], at)
  {
    v := Join(a[at], a[at + 1], 256);
  }

  method Get32(a: array<byte>, at: nat) returns (v: u32)
    requires at + 4 <= a.Length
    ensures v == Rd32(a[..], at)
  {
    v := Join(Join(a[at], a[at + 1], 256), Join(a[at + 2], a[at + 3], 256), 65536);
  }

  /** The write half of add_dirent, once record r at `off` has the room. */
  method PlaceAt(a: array<byte>, off: nat, e_ino: u32, rec: nat, used: nat, added: Rec, ghost r: Rec)
    requires At(a[..], off, r) && RecOk(r) && off + r.len <= a.Length
    requires e_ino == r.ino && rec == r.len && used == Spent(r) && Roomy(r, added.name)
    requires added.len == rec - used
    modifies a
    ensures Part(a[..], off, Split(r, added.name, added.ino, added.kind), off + r.len)
    ensures forall i :: 0 <= i < a.Length && !(off <= i < off + r.len) ==> a[i] == old(a[i])
  {
    hide Splice;
    hide Bytes;
    hide Le16;
    hide Part;
    ghost var was := a[..];
    if e_ino == 0 {
      PlacedWhole(was, off, added);
      PutRec(a, off, added);
    } else {
      PlacedSplit(was, off, r, added);
      Put16(a, off + 4, used);
      PutRec(a, off + used, added);
    }
  }

  lemma PlacedWhole(blk: seq<byte>, off: nat, added: Rec)
    requires RecOk(added) && off + added.len <= |blk|
    ensures var now := Splice(blk, off, Bytes(added));
            && Part(now, off, [added], off + added.len)
            && forall i :: 0 <= i < |blk| && !(off <= i < off + added.len) ==> now[i] == blk[i]
  {
    SpliceAt(blk, off, Bytes(added));
    RecWritten(blk, off, added);
    PartOne(Splice(blk, off, Bytes(added)), off, added);
  }

  lemma PlacedSplit(blk: seq<byte>, off: nat, r: Rec, added: Rec)
    requires At(blk, off, r) && r.ino != 0 && Roomy(r, added.name) && added.len == r.len - Spent(r)
    ensures var now := Splice(Splice(blk, off + 4, Le16(Spent(r))), off + Spent(r), Bytes(added));
            && Part(now, off, [r.(len := Spent(r)), added], off + r.len)
            && forall i :: 0 <= i < |blk| && !(off <= i < off + r.len) ==> now[i] == blk[i]
  {
    hide Splice;
    hide Bytes;
    hide Le16;
    hide Part;
    var used := Spent(r);
    var mid := Splice(blk, off + 4, Le16(used));
    SpliceAt(blk, off + 4, Le16(used));
    LenWritten(blk, off, r, used);
    var now := Splice(mid, off + used, Bytes(added));
    SpliceAt(mid, off + used, Bytes(added));
    RecWritten(mid, off + used, added);
    var shrunk := r.(len := used);
    AtKept(mid, now, off, shrunk);
    PartOne(now, off, shrunk);
    PartOne(now, off + used, added);
    PartAppend(now, off, [shrunk], off + used, [added], off + r.len);
    assert [shrunk] + [added] == [shrunk, added];
  }

  /** add_dirent on one block. */
  method AddInBlock(a: array<byte>, name: Name, ino: u32, kind: byte, ghost recs: seq<Rec>)
    returns (ok: bool, ghost out: seq<Rec>)
    requires Part(a[..], 0, recs, a.Length)
    modifies a
    ensures AddIn(recs, name, ino, kind) == if ok then Some(out) else None
    ensures if ok then Part(a[..], 0, out, a.Length) else a[..] == old(a[..])
  {
    hide Part;
    hide Cursor;
    hide At;
    hide Rd32;
    hide Rd16;
    ghost var blk := a[..];
    var need := Need(name);
    CursorStart(blk, recs);
    var off := 0;
    ghost var pre, rest := [], recs;
    CursorEnd(blk, recs, pre, off, rest);
    assert Lift([], AddIn(recs, name, ino, kind)) == AddIn(recs, name, ino, kind) by {
      LiftNone(AddIn(recs, name, ino, kind));
    }
    while off + 8 <= a.Length
      invariant 0 <= off <= a.Length && a[..] == blk
      invariant Cursor(blk, recs, pre, off, rest)
      invariant AddIn(recs, name, ino, kind) == Lift(pre, AddIn(rest, name, ino, kind))
    {
      CursorEnd(blk, recs, pre, off, rest);
      CursorHere(blk, recs, pre, off, rest);
      ghost var r := rest[0];
      var e_ino := Get32(a, off);
      var rec := Get16(a, off + 4);
      var nlen: nat := a[off + 6];
      var used := if e_ino == 0 then 0 else Round4(8 + nlen);
      assert used == Spent(r);
      if rec - used >= need {
        PlaceAt(a, off, e_ino, rec, used, Rec(ino, rec - used, kind, name), r);
        ok, out := true, pre + Split(r, name, ino, kind) + rest[1..];
        AddedHere(blk, a[..], recs, pre, off, rest, name, ino, kind);
        return;
      }
      CursorNext(blk, recs, pre, off, rest);
      LiftLift(pre, r, AddIn(rest[1..], name, ino, kind));
      off, pre, rest := off + rec, pre + [r], rest[1..];
      CursorEnd(blk, recs, pre, off, rest);
    }
    CursorEnd(blk, recs, pre, off, rest);
    ok, out := false, [];
  }

  lemma LiftNone(o: Option<seq<Rec>>)
    ensures Lift([], o) == o
  {
    if o.Some? {
      assert [] + o.value == o.value;
    }
  }

  lemma AddedHere(blk: seq<byte>, blk': seq<byte>, recs: seq<Rec>, pre: seq<Rec>, off: nat, rest: seq<Rec>,
                  name: Name, ino: u32, kind: byte)
    requires Cursor(blk, recs, pre, off, rest) && rest != [] && Roomy(rest[0], name) && |blk'| == |blk|
    requires Part(blk', off, Split(rest[0], name, ino, kind), off + rest[0].len)
    requires forall i :: 0 <= i < |blk| && !(off <= i < off + rest[0].len) ==> blk'[i] == blk[i]
    ensures Part(blk', 0, pre + Split(rest[0], name, ino, kind) + rest[1..], |blk|)
    ensures Lift(pre, AddIn(rest, name, ino, kind)) == Some(pre + Split(rest[0], name, ino, kind) + rest[1..])
  {
    hide At;
    hide AddIn;
    hide Rd16;
    hide Rd32;
    hide Split;
    AddHere(rest, name, ino, kind);
    CursorHere(blk, recs, pre, off, rest);
    CursorNext(blk, recs, pre, off, rest);
    hide Part;
    Replaced(blk, blk', pre, off, Split(rest[0], name, ino, kind), off + rest[0].len, rest[1..]);
    LiftAppend(pre, Split(rest[0], name, ino, kind), rest[1..]);
  }

  lemma AddHere(rest: seq<Rec>, name: Name, ino: u32, kind: byte)
    requires rest != [] && Roomy(rest[0], name)
    ensures AddIn(rest, name, ino, kind) == Some(Split(rest[0], name, ino, kind) + rest[1..])
  {
  }

  lemma LiftAppend(pre: seq<Rec>, mid: seq<Rec>, post: seq<Rec>)
    ensures Lift(pre, Some(mid + post)) == Some(pre + mid + post)
  {
    assert pre + (mid + post) == pre + mid + post;
  }

  /** Folding the record r at `off` into its predecessor p at `prev`. */
  lemma FoldedBytes(blk: seq<byte>, pre: seq<Rec>, prev: nat, p: Rec, r: Rec, post: seq<Rec>)
    requires Part(blk, 0, pre, prev) && At(blk, prev, p) && RecOk(r) && p.len + r.len < 0x1_0000
    requires prev + p.len + r.len <= |blk| && Part(blk, prev + p.len + r.len, post, |blk|)
    ensures var len := p.len + r.len;
            Part(Splice(blk, prev + 4, Le16(len)), 0, pre + [p.(len := len)] + post, |blk|)
  {
    hide Splice;
    hide Le16;
    hide Part;
    var len := p.len + r.len;
    var now := Splice(blk, prev + 4, Le16(len));
    LenWritten(blk, prev, p, len);
    PartOne(now, prev, p.(len := len));
    SpliceAt(blk, prev + 4, Le16(len));
    hide At;
    hide RecOk;
    Replaced(blk, now, pre, prev, [p.(len := len)], prev + len, post);
  }

  lemma Folded(blk: seq<byte>, recs: seq<Rec>, name: Name, pre: seq<Rec>, prev: nat, p: Rec, rest: seq<Rec>)
    requires |blk| < 0x1_0000 && Trail(blk, recs, name, pre, prev, p, rest)
    requires rest != [] && rest[0].ino != 0 && rest[0].name == name
    ensures var len := p.len + rest[0].len;
            && prev + len <= |blk|
            && Part(Splice(blk, prev + 4, Le16(len)), 0, pre + [p.(len := len)] + rest[1..], |blk|)
            && RemoveIn(recs, name) == Some(pre + [p.(len := len)] + rest[1..])
  {
    hide Part;
    hide At;
    hide FoldIn;
    hide RemoveIn;
    hide Rd16;
    hide Rd32;
    hide Splice;
    hide Lift;
    var r := rest[0];
    var len := p.len + r.len;
    CursorHere(blk, recs, pre + [p], prev + p.len, rest);
    CursorNext(blk, recs, pre + [p], prev + p.len, rest);
    FoldedBytes(blk, pre, prev, p, r, rest[1..]);
    FoldValue(p, rest, name);
    LiftAppend(pre, [p.(len := len)], rest[1..]);
  }

  lemma FoldValue(p: Rec, rest: seq<Rec>, name: Name)
    requires rest != [] && rest[0].ino != 0 && rest[0].name == name
    ensures FoldIn([p] + rest, name) == Some([p.(len := p.len + rest[0].len)] + rest[1..])
  {
    assert ([p] + rest)[1] == rest[0] && ([p] + rest)[2..] == rest[1..];
  }

  lemma ClearedFirst(blk: seq<byte>, recs: seq<Rec>, name: Name)
    requires Part(blk, 0, recs, |blk|) && recs != [] && recs[0].ino != 0 && recs[0].name == name
    ensures |blk| >= 4 && RemoveIn(recs, name) == Some([recs[0].(ino := 0)] + recs[1..])
    ensures Part(Splice(blk, 0, Le32(0)), 0, [recs[0].(ino := 0)] + recs[1..], |blk|)
  {
    hide Splice;
    hide Le32;
    var r := recs[0];
    assert At(blk, 0, r) && Part(blk, r.len, recs[1..], |blk|);
    hide Part;
    var now := Splice(blk, 0, Le32(0));
    InoWritten(blk, 0, r);
    SpliceAt(blk, 0, Le32(0));
    PartOne(now, 0, r.(ino := 0));
    PartNone(blk);
    Replaced(blk, now, [], 0, [r.(ino := 0)], r.len, recs[1..]);
    assert [] + [r.(ino := 0)] + recs[1..] == [r.(ino := 0)] + recs[1..];
  }

  lemma PartNone(blk: seq<byte>)
    ensures Part(blk, 0, [], 0)
  {
  }

  lemma FoldStep(pre: seq<Rec>, p: Rec, rest: seq<Rec>, name: Name)
    requires rest != [] && !(rest[0].ino != 0 && rest[0].name == name)
    ensures Lift(pre, FoldIn([p] + rest, name)) == Lift(pre + [p], FoldIn([rest[0]] + rest[1..], name))
  {
    assert [rest[0]] + rest[1..] == rest;
    assert ([p] + rest)[1] == rest[0] && ([p] + rest)[1..] == rest;
    LiftLift(pre, p, FoldIn(rest, name));
  }

  /** A removal scan past its first record: p at `prev` is the last one passed. */
  ghost predicate Trail(blk: seq<byte>, recs: seq<Rec>, name: Name, pre: seq<Rec>, prev: nat, p: Rec, rest: seq<Rec>) {
    && Part(blk, 0, pre, prev) && At(blk, prev, p)
    && Cursor(blk, recs, pre + [p], prev + p.len, rest)
    && RemoveIn(recs, name) == Lift(pre, FoldIn([p] + rest, name))
  }

  lemma TrailStart(blk: seq<byte>, recs: seq<Rec>, name: Name)
    requires Part(blk, 0, recs, |blk|) && recs != [] && !(recs[0].ino != 0 && recs[0].name == name)
    ensures Trail(blk, recs, name, [], 0, recs[0], recs[1..])
  {
    CursorStart(blk, recs);
    CursorNext(blk, recs, [], 0, recs);
    assert [] + [recs[0]] == [recs[0]];
    RemoveFolds(blk, recs, name);
  }

  lemma TrailHere(blk: seq<byte>, recs: seq<Rec>, name: Name, pre: seq<Rec>, prev: nat, p: Rec, rest: seq<Rec>)
    requires Trail(blk, recs, name, pre, prev, p, rest)
    ensures prev + p.len <= |blk| && (rest == [] <==> prev + p.len + 8 > |blk|)
    ensures prev + 6 <= |blk| && Rd16(blk, prev + 4) == p.len
    ensures rest != [] ==>
              var r, off := rest[0], prev + p.len;
              At(blk, off, r) && 8 <= r.len && off + r.len <= |blk| && Rd16(blk, off + 4) == r.len
    ensures rest == [] ==> RemoveIn(recs, name) == None
  {
    hide Part;
    hide FoldIn;
    hide RemoveIn;
    hide Rd16;
    hide Rd32;
    CursorEnd(blk, recs, pre + [p], prev + p.len, rest);
    AtFields(blk, prev, p);
    if rest != [] {
      CursorHere(blk, recs, pre + [p], prev + p.len, rest);
    } else {
      FoldLast(pre, p, rest, name);
    }
  }

  lemma TrailNext(blk: seq<byte>, recs: seq<Rec>, name: Name, pre: seq<Rec>, prev: nat, p: Rec, rest: seq<Rec>)
    requires Trail(blk, recs, name, pre, prev, p, rest) && rest != []
    requires !(rest[0].ino != 0 && rest[0].name == name)
    ensures Trail(blk, recs, name, pre + [p], prev + p.len, rest[0], rest[1..])
  {
    hide Part;
    hide At;
    hide FoldIn;
    hide RemoveIn;
    hide Rd16;
    hide Rd32;
    hide Lift;
    CursorHere(blk, recs, pre + [p], prev + p.len, rest);
    CursorNext(blk, recs, pre + [p], prev + p.len, rest);
    FoldStep(pre, p, rest, name);
    Grow(blk, pre, prev, p);
  }

  /** remove_dirent on one block. */
  method RemoveInBlock(a: array<byte>, name: Name, ghost recs: seq<Rec>) returns (ok: bool, ghost out: seq<Rec>)
    requires Part(a[..], 0, recs, a.Length) && a.Length < 0x1_0000
    modifies a
    ensures RemoveIn(recs, name) == if ok then Some(out) else None
    ensures if ok then Part(a[..], 0, out, a.Length) else a[..] == old(a[..])
  {
    hide *;
    ghost var blk := a[..];
    CursorStart(blk, recs);
    CursorEnd(blk, recs, [], 0, recs);
    if a.Length < 8 {
      RemoveNone(recs, name);
      return false, [];
    }
    // The first record of the block has no predecessor.
    CursorHere(blk, recs, [], 0, recs);
    var eq := Matches(a, 0, name, recs[0]);
    if eq {
      ClearedFirst(blk, recs, name);
      Put32(a, 0, 0);
      return true, [recs[0].(ino := 0)] + recs[1..];
    }
    ok, out := FoldInBlock(a, name, recs);
  }

  method FoldInBlock(a: array<byte>, name: Name, ghost recs: seq<Rec>) returns (ok: bool, ghost out: seq<Rec>)
    requires Part(a[..], 0, recs, a.Length) && 8 <= a.Length < 0x1_0000
    requires recs != [] && !(recs[0].ino != 0 && recs[0].name == name)
    modifies a
    ensures RemoveIn(recs, name) == if ok then Some(out) else None
    ensures if ok then Part(a[..], 0, out, a.Length) else a[..] == old(a[..])
  {
    hide *;
    ghost var blk := a[..];
    TrailStart(blk, recs, name);
    ghost var pre: seq<Rec>, p, rest := [], recs[0], recs[1..];
    TrailHere(blk, recs, name, pre, 0, p, rest);
    var prev := 0;
    var off := Get16(a, 4);
    while off + 8 <= a.Length
      invariant 0 <= prev && off == prev + p.len <= a.Length && a[..] == blk
      invariant Trail(blk, recs, name, pre, prev, p, rest)
    {
      TrailHere(blk, recs, name, pre, prev, p, rest);
      var rec := Get16(a, off + 4);
      var eq := Matches(a, off, name, rest[0]);
      if eq {
        Folded(blk, recs, name, pre, prev, p, rest);
        var len := Get16(a, prev + 4);
        Put16(a, prev + 4, len + rec);
        return true, pre + [p.(len := p.len + rest[0].len)] + rest[1..];
      }
      TrailNext(blk, recs, name, pre, prev, p, rest);
      prev, off, pre, p, rest := off, off + rec, pre + [p], rest[0], rest[1..];
      TrailHere(blk, recs, name, pre, prev, p, rest);
    }
    TrailHere(blk, recs, name, pre, prev, p, rest);
    ok, out := false, [];
  }

  lemma RemoveNone(recs: seq<Rec>, name: Name)
    requires recs == []
    ensures RemoveIn(recs, name) == None
  {
  }

  lemma RemoveFolds(blk: seq<byte>, recs: seq<Rec>, name: Name)
    requires recs != [] && !(recs[0].ino != 0 && recs[0].name == name)
    ensures RemoveIn(recs, name) == Lift([], FoldIn([recs[0]] + recs[1..], name)) && Part(blk, 0, [], 0)
  {
    assert [recs[0]] + recs[1..] == recs;
    LiftNone(FoldIn(recs, name));
    PartNone(blk);
  }

  lemma FoldLast(pre: seq<Rec>, p: Rec, rest: seq<Rec>, name: Name)
    requires rest == []
    ensures Lift(pre, FoldIn([p] + rest, name)) == None
  {
  }

  lemma Grow(blk: seq<byte>, pre: seq<Rec>, prev: nat, p: Rec)
    requires Part(blk, 0, pre, prev) && At(blk, prev, p)
    ensures Part(blk, 0, pre + [p], prev + p.len)
  {
    PartOne(blk, prev, p);
    PartAppend(blk, 0, pre, prev, [p], prev + p.len);
  }

  /** Is the record at `off` live and called `name`? */
  method Matches(a: array<byte>, off: nat, name: Name, ghost r: Rec) returns (eq: bool)
    requires At(a[..], off, r)
    ensures eq <==> r.ino != 0 && r.name == name
  {
    AtFields(a[..], off, r);
    var e_ino := Get32(a, off);
    var nlen: nat := a[off + 6];
    eq := e_ino != 0 && nlen == |name|;
    if eq {
      assert a[off + 8..off + 8 + nlen] == a[..][off + HEADER..off + HEADER + nlen];
      eq := SameBytes(a, off + 8, nlen, name);
    }
  }

  // The whole directory: its data blocks, and the scratch buffer they pass through.

  class Directory {
    const scratch: array<byte>
    var blocks: seq<seq<byte>>
    ghost var recs: Dir

    ghost predicate Valid()
      reads this, scratch
    {
      Good(recs, scratch.Length) && AllStored()
    }

    ghost predicate AllStored()
      reads this
    {
      |blocks| == |recs| && forall b :: 0 <= b < |recs| ==> Stored(b)
    }

    /** Block b is exactly the records recs[b]. */
    ghost predicate Stored(b: nat)
      requires b < |recs|
      reads this
    {
      b < |blocks| && |blocks[b]| == scratch.Length && Part(blocks[b], 0, recs[b], scratch.Length)
    }

    /** mkdir's first block: "." and "..", the second filling the rest. */
    constructor (size: nat, ino: u32, parent: u32)
      requires 1024 <= size <= 4096 && size % 4 == 0 && ino != 0 && parent != 0
      ensures Valid() && fresh(scratch) && scratch.Length == size
      ensures Entries(recs) == map[DOT := ino, DOT_DOT := parent]
    {
      scratch := new byte[size](_ => 0);
      new;
      var self, up := Rec(ino, 12, 2, DOT), Rec(parent, size - 12, 2, DOT_DOT);
      ghost var zeroed := scratch[..];
      PutRec(scratch, 0, self);
      ghost var half := scratch[..];
      PutRec(scratch, 12, up);
      FreshBlock(zeroed, self, up);
      FreshMeaning(self, up);
      hide Part;
      blocks, recs := [scratch[..]], [[self, up]];
    }

    method Load(b: nat)
      requires b < |blocks| && |blocks[b]| == scratch.Length
      modifies scratch
      ensures scratch[..] == blocks[b]
    {
      var i := 0;
      while i < scratch.Length
        invariant 0 <= i <= scratch.Length
        invariant scratch[..i] == blocks[b][..i]
      {
        scratch[i] := blocks[b][i];
        i := i + 1;
      }
    }

    method LookupName(name: Name) returns (ino: u32)
      requires Valid()
      modifies scratch
      ensures Valid()
      ensures ino == if name in Entries(recs) then Entries(recs)[name] else 0
    {
      LookupIsGet(recs, name);
      hide Part;
      hide Entries;
      var lbn := 0;
      assert recs[0..] == recs;
      while lbn < |blocks|
        invariant 0 <= lbn <= |blocks| && Valid()
        invariant Lookup(recs, name) == Lookup(recs[lbn..], name)
      {
        assert Stored(lbn);
        Load(lbn);
        ScannedIsFind(scratch[..], 0, recs[lbn], name, Buffer(name));
        ino := ScanBlock(scratch, Buffer(name));
        if ino != 0 {
          return;
        }
        assert recs[lbn..][1..] == recs[lbn + 1..];
        lbn := lbn + 1;
      }
      ino := 0;
    }

    /** dir_is_empty. */
    method IsEmpty() returns (empty: bool)
      requires Valid()
      modifies scratch
      ensures Valid()
      ensures empty <==> Entries(recs).Keys <= {DOT, DOT_DOT}
    {
      ChildlessIff(Flat(recs));
      hide Part;
      hide Good;
      hide Childless;
      hide MapOf;
      var lbn := 0;
      assert recs[0..] == recs;
      while lbn < |blocks|
        invariant 0 <= lbn <= |blocks| && Valid() && recs == old(recs)
        invariant Childless(Flat(recs)) <==> Childless(Flat(recs[lbn..]))
      {
        assert Stored(lbn);
        Load(lbn);
        empty := ChildlessBlock(scratch, recs[lbn]);
        assert recs[lbn..][1..] == recs[lbn + 1..];
        ChildlessAppend(recs[lbn], Flat(recs[lbn + 1..]));
        if !empty {
          return;
        }
        lbn := lbn + 1;
      }
      NothingLeft(recs);
      empty := true;
    }

    /** add_dirent; `spare` says whether alloc_block can supply a block. */
    method AddEntry(name: Name, ino: u32, kind: byte, spare: bool) returns (ok: bool)
      requires Valid() && ino != 0 && name !in Entries(recs)
      modifies this, scratch
      ensures Valid()
      ensures ok <==> Add(old(recs), name, ino, kind, scratch.Length, spare).Some?
      ensures Entries(recs) == if ok then old(Entries(recs))[name := ino] else old(Entries(recs))
    {
      ghost var was := recs;
      if Add(was, name, ino, kind, scratch.Length, spare).Some? {
        AddIsInsert(was, name, ino, kind, scratch.Length, spare);
      }
      hide Entries;
      ok := AddInSlack(name, ino, kind);
      if !ok && spare && |blocks| < MAX_DIRECT {
        AppendBlock(Rec(ino, scratch.Length, kind, name));
        ok := true;
      }
    }

    method AddInSlack(name: Name, ino: u32, kind: byte) returns (ok: bool)
      requires AllStored()
      modifies this, scratch
      ensures AllStored()
      ensures AddSlack(old(recs), name, ino, kind) == if ok then Some(recs) else None
      ensures !ok ==> recs == old(recs)
    {
      hide Part;
      hide AddTrail;
      hide AddSlack;
      hide AddIn;
      AddTrailStart(recs, name, ino, kind);
      var lbn := 0;
      while lbn < |blocks|
        invariant 0 <= lbn <= |blocks| && AllStored() && recs == old(recs)
        invariant AddTrail(recs, name, ino, kind, lbn)
      {
        assert Stored(lbn);
        Load(lbn);
        ghost var out;
        ok, out := AddInBlock(scratch, name, ino, kind, recs[lbn]);
        AddTrailStep(recs, name, ino, kind, lbn);
        if ok {
          StoreBack(lbn, out);
          return;
        }
        lbn := lbn + 1;
      }
      AddTrailEnd(recs, name, ino, kind);
      ok := false;
    }

    /** A fresh directory block holding one record that fills it. */
    method AppendBlock(r: Rec)
      requires Valid() && r.len == scratch.Length && RecOk(r)
      modifies this, scratch
      ensures recs == old(recs) + [[r]]
      ensures AllStored()
    {
      hide Good;
      hide Bytes;
      var i := 0;
      while i < scratch.Length
        invariant 0 <= i <= scratch.Length
        invariant recs == old(recs) && blocks == old(blocks)
      {
        scratch[i] := 0;
        i := i + 1;
      }
      ghost var zeroed := scratch[..];
      PutRec(scratch, 0, r);
      RecWritten(zeroed, 0, r);
      PartOne(scratch[..], 0, r);
      hide Part;
      blocks := blocks + [scratch[..]];
      recs := recs + [[r]];
      forall b | 0 <= b < |recs|
        ensures Stored(b)
      {
        if b < |old(recs)| {
          assert old(Stored(b));
          assert blocks[b] == old(blocks)[b] && recs[b] == old(recs)[b];
        } else {
          assert recs[b] == [r];
        }
      }
    }

    /** remove_dirent. */
    method RemoveEntry(name: Name) returns (ok: bool)
      requires Valid()
      modifies this, scratch
      ensures Valid()
      ensures ok <==> name in old(Entries(recs))
      ensures Entries(recs) == old(Entries(recs)) - {name}
    {
      RemoveIsDelete(recs, name);
      if Remove(recs, name).Some? {
        RemoveTiles(recs, name, scratch.Length);
      }
      hide Entries;
      hide Unique;
      hide Tiled;
      hide Remove;
      ok := RemoveFirst(name);
    }

    method RemoveFirst(name: Name) returns (ok: bool)
      requires AllStored() && scratch.Length < 0x1_0000
      modifies this, scratch
      ensures AllStored()
      ensures Remove(old(recs), name) == if ok then Some(recs) else None
      ensures !ok ==> recs == old(recs)
    {
      hide Part;
      hide RemoveTrail;
      hide Remove;
      hide RemoveIn;
      RemoveTrailStart(recs, name);
      var lbn := 0;
      while lbn < |blocks|
        invariant 0 <= lbn <= |blocks| && AllStored() && recs == old(recs)
        invariant RemoveTrail(recs, name, lbn)
      {
        assert Stored(lbn);
        Load(lbn);
        ghost var out;
        ok, out := RemoveInBlock(scratch, name, recs[lbn]);
        RemoveTrailStep(recs, name, lbn);
        if ok {
          StoreBack(lbn, out);
          return;
        }
        lbn := lbn + 1;
      }
      RemoveTrailEnd(recs, name);
      ok := false;
    }

    /** write_block of the scratch buffer, which now holds the records `out`. */
    method StoreBack(lbn: nat, ghost out: seq<Rec>)
      requires AllStored() && lbn < |recs|
      requires Part(scratch[..], 0, out, scratch.Length)
      modifies this
      ensures recs == old(recs)[lbn := out]
      ensures AllStored()
    {
      hide Part;
      blocks := blocks[lbn := scratch[..]];
      recs := recs[lbn := out];
      forall b | 0 <= b < |recs|
        ensures Stored(b)
      {
        if b != lbn {
          assert old(Stored(b));
          assert blocks[b] == old(blocks)[b] && recs[b] == old(recs)[b];
        }
      }
    }
  }

  lemma NothingLeft(dir: Dir)
    ensures Childless(Flat(dir[|dir|..]))
  {
    assert dir[|dir|..] == [];
  }

  lemma FreshBlock(blk: seq<byte>, self: Rec, up: Rec)
    requires RecOk(self) && RecOk(up) && self.len == 12 && |self.name| == 1 && 12 + up.len == |blk|
    ensures Part(Splice(Splice(blk, 0, Bytes(self)), 12, Bytes(up)), 0, [self, up], |blk|)
  {
    var half := Splice(blk, 0, Bytes(self));
    var now := Splice(half, 12, Bytes(up));
    assert |half| == |now| == |blk|;
    hide *;
    PlacedWhole(blk, 0, self);
    PlacedWhole(half, 12, up);
    PartFrame(half, now, 0, [self], 12);
    PartAppend(now, 0, [self], 12, [up], |blk|);
    assert [self] + [up] == [self, up];
  }

  lemma FreshMeaning(self: Rec, up: Rec)
    requires self.ino != 0 && up.ino != 0 && self.name == DOT && up.name == DOT_DOT
    requires RecOk(self) && RecOk(up)
    requires 1024 <= self.len + up.len <= 4096
    ensures Good([[self, up]], self.len + up.len)
    ensures Entries([[self, up]]) == map[DOT := self.ino, DOT_DOT := up.ino]
  {
    assert [[self, up]][1..] == [] && [self, up] + [] == [self, up];
    assert Flat([[self, up]]) == [self, up];
    assert [self, up][1..] == [up] && [up][1..] == [];
    assert MapOf([up]) == map[DOT_DOT := up.ino];
    assert DOT != DOT_DOT;
    assert Total([up]) == up.len + Total([up][1..]) == up.len;
    assert Total([self, up]) == self.len + Total([self, up][1..]);
  }

  /** dir_is_empty on one block. */
  method ChildlessBlock(a: array<byte>, ghost recs: seq<Rec>) returns (ok: bool)
    requires Part(a[..], 0, recs, a.Length)
    ensures ok <==> Childless(recs)
  {
    hide Part;
    hide Cursor;
    hide At;
    hide Rd32;
    hide Rd16;
    hide RecOk;
    ghost var blk := a[..];
    CursorStart(blk, recs);
    var off := 0;
    ghost var pre, rest := [], recs;
    CursorEnd(blk, recs, pre, off, rest);
    while off + 8 <= a.Length
      invariant 0 <= off <= a.Length
      invariant Cursor(blk, recs, pre, off, rest)
      invariant Childless(recs) <==> Childless(rest)
    {
      CursorEnd(blk, recs, pre, off, rest);
      CursorHere(blk, recs, pre, off, rest);
      var e_ino := Get32(a, off);
      var rec := Get16(a, off + 4);
      var nlen: nat := a[off + 6];
      ghost var name := rest[0].name;
      assert a[off + 8..off + 8 + nlen] == name;
      if e_ino != 0 {
        var dot := nlen == 1 && a[off + 8] == 46;
        var dotdot := nlen == 2 && a[off + 8] == 46 && a[off + 9] == 46;
        assert nlen >= 1 ==> name[0] == a[off + 8];
        assert nlen >= 2 ==> name[1] == a[off + 9];
        assert dot <==> name == DOT;
        assert dotdot <==> name == DOT_DOT;
        if !dot && !dotdot {
          return false;
        }
      }
      CursorNext(blk, recs, pre, off, rest);
      off, pre, rest := off + rec, pre + [rest[0]], rest[1..];
      CursorEnd(blk, recs, pre, off, rest);
    }
    CursorEnd(blk, recs, pre, off, rest);
    ok := true;
  }

  function LiftDir(pre: Dir, o: Option<Dir>): Option<Dir> {
    match o
    case None => None
    case Some(x) => Some(pre + x)
  }

  lemma LiftNoBlock(o: Option<Dir>)
    ensures LiftDir([], o) == o
  {
    if o.Some? {
      assert [] + o.value == o.value;
    }
  }

  lemma LiftBlock(pre: Dir, b: seq<Rec>, o: Option<Dir>)
    ensures LiftDir(pre, LiftDir([b], o)) == LiftDir(pre + [b], o)
  {
    if o.Some? {
      assert pre + ([b] + o.value) == pre + [b] + o.value;
    }
  }

  // Block-by-block scans: the blocks before lbn did not take the entry.

  ghost predicate AddTrail(dir: Dir, name: Name, ino: u32, kind: byte, lbn: nat) {
    lbn <= |dir| && AddSlack(dir, name, ino, kind) == LiftDir(dir[..lbn], AddSlack(dir[lbn..], name, ino, kind))
  }

  lemma AddTrailStart(dir: Dir, name: Name, ino: u32, kind: byte)
    ensures AddTrail(dir, name, ino, kind, 0)
  {
    assert dir[0..] == dir;
    LiftNoBlock(AddSlack(dir, name, ino, kind));
  }

  lemma AddTrailStep(dir: Dir, name: Name, ino: u32, kind: byte, lbn: nat)
    requires AddTrail(dir, name, ino, kind, lbn) && lbn < |dir|
    ensures match AddIn(dir[lbn], name, ino, kind)
            case Some(out) => AddSlack(dir, name, ino, kind) == Some(dir[lbn := out])
            case None => AddTrail(dir, name, ino, kind, lbn + 1)
  {
    hide AddIn;
    assert dir[lbn..][0] == dir[lbn] && dir[lbn..][1..] == dir[lbn + 1..];
    match AddIn(dir[lbn], name, ino, kind)
    case Some(out) =>
      assert dir[lbn := out] == dir[..lbn] + ([out] + dir[lbn + 1..]);
    case None =>
      LiftBlock(dir[..lbn], dir[lbn], AddSlack(dir[lbn + 1..], name, ino, kind));
      assert dir[..lbn] + [dir[lbn]] == dir[..lbn + 1];
  }

  lemma AddTrailEnd(dir: Dir, name: Name, ino: u32, kind: byte)
    requires AddTrail(dir, name, ino, kind, |dir|)
    ensures AddSlack(dir, name, ino, kind) == None
  {
    assert dir[|dir|..] == [];
  }

  ghost predicate RemoveTrail(dir: Dir, name: Name, lbn: nat) {
    lbn <= |dir| && Remove(dir, name) == LiftDir(dir[..lbn], Remove(dir[lbn..], name))
  }

  lemma RemoveTrailStart(dir: Dir, name: Name)
    ensures RemoveTrail(dir, name, 0)
  {
    assert dir[0..] == dir;
    LiftNoBlock(Remove(dir, name));
  }

  lemma RemoveTrailStep(dir: Dir, name: Name, lbn: nat)
    requires RemoveTrail(dir, name, lbn) && lbn < |dir|
    ensures match RemoveIn(dir[lbn], name)
            case Some(out) => Remove(dir, name) == Some(dir[lbn := out])
            case None => RemoveTrail(dir, name, lbn + 1)
  {
    hide RemoveIn;
    assert dir[lbn..][0] == dir[lbn] && dir[lbn..][1..] == dir[lbn + 1..];
    match RemoveIn(dir[lbn], name)
    case Some(out) =>
      assert dir[lbn := out] == dir[..lbn] + ([out] + dir[lbn + 1..]);
    case None =>
      LiftBlock(dir[..lbn], dir[lbn], Remove(dir[lbn + 1..], name));
      assert dir[..lbn] + [dir[lbn]] == dir[..lbn + 1];
  }

  lemma RemoveTrailEnd(dir: Dir, name: Name)
    requires RemoveTrail(dir, name, |dir|)
    ensures Remove(dir, name) == None
  {
    assert dir[|dir|..] == [];
  }
}
