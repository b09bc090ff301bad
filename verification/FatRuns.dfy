/** Whole runs of writes and unlinks on a FAT16 volume, and the runs that lose files. */
module FatRuns {
  import opened Basics
  import opened ShortNames
  import opened Fat16
  import opened FatFiles

  datatype Op = Write(d: nat, leaf: string, buf: seq<byte>) | Remove(d: nat, leaf: string)

  /** What a name reads as after calls that went as `oks` says: the last write of it
      that was not followed by an unlink. */
  function Latest(ops: seq<Op>, oks: seq<bool>, d: nat, leaf: string, before: Option<seq<byte>>): Option<seq<byte>>
    requires |oks| == |ops|
  {
    if ops == [] then before else
      var n := |ops| - 1;
      var op := ops[n];
      var rest := Latest(ops[..n], oks[..n], d, leaf, before);
      if op.d != d || !SameName(op.leaf, leaf) then rest
      else match op
           case Write(_, _, buf) => if oks[n] then Some(buf) else rest
           case Remove(_, _) => None
  }

  // The volume as a ledger.

  /** Free clusters, the files by name, and for each directory its open slots. */
  datatype Ledger = Ledger(vacant: nat, files: imap<(nat, string), File>, open: seq<nat>, roots: seq<bool>, spc: nat)

  predicate InBooks(b: Ledger, op: Op) {
    b.spc > 0 && |b.open| == |b.roots| && op.d < |b.open|
  }

  /** The name needs a slot and its directory has none. */
  predicate Tight(b: Ledger, d: nat, leaf: string)
    requires d < |b.open|
  {
    (d, leaf) !in b.files && b.open[d] == 0
  }

  function Held(b: Ledger, d: nat, leaf: string): nat {
    if (d, leaf) in b.files then b.files[(d, leaf)].clusters else 0
  }

  /** A write has a slot, or a directory that can grow, and clusters enough; an unlink has a file. */
  predicate Succeeds(b: Ledger, op: Op)
    requires InBooks(b, op)
  {
    match op
    case Write(d, leaf, buf) =>
      && !(Tight(b, d, leaf) && b.roots[d])
      && Needed(|buf|, SECTOR * b.spc) + One(Tight(b, d, leaf)) <= b.vacant + Held(b, d, leaf)
    case Remove(d, leaf) => (d, leaf) in b.files
  }

  /** A write that fails after giving up the clusters of the old file. */
  predicate Ruins(b: Ledger, op: Op)
    requires InBooks(b, op)
  {
    op.Write? && !Succeeds(b, op) && Held(b, op.d, op.leaf) > 0
  }

  /** The files after one name, in every spelling of it, was set or taken away. */
  ghost function Posted(files: imap<(nat, string), File>, d: nat, leaf: string, now: Option<File>)
    : imap<(nat, string), File>
  {
    imap k: (nat, string) | if k.0 == d && SameName(leaf, k.1) then now.Some? else k in files ::
      if k.0 == d && SameName(leaf, k.1) then now.value else files[k]
  }

  /** The ledger once a slot was looked for: a directory without one grows by a cluster. */
  function Slotted(b: Ledger, d: nat, leaf: string): Ledger
    requires d < |b.open| == |b.roots|
  {
    if Tight(b, d, leaf) && !b.roots[d] && b.vacant > 0
    then b.(vacant := b.vacant - 1, open := b.open[d := 16 * b.spc])
    else b
  }

  /** What a call that ruins nothing leaves.  A write that fails may have made the directory grow. */
  ghost function After(b: Ledger, op: Op): (r: Ledger)
    requires InBooks(b, op)
    ensures |r.open| == |b.open| && r.roots == b.roots && r.spc == b.spc
  {
    match op
    case Write(d, leaf, buf) =>
      var g, need := Slotted(b, d, leaf), Needed(|buf|, SECTOR * b.spc);
      if !Succeeds(b, op) then g else
        g.(vacant := g.vacant + Held(b, d, leaf) - need,
           files := Posted(b.files, d, leaf, Some(File(buf, need))),
           open := if (d, leaf) in b.files then g.open else g.open[d := g.open[d] - 1])
    case Remove(d, leaf) =>
      if !Succeeds(b, op) then b else
        b.(vacant := b.vacant + Held(b, d, leaf), files := Posted(b.files, d, leaf, None),
           open := b.open[d := b.open[d] + 1])
  }

  /** The ledger after the calls, none of which ruins anything. */
  ghost function Through(b: Ledger, ops: seq<Op>): (r: Ledger)
    requires forall i :: 0 <= i < |ops| ==> InBooks(b, ops[i])
    ensures |r.open| == |b.open| && r.roots == b.roots && r.spc == b.spc
  {
    if ops == [] then b else
      assert InBooks(b, ops[|ops| - 1]);
      After(Through(b, ops[..|ops| - 1]), ops[|ops| - 1])
  }

  ghost function Content(b: Ledger, d: nat, leaf: string): Option<seq<byte>> {
    if (d, leaf) in b.files then Some(b.files[(d, leaf)].content) else None
  }

  /** The spellings of a name go together. */
  ghost predicate Spelled(files: imap<(nat, string), File>) {
    forall d: nat, a: string, b: string :: SameName(a, b) && (d, a) in files ==>
      (d, b) in files && files[(d, b)] == files[(d, a)]
  }

  lemma AfterSpelled(b: Ledger, op: Op)
    requires InBooks(b, op) && Spelled(b.files)
    ensures Spelled(After(b, op).files)
  {
  }

  /** Outcome i of the calls is what the ledger after the ones before says. */
  ghost predicate Foretold(b: Ledger, ops: seq<Op>, oks: seq<bool>, i: nat)
    requires i < |ops| && i < |oks| && forall j :: 0 <= j < |ops| ==> InBooks(b, ops[j])
  {
    assert InBooks(b, ops[i]);
    oks[i] == Succeeds(Through(b, ops[..i]), ops[i]) && !Ruins(Through(b, ops[..i]), ops[i])
  }

  /** By the ledger, call n is a write that gives up an old file and fails. */
  ghost predicate Spoils(b: Ledger, ops: seq<Op>, n: nat)
    requires n < |ops| && forall j :: 0 <= j < |ops| ==> InBooks(b, ops[j])
  {
    assert InBooks(b, ops[n]);
    Ruins(Through(b, ops[..n]), ops[n])
  }

  /** In the ledger, too, a name reads as the last write of it. */
  lemma {:induction false} ThroughLatest(b: Ledger, ops: seq<Op>, oks: seq<bool>, d: nat, leaf: string)
    requires |oks| == |ops| && Spelled(b.files) && forall i :: 0 <= i < |ops| ==> InBooks(b, ops[i])
    requires forall i :: 0 <= i < |ops| ==> Foretold(b, ops, oks, i)
    ensures Spelled(Through(b, ops).files)
    ensures Content(Through(b, ops), d, leaf) == Latest(ops, oks, d, leaf, Content(b, d, leaf))
  {
    if ops != [] {
      var n := |ops| - 1;
      ForetoldTo(b, ops, oks, n);
      ThroughLatest(b, ops[..n], oks[..n], d, leaf);
      AfterSpelled(Through(b, ops[..n]), ops[n]);
      assert Foretold(b, ops, oks, n);
      LastLatest(Through(b, ops[..n]), ops[n], d, leaf);
    }
  }

  lemma ForetoldTo(b: Ledger, ops: seq<Op>, oks: seq<bool>, n: nat)
    requires n <= |ops| && n <= |oks| && forall i :: 0 <= i < |ops| ==> InBooks(b, ops[i])
    requires forall i :: 0 <= i < n ==> Foretold(b, ops, oks, i)
    ensures forall i :: 0 <= i < n ==> Foretold(b, ops[..n], oks[..n], i)
  {
    hide Through;
    hide Succeeds;
    hide Ruins;
    forall i | 0 <= i < n
      ensures Foretold(b, ops[..n], oks[..n], i)
    {
      assert Foretold(b, ops, oks, i) && ops[..n][..i] == ops[..i];
    }
  }

  /** One more outcome that the ledger foretold. */
  lemma ThroughMore(b: Ledger, ops: seq<Op>, oks: seq<bool>, ok: bool)
    requires |oks| < |ops| && forall i :: 0 <= i < |ops| ==> InBooks(b, ops[i])
    requires forall i :: 0 <= i < |oks| ==> Foretold(b, ops, oks, i)
    requires InBooks(Through(b, ops[..|oks|]), ops[|oks|])
    requires ok == Succeeds(Through(b, ops[..|oks|]), ops[|oks|]) && !Ruins(Through(b, ops[..|oks|]), ops[|oks|])
    ensures forall i :: 0 <= i < |oks| + 1 ==> Foretold(b, ops, oks + [ok], i)
    ensures Through(b, ops[..|oks| + 1]) == After(Through(b, ops[..|oks|]), ops[|oks|])
  {
    hide After;
    hide Succeeds;
    hide Ruins;
    var n := |oks|;
    assert ops[..n + 1][..n] == ops[..n];
    forall i | 0 <= i < n + 1
      ensures Foretold(b, ops, oks + [ok], i)
    {
      if i < n {
        assert Foretold(b, ops, oks, i);
      }
    }
  }

  /** What the ledger says of every name, after the calls whose outcomes are known. */
  lemma AllLatest(b: Ledger, ops: seq<Op>, oks: seq<bool>)
    requires |oks| <= |ops| && Spelled(b.files) && forall i :: 0 <= i < |ops| ==> InBooks(b, ops[i])
    requires forall i :: 0 <= i < |oks| ==> Foretold(b, ops, oks, i)
    ensures forall d, leaf ::
              Content(Through(b, ops[..|oks|]), d, leaf) == Latest(ops[..|oks|], oks, d, leaf, Content(b, d, leaf))
  {
    hide Through;
    hide Foretold;
    hide Latest;
    hide Content;
    var n := |oks|;
    ForetoldTo(b, ops, oks, n);
    assert oks[..n] == oks;
    forall d: nat, leaf: string
      ensures Content(Through(b, ops[..n]), d, leaf) == Latest(ops[..n], oks, d, leaf, Content(b, d, leaf))
    {
      ThroughLatest(b, ops[..n], oks, d, leaf);
    }
  }

  lemma LastLatest(b: Ledger, op: Op, d: nat, leaf: string)
    requires InBooks(b, op) && Spelled(b.files)
    ensures Content(After(b, op), d, leaf) ==
            if op.d != d || !SameName(op.leaf, leaf) then Content(b, d, leaf)
            else match op
                 case Write(_, _, buf) => if Succeeds(b, op) then Some(buf) else Content(b, d, leaf)
                 case Remove(_, _) => None
  {
    hide Needed;
    assert SameName(op.leaf, leaf) ==> SameName(leaf, op.leaf);
  }

  // The ledger of a volume.

  function OpenCount(slots: seq<Slot>): nat {
    if slots == [] then 0 else OpenCount(slots[..|slots| - 1]) + One(Open(slots[|slots| - 1]))
  }

  lemma {:induction false} OpenSet(slots: seq<Slot>, k: nat, now: Slot)
    requires k < |slots|
    ensures OpenCount(slots[k := now]) + One(Open(slots[k])) == OpenCount(slots) + One(Open(now))
  {
    var n := |slots| - 1;
    if k < n {
      OpenSet(slots[..n], k, now);
      assert slots[k := now][..n] == slots[..n][k := now];
    } else {
      assert slots[k := now][..n] == slots[..n];
    }
  }

  lemma {:induction false} OpenBlank(slots: seq<Slot>, more: seq<Slot>)
    requires forall i :: 0 <= i < |more| ==> more[i] == Never
    ensures OpenCount(slots + more) == OpenCount(slots) + |more|
  {
    if more == [] {
      assert slots + more == slots;
    } else {
      var n := |more| - 1;
      OpenBlank(slots, more[..n]);
      assert (slots + more)[..|slots + more| - 1] == slots + more[..n];
    }
  }

  lemma {:induction false} NoneOpenIff(slots: seq<Slot>)
    ensures OpenCount(slots) == 0 <==> FirstOpen(slots, 0) == |slots|
  {
    if slots != [] {
      var n := |slots| - 1;
      NoneOpenIff(slots[..n]);
      assert forall i :: 0 <= i < n ==> slots[..n][i] == slots[i];
    }
  }

  ghost function Books(fs: FatFs): Ledger
    requires fs.vol.Sound()
    reads fs, fs.vol
  {
    Ledger(fs.Vacant(),
           imap k: (nat, string) | fs.Holding(k.0, k.1).Some? :: fs.Holding(k.0, k.1).value,
           Opens(fs.dirs), Roots(fs.dirs), fs.vol.spc)
  }

  function Opens(dirs: seq<Dir>): (r: seq<nat>)
    ensures |r| == |dirs| && forall d :: 0 <= d < |dirs| ==> r[d] == OpenCount(dirs[d].slots)
  {
    seq(|dirs|, d requires 0 <= d < |dirs| => OpenCount(dirs[d].slots))
  }

  function Roots(dirs: seq<Dir>): (r: seq<bool>)
    ensures |r| == |dirs| && forall d :: 0 <= d < |dirs| ==> r[d] == dirs[d].root
  {
    seq(|dirs|, d requires 0 <= d < |dirs| => dirs[d].root)
  }

  lemma BooksSpelled(fs: FatFs)
    requires fs.vol.Sound()
    ensures Spelled(Books(fs).files)
  {
    hide SlotReads;
    hide OpenCount;
    hide FreeCount;
    forall d: nat, a: string, b: string | SameName(a, b)
      ensures fs.Holding(d, a) == fs.Holding(d, b)
    {
      if d < |fs.dirs| {
        FindSame(fs.dirs[d].slots, a, b, 0);
      }
    }
    hide ReadsAs;
    hide SameName;
  }

  lemma BooksRead(fs: FatFs)
    requires fs.vol.Sound()
    ensures forall d, leaf :: fs.Reads(d, leaf) == Content(Books(fs), d, leaf)
  {
    hide ReadsAs;
    hide OpenCount;
    hide FreeCount;
  }

  /** Room in the volume is room in its ledger. */
  lemma RoomInBooks(fs: FatFs, d: nat, leaf: string, buf: seq<byte>)
    requires fs.Valid() && d < |fs.dirs| && !fs.Folder(d, leaf)
    ensures InBooks(Books(fs), Write(d, leaf, buf))
    ensures fs.Clusters(d, leaf) == Held(Books(fs), d, leaf)
    ensures fs.Crammed(d, leaf) <==> Tight(Books(fs), d, leaf)
    ensures fs.Holding(d, leaf).Some? <==> FindEntry(fs.dirs[d].slots, leaf, 0) < |fs.dirs[d].slots|
    ensures fs.Holding(d, leaf).Some? <==> (d, leaf) in Books(fs).files
    ensures fs.NoRoom(d, leaf, |buf|) <==> !Succeeds(Books(fs), Write(d, leaf, buf))
    ensures fs.Grows(d, leaf) <==> Tight(Books(fs), d, leaf) && !Books(fs).roots[d] && Books(fs).vacant > 0
  {
    var slots := fs.dirs[d].slots;
    var k := FindEntry(slots, leaf, 0);
    NoneOpenIff(slots);
    if k < |slots| {
      FileOwner(fs.vol.fats[0], fs.vol.data, fs.dirs, fs.chains, d, k, leaf);
    } else {
      MissingReads(fs.vol.data, fs.dirs, fs.chains, d, leaf);
    }
    hide FreeCount;
    hide Needed;
    hide ReadsAs;
    hide Consistent;
    hide FindEntry;
    hide FirstOpen;
    hide OpenCount;
  }

  /** A call on a name that fits its field and is no directory. */
  predicate Sensible(fs: FatFs, op: Op)
    reads fs
  {
    op.d < |fs.dirs| && Exact(op.leaf) && !ReadsErased(op.leaf) && !fs.Folder(op.d, op.leaf)
  }

  /** The calls one after the other.  They end early only at a write that fails after
      giving up an old file; up to there the ledger foretells every outcome, and what
      is left is what the ledger says. */
  method RunAll(fs: FatFs, ops: seq<Op>) returns (oks: seq<bool>)
    requires fs.Valid() && forall i :: 0 <= i < |ops| ==> Sensible(fs, ops[i])
    modifies fs, fs.vol`fats, fs.vol`data
    ensures |oks| <= |ops| && forall i :: 0 <= i < |ops| ==> InBooks(old(Books(fs)), ops[i])
    ensures forall i :: 0 <= i < |oks| ==> Foretold(old(Books(fs)), ops, oks, i)
    ensures |oks| == |ops| ==> fs.Valid() && Books(fs) == Through(old(Books(fs)), ops)
    ensures |oks| == |ops| ==>
              forall d, leaf :: fs.Reads(d, leaf) == Latest(ops, oks, d, leaf, old(fs.Reads(d, leaf)))
    ensures |oks| < |ops| ==>
              && !fs.Valid() && Spoils(old(Books(fs)), ops, |oks|)
              && forall d, leaf :: d != ops[|oks|].d || !SameName(ops[|oks|].leaf, leaf) ==>
                   fs.Reads(d, leaf) == Latest(ops[..|oks|], oks, d, leaf, old(fs.Reads(d, leaf)))
  {
    hide ReadsAs;
    hide Consistent;
    hide SameName;
    hide Exact;
    hide IsFolder;
    hide Latest;
    hide FindEntry;
    hide FreeCount;
    hide Needed;
    hide Foretold;
    hide Through;
    hide After;
    hide Succeeds;
    hide Ruins;
    hide Spelled;
    hide Spoils;
    hide Books;
    hide Content;
    ghost var b := Books(fs);
    BooksSpelled(fs);
    BooksRead(fs);
    BooksFit(fs, ops);
    oks := [];
    StartThrough(b, ops);
    while |oks| < |ops|
      invariant |oks| <= |ops| && fs.Valid() && |fs.dirs| == |old(fs.dirs)|
      invariant forall j :: 0 <= j < |ops| ==> Sensible(fs, ops[j])
      invariant forall i :: 0 <= i < |oks| ==> Foretold(b, ops, oks, i)
      invariant Books(fs) == Through(b, ops[..|oks|])
    {
      assert Sensible(fs, ops[|oks|]);
      BooksRead(fs);
      AllLatest(b, ops, oks);
      var ok, whole := RunOne(fs, ops[|oks|]);
      if !whole {
        SpoilsHere(b, ops, |oks|);
        return;
      }
      ThroughMore(b, ops, oks, ok);
      oks := oks + [ok];
    }
    AllLatest(b, ops, oks);
    BooksRead(fs);
    assert ops[..|ops|] == ops;
  }

  lemma StartThrough(b: Ledger, ops: seq<Op>)
    ensures Through(b, ops[..0]) == b
  {
  }

  lemma SpoilsHere(b: Ledger, ops: seq<Op>, n: nat)
    requires n < |ops| && forall i :: 0 <= i < |ops| ==> InBooks(b, ops[i])
    requires InBooks(Through(b, ops[..n]), ops[n]) && Ruins(Through(b, ops[..n]), ops[n])
    ensures Spoils(b, ops, n)
  {
  }

  lemma BooksFit(fs: FatFs, ops: seq<Op>)
    requires fs.vol.Sound() && forall i :: 0 <= i < |ops| ==> Sensible(fs, ops[i])
    ensures forall i :: 0 <= i < |ops| ==> InBooks(Books(fs), ops[i])
  {
    forall i | 0 <= i < |ops|
      ensures InBooks(Books(fs), ops[i])
    {
      assert Sensible(fs, ops[i]);
    }
  }

  /** One call; `whole` unless a write failed after giving up the old file. */
  method RunOne(fs: FatFs, op: Op) returns (ok: bool, whole: bool)
    requires fs.Valid() && Sensible(fs, op)
    modifies fs, fs.vol`fats, fs.vol`data
    ensures |fs.dirs| == |old(fs.dirs)| && InBooks(old(Books(fs)), op)
    ensures ok <==> Succeeds(old(Books(fs)), op)
    ensures whole <==> fs.Valid()
    ensures whole <==> !Ruins(old(Books(fs)), op)
    ensures whole ==> Books(fs) == After(old(Books(fs)), op)
    ensures whole ==> forall d, leaf :: fs.Folder(d, leaf) == old(fs.Folder(d, leaf))
    ensures !whole ==>
              forall d, leaf :: op.d != d || !SameName(op.leaf, leaf) ==> fs.Reads(d, leaf) == old(fs.Reads(d, leaf))
  {
    hide ReadsAs;
    hide Consistent;
    hide SameName;
    hide Exact;
    hide IsFolder;
    hide FindEntry;
    hide FirstOpen;
    hide FreeCount;
    hide Needed;
    hide Unshadowed;
    hide Stored;
    hide Books;
    hide After;
    hide OneEntry;
    BooksFit(fs, [op]);
    assert InBooks(Books(fs), [op][0]);
    match op
    case Write(d, leaf, buf) =>
      ok, whole := WriteOne(fs, d, leaf, buf);
    case Remove(d, leaf) =>
      ok := RemoveOne(fs, d, leaf);
      whole := true;
  }

  method WriteOne(fs: FatFs, d: nat, leaf: string, buf: seq<byte>) returns (ok: bool, whole: bool)
    requires fs.Valid() && Sensible(fs, Write(d, leaf, buf)) && InBooks(Books(fs), Write(d, leaf, buf))
    modifies fs, fs.vol`fats, fs.vol`data
    ensures |fs.dirs| == |old(fs.dirs)|
    ensures ok <==> Succeeds(old(Books(fs)), Write(d, leaf, buf))
    ensures whole <==> fs.Valid()
    ensures whole <==> !Ruins(old(Books(fs)), Write(d, leaf, buf))
    ensures whole ==> Books(fs) == After(old(Books(fs)), Write(d, leaf, buf))
    ensures whole ==> forall d2, leaf2 :: fs.Folder(d2, leaf2) == old(fs.Folder(d2, leaf2))
    ensures !whole ==>
              forall d2, leaf2 :: d != d2 || !SameName(leaf, leaf2) ==> fs.Reads(d2, leaf2) == old(fs.Reads(d2, leaf2))
  {
    hide After;
    hide Succeeds;
    hide Ruins;
    hide Books;
    hide Look;
    hide Held;
    hide Tight;
    hide Opens;
    hide Roots;
    hide ReadsAs;
    hide Consistent;
    hide SameName;
    hide IsFolder;
    hide FreeCount;
    hide Needed;
    hide FindEntry;
    hide FirstOpen;
    hide Room;
    hide Unshadowed;
    hide Stored;
    hide OneEntry;
    hide ChosenSlot;
    hide Exact;
    ExactUnshadowed(fs.dirs[d].slots, leaf);
    SameAsStored(leaf);
    RoomInBooks(fs, d, leaf, buf);
    BooksShow(fs);
    RoomyInBooks(fs, d, leaf);
    ghost var b, room, dirs := Books(fs), fs.Roomy(d, leaf), fs.dirs;
    var had := fs.HasClusters(d, leaf);
    var r := fs.WriteFile(d, leaf, buf);
    ok := r != -1;
    whole := ok || !had;
    if ok {
      WrittenBooks(fs, b, room, d, leaf, buf);
    } else if whole {
      UnwrittenBooks(fs, b, room, dirs, d, leaf, buf);
    }
    RuinsIff(b, d, leaf, buf);
  }

  method RemoveOne(fs: FatFs, d: nat, leaf: string) returns (ok: bool)
    requires fs.Valid() && Sensible(fs, Remove(d, leaf)) && InBooks(Books(fs), Remove(d, leaf))
    modifies fs, fs.vol`fats, fs.vol`data
    ensures |fs.dirs| == |old(fs.dirs)| && fs.Valid()
    ensures ok <==> Succeeds(old(Books(fs)), Remove(d, leaf))
    ensures Books(fs) == After(old(Books(fs)), Remove(d, leaf))
    ensures forall d2, leaf2 :: fs.Folder(d2, leaf2) == old(fs.Folder(d2, leaf2))
  {
    RoomInBooks(fs, d, leaf, []);
    BooksShow(fs);
    BooksSpelled(fs);
    ghost var b, dirs := Books(fs), fs.dirs;
    hide After;
    hide Succeeds;
    hide Ruins;
    hide Books;
    hide Look;
    hide Held;
    hide Tight;
    hide Opens;
    hide Roots;
    hide ReadsAs;
    hide Consistent;
    hide SameName;
    hide IsFolder;
    hide FreeCount;
    hide Needed;
    hide FindEntry;
    hide FirstOpen;
    hide Spelled;
    ok := fs.Unlink(d, leaf);
    RemovedBooks(fs, b, dirs, d, leaf, ok);
  }

  // What the ledger reads off the directories.

  lemma OpensSet(dirs: seq<Dir>, d: nat, k: nat, now: Slot)
    requires d < |dirs| && k < |dirs[d].slots|
    ensures var dirs' := WithSlot(dirs, d, k, now);
            && Roots(dirs') == Roots(dirs)
            && Opens(dirs)[d] + One(Open(now)) >= One(Open(dirs[d].slots[k]))
            && Opens(dirs') == Opens(dirs)[d := Opens(dirs)[d] + One(Open(now)) - One(Open(dirs[d].slots[k]))]
  {
    OpenSet(dirs[d].slots, k, now);
  }

  lemma OpensEntered(room: seq<Dir>, dirs: seq<Dir>, d: nat, k: nat, leaf: string, size: nat)
    requires OneEntry(room, dirs, d, k, leaf, size) && k == ChosenSlot(room[d].slots, leaf)
    ensures Roots(dirs) == Roots(room)
    ensures var taken := One(FindEntry(room[d].slots, leaf, 0) == |room[d].slots|);
            Opens(room)[d] >= taken && Opens(dirs) == Opens(room)[d := Opens(room)[d] - taken]
  {
    var first: nat :| dirs == WithSlot(room, d, k, Entry(Pack(leaf), false, first, size));
    OpensSet(room, d, k, Entry(Pack(leaf), false, first, size));
    hide OpenCount;
  }

  lemma OpensWider(dirs: seq<Dir>, d: nat, more: seq<Slot>)
    requires d < |dirs| && forall i :: 0 <= i < |more| ==> more[i] == Never
    ensures Roots(Wider(dirs, d, more)) == Roots(dirs)
    ensures Opens(Wider(dirs, d, more)) == Opens(dirs)[d := Opens(dirs)[d] + |more|]
  {
    OpenBlank(dirs[d].slots, more);
    hide OpenCount;
  }

  /** The directories once a slot was found for the name, in the ledger. */
  ghost predicate Room(b: Ledger, room: seq<Dir>, d: nat, leaf: string)
    requires d < |b.open|
  {
    && d < |room| == |b.open| && Roots(room) == b.roots
    && Opens(room) == (if Tight(b, d, leaf) then b.open[d := 16 * b.spc] else b.open)
    && (FindEntry(room[d].slots, leaf, 0) == |room[d].slots| <==> (d, leaf) !in b.files)
  }

  lemma RoomyInBooks(fs: FatFs, d: nat, leaf: string)
    requires fs.Valid() && d < |fs.dirs| && !fs.Folder(d, leaf)
    ensures Room(Books(fs), fs.Roomy(d, leaf), d, leaf)
  {
    hide ReadsAs;
    hide Consistent;
    hide IsFolder;
    hide FreeCount;
    hide Needed;
    hide Succeeds;
    hide Books;
    hide Look;
    hide Opens;
    hide Roots;
    hide FindEntry;
    hide FirstOpen;
    hide Blank;
    hide Room;
    RoomInBooks(fs, d, leaf, []);
    BooksShow(fs);
    if fs.Crammed(d, leaf) {
      Widens(Books(fs), fs.dirs, d, leaf);
    } else {
      Suffices(Books(fs), fs.dirs, d, leaf);
    }
  }

  lemma Widens(b: Ledger, dirs: seq<Dir>, d: nat, leaf: string)
    requires d < |dirs| && b.open == Opens(dirs) && b.roots == Roots(dirs) && Tight(b, d, leaf)
    requires FindEntry(dirs[d].slots, leaf, 0) == |dirs[d].slots|
    ensures Room(b, Wider(dirs, d, Blank(b.spc)), d, leaf)
  {
    OpensWider(dirs, d, Blank(b.spc));
    FindWider(dirs[d].slots, Blank(b.spc), leaf, 0);
    hide FindEntry;
    hide Opens;
    hide Roots;
    hide Blank;
  }

  lemma Suffices(b: Ledger, dirs: seq<Dir>, d: nat, leaf: string)
    requires d < |dirs| && b.open == Opens(dirs) && b.roots == Roots(dirs) && !Tight(b, d, leaf)
    requires FindEntry(dirs[d].slots, leaf, 0) == |dirs[d].slots| <==> (d, leaf) !in b.files
    ensures Room(b, dirs, d, leaf)
  {
  }

  lemma RuinsIff(b: Ledger, d: nat, leaf: string, buf: seq<byte>)
    requires InBooks(b, Write(d, leaf, buf))
    ensures Ruins(b, Write(d, leaf, buf)) <==> !Succeeds(b, Write(d, leaf, buf)) && Held(b, d, leaf) > 0
  {
  }

  lemma WrittenBooks(fs: FatFs, b: Ledger, room: seq<Dir>, d: nat, leaf: string, buf: seq<byte>)
    requires fs.vol.Sound() && InBooks(b, Write(d, leaf, buf)) && b.spc == fs.vol.spc && Room(b, room, d, leaf)
    requires Succeeds(b, Write(d, leaf, buf))
    requires OneEntry(room, fs.dirs, d, ChosenSlot(room[d].slots, leaf), leaf, |buf|)
    requires fs.Vacant() + Needed(|buf|, SECTOR * b.spc) + One(Tight(b, d, leaf)) == b.vacant + Held(b, d, leaf)
    requires forall d2: nat, leaf2: string ::
               fs.Holding(d2, leaf2) == if d2 == d && SameName(leaf, leaf2)
                                        then Some(File(buf, Needed(|buf|, SECTOR * b.spc)))
                                        else Look(b.files, d2, leaf2)
    ensures Books(fs) == After(b, Write(d, leaf, buf))
  {
    hide Look;
    hide ReadsAs;
    hide FreeCount;
    hide FindEntry;
    hide FirstOpen;
    hide Needed;
    hide Books;
    hide Posted;
    hide SameName;
    hide OpenCount;
    hide OneEntry;
    OpensEntered(room, fs.dirs, d, ChosenSlot(room[d].slots, leaf), leaf, |buf|);
    BooksPosted(fs, b.files, d, leaf, Some(File(buf, Needed(|buf|, SECTOR * b.spc))));
  }

  lemma UnwrittenBooks(fs: FatFs, b: Ledger, room: seq<Dir>, dirs: seq<Dir>, d: nat, leaf: string, buf: seq<byte>)
    requires fs.vol.Sound() && InBooks(b, Write(d, leaf, buf)) && b.spc == fs.vol.spc && Room(b, room, d, leaf)
    requires !Succeeds(b, Write(d, leaf, buf)) && Opens(dirs) == b.open && Roots(dirs) == b.roots
    requires var grows := Tight(b, d, leaf) && !b.roots[d] && b.vacant > 0;
             fs.Vacant() == b.vacant - One(grows) && fs.dirs == if grows then room else dirs
    requires forall d2: nat, leaf2: string :: fs.Holding(d2, leaf2) == Look(b.files, d2, leaf2)
    ensures Books(fs) == After(b, Write(d, leaf, buf))
  {
    hide Look;
    hide ReadsAs;
    hide FreeCount;
    hide FindEntry;
    hide Needed;
    hide Books;
    hide Posted;
    hide OpenCount;
    BooksAre(fs, b.files);
  }

  lemma AfterRemove(b: Ledger, d: nat, leaf: string)
    requires InBooks(b, Remove(d, leaf))
    ensures After(b, Remove(d, leaf)) ==
            if (d, leaf) !in b.files then b else
              Ledger(b.vacant + Held(b, d, leaf), Posted(b.files, d, leaf, None), b.open[d := b.open[d] + 1],
                     b.roots, b.spc)
  {
  }

  lemma MatchesEntry(slot: Slot, leaf: string)
    requires Matches(slot, leaf)
    ensures !Open(slot)
  {
  }

  lemma RemovedBooks(fs: FatFs, b: Ledger, dirs: seq<Dir>, d: nat, leaf: string, ok: bool)
    requires fs.vol.Sound() && InBooks(b, Remove(d, leaf)) && b.spc == fs.vol.spc && Spelled(b.files)
    requires d < |dirs| && Opens(dirs) == b.open && Roots(dirs) == b.roots && (ok <==> (d, leaf) in b.files)
    requires fs.Vacant() == b.vacant + Held(b, d, leaf)
    requires !ok ==> fs.dirs == dirs
    requires ok ==>
               var k := FindEntry(dirs[d].slots, leaf, 0);
               k < |dirs[d].slots| && fs.dirs == WithSlot(dirs, d, k, Deleted)
    requires forall d2: nat, leaf2: string ::
               fs.Holding(d2, leaf2) == if d2 == d && SameName(leaf, leaf2) then None else Look(b.files, d2, leaf2)
    ensures Books(fs) == After(b, Remove(d, leaf)) && (ok <==> Succeeds(b, Remove(d, leaf)))
  {
    hide Look;
    hide ReadsAs;
    hide FreeCount;
    hide Books;
    hide Posted;
    hide Spelled;
    hide SameName;
    hide OpenCount;
    hide Opens;
    hide Roots;
    hide After;
    hide Matches;
    PostedNothing(b.files, d, leaf);
    var k := FindEntry(dirs[d].slots, leaf, 0);
    assert ok ==> !Open(dirs[d].slots[k]) by {
      if ok {
        assert Matches(dirs[d].slots[k], leaf);
        MatchesEntry(dirs[d].slots[k], leaf);
      }
    }
    hide FindEntry;
    AfterRemove(b, d, leaf);
    if ok {
      OpensSet(dirs, d, k, Deleted);
    }
    hide *;
    BooksPosted(fs, b.files, d, leaf, None);
  }

  function Look(files: imap<(nat, string), File>, d: nat, leaf: string): Option<File> {
    if (d, leaf) in files then Some(files[(d, leaf)]) else None
  }

  lemma BooksShow(fs: FatFs)
    requires fs.vol.Sound()
    ensures forall d: nat, leaf: string :: fs.Holding(d, leaf) == Look(Books(fs).files, d, leaf)
    ensures Books(fs) == Ledger(fs.Vacant(), Books(fs).files, Opens(fs.dirs), Roots(fs.dirs), fs.vol.spc)
  {
    hide ReadsAs;
    hide FreeCount;
    hide OpenCount;
  }

  lemma BooksAre(fs: FatFs, files: imap<(nat, string), File>)
    requires fs.vol.Sound() && forall d: nat, leaf: string :: fs.Holding(d, leaf) == Look(files, d, leaf)
    ensures Books(fs) == Ledger(fs.Vacant(), files, Opens(fs.dirs), Roots(fs.dirs), fs.vol.spc)
  {
    hide ReadsAs;
    hide FreeCount;
    hide OpenCount;
    forall k: (nat, string)
      ensures fs.Holding(k.0, k.1) == if k in files then Some(files[k]) else None
    {
      assert k == (k.0, k.1);
    }
  }

  /** Taking away a name that is not there. */
  lemma PostedNothing(files: imap<(nat, string), File>, d: nat, leaf: string)
    requires Spelled(files)
    ensures (d, leaf) !in files ==> Posted(files, d, leaf, None) == files
  {
    if (d, leaf) !in files {
      forall k: (nat, string) | k in files && k.0 == d
        ensures !SameName(leaf, k.1)
      {
        assert k == (d, k.1);
        if SameName(leaf, k.1) {
          assert SameName(k.1, leaf);
        }
      }
    }
  }

  /** One name was set or taken away, the others hold what they held. */
  lemma BooksPosted(fs: FatFs, files: imap<(nat, string), File>, d: nat, leaf: string, now: Option<File>)
    requires fs.vol.Sound()
    requires forall d2: nat, leaf2: string ::
               fs.Holding(d2, leaf2) == if d2 == d && SameName(leaf, leaf2) then now else Look(files, d2, leaf2)
    ensures Books(fs) ==
            Ledger(fs.Vacant(), Posted(files, d, leaf, now), Opens(fs.dirs), Roots(fs.dirs), fs.vol.spc)
  {
    hide ReadsAs;
    hide FreeCount;
    hide OpenCount;
    hide SameName;
    hide Opens;
    hide Roots;
    BooksAre(fs, Posted(files, d, leaf, now));
  }

  lemma SameAsStored(leaf: string)
    requires Exact(leaf)
    ensures forall leaf2 :: SameName(Stored(leaf), leaf2) <==> SameName(leaf, leaf2)
  {
    MatchIff(leaf);
  }

  // Runs that lose files.

  /** A volume whose one cluster is taken by the file A. */
  method OneClusterTaken() returns (fs: FatFs)
    ensures fresh(fs) && fresh(fs.vol) && fs.Valid() && |fs.dirs| == 1 && fs.vol.spc == 1 && !fs.Folder(0, "A")
    ensures fs.Vacant() == 0 && fs.Clusters(0, "A") == 1
  {
    var vol := new Volume(1, 3);
    fs := new FatFs(vol, 16);
    assert fs.Vacant() == 1;
    ExactA();
    NeededIs(1, 512, 1);
    SameAsStored("A");
    assert !fs.Crammed(0, "A");
    ExactUnshadowed(fs.dirs[0].slots, "A");
    hide *;
    var r := fs.WriteFile(0, "A", [7]);
    SameClusters(fs, 0, Stored("A"), "A");
  }

  /** Then a write to A that needs two clusters: the old file is given up first, and no
      reading of the table makes sense of the entry that is left. */
  method FailedOverwriteRuins(buf: seq<byte>) returns (fs: FatFs, r: int)
    requires |buf| > 512
    ensures r == -1 && fs.vol.Sound()
    ensures forall chains :: !Consistent(fs.vol.fats[0], fs.vol.data, fs.dirs, chains, {})
  {
    fs := OneClusterTaken();
    ExactA();
    NeededMore(|buf|, 512, 1);
    hide ReadsAs;
    hide Consistent;
    hide SameName;
    hide Exact;
    hide IsFolder;
    hide FreeCount;
    hide Needed;
    hide Stored;
    hide Unshadowed;
    hide FindEntry;
    hide FirstOpen;
    r := fs.WriteFile(0, "A", buf);
  }

  lemma ExactA()
    ensures Exact("A") && !ReadsErased("A")
  {
    FindAt("A", '.', 0, 1);
  }

  lemma SameClusters(fs: FatFs, d: nat, a: string, b: string)
    requires SameName(a, b)
    ensures fs.Clusters(d, a) == fs.Clusters(d, b)
  {
    if d < |fs.dirs| {
      FindSame(fs.dirs[d].slots, a, b, 0);
    }
  }

  const LONG: string := "longfilename"

  /** A name that does not fit its field reads back under the cut name only. */
  method LongNameOnce(vol: Volume, buf: seq<byte>) returns (fs: FatFs, r: int)
    requires vol.Sound() && Needed(|buf|, SECTOR * vol.spc) <= FreeCount(vol.fats[0])
    modifies vol`fats, vol`data
    ensures fresh(fs) && fs.vol == vol && fs.Valid() && r == |buf| && |fs.dirs| == 1 && !fs.Folder(0, LONG)
    ensures fs.Reads(0, "LONGFILE") == Some(buf) && fs.Reads(0, LONG) == None
    ensures FirstOpen(fs.dirs[0].slots, 0) < |fs.dirs[0].slots|
    ensures FreeCount(vol.fats[0]) == FreeCount(old(vol.fats)[0]) - Needed(|buf|, SECTOR * vol.spc)
  {
    fs := new FatFs(vol, 16);
    assert !fs.Crammed(0, LONG) && ChosenSlot(fs.dirs[0].slots, LONG) == 0;
    assert Unshadowed(fs.dirs[0].slots, LONG);
    CutName();
    ghost var slots := fs.dirs[0].slots;
    hide ReadsAs;
    hide Consistent;
    hide SameName;
    hide IsFolder;
    hide FreeCount;
    hide Needed;
    hide Stored;
    hide Unshadowed;
    hide FindEntry;
    r := fs.WriteFile(0, LONG, buf);
    assert fs.dirs[0].slots[1] == Never;
  }

  lemma CutName()
    ensures Stored(LONG) == "LONGFILE" && !ReadsErased(LONG) && SameName("LONGFILE", "LONGFILE")
    ensures SameName(LONG, LONG) && !SameName("LONGFILE", LONG)
  {
    LongNameIsCut();
    FoundAgainIff(LONG);
  }

  /** An entry of the cut name is in the way of writing the name again. */
  lemma Shadowed(fs: FatFs)
    requires |fs.dirs| == 1 && fs.Reads(0, "LONGFILE").Some? && fs.Reads(0, LONG) == None
    ensures !Unshadowed(fs.dirs[0].slots, LONG)
  {
    CutName();
    hide Concat;
  }

  /** Written twice it leaves two entries of the cut name. */
  method LongNameTwice(vol: Volume, one: seq<byte>, two: seq<byte>) returns (fs: FatFs, r: int)
    requires vol.Sound()
    requires Needed(|one|, SECTOR * vol.spc) + Needed(|two|, SECTOR * vol.spc) <= FreeCount(vol.fats[0])
    modifies vol`fats, vol`data
    ensures r == |two| && !fs.Valid()
  {
    fs, r := LongNameOnce(vol, one);
    Shadowed(fs);
    CutName();
    hide ReadsAs;
    hide Consistent;
    hide SameName;
    hide IsFolder;
    hide FreeCount;
    hide Needed;
    hide Stored;
    hide Unshadowed;
    hide FindEntry;
    hide FirstOpen;
    r := fs.WriteFile(0, LONG, two);
  }
}
