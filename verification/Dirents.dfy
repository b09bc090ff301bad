/** ext2 directory records: how a block of bytes is tiled by them, and what the
    record list of a directory means as a map from names to inodes.
 */
module Dirents {
  import opened Basics

  type Name = s: seq<byte> | |s| < 256 && 0 !in s witness []

  const HEADER: nat := 8
  const MAX_DIRECT: nat := 12

  /** One record: len is its rec_len, ino is 0 when the record is free. */
  datatype Rec = Rec(ino: u32, len: nat, kind: byte, name: Name)

  function Round4(n: nat): (r: nat)
    ensures r % 4 == 0 && n <= r < n + 4
  {
    (n + 3) / 4 * 4
  }

  predicate RecOk(r: Rec) {
    HEADER + |r.name| <= r.len < 0x1_0000 && r.len % 4 == 0
  }

  ghost predicate AllOk(recs: seq<Rec>) {
    forall i :: 0 <= i < |recs| ==> RecOk(recs[i])
  }

  function Total(recs: seq<Rec>): nat {
    if recs == [] then 0 else recs[0].len + Total(recs[1..])
  }

  // What a record list means.

  function MapOf(recs: seq<Rec>): map<Name, u32> {
    if recs == [] then map[]
    else if recs[0].ino == 0 then MapOf(recs[1..])
    else MapOf(recs[1..])[recs[0].name := recs[0].ino]
  }

  /** No two live records carry the same name. */
  predicate Unique(recs: seq<Rec>) {
    recs != [] ==> (recs[0].ino != 0 ==> recs[0].name !in MapOf(recs[1..])) && Unique(recs[1..])
  }

  // What the code does to a record list.

  function Find(recs: seq<Rec>, name: Name): u32 {
    if recs == [] then 0
    else if recs[0].ino != 0 && recs[0].name == name then recs[0].ino
    else Find(recs[1..], name)
  }

  function Need(name: Name): (n: nat)
    ensures n % 4 == 0 && HEADER + |name| <= n
  {
    Round4(HEADER + |name|)
  }

  function Spent(r: Rec): nat {
    if r.ino == 0 then 0 else Need(r.name)
  }

  predicate Roomy(r: Rec, name: Name) {
    r.len - Spent(r) >= Need(name)
  }

  /** The records that take the place of r. */
  function Split(r: Rec, name: Name, ino: u32, kind: byte): seq<Rec>
    requires Roomy(r, name)
  {
    if r.ino == 0 then [Rec(ino, r.len, kind, name)]
    else [r.(len := Spent(r)), Rec(ino, r.len - Spent(r), kind, name)]
  }

  /** First fit in one block. */
  function AddIn(recs: seq<Rec>, name: Name, ino: u32, kind: byte): Option<seq<Rec>> {
    if recs == [] then None
    else if Roomy(recs[0], name) then Some(Split(recs[0], name, ino, kind) + recs[1..])
    else
      match AddIn(recs[1..], name, ino, kind)
      case None => None
      case Some(rest) => Some([recs[0]] + rest)
  }

  /** Removal in one block: a first record is freed in place, any other is folded
      into its predecessor. */
  function RemoveIn(recs: seq<Rec>, name: Name): Option<seq<Rec>> {
    if recs == [] then None
    else if recs[0].ino != 0 && recs[0].name == name then Some([recs[0].(ino := 0)] + recs[1..])
    else FoldIn(recs, name)
  }

  function FoldIn(recs: seq<Rec>, name: Name): Option<seq<Rec>>
    requires recs != []
  {
    if |recs| == 1 then None
    else if recs[1].ino != 0 && recs[1].name == name then
      Some([recs[0].(len := recs[0].len + recs[1].len)] + recs[2..])
    else
      match FoldIn(recs[1..], name)
      case None => None
      case Some(rest) => Some([recs[0]] + rest)
  }

  // One block, as a map.

  lemma {:induction false} FindIsGet(recs: seq<Rec>, name: Name)
    ensures Find(recs, name) == (if name in MapOf(recs) then MapOf(recs)[name] else 0)
    ensures name in MapOf(recs) ==> MapOf(recs)[name] != 0
  {
    if recs != [] {
      FindIsGet(recs[1..], name);
    }
  }

  lemma {:induction false} MapAppend(a: seq<Rec>, b: seq<Rec>)
    ensures MapOf(a + b) == MapOf(b) + MapOf(a)
  {
    if a == [] {
      assert a + b == b;
    } else {
      assert (a + b)[1..] == a[1..] + b;
      MapAppend(a[1..], b);
    }
  }

  lemma {:induction false} UniqueAppend(a: seq<Rec>, b: seq<Rec>)
    ensures Unique(a + b) <==> Unique(a) && Unique(b) && MapOf(a).Keys !! MapOf(b).Keys
  {
    if a == [] {
      assert a + b == b;
    } else {
      assert (a + b)[1..] == a[1..] + b;
      UniqueAppend(a[1..], b);
      MapAppend(a[1..], b);
    }
  }

  lemma {:induction false} SplitTiles(r: Rec, rest: seq<Rec>, name: Name, ino: u32, kind: byte)
    requires RecOk(r) && AllOk(rest) && Roomy(r, name)
    ensures var out := Split(r, name, ino, kind) + rest; AllOk(out) && Total(out) == r.len + Total(rest)
  {
    var out := Split(r, name, ino, kind) + rest;
    if r.ino == 0 {
      assert out[1..] == rest;
    } else {
      assert out[1..][1..] == rest;
    }
  }

  lemma {:induction false} SplitIsInsert(r: Rec, rest: seq<Rec>, name: Name, ino: u32, kind: byte)
    requires ino != 0 && Roomy(r, name) && name !in MapOf([r] + rest)
    ensures var out := Split(r, name, ino, kind) + rest;
            && MapOf(out) == MapOf([r] + rest)[name := ino]
            && (Unique([r] + rest) ==> Unique(out))
  {
    var out := Split(r, name, ino, kind) + rest;
    assert ([r] + rest)[1..] == rest;
    if r.ino == 0 {
      assert out[1..] == rest;
    } else {
      assert out[1..][1..] == rest;
    }
  }

  /** Adding to a block keeps it tiled... */
  lemma {:induction false} AddInTiles(recs: seq<Rec>, name: Name, ino: u32, kind: byte)
    requires AllOk(recs) && AddIn(recs, name, ino, kind).Some?
    ensures var out := AddIn(recs, name, ino, kind).value; AllOk(out) && Total(out) == Total(recs)
  {
    if Roomy(recs[0], name) {
      SplitTiles(recs[0], recs[1..], name, ino, kind);
    } else {
      AddInTiles(recs[1..], name, ino, kind);
      assert AddIn(recs, name, ino, kind).value[1..] == AddIn(recs[1..], name, ino, kind).value;
    }
  }

  /** ... and inserts a fresh name into what it means. */
  lemma {:induction false} AddInIsInsert(recs: seq<Rec>, name: Name, ino: u32, kind: byte)
    requires ino != 0 && AddIn(recs, name, ino, kind).Some? && name !in MapOf(recs)
    ensures var out := AddIn(recs, name, ino, kind).value;
            && MapOf(out) == MapOf(recs)[name := ino]
            && (Unique(recs) ==> Unique(out))
  {
    if Roomy(recs[0], name) {
      assert recs == [recs[0]] + recs[1..];
      SplitIsInsert(recs[0], recs[1..], name, ino, kind);
    } else {
      AddInIsInsert(recs[1..], name, ino, kind);
      assert AddIn(recs, name, ino, kind).value[1..] == AddIn(recs[1..], name, ino, kind).value;
    }
  }

  lemma {:induction false} AddInFailsIff(recs: seq<Rec>, name: Name, ino: u32, kind: byte)
    ensures AddIn(recs, name, ino, kind).None? <==> forall i :: 0 <= i < |recs| ==> !Roomy(recs[i], name)
  {
    if recs != [] {
      AddInFailsIff(recs[1..], name, ino, kind);
      if forall i :: 0 <= i < |recs| ==> !Roomy(recs[i], name) {
        forall i | 0 <= i < |recs[1..]| ensures !Roomy(recs[1..][i], name) {
          assert recs[1..][i] == recs[i + 1];
        }
      } else if !Roomy(recs[0], name) {
        var i :| 0 <= i < |recs| && Roomy(recs[i], name);
        assert recs[1..][i - 1] == recs[i];
      }
    }
  }

  /** Removing from a block: present exactly when the name is mapped, and then deleted. */
  lemma {:induction false} RemoveInIsDelete(recs: seq<Rec>, name: Name)
    requires Unique(recs)
    ensures RemoveIn(recs, name).Some? <==> name in MapOf(recs)
    ensures RemoveIn(recs, name).Some? ==>
              var out := RemoveIn(recs, name).value; MapOf(out) == MapOf(recs) - {name} && Unique(out)
  {
    if recs != [] {
      if recs[0].ino != 0 && recs[0].name == name {
        assert RemoveIn(recs, name).value[1..] == recs[1..];
      } else {
        FoldInIsDelete(recs, name);
      }
    }
  }

  lemma {:induction false} FoldInIsDelete(recs: seq<Rec>, name: Name)
    requires recs != [] && Unique(recs) && !(recs[0].ino != 0 && recs[0].name == name)
    ensures FoldIn(recs, name).Some? <==> name in MapOf(recs)
    ensures FoldIn(recs, name).Some? ==>
              var out := FoldIn(recs, name).value; MapOf(out) == MapOf(recs) - {name} && Unique(out)
  {
    if |recs| > 1 {
      if recs[1].ino != 0 && recs[1].name == name {
        assert FoldIn(recs, name).value[1..] == recs[2..] && recs[1..][1..] == recs[2..];
        assert MapOf(recs[1..]) == MapOf(recs[2..])[name := recs[1].ino];
      } else {
        FoldInIsDelete(recs[1..], name);
        if FoldIn(recs, name).Some? {
          assert FoldIn(recs, name).value[1..] == FoldIn(recs[1..], name).value;
        }
      }
    }
  }

  lemma {:induction false} RemoveInTiles(recs: seq<Rec>, name: Name)
    requires AllOk(recs) && Total(recs) < 0x1_0000 && RemoveIn(recs, name).Some?
    ensures var out := RemoveIn(recs, name).value; AllOk(out) && Total(out) == Total(recs)
  {
    if recs[0].ino != 0 && recs[0].name == name {
      assert RemoveIn(recs, name).value[1..] == recs[1..];
    } else {
      FoldInTiles(recs, name);
    }
  }

  lemma {:induction false} FoldInTiles(recs: seq<Rec>, name: Name)
    requires recs != [] && AllOk(recs) && Total(recs) < 0x1_0000 && FoldIn(recs, name).Some?
    ensures var out := FoldIn(recs, name).value; AllOk(out) && Total(out) == Total(recs)
  {
    if recs[1].ino != 0 && recs[1].name == name {
      var out := FoldIn(recs, name).value;
      assert out[1..] == recs[2..] && recs[1..][1..] == recs[2..];
      assert Total(recs) == recs[0].len + recs[1].len + Total(recs[2..]);
    } else {
      FoldInTiles(recs[1..], name);
      assert FoldIn(recs, name).value[1..] == FoldIn(recs[1..], name).value;
    }
  }

  // The whole directory: its blocks in order.

  type Dir = seq<seq<Rec>>

  function Flat(dir: Dir): seq<Rec> {
    if dir == [] then [] else dir[0] + Flat(dir[1..])
  }

  function Lookup(dir: Dir, name: Name): u32 {
    if dir == [] then 0
    else if Find(dir[0], name) != 0 then Find(dir[0], name)
    else Lookup(dir[1..], name)
  }

  /** The first block with room takes the entry. */
  function AddSlack(dir: Dir, name: Name, ino: u32, kind: byte): Option<Dir> {
    if dir == [] then None else
      match AddIn(dir[0], name, ino, kind)
      case Some(recs) => Some([recs] + dir[1..])
      case None =>
        match AddSlack(dir[1..], name, ino, kind)
        case None => None
        case Some(rest) => Some([dir[0]] + rest)
  }

  /** Slack first; otherwise a new block of one record, while a direct slot and a free block are left. */
  function Add(dir: Dir, name: Name, ino: u32, kind: byte, size: nat, spare: bool): Option<Dir> {
    var slack := AddSlack(dir, name, ino, kind);
    if slack.Some? then slack
    else if spare && |dir| < MAX_DIRECT then Some(dir + [[Rec(ino, size, kind, name)]])
    else None
  }

  function Remove(dir: Dir, name: Name): Option<Dir> {
    if dir == [] then None else
      match RemoveIn(dir[0], name)
      case Some(recs) => Some([recs] + dir[1..])
      case None =>
        match Remove(dir[1..], name)
        case None => None
        case Some(rest) => Some([dir[0]] + rest)
  }

  /** Every block is exactly tiled by well-formed records. */
  ghost predicate Tiled(dir: Dir, size: nat) {
    forall b :: 0 <= b < |dir| ==> AllOk(dir[b]) && Total(dir[b]) == size
  }

  function Entries(dir: Dir): map<Name, u32> {
    MapOf(Flat(dir))
  }

  ghost predicate Good(dir: Dir, size: nat) {
    1024 <= size <= 4096 && size % 4 == 0 && Tiled(dir, size) && Unique(Flat(dir))
  }

  lemma {:induction false} LookupIsGet(dir: Dir, name: Name)
    ensures Lookup(dir, name) == if name in Entries(dir) then Entries(dir)[name] else 0
  {
    if dir != [] {
      FindIsGet(dir[0], name);
      LookupIsGet(dir[1..], name);
      FindIsGet(Flat(dir[1..]), name);
      MapAppend(dir[0], Flat(dir[1..]));
    }
  }

  /** A directory's meaning, block by block. */
  lemma Blocks(dir: Dir)
    requires dir != []
    ensures Entries(dir) == Entries(dir[1..]) + MapOf(dir[0])
    ensures Unique(Flat(dir)) <==>
            Unique(dir[0]) && Unique(Flat(dir[1..])) && MapOf(dir[0]).Keys !! Entries(dir[1..]).Keys
  {
    MapAppend(dir[0], Flat(dir[1..]));
    UniqueAppend(dir[0], Flat(dir[1..]));
  }

  lemma InsertMerged(a: map<Name, u32>, b: map<Name, u32>, name: Name, ino: u32)
    ensures b + a[name := ino] == (b + a)[name := ino]
    ensures name !in a ==> b[name := ino] + a == (b + a)[name := ino]
  {
  }

  lemma DeleteMerged(a: map<Name, u32>, b: map<Name, u32>, name: Name)
    ensures name !in b ==> b + (a - {name}) == (b + a) - {name}
    ensures name !in a ==> (b - {name}) + a == (b + a) - {name}
  {
  }

  lemma {:induction false} AddSlackIsInsert(dir: Dir, name: Name, ino: u32, kind: byte)
    requires ino != 0 && Unique(Flat(dir)) && name !in Entries(dir)
    requires AddSlack(dir, name, ino, kind).Some?
    ensures var out := AddSlack(dir, name, ino, kind).value;
            Unique(Flat(out)) && Entries(out) == Entries(dir)[name := ino]
  {
    var out := AddSlack(dir, name, ino, kind).value;
    Blocks(dir);
    Blocks(out);
    InsertMerged(MapOf(dir[0]), Entries(dir[1..]), name, ino);
    hide MapOf;
    hide Unique;
    hide Flat;
    hide Entries;
    hide AddIn;
    if AddIn(dir[0], name, ino, kind).Some? {
      AddInIsInsert(dir[0], name, ino, kind);
      assert out[1..] == dir[1..];
    } else {
      AddSlackIsInsert(dir[1..], name, ino, kind);
      assert out[1..] == AddSlack(dir[1..], name, ino, kind).value;
    }
  }

  lemma {:induction false} AddSlackTiles(dir: Dir, name: Name, ino: u32, kind: byte, size: nat)
    requires Tiled(dir, size) && AddSlack(dir, name, ino, kind).Some?
    ensures var out := AddSlack(dir, name, ino, kind).value; Tiled(out, size) && |out| == |dir|
  {
    hide AddIn;
    hide AllOk;
    hide Total;
    var out := AddSlack(dir, name, ino, kind).value;
    if AddIn(dir[0], name, ino, kind).Some? {
      AddInTiles(dir[0], name, ino, kind);
      assert out[1..] == dir[1..];
    } else {
      assert Tiled(dir[1..], size);
      AddSlackTiles(dir[1..], name, ino, kind, size);
      assert out[1..] == AddSlack(dir[1..], name, ino, kind).value;
    }
  }

  lemma {:induction false} FlatAppend(a: Dir, b: Dir)
    ensures Flat(a + b) == Flat(a) + Flat(b)
  {
    if a == [] {
      assert a + b == b;
    } else {
      assert (a + b)[1..] == a[1..] + b;
      FlatAppend(a[1..], b);
    }
  }

  lemma {:induction false} NewBlockIsInsert(dir: Dir, name: Name, ino: u32, kind: byte, size: nat)
    requires ino != 0 && Good(dir, size) && name !in Entries(dir)
    ensures var out := dir + [[Rec(ino, size, kind, name)]];
            Good(out, size) && Entries(out) == Entries(dir)[name := ino]
  {
    var r := Rec(ino, size, kind, name);
    var out := dir + [[r]];
    FlatAppend(dir, [[r]]);
    assert Flat([[r]]) == [r] by {
      assert [[r]][1..] == [];
    }
    MapAppend(Flat(dir), [r]);
    UniqueAppend(Flat(dir), [r]);
    assert [r][1..] == [];
    assert MapOf([r]) == map[name := ino];
    assert Total([r]) == size;
  }

  /** Adding a fresh name inserts it and nothing else, and keeps every block tiled. */
  lemma AddIsInsert(dir: Dir, name: Name, ino: u32, kind: byte, size: nat, spare: bool)
    requires ino != 0 && Good(dir, size) && name !in Entries(dir)
    requires Add(dir, name, ino, kind, size, spare).Some?
    ensures var out := Add(dir, name, ino, kind, size, spare).value;
            Good(out, size) && Entries(out) == Entries(dir)[name := ino]
  {
    if AddSlack(dir, name, ino, kind).Some? {
      AddSlackIsInsert(dir, name, ino, kind);
      AddSlackTiles(dir, name, ino, kind, size);
    } else {
      NewBlockIsInsert(dir, name, ino, kind, size);
    }
  }

  ghost predicate NoRoom(dir: Dir, name: Name) {
    forall b, i :: 0 <= b < |dir| && 0 <= i < |dir[b]| ==> !Roomy(dir[b][i], name)
  }

  /** Adding fails exactly when no record has the slack and no block can be appended. */
  lemma AddFailsIff(dir: Dir, name: Name, ino: u32, kind: byte, size: nat, spare: bool)
    ensures Add(dir, name, ino, kind, size, spare).None? <==> NoRoom(dir, name) && (!spare || |dir| >= MAX_DIRECT)
  {
    SlackFailsIff(dir, name, ino, kind);
  }

  lemma {:induction false} SlackFailsIff(dir: Dir, name: Name, ino: u32, kind: byte)
    ensures AddSlack(dir, name, ino, kind).None? <==> NoRoom(dir, name)
  {
    if dir != [] {
      AddInFailsIff(dir[0], name, ino, kind);
      SlackFailsIff(dir[1..], name, ino, kind);
      if NoRoom(dir, name) {
        assert NoRoom(dir[1..], name);
        assert forall i :: 0 <= i < |dir[0]| ==> !Roomy(dir[0][i], name);
      } else {
        var b, i :| 0 <= b < |dir| && 0 <= i < |dir[b]| && Roomy(dir[b][i], name);
        if b > 0 {
          assert dir[1..][b - 1] == dir[b];
        }
      }
    }
  }

  lemma {:induction false} RemoveIsDelete(dir: Dir, name: Name)
    requires Unique(Flat(dir))
    ensures Remove(dir, name).Some? <==> name in Entries(dir)
    ensures Remove(dir, name).Some? ==>
              var out := Remove(dir, name).value; Unique(Flat(out)) && Entries(out) == Entries(dir) - {name}
  {
    if dir != [] {
      Blocks(dir);
      RemoveInIsDelete(dir[0], name);
      RemoveIsDelete(dir[1..], name);
      if Remove(dir, name).Some? {
        var out := Remove(dir, name).value;
        Blocks(out);
        DeleteMerged(MapOf(dir[0]), Entries(dir[1..]), name);
        hide RemoveIn;
        hide MapOf;
        hide Unique;
        hide Flat;
        hide Entries;
        if RemoveIn(dir[0], name).Some? {
          assert out[1..] == dir[1..];
        } else {
          assert out[1..] == Remove(dir[1..], name).value;
        }
      }
    }
  }

  lemma {:induction false} RemoveTiles(dir: Dir, name: Name, size: nat)
    requires size < 0x1_0000 && Tiled(dir, size) && Remove(dir, name).Some?
    ensures var out := Remove(dir, name).value; Tiled(out, size) && |out| == |dir|
  {
    hide RemoveIn;
    hide AllOk;
    hide Total;
    var out := Remove(dir, name).value;
    if RemoveIn(dir[0], name).Some? {
      RemoveInTiles(dir[0], name);
      assert out[1..] == dir[1..];
    } else {
      assert Tiled(dir[1..], size);
      RemoveTiles(dir[1..], name, size);
      assert out[1..] == Remove(dir[1..], name).value;
    }
  }

  // Whole runs against a finite map.

  datatype Event = Insert(name: Name, ino: u32, kind: byte, spare: bool) | Delete(name: Name)

  /** The callers add a name only after looking it up in vain, and with a real inode. */
  function Step(dir: Dir, e: Event, size: nat): Dir {
    match e
    case Insert(name, ino, kind, spare) =>
      if ino == 0 || Lookup(dir, name) != 0 then dir else
        (match Add(dir, name, ino, kind, size, spare) case Some(out) => out case None => dir)
    case Delete(name) => (match Remove(dir, name) case Some(out) => out case None => dir)
  }

  function Run(dir: Dir, events: seq<Event>, size: nat): Dir {
    if events == [] then dir else Step(Run(dir, events[..|events| - 1], size), events[|events| - 1], size)
  }

  /** The same run on a finite map; an insert that found no room is a no-op. */
  function MapRun(dir: Dir, events: seq<Event>, size: nat): map<Name, u32> {
    if events == [] then Entries(dir) else
      var before := events[..|events| - 1];
      var m := MapRun(dir, before, size);
      var at := Run(dir, before, size);
      match events[|events| - 1]
      case Insert(name, ino, kind, spare) =>
        if ino == 0 || name in m || Add(at, name, ino, kind, size, spare).None? then m else m[name := ino]
      case Delete(name) => m - {name}
  }

  lemma StepRefines(dir: Dir, e: Event, size: nat)
    requires Good(dir, size)
    ensures Good(Step(dir, e, size), size)
    ensures Entries(Step(dir, e, size)) ==
            match e
            case Insert(name, ino, kind, spare) =>
              if ino == 0 || name in Entries(dir) || Add(dir, name, ino, kind, size, spare).None? then Entries(dir)
              else Entries(dir)[name := ino]
            case Delete(name) => Entries(dir) - {name}
  {
    match e
    case Insert(name, ino, kind, spare) =>
      LookupIsGet(dir, name);
      FindIsGet(Flat(dir), name);
      if ino != 0 && name !in Entries(dir) && Add(dir, name, ino, kind, size, spare).Some? {
        AddIsInsert(dir, name, ino, kind, size, spare);
      }
    case Delete(name) =>
      RemoveIsDelete(dir, name);
      if Remove(dir, name).Some? {
        RemoveTiles(dir, name, size);
      } else {
        assert Entries(dir) - {name} == Entries(dir);
      }
  }

  /** Over every run a directory is its finite map, for every name looked up, and stays tiled. */
  lemma {:induction false} DirectoryIsMap(dir: Dir, events: seq<Event>, size: nat, name: Name)
    requires Good(dir, size)
    ensures Good(Run(dir, events, size), size) && Entries(Run(dir, events, size)) == MapRun(dir, events, size)
    ensures var m := MapRun(dir, events, size);
            Lookup(Run(dir, events, size), name) == if name in m then m[name] else 0
  {
    if events != [] {
      var before := events[..|events| - 1];
      DirectoryIsMap(dir, before, size, name);
      StepRefines(Run(dir, before, size), events[|events| - 1], size);
    }
    LookupIsGet(Run(dir, events, size), name);
  }

  // rmdir's test: nothing but "." and "..".

  const DOT: Name := [46]
  const DOT_DOT: Name := [46, 46]

  predicate Childless(recs: seq<Rec>) {
    recs != [] ==> (recs[0].ino != 0 ==> recs[0].name in {DOT, DOT_DOT}) && Childless(recs[1..])
  }

  lemma {:induction false} ChildlessIff(recs: seq<Rec>)
    ensures Childless(recs) <==> MapOf(recs).Keys <= {DOT, DOT_DOT}
  {
    if recs != [] {
      ChildlessIff(recs[1..]);
      var m := MapOf(recs[1..]);
      if recs[0].ino != 0 {
        assert MapOf(recs).Keys == m.Keys + {recs[0].name};
      }
    }
  }

  lemma {:induction false} ChildlessAppend(a: seq<Rec>, b: seq<Rec>)
    ensures Childless(a + b) <==> Childless(a) && Childless(b)
  {
    if a == [] {
      assert a + b == b;
    } else {
      assert (a + b)[1..] == a[1..] + b;
      ChildlessAppend(a[1..], b);
    }
  }
}

