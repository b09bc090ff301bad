/** Files by name on a FAT16 volume: directory slots, and whole-file write, read
    and unlink as updates of what each name reads as.
 */
module FatFiles {
  import opened Basics
  import opened ShortNames
  import opened Fat16

  type Raw = s: string | |s| == 11 witness "           "

  /** A directory slot: never used, deleted, a label or long-name part, or an entry. */
  datatype Slot = Never | Deleted | Skipped | Entry(raw: Raw, isDir: bool, first: nat, size: nat)

  /** A directory: the fixed root, or a subdirectory that starts at a cluster. */
  datatype Dir = Dir(root: bool, cluster: nat, slots: seq<Slot>)

  /** A file as its name shows it: its bytes, and how many clusters hold them. */
  datatype File = File(content: seq<byte>, clusters: nat)

  predicate Matches(slot: Slot, leaf: string) {
    slot.Entry? && SameName(Shown(slot.raw), leaf)
  }

  /** dir_find: the first matching slot before the end mark, or the length. */
  function FindEntry(slots: seq<Slot>, leaf: string, i: nat): (r: nat)
    requires i <= |slots|
    ensures i <= r <= |slots| && (r < |slots| ==> Matches(slots[r], leaf))
    decreases |slots| - i
  {
    if i == |slots| || slots[i] == Never then |slots|
    else if Matches(slots[i], leaf) then i
    else FindEntry(slots, leaf, i + 1)
  }

  predicate Open(slot: Slot) {
    slot == Never || slot == Deleted
  }

  /** dir_free_slot's scan: the first slot that can be reused, or the length. */
  function FirstOpen(slots: seq<Slot>, i: nat): (r: nat)
    requires i <= |slots|
    ensures i <= r <= |slots| && (r < |slots| ==> Open(slots[r]))
    ensures forall k :: i <= k < r ==> !Open(slots[k])
    decreases |slots| - i
  {
    if i < |slots| && !Open(slots[i]) then FirstOpen(slots, i + 1) else i
  }

  /** Behind a never-used slot all are never-used. */
  ghost predicate Tidy(slots: seq<Slot>) {
    forall i, j :: 0 <= i < j < |slots| && slots[i] == Never ==> slots[j] == Never
  }

  /** No two entries show the same name. */
  ghost predicate Distinct(slots: seq<Slot>) {
    forall i, j :: 0 <= i < j < |slots| && slots[i].Entry? && slots[j].Entry? ==>
      !SameName(Shown(slots[i].raw), Shown(slots[j].raw))
  }

  ghost predicate Orderly(slots: seq<Slot>) {
    Tidy(slots) && Distinct(slots)
  }

  predicate Live(dirs: seq<Dir>, o: Owner) {
    match o
    case OfFile(d, k) => d < |dirs| && k < |dirs[d].slots| && dirs[d].slots[k].Entry? && !dirs[d].slots[k].isDir
    case OfDir(d) => d < |dirs| && !dirs[d].root
  }

  /** The owner's chain is where its entry says, and long enough. */
  ghost predicate OwnerOk(data: seq<seq<byte>>, dirs: seq<Dir>, chains: map<Owner, seq<nat>>, o: Owner)
    requires Live(dirs, o)
  {
    && o in chains && InTable(|data|, chains[o])
    && match o
       case OfFile(d, k) =>
         dirs[d].slots[k].first == Head(chains[o]) && dirs[d].slots[k].size <= |Concat(data, chains[o])|
       case OfDir(d) => chains[o] != [] && dirs[d].cluster == Head(chains[o])
  }

  /** Chains are sound and disjoint, and belong to exactly the live owners outside `hole`. */
  ghost predicate Consistent(fat: Table, data: seq<seq<byte>>, dirs: seq<Dir>, chains: map<Owner, seq<nat>>,
                             hole: set<Owner>) {
    && |data| == |fat| && ChainsOk(fat, chains)
    && (forall o :: o in chains ==> o !in hole && Live(dirs, o))
    && (forall o :: Live(dirs, o) && o !in hole ==> OwnerOk(data, dirs, chains, o))
    && (forall d :: 0 <= d < |dirs| ==> Orderly(dirs[d].slots))
  }

  /** What a directory slot reads as; nothing unless it is a file with a chain long enough. */
  ghost function SlotReads(data: seq<seq<byte>>, dirs: seq<Dir>, chains: map<Owner, seq<nat>>, d: nat,
                           k: nat): Option<File> {
    var o := OfFile(d, k);
    if !Live(dirs, o) || o !in chains || !InTable(|data|, chains[o])
       || dirs[d].slots[k].size > |Concat(data, chains[o])|
    then None else Some(File(Concat(data, chains[o])[..dirs[d].slots[k].size], |chains[o]|))
  }

  /** What a name in a directory reads as. */
  ghost function ReadsAs(data: seq<seq<byte>>, dirs: seq<Dir>, chains: map<Owner, seq<nat>>, d: nat,
                         leaf: string): Option<File> {
    if d >= |dirs| then None else SlotReads(data, dirs, chains, d, FindEntry(dirs[d].slots, leaf, 0))
  }

  // Looking names up after a slot was rewritten.

  lemma {:induction false} FindReaches(slots: seq<Slot>, leaf: string, i: nat, k: nat)
    requires i <= k < |slots| && Matches(slots[k], leaf) && Tidy(slots)
    ensures FindEntry(slots, leaf, i) <= k
    decreases k - i
  {
    hide Matches;
    if slots[i] == Never && i < k {
      assert slots[k] == Never;
      NotEntry(slots[k], leaf);
      assert false;
    } else if slots[i] == Never {
      NotEntry(slots[k], leaf);
      assert false;
    } else if i < k && !Matches(slots[i], leaf) {
      FindReaches(slots, leaf, i + 1, k);
    }
  }

  /** A lookup finds the one entry of that name. */
  lemma FindIs(slots: seq<Slot>, leaf: string, k: nat)
    requires Orderly(slots) && k < |slots| && Matches(slots[k], leaf)
    ensures FindEntry(slots, leaf, 0) == k
  {
    FindReaches(slots, leaf, 0, k);
  }

  /** After slot k was rewritten, lookups give k for the new name, nothing for
      the old one, and for any other what they gave before. */
  lemma FindAfter(slots: seq<Slot>, k: nat, now: Slot, leaf: string)
    requires k < |slots| && Orderly(slots) && Orderly(slots[k := now])
    ensures FindEntry(slots[k := now], leaf, 0) ==
            if Matches(now, leaf) then k
            else if FindEntry(slots, leaf, 0) == k then |slots|
            else FindEntry(slots, leaf, 0)
  {
    hide Matches;
    hide Orderly;
    var slots' := slots[k := now];
    var f, g := FindEntry(slots, leaf, 0), FindEntry(slots', leaf, 0);
    if Matches(now, leaf) {
      FindIs(slots', leaf, k);
    } else if g < |slots'| {
      FindIs(slots, leaf, g);
    } else if f < |slots| && f != k {
      FindIs(slots', leaf, f);
    }
  }

  /** Names that differ in case are looked up alike. */
  lemma {:induction false} FindSame(slots: seq<Slot>, a: string, b: string, i: nat)
    requires i <= |slots| && SameName(a, b)
    ensures FindEntry(slots, a, i) == FindEntry(slots, b, i)
    decreases |slots| - i
  {
    if i < |slots| {
      FindSame(slots, a, b, i + 1);
    }
  }

  /** The slot a write uses: the entry of that name, or else the first open slot. */
  ghost function ChosenSlot(slots: seq<Slot>, leaf: string): nat {
    if FindEntry(slots, leaf, 0) < |slots| then FindEntry(slots, leaf, 0) else FirstOpen(slots, 0)
  }

  ghost predicate Chosen(slots: seq<Slot>, leaf: string, k: nat) {
    k == ChosenSlot(slots, leaf) < |slots|
  }

  lemma ChosenTidy(slots: seq<Slot>, leaf: string, k: nat, now: Slot)
    requires Tidy(slots) && Chosen(slots, leaf, k) && now.Entry?
    ensures Tidy(slots[k := now])
  {
    var slots' := slots[k := now];
    forall i, j | 0 <= i < j < |slots'| && slots'[i] == Never
      ensures slots'[j] == Never
    {
      assert slots[i] == Never && i != k;
      if FindEntry(slots, leaf, 0) < |slots| {
        assert Matches(slots[k], leaf);
      }
    }
  }

  /** A field that starts with this character reads as a deleted slot. */
  const ERASED: char := '\U{E5}'

  predicate ReadsErased(leaf: string) {
    leaf != "" && leaf[0] == ERASED
  }

  /** What the field written for a name shows. */
  function Stored(leaf: string): string {
    Shown(Pack(leaf))
  }

  /** No other entry shows what the field written for this name will show. */
  predicate Unshadowed(slots: seq<Slot>, leaf: string) {
    var f := FindEntry(slots, Stored(leaf), 0);
    f == |slots| || f == FindEntry(slots, leaf, 0)
  }

  /** A name that fits its field never collides with another entry. */
  lemma ExactUnshadowed(slots: seq<Slot>, leaf: string)
    requires Exact(leaf)
    ensures Unshadowed(slots, leaf) && SameName(Stored(leaf), leaf)
  {
    FoundAgainIff(leaf);
    FindSame(slots, Stored(leaf), leaf, 0);
  }

  /** Writing the entry keeps the names distinct exactly then. */
  lemma ChosenOrderlyIff(slots: seq<Slot>, leaf: string, k: nat, now: Slot)
    requires Orderly(slots) && Chosen(slots, leaf, k) && now.Entry? && now.raw == Pack(leaf)
    ensures Orderly(slots[k := now]) <==> Unshadowed(slots, leaf)
  {
    ChosenTidy(slots, leaf, k, now);
    var slots' := slots[k := now];
    var shown := Stored(leaf);
    var f := FindEntry(slots, shown, 0);
    if Unshadowed(slots, leaf) {
      forall i, j | 0 <= i < j < |slots'| && slots'[i].Entry? && slots'[j].Entry?
        ensures !SameName(Shown(slots'[i].raw), Shown(slots'[j].raw))
      {
        if i == k || j == k {
          var m := if i == k then j else i;
          if Matches(slots[m], shown) {
            FindIs(slots, shown, m);
          }
        }
      }
    } else {
      assert f != k && Matches(slots[f], shown);
      var i, j := if f < k then f else k, if f < k then k else f;
      assert slots'[i].Entry? && slots'[j].Entry? && SameName(Shown(slots'[i].raw), Shown(slots'[j].raw));
    }
  }

  lemma NotEntry(slot: Slot, leaf: string)
    requires !slot.Entry?
    ensures !Matches(slot, leaf)
  {
  }

  // Steps between consistent volumes.

  /** A cluster on some chain is not free. */
  lemma OnChainNotFree(fat: Table, chains: map<Owner, seq<nat>>, o: Owner, c: nat)
    requires ChainsOk(fat, chains) && o in chains && c in chains[o]
    ensures 2 <= c < |fat| && fat[c] != 0
  {
    assert IsChain(fat, chains[o]);
    var i :| 0 <= i < |chains[o]| && chains[o][i] == c;
    assert 2 <= chains[o][i] < |fat|;
    if fat[c] == 0 {
      FreeNotOnChain(fat, chains[o], c);
    }
  }

  /** Freeing an owner's chain makes it a hole. */
  lemma Dropped(fat: Table, data: seq<seq<byte>>, dirs: seq<Dir>, chains: map<Owner, seq<nat>>, o: Owner, fat': Table)
    requires Consistent(fat, data, dirs, chains, {}) && o in chains && Cleared(fat, fat', chains[o])
    ensures Consistent(fat', data, dirs, chains - {o}, {o})
  {
    var rest := chains - {o};
    assert ChainsOk(fat, rest);
    forall p, c | p in rest && c in rest[p] && c < |fat|
      ensures fat'[c] == fat[c]
    {
      assert c !in chains[o];
    }
    ChainsFrame(fat, fat', rest);
    forall p | Live(dirs, p) && p !in {o}
      ensures OwnerOk(data, dirs, rest, p)
    {
      assert OwnerOk(data, dirs, chains, p);
    }
  }

  /** An owner that is not live is a hole already. */
  lemma NoOwner(fat: Table, data: seq<seq<byte>>, dirs: seq<Dir>, chains: map<Owner, seq<nat>>, o: Owner)
    requires Consistent(fat, data, dirs, chains, {}) && !Live(dirs, o)
    ensures Consistent(fat, data, dirs, chains, {o}) && o !in chains
  {
  }

  /** Other chains and their contents survive the addition of a chain made of free clusters. */
  lemma OthersKeep(fat0: Table, data0: seq<seq<byte>>, fat: Table, data: seq<seq<byte>>, s: seq<nat>,
                   chains: map<Owner, seq<nat>>)
    requires ChainsOk(fat0, chains) && Added(fat0, data0, fat, data, s)
    ensures ChainsOk(fat, chains)
    ensures forall o, c :: o in chains && c in chains[o] ==> c !in s
    ensures forall o :: o in chains ==>
              InTable(|data|, chains[o]) && Concat(data, chains[o]) == Concat(data0, chains[o])
  {
    forall o, c | o in chains && c in chains[o]
      ensures c !in s && 2 <= c < |fat0|
    {
      OnChainNotFree(fat0, chains, o, c);
    }
    ChainsFrame(fat0, fat, chains);
    forall o | o in chains
      ensures InTable(|data|, chains[o]) && Concat(data, chains[o]) == Concat(data0, chains[o])
    {
      assert IsChain(fat0, chains[o]);
      forall i | 0 <= i < |chains[o]|
        ensures data[chains[o][i]] == data0[chains[o][i]]
      {
        assert chains[o][i] in chains[o];
      }
      ConcatFrame(data0, data, chains[o]);
    }
  }

  function WithSlot(dirs: seq<Dir>, d: nat, k: nat, slot: Slot): (r: seq<Dir>)
    requires d < |dirs| && k < |dirs[d].slots|
    ensures |r| == |dirs|
  {
    dirs[d := dirs[d].(slots := dirs[d].slots[k := slot])]
  }

  /** One slot of one directory has a new file entry; no other slot changed. */
  ghost predicate OneEntry(dirs: seq<Dir>, dirs': seq<Dir>, d: nat, k: nat, leaf: string, size: nat) {
    && d < |dirs| && k < |dirs[d].slots|
    && exists first: nat :: dirs' == WithSlot(dirs, d, k, Entry(Pack(leaf), false, first, size))
  }

  /** Filling the hole with a new chain and the entry that points at it. */
  lemma Entered(fat0: Table, data0: seq<seq<byte>>, fat: Table, data: seq<seq<byte>>, dirs: seq<Dir>,
                chains: map<Owner, seq<nat>>, d: nat, k: nat, s: seq<nat>, now: Slot)
    requires d < |dirs| && k < |dirs[d].slots|
    requires Consistent(fat0, data0, dirs, chains, {OfFile(d, k)}) && Added(fat0, data0, fat, data, s)
    requires now.Entry? && !now.isDir && now.first == Head(s) && InTable(|data|, s) && now.size <= |Concat(data, s)|
    requires Orderly(dirs[d].slots[k := now])
    ensures Consistent(fat, data, WithSlot(dirs, d, k, now), chains[OfFile(d, k) := s], {})
  {
    var o := OfFile(d, k);
    var dirs', chains' := WithSlot(dirs, d, k, now), chains[o := s];
    OthersKeep(fat0, data0, fat, data, s, chains);
    assert ChainsOk(fat, chains');
    forall p | Live(dirs', p)
      ensures OwnerOk(data, dirs', chains', p)
    {
      if p != o {
        assert Live(dirs, p);
        assert OwnerOk(data0, dirs, chains, p);
      }
    }
    forall p | p in chains'
      ensures Live(dirs', p)
    {
      if p != o {
        assert Live(dirs, p);
      }
    }
  }

  lemma ChainsInsert(fat: Table, rest: map<Owner, seq<nat>>, o: Owner, s: seq<nat>)
    requires ChainsOk(fat, rest) && IsChain(fat, s) && o !in rest
    requires forall p, c :: p in rest && c in rest[p] ==> c !in s
    ensures ChainsOk(fat, rest[o := s])
  {
    hide IsChain;
  }

  /** Contents of chains that avoid the one rewritten cluster. */
  lemma ConcatsFrame(data0: seq<seq<byte>>, data: seq<seq<byte>>, s: seq<nat>, c: nat)
    requires InTable(|data0|, s) && |data| == |data0| && c !in s
    requires forall x :: 0 <= x < |data| && x != c ==> data[x] == data0[x]
    ensures Concat(data, s) == Concat(data0, s)
  {
    forall i | 0 <= i < |s|
      ensures data[s[i]] == data0[s[i]]
    {
      assert s[i] in s;
    }
    ConcatFrame(data0, data, s);
  }

  /** Growing one chain by a free cluster leaves the other chains and their contents alone. */
  lemma GrownChain(fat0: Table, data0: seq<seq<byte>>, fat: Table, data: seq<seq<byte>>,
                   chains: map<Owner, seq<nat>>, o: Owner, c: nat)
    requires ChainsOk(fat0, chains) && o in chains && chains[o] != [] && IsChain(fat0, chains[o])
    requires 2 <= c < |fat0| < 0x1_0000 && fat0[c] == 0 && |data| == |data0| == |fat0|
    requires fat == fat0[c := END][chains[o][|chains[o]| - 1] := c]
    requires forall x :: 0 <= x < |data| && x != c ==> data[x] == data0[x]
    ensures ChainsOk(fat, chains[o := chains[o] + [c]])
    ensures forall p :: p in chains && p != o ==>
              InTable(|data|, chains[p]) && Concat(data, chains[p]) == Concat(data0, chains[p])
  {
    var s := chains[o];
    FreeNotOnChain(fat0, s, c);
    ChainFrame(fat0, fat0[c := END], s);
    ChainGrows(fat0[c := END], s, c);
    var rest := chains - {o};
    RestAvoids(fat0, chains, o, c);
    assert s[|s| - 1] in s;
    hide IsChain;
    hide Concat;
    ChainsFrame(fat0, fat, rest);
    ChainsInsert(fat, rest, o, s + [c]);
    assert rest[o := s + [c]] == chains[o := s + [c]];
    hide ChainsOk;
    forall p | p in chains && p != o
      ensures InTable(|data|, chains[p]) && Concat(data, chains[p]) == Concat(data0, chains[p])
    {
      assert rest[p] == chains[p] && c !in rest[p];
      ConcatsFrame(data0, data, rest[p], c);
    }
  }

  /** The chains other than o's avoid o's clusters and a free cluster. */
  lemma RestAvoids(fat: Table, chains: map<Owner, seq<nat>>, o: Owner, c: nat)
    requires ChainsOk(fat, chains) && o in chains && c < |fat| && fat[c] == 0
    ensures ChainsOk(fat, chains - {o})
    ensures forall p :: p in chains - {o} ==> InTable(|fat|, (chains - {o})[p])
    ensures forall p, x :: p in chains - {o} && x in (chains - {o})[p] ==> x != c && x !in chains[o] && 2 <= x < |fat|
  {
    var rest := chains - {o};
    forall p, x | p in rest && x in rest[p]
      ensures x != c && x !in chains[o] && 2 <= x < |fat|
    {
      OnChainNotFree(fat, chains, p, x);
    }
    assert forall p :: p in rest ==> IsChain(fat, rest[p]);
  }

  function Wider(dirs: seq<Dir>, d: nat, more: seq<Slot>): (r: seq<Dir>)
    requires d < |dirs|
    ensures |r| == |dirs|
  {
    dirs[d := dirs[d].(slots := dirs[d].slots + more)]
  }

  /** A cluster's worth of never-used slots. */
  function Blank(spc: nat): (more: seq<Slot>)
    ensures |more| == 16 * spc && forall i :: 0 <= i < |more| ==> more[i] == Never
  {
    seq(16 * spc, _ => Never)
  }

  lemma LiveWider(dirs: seq<Dir>, d: nat, more: seq<Slot>, p: Owner)
    requires d < |dirs| && forall i :: 0 <= i < |more| ==> more[i] == Never
    ensures Live(Wider(dirs, d, more), p) <==> Live(dirs, p)
    ensures Live(dirs, p) && p.OfFile? ==> Wider(dirs, d, more)[p.dir].slots[p.slot] == dirs[p.dir].slots[p.slot]
  {
    if p.OfFile? && p.dir == d && p.slot >= |dirs[d].slots| && p.slot < |dirs[d].slots| + |more| {
      assert Wider(dirs, d, more)[d].slots[p.slot] == more[p.slot - |dirs[d].slots|];
    }
  }

  /** A full subdirectory grown by one cluster of never-used slots. */
  lemma Widened(fat0: Table, data0: seq<seq<byte>>, fat: Table, data: seq<seq<byte>>, dirs: seq<Dir>,
                chains: map<Owner, seq<nat>>, d: nat, c: nat, more: seq<Slot>)
    requires Consistent(fat0, data0, dirs, chains, {}) && d < |dirs| && !dirs[d].root && OfDir(d) in chains
    requires |data| == |data0| && |fat| == |fat0| && 2 <= c < |fat0| && InTable(|data|, chains[OfDir(d)])
    requires ChainsOk(fat, chains[OfDir(d) := chains[OfDir(d)] + [c]])
    requires forall p :: p in chains && p != OfDir(d) ==>
               InTable(|data|, chains[p]) && InTable(|data0|, chains[p])
                   && Concat(data, chains[p]) == Concat(data0, chains[p])
    requires forall i :: 0 <= i < |more| ==> more[i] == Never
    requires forall i :: 0 <= i < |dirs[d].slots| ==> !Open(dirs[d].slots[i])
    ensures Consistent(fat, data, Wider(dirs, d, more), chains[OfDir(d) := chains[OfDir(d)] + [c]], {})
  {
    hide ChainsOk;
    hide Concat;
    hide OwnerOk;
    hide Live;
    hide Orderly;
    hide InTable;
    var o := OfDir(d);
    var dirs', chains' := Wider(dirs, d, more), chains[o := chains[o] + [c]];
    forall p | Live(dirs', p)
      ensures OwnerOk(data, dirs', chains', p)
    {
      LiveWider(dirs, d, more, p);
      OwnerWider(data0, data, dirs, chains, d, c, more, p);
    }
    forall p | p in chains'
      ensures Live(dirs', p)
    {
      assert Live(dirs, p);
      LiveWider(dirs, d, more, p);
    }
    assert Orderly(dirs[d].slots);
    OrderlyWider(dirs[d].slots, more);
    forall i | 0 <= i < |dirs'|
      ensures Orderly(dirs'[i].slots)
    {
      assert Orderly(dirs[i].slots);
    }
  }

  lemma OrderlyWider(slots: seq<Slot>, more: seq<Slot>)
    requires Orderly(slots) && forall i :: 0 <= i < |slots| ==> !Open(slots[i])
    requires forall i :: 0 <= i < |more| ==> more[i] == Never
    ensures Orderly(slots + more)
  {
  }

  lemma OwnerWider(data0: seq<seq<byte>>, data: seq<seq<byte>>, dirs: seq<Dir>, chains: map<Owner, seq<nat>>,
                   d: nat, c: nat, more: seq<Slot>, p: Owner)
    requires d < |dirs| && Live(dirs, p) && Live(Wider(dirs, d, more), p) && OwnerOk(data0, dirs, chains, p)
    requires OfDir(d) in chains && InTable(|data|, chains[OfDir(d)]) && 2 <= c < |data|
    requires p != OfDir(d) && p in chains ==>
               && InTable(|data|, chains[p]) && InTable(|data0|, chains[p])
               && Concat(data, chains[p]) == Concat(data0, chains[p])
    requires p.OfFile? ==> Wider(dirs, d, more)[p.dir].slots[p.slot] == dirs[p.dir].slots[p.slot]
    ensures OwnerOk(data, Wider(dirs, d, more), chains[OfDir(d) := chains[OfDir(d)] + [c]], p)
  {
    hide Concat;
  }

  // What names read as, step by step.

  /** Widening a full directory changes no reading. */
  lemma WiderReads(data0: seq<seq<byte>>, data: seq<seq<byte>>, dirs: seq<Dir>, chains: map<Owner, seq<nat>>,
                   d: nat, c: nat, more: seq<Slot>, d2: nat, leaf: string)
    requires d < |dirs| && OfDir(d) in chains && |data| == |data0|
    requires forall i :: 0 <= i < |more| ==> more[i] == Never
    requires forall p :: p in chains && p != OfDir(d) ==>
               InTable(|data|, chains[p]) && InTable(|data0|, chains[p])
                   && Concat(data, chains[p]) == Concat(data0, chains[p])
    ensures ReadsAs(data, Wider(dirs, d, more), chains[OfDir(d) := chains[OfDir(d)] + [c]], d2, leaf) ==
            ReadsAs(data0, dirs, chains, d2, leaf)
    ensures IsFolder(Wider(dirs, d, more), d2, leaf) == IsFolder(dirs, d2, leaf)
  {
    hide Concat;
    hide InTable;
    hide Matches;
    if d2 == d {
      FindWider(dirs[d].slots, more, leaf, 0);
      LiveWider(dirs, d, more, OfFile(d, FindEntry(dirs[d].slots, leaf, 0)));
      LiveWider(dirs, d, more, OfFile(d, FindEntry(dirs[d].slots + more, leaf, 0)));
    }
  }

  /** The longer directory gives the same entry, or none. */
  ghost predicate WiderFind(slots: seq<Slot>, slots': seq<Slot>, leaf: string) {
    var f, g := FindEntry(slots, leaf, 0), FindEntry(slots', leaf, 0);
    |slots| <= |slots'| && if f < |slots| then g == f else g == |slots'|
  }

  lemma {:induction false} FindWider(slots: seq<Slot>, more: seq<Slot>, leaf: string, i: nat)
    requires i <= |slots| && forall j :: 0 <= j < |more| ==> more[j] == Never
    ensures var f, g := FindEntry(slots, leaf, i), FindEntry(slots + more, leaf, i);
            if f < |slots| then g == f else g == |slots + more|
    decreases |slots| - i
  {
    hide Matches;
    if i < |slots| && slots[i] != Never && !Matches(slots[i], leaf) {
      FindWider(slots, more, leaf, i + 1);
    } else if i == |slots| && more != [] {
      assert (slots + more)[i] == more[0];
    }
  }

  /** Where a name is found once the entry for `leaf` is in slot k. */
  lemma FindStored(slots: seq<Slot>, leaf: string, k: nat, now: Slot, leaf2: string)
    requires Orderly(slots) && Chosen(slots, leaf, k) && now.Entry? && now.raw == Pack(leaf) && Orderly(slots[k := now])
    ensures var g := FindEntry(slots[k := now], leaf2, 0);
            if SameName(Stored(leaf), leaf2) then g == k
            else if SameName(leaf, leaf2) then g == |slots|
            else g == FindEntry(slots, leaf2, 0) != k
  {
    FindAfter(slots, k, now, leaf2);
    if SameName(leaf, leaf2) {
      FindSame(slots, leaf, leaf2, 0);
    }
    hide Orderly;
    assert FindEntry(slots, leaf2, 0) == k ==> Matches(slots[k], leaf2);
    assert FindEntry(slots, leaf, 0) < |slots| ==> Matches(slots[k], leaf);
  }

  /** After the entry is written, what its field shows reads as the bytes written,
      the name given (if it is another one) as nothing, and the rest as before. */
  lemma StoredReads(data0: seq<seq<byte>>, data: seq<seq<byte>>, dirs: seq<Dir>, chains: map<Owner, seq<nat>>, d: nat,
                    k: nat, leaf: string, s: seq<nat>, now: Slot, buf: seq<byte>, d2: nat, leaf2: string)
    requires d < |dirs| && Orderly(dirs[d].slots) && Chosen(dirs[d].slots, leaf, k) && |data| == |data0|
    requires now.Entry? && !now.isDir && now.raw == Pack(leaf) && now.size == |buf|
    requires Orderly(dirs[d].slots[k := now]) && InTable(|data|, s) && buf <= Concat(data, s)
    requires SameContents(data0, data, chains)
    ensures ReadsAs(data, WithSlot(dirs, d, k, now), chains[OfFile(d, k) := s], d2, leaf2) ==
            if d2 == d && SameName(Stored(leaf), leaf2) then Some(File(buf, |s|))
            else if d2 == d && SameName(leaf, leaf2) then None
            else ReadsAs(data0, dirs, chains, d2, leaf2)
  {
    if d2 < |dirs| {
      if d2 == d {
        FindStored(dirs[d].slots, leaf, k, now, leaf2);
      }
      assert buf == Concat(data, s)[..|buf|];
      hide Concat;
      hide InTable;
      hide Matches;
      hide SameName;
      hide Stored;
      hide FindEntry;
      hide Chosen;
      hide Orderly;
      assert Live(WithSlot(dirs, d, k, now), OfFile(d, k));
      var k2 := FindEntry(dirs[d2].slots, leaf2, 0);
      if d2 != d || k2 != k {
        SlotElsewhere(data0, data, dirs, chains, d, k, s, now, d2, k2);
      }
    }
  }

  /** All the chains hold the same bytes. */
  ghost predicate SameContents(data0: seq<seq<byte>>, data: seq<seq<byte>>, chains: map<Owner, seq<nat>>) {
    forall p :: p in chains ==>
      InTable(|data|, chains[p]) && InTable(|data0|, chains[p]) && Concat(data, chains[p]) == Concat(data0, chains[p])
  }

  /** Which names are directories does not depend on a file's slot. */
  predicate IsFolder(dirs: seq<Dir>, d: nat, leaf: string) {
    && d < |dirs|
    && var k := FindEntry(dirs[d].slots, leaf, 0);
       k < |dirs[d].slots| && dirs[d].slots[k].isDir
  }

  lemma StoredFolders(dirs: seq<Dir>, d: nat, k: nat, leaf: string, now: Slot, d2: nat, leaf2: string)
    requires d < |dirs| && Orderly(dirs[d].slots) && Chosen(dirs[d].slots, leaf, k) && !IsFolder(dirs, d, leaf)
    requires now.Entry? && !now.isDir && now.raw == Pack(leaf) && Orderly(dirs[d].slots[k := now])
    requires Unshadowed(dirs[d].slots, leaf)
    ensures IsFolder(WithSlot(dirs, d, k, now), d2, leaf2) <==> IsFolder(dirs, d2, leaf2)
  {
    if d2 == d {
      var slots := dirs[d].slots;
      FindStored(slots, leaf, k, now, leaf2);
      if SameName(Stored(leaf), leaf2) {
        FindSame(slots, Stored(leaf), leaf2, 0);
      }
      if SameName(leaf, leaf2) {
        FindSame(slots, leaf, leaf2, 0);
      }
    }
  }

  lemma SlotElsewhere(data0: seq<seq<byte>>, data: seq<seq<byte>>, dirs: seq<Dir>, chains: map<Owner, seq<nat>>, d: nat,
                      k: nat, s: seq<nat>, now: Slot, d2: nat, k2: nat)
    requires d < |dirs| && k < |dirs[d].slots| && (d2 != d || k2 != k) && SameContents(data0, data, chains)
    ensures SlotReads(data, WithSlot(dirs, d, k, now), chains[OfFile(d, k) := s], d2, k2) ==
            SlotReads(data0, dirs, chains, d2, k2)
  {
    hide Concat;
    hide InTable;
    assert Live(WithSlot(dirs, d, k, now), OfFile(d2, k2)) == Live(dirs, OfFile(d2, k2));
  }

  lemma {:induction false} OpenWider(slots: seq<Slot>, more: seq<Slot>, i: nat)
    requires i <= |slots| && more != [] && more[0] == Never
    requires forall j :: 0 <= j < |slots| ==> !Open(slots[j])
    ensures FirstOpen(slots + more, i) == |slots|
    decreases |slots| - i
  {
    if i < |slots| {
      OpenWider(slots, more, i + 1);
    } else {
      assert (slots + more)[i] == more[0];
    }
  }

  // A write that fails.

  /** What is left when the new chain cannot be built: clusters in use keep their bytes. */
  lemma FailedKeeps(fat: Table, data0: seq<seq<byte>>, data: seq<seq<byte>>, chains: map<Owner, seq<nat>>)
    requires ChainsOk(fat, chains) && |data| == |data0| == |fat|
    requires forall x :: 0 <= x < |fat| && fat[x] != 0 ==> data[x] == data0[x]
    ensures SameContents(data0, data, chains)
  {
    forall p | p in chains
      ensures InTable(|data|, chains[p]) && Concat(data, chains[p]) == Concat(data0, chains[p])
    {
      assert IsChain(fat, chains[p]);
      forall i | 0 <= i < |chains[p]|
        ensures data[chains[p][i]] == data0[chains[p][i]]
      {
        assert chains[p][i] in chains[p];
        OnChainNotFree(fat, chains, p, chains[p][i]);
      }
      ConcatFrame(data0, data, chains[p]);
    }
  }

  lemma SameReads(data0: seq<seq<byte>>, data: seq<seq<byte>>, dirs: seq<Dir>, chains: map<Owner, seq<nat>>,
                  d2: nat, leaf2: string)
    requires SameContents(data0, data, chains) && |data| == |data0|
    ensures ReadsAs(data, dirs, chains, d2, leaf2) == ReadsAs(data0, dirs, chains, d2, leaf2)
  {
    hide Concat;
    hide InTable;
    hide FindEntry;
  }

  lemma SameConsistent(fat: Table, data0: seq<seq<byte>>, data: seq<seq<byte>>, dirs: seq<Dir>,
                       chains: map<Owner, seq<nat>>, hole: set<Owner>)
    requires Consistent(fat, data0, dirs, chains, hole) && |data| == |data0| && SameContents(data0, data, chains)
    ensures Consistent(fat, data, dirs, chains, hole)
  {
    hide Concat;
    hide InTable;
    hide Orderly;
    hide ChainsOk;
    forall o | Live(dirs, o) && o !in hole
      ensures OwnerOk(data, dirs, chains, o)
    {
      assert OwnerOk(data0, dirs, chains, o);
    }
  }

  /** An open slot is no hole. */
  lemma HoleUnused(fat: Table, data: seq<seq<byte>>, dirs: seq<Dir>, chains: map<Owner, seq<nat>>, o: Owner)
    requires Consistent(fat, data, dirs, chains, {o}) && !Live(dirs, o)
    ensures Consistent(fat, data, dirs, chains, {})
  {
  }

  /** A file entry whose first cluster is free belongs to no consistent volume. */
  lemma Unrepairable(fat: Table, data: seq<seq<byte>>, dirs: seq<Dir>, chains: map<Owner, seq<nat>>, d: nat, k: nat)
    requires Live(dirs, OfFile(d, k)) && 2 <= dirs[d].slots[k].first < |fat| && fat[dirs[d].slots[k].first] == 0
    ensures !Consistent(fat, data, dirs, chains, {})
  {
    var o := OfFile(d, k);
    if Consistent(fat, data, dirs, chains, {}) {
      assert OwnerOk(data, dirs, chains, o);
      assert IsChain(fat, chains[o]);
      FreeNotOnChain(fat, chains[o], dirs[d].slots[k].first);
    }
  }

  lemma NothingCleared(fat: Table, fat': Table)
    requires Cleared(fat, fat', [])
    ensures fat' == fat
  {
  }

  lemma Ruined(fat0: Table, fat: Table, data: seq<seq<byte>>, dirs: seq<Dir>, s: seq<nat>, d: nat, k: nat)
    requires Live(dirs, OfFile(d, k)) && dirs[d].slots[k].first == Head(s) && s != []
    requires InTable(|fat0|, s) && Cleared(fat0, fat, s)
    ensures forall other :: !Consistent(fat, data, dirs, other, {})
  {
    assert s[0] in s;
    forall other
      ensures !Consistent(fat, data, dirs, other, {})
    {
      Unrepairable(fat, data, dirs, other, d, k);
    }
  }

  // The file operations.

  class FatFs {
    const vol: Volume
    var dirs: seq<Dir>
    ghost var chains: map<Owner, seq<nat>>

    ghost predicate Valid()
      reads this, vol
    {
      vol.Sound() && Consistent(vol.fats[0], vol.data, dirs, chains, {})
    }

    ghost function Holding(d: nat, leaf: string): Option<File>
      reads this, vol
    {
      ReadsAs(vol.data, dirs, chains, d, leaf)
    }

    ghost function Reads(d: nat, leaf: string): Option<seq<byte>>
      reads this, vol
    {
      match Holding(d, leaf)
      case Some(f) => Some(f.content)
      case None => None
    }

    predicate Folder(d: nat, leaf: string)
      reads this
    {
      IsFolder(dirs, d, leaf)
    }

    /** How many clusters the file of that name has. */
    ghost function Clusters(d: nat, leaf: string): nat
      reads this, vol
    {
      match Holding(d, leaf)
      case Some(f) => f.clusters
      case None => 0
    }

    ghost function Vacant(): nat
      requires vol.Sound()
      reads this, vol
    {
      FreeCount(vol.fats[0])
    }

    /** The directory has to grow to take a new name. */
    predicate Crammed(d: nat, leaf: string)
      requires d < |dirs|
      reads this
    {
      FindEntry(dirs[d].slots, leaf, 0) == |dirs[d].slots| == FirstOpen(dirs[d].slots, 0)
    }

    /** The directories once the name has a slot. */
    function Roomy(d: nat, leaf: string): seq<Dir>
      requires d < |dirs|
      reads this
    {
      if Crammed(d, leaf) then Wider(dirs, d, Blank(vol.spc)) else dirs
    }

    /** Looking for a slot makes the directory grow. */
    ghost predicate Grows(d: nat, leaf: string)
      requires vol.Sound() && d < |dirs|
      reads this, vol
    {
      Crammed(d, leaf) && !dirs[d].root && Vacant() > 0
    }

    /** No slot can be had for the name, or n bytes need more clusters than are free
        once the old file's are given back and the directory has grown. */
    ghost predicate NoRoom(d: nat, leaf: string, n: nat)
      requires vol.Sound() && d < |dirs|
      reads this, vol
    {
      || (Crammed(d, leaf) && dirs[d].root)
      || Vacant() + Clusters(d, leaf) < Needed(n, SECTOR * vol.spc) + One(Crammed(d, leaf))
    }

    /** A volume with only an empty root directory. */
    constructor (volume: Volume, entries: nat)
      requires volume.Sound()
      ensures vol == volume && Valid() && |dirs| == 1 && dirs[0].root && |dirs[0].slots| == entries
      ensures forall i :: 0 <= i < entries ==> dirs[0].slots[i] == Never
      ensures forall d, leaf :: Holding(d, leaf) == None && !Folder(d, leaf)
    {
      vol := volume;
      dirs := [Dir(true, 0, seq(entries, _ => Never))];
      chains := map[];
    }

    /** A volume that is there already. */
    constructor Mounted(volume: Volume, tree: seq<Dir>, ghost owned: map<Owner, seq<nat>>)
      requires volume.Sound() && Consistent(volume.fats[0], volume.data, tree, owned, {})
      ensures vol == volume && Valid() && dirs == tree && chains == owned
    {
      vol, dirs, chains := volume, tree, owned;
    }

    /** dir_find. */
    method Find(d: nat, leaf: string) returns (k: nat)
      requires d < |dirs|
      ensures k == FindEntry(dirs[d].slots, leaf, 0)
    {
      hide SameName;
      hide Shown;
      var slots := dirs[d].slots;
      k := 0;
      while k < |slots|
        invariant 0 <= k <= |slots|
        invariant FindEntry(slots, leaf, 0) == FindEntry(slots, leaf, k)
      {
        if slots[k] == Never {
          return |slots|;
        }
        if slots[k].Entry? {
          var shown := ShowName(slots[k].raw);
          var same := CompareNames(shown, leaf);
          if same {
            return;
          }
        }
        k := k + 1;
      }
    }

    /** dir_free_slot: a full subdirectory grows by a cluster, a full root does not. */
    method FreeSlot(d: nat) returns (ok: bool, k: nat)
      requires Valid() && d < |dirs|
      modifies this, vol`fats, vol`data
      ensures Valid() && |dirs| == |old(dirs)|
      ensures var full := FirstOpen(old(dirs)[d].slots, 0) == |old(dirs)[d].slots|;
              && (ok <==> !full || (!old(dirs)[d].root && old(Vacant()) > 0))
              && (!(ok && full) ==> dirs == old(dirs) && chains == old(chains) && Vacant() == old(Vacant()))
              && (ok && full ==> dirs == Wider(old(dirs), d, Blank(vol.spc)) && Vacant() == old(Vacant()) - 1)
      ensures ok ==> k == FirstOpen(dirs[d].slots, 0) < |dirs[d].slots|
      ensures forall leaf :: WiderFind(old(dirs)[d].slots, dirs[d].slots, leaf)
      ensures forall d2, leaf :: Holding(d2, leaf) == old(Holding(d2, leaf))
      ensures forall d2, leaf :: Folder(d2, leaf) == old(Folder(d2, leaf))
    {
      hide ReadsAs;
      hide FindEntry;
      hide FreeCount;
      hide IsFolder;
      var slots := dirs[d].slots;
      k := 0;
      while k < |slots|
        invariant 0 <= k <= |slots| && Valid() && dirs == old(dirs) && chains == old(chains)
        invariant vol.fats == old(vol.fats) && vol.data == old(vol.data)
        invariant FirstOpen(slots, 0) == FirstOpen(slots, k)
        invariant forall i :: 0 <= i < k ==> !Open(slots[i])
      {
        if slots[k] == Never || slots[k] == Deleted {
          return true, k;
        }
        k := k + 1;
      }
      if dirs[d].root {
        return false, 0;
      }
      ok := Grow(d);
      k := |slots|;
    }

    /** The walk to the last cluster of a subdirectory. */
    method LastCluster(first: nat, ghost s: seq<nat>) returns (tail: nat)
      requires vol.Sound() && IsChain(vol.fats[0], s) && s != [] && first == s[0]
      ensures tail == s[|s| - 1]
    {
      ShortEnough(vol.fats[0], s);
      tail := first;
      var guard := 0;
      assert Follows(vol.fats[0], s, 0);
      while vol.fats[0][tail] < LAST && vol.fats[0][tail] >= 2 && guard < GUARD
        invariant 0 <= guard < |s| && tail == s[guard]
        decreases GUARD - guard
      {
        assert Follows(vol.fats[0], s, guard);
        tail := vol.fats[0][tail];
        guard := guard + 1;
      }
      assert Follows(vol.fats[0], s, guard);
    }

    /** Linking a fresh cluster behind a full subdirectory. */
    method Grow(d: nat) returns (ok: bool)
      requires Valid() && d < |dirs| && !dirs[d].root
      requires forall i :: 0 <= i < |dirs[d].slots| ==> !Open(dirs[d].slots[i])
      modifies this, vol`fats, vol`data
      ensures Valid() && |dirs| == |old(dirs)|
      ensures ok <==> old(Vacant()) > 0
      ensures !ok ==> dirs == old(dirs) && chains == old(chains) && Vacant() == old(Vacant())
      ensures ok ==> dirs == Wider(old(dirs), d, Blank(vol.spc)) && Vacant() == old(Vacant()) - 1
      ensures ok ==> |old(dirs)[d].slots| == FirstOpen(dirs[d].slots, 0) < |dirs[d].slots|
      ensures forall leaf :: WiderFind(old(dirs)[d].slots, dirs[d].slots, leaf)
      ensures forall d2, leaf :: Holding(d2, leaf) == old(Holding(d2, leaf))
      ensures forall d2, leaf :: Folder(d2, leaf) == old(Folder(d2, leaf))
    {
      ghost var fat0, data0, dirs0, chains0 := vol.fats[0], vol.data, dirs, chains;
      assert OwnerOk(data0, dirs, chains, OfDir(d)) by {
        assert Live(dirs, OfDir(d));
      }
      ghost var s := chains[OfDir(d)];
      var tail := LastCluster(dirs[d].cluster, s);
      OnChain(fat0, s);
      hide FreeCount;
      hide IsChain;
      hide OwnerOk;
      var c := vol.AllocCluster();
      if c == 0 {
        return false;
      }
      TailSet(vol.fats[0], tail, c);
      vol.FatSet(tail, c);
      GrownChain(fat0, data0, vol.fats[0], vol.data, chains, OfDir(d), c);
      ghost var more0 := Blank(vol.spc);
      Widened(fat0, data0, vol.fats[0], vol.data, dirs, chains, d, c, more0);
      forall leaf
        ensures WiderFind(dirs0[d].slots, dirs0[d].slots + more0, leaf)
      {
        FindWider(dirs0[d].slots, more0, leaf, 0);
      }
      forall d2: nat, leaf: string
        ensures ReadsAs(vol.data, Wider(dirs0, d, more0), chains0[OfDir(d) := s + [c]], d2, leaf) ==
                ReadsAs(data0, dirs0, chains0, d2, leaf)
        ensures IsFolder(Wider(dirs0, d, more0), d2, leaf) == IsFolder(dirs0, d2, leaf)
      {
        WiderReads(data0, vol.data, dirs0, chains0, d, c, more0, d2, leaf);
      }
      OpenWider(dirs[d].slots, more0, 0);
      dirs := Wider(dirs, d, Blank(vol.spc));
      chains := chains[OfDir(d) := s + [c]];
      ok := true;
    }

    /** Whether a name has clusters is what its entry's first cluster says. */
    method HasClusters(d: nat, leaf: string) returns (b: bool)
      requires Valid() && d < |dirs| && !Folder(d, leaf)
      ensures b <==> Clusters(d, leaf) > 0
    {
      var k := Find(d, leaf);
      if k == |dirs[d].slots| {
        NoClusters(vol.fats[0], vol.data, dirs, chains, d);
        return false;
      }
      FileOwner(vol.fats[0], vol.data, dirs, chains, d, k, leaf);
      hide ReadsAs;
      hide Consistent;
      hide IsChain;
      b := dirs[d].slots[k].first != 0;
    }

    /** write_file in a resolved directory. */
    method WriteFile(d: nat, leaf: string, buf: seq<byte>) returns (r: int)
      requires Valid() && d < |dirs| && !Folder(d, leaf) && !ReadsErased(leaf)
      modifies this, vol`fats, vol`data
      ensures r == |buf| || r == -1
      ensures vol.Sound() && |dirs| == |old(dirs)|
      ensures r == -1 <==> old(NoRoom(d, leaf, |buf|))
      // Written: the names stay distinct exactly when no other entry is cut to the same field.
      ensures r != -1 ==> (Valid() <==> Unshadowed(old(dirs)[d].slots, leaf))
      ensures r != -1 && Valid() ==>
                forall d2, leaf2 :: Holding(d2, leaf2) ==
                  if d2 == d && SameName(Stored(leaf), leaf2) then Some(File(buf, Needed(|buf|, SECTOR * vol.spc)))
                  else if d2 == d && SameName(leaf, leaf2) then None
                  else old(Holding(d2, leaf2))
      ensures Valid() ==> forall d2, leaf2 :: Folder(d2, leaf2) == old(Folder(d2, leaf2))
      ensures r != -1 ==> Vacant() + Needed(|buf|, SECTOR * vol.spc) + One(old(Crammed(d, leaf))) ==
                          old(Vacant() + Clusters(d, leaf))
      ensures r != -1 ==>
                var room := old(Roomy(d, leaf));
                OneEntry(room, dirs, d, ChosenSlot(room[d].slots, leaf), leaf, |buf|)
      // Not written: harmless exactly when the name had no clusters to lose.
      ensures r == -1 ==>
                forall d2, leaf2 :: d2 != d || !SameName(leaf, leaf2) ==> Holding(d2, leaf2) == old(Holding(d2, leaf2))
      ensures r == -1 && old(Clusters(d, leaf)) == 0 ==>
                Valid() && forall d2, leaf2 :: Holding(d2, leaf2) == old(Holding(d2, leaf2))
      ensures r == -1 && old(Clusters(d, leaf)) == 0 ==>
                && Vacant() == old(Vacant()) - One(old(Grows(d, leaf)))
                && dirs == if old(Grows(d, leaf)) then old(Roomy(d, leaf)) else old(dirs)
      ensures r == -1 && old(Clusters(d, leaf)) > 0 ==>
                forall other :: !Consistent(vol.fats[0], vol.data, dirs, other, {})
    {
      hide ReadsAs;
      hide Consistent;
      hide FindEntry;
      hide FirstOpen;
      hide FreeCount;
      hide Unshadowed;
      hide IsFolder;
      hide SameName;
      hide Stored;
      hide Needed;
      var k := Find(d, leaf);
      if k < |dirs[d].slots| {
        r := Overwrite(d, k, leaf, buf);
      } else {
        r := WriteNew(d, leaf, buf);
      }
    }

    /** write_file over a file of that name. */
    method Overwrite(d: nat, k: nat, leaf: string, buf: seq<byte>) returns (r: int)
      requires Valid() && d < |dirs| && !Folder(d, leaf) && k == FindEntry(dirs[d].slots, leaf, 0) < |dirs[d].slots|
      modifies this, vol`fats, vol`data
      ensures r == |buf| || r == -1
      ensures vol.Sound() && |dirs| == |old(dirs)|
      ensures r == -1 <==> old(Vacant() + Clusters(d, leaf)) < Needed(|buf|, SECTOR * vol.spc)
      ensures r != -1 ==> (Valid() <==> Unshadowed(old(dirs)[d].slots, leaf))
      ensures r != -1 && Valid() ==>
                forall d2, leaf2 :: Holding(d2, leaf2) ==
                  if d2 == d && SameName(Stored(leaf), leaf2) then Some(File(buf, Needed(|buf|, SECTOR * vol.spc)))
                  else if d2 == d && SameName(leaf, leaf2) then None
                  else old(Holding(d2, leaf2))
      ensures Valid() ==> forall d2, leaf2 :: Folder(d2, leaf2) == old(Folder(d2, leaf2))
      ensures r != -1 ==> Vacant() + Needed(|buf|, SECTOR * vol.spc) == old(Vacant() + Clusters(d, leaf))
      ensures r != -1 ==> OneEntry(old(dirs), dirs, d, k, leaf, |buf|)
      ensures r == -1 ==>
                forall d2, leaf2 :: d2 != d || !SameName(leaf, leaf2) ==> Holding(d2, leaf2) == old(Holding(d2, leaf2))
      ensures r == -1 && old(Clusters(d, leaf)) == 0 ==>
                Valid() && forall d2, leaf2 :: Holding(d2, leaf2) == old(Holding(d2, leaf2))
      ensures r == -1 && old(Clusters(d, leaf)) == 0 ==> Vacant() == old(Vacant()) && dirs == old(dirs)
      ensures r == -1 && old(Clusters(d, leaf)) > 0 ==>
                forall other :: !Consistent(vol.fats[0], vol.data, dirs, other, {})
    {
      ghost var fat0, data0, dirs0, chains0 := vol.fats[0], vol.data, dirs, chains;
      ghost var o := OfFile(d, k);
      FileOwner(fat0, data0, dirs, chains, d, k, leaf);
      hide ReadsAs;
      hide Consistent;
      hide FindEntry;
      hide FreeCount;
      hide IsChain;
      hide Unshadowed;
      hide IsFolder;
      hide SameName;
      hide Stored;
      hide Needed;
      hide Live;
      hide Chosen;
      hide Orderly;
      hide InTable;
      hide Follows;
      hide Mirrored;
      hide Cleared;
      hide OneEntry;
      DropOld(d, k, leaf);
      r := StoreNew(d, k, leaf, buf);
      if r == -1 {
        if chains0[o] == [] {
          NothingCleared(fat0, vol.fats[0]);
          chains := chains0;
          Unharmed(fat0, data0, vol.data, dirs, chains);
        } else {
          Ruined(fat0, vol.fats[0], vol.data, dirs, chains0[o], d, k);
        }
      }
    }

    /** write_file under a name that is not there. */
    method WriteNew(d: nat, leaf: string, buf: seq<byte>) returns (r: int)
      requires Valid() && d < |dirs| && FindEntry(dirs[d].slots, leaf, 0) == |dirs[d].slots|
      modifies this, vol`fats, vol`data
      ensures r == |buf| || r == -1
      ensures vol.Sound() && |dirs| == |old(dirs)|
      ensures r == -1 <==> old(NoRoom(d, leaf, |buf|))
      ensures r != -1 ==> (Valid() <==> Unshadowed(old(dirs)[d].slots, leaf))
      ensures r != -1 && Valid() ==>
                forall d2, leaf2 :: Holding(d2, leaf2) ==
                  if d2 == d && SameName(Stored(leaf), leaf2) then Some(File(buf, Needed(|buf|, SECTOR * vol.spc)))
                  else if d2 == d && SameName(leaf, leaf2) then None
                  else old(Holding(d2, leaf2))
      ensures Valid() ==> forall d2, leaf2 :: Folder(d2, leaf2) == old(Folder(d2, leaf2))
      ensures r != -1 ==> Vacant() + Needed(|buf|, SECTOR * vol.spc) + One(old(Crammed(d, leaf))) == old(Vacant())
      ensures r != -1 ==>
                var room := old(Roomy(d, leaf));
                OneEntry(room, dirs, d, FirstOpen(room[d].slots, 0), leaf, |buf|)
      ensures FindEntry(old(Roomy(d, leaf))[d].slots, leaf, 0) == |old(Roomy(d, leaf))[d].slots|
      ensures old(Clusters(d, leaf)) == 0
      ensures r == -1 ==> Valid() && forall d2, leaf2 :: Holding(d2, leaf2) == old(Holding(d2, leaf2))
      ensures r == -1 ==>
                && Vacant() == old(Vacant()) - One(old(Grows(d, leaf)))
                && dirs == if old(Grows(d, leaf)) then old(Roomy(d, leaf)) else old(dirs)
    {
      ghost var slots0 := dirs[d].slots;
      MissingReads(vol.data, dirs, chains, d, leaf);
      FindWider(slots0, Blank(vol.spc), leaf, 0);
      hide ReadsAs;
      hide Consistent;
      hide Live;
      hide FindEntry;
      hide FirstOpen;
      hide FreeCount;
      hide Unshadowed;
      hide IsFolder;
      hide SameName;
      hide Stored;
      hide Needed;
      hide WiderFind;
      hide Blank;
      hide OneEntry;
      var ok, k := FreeSlot(d);
      assert WiderFind(slots0, dirs[d].slots, leaf) && WiderFind(slots0, dirs[d].slots, Stored(leaf));
      UnshadowedWider(slots0, dirs[d].slots, leaf);
      if !ok {
        return -1;
      }
      OpenIsHole(vol.fats[0], vol.data, dirs, chains, d, k);
      NotFolder(dirs, d, leaf);
      r := StoreNew(d, k, leaf, buf);
      if r == -1 {
        SlotIsOpen(dirs, d, k);
        HoleUnused(vol.fats[0], vol.data, dirs, chains, OfFile(d, k));
      }
    }

    /** Freeing the chain of a file. */
    method DropOld(d: nat, k: nat, leaf: string)
      requires Valid() && d < |dirs| && !Folder(d, leaf) && k == FindEntry(dirs[d].slots, leaf, 0) < |dirs[d].slots|
      modifies this`chains, vol`fats
      ensures OfFile(d, k) in old(chains) && chains == old(chains) - {OfFile(d, k)}
      ensures vol.Sound() && Consistent(vol.fats[0], vol.data, dirs, chains, {OfFile(d, k)})
      ensures Cleared(old(vol.fats)[0], vol.fats[0], old(chains)[OfFile(d, k)])
      ensures Vacant() == old(Vacant()) + |old(chains)[OfFile(d, k)]|
      ensures forall d2, leaf2 :: d2 != d || !SameName(leaf, leaf2) ==> Holding(d2, leaf2) == old(Holding(d2, leaf2))
    {
      ghost var o := OfFile(d, k);
      FileOwner(vol.fats[0], vol.data, dirs, chains, d, k, leaf);
      ghost var fat0 := vol.fats[0];
      hide FreeCount;
      hide IsChain;
      hide ReadsAs;
      hide Consistent;
      hide FindEntry;
      hide SameName;
      vol.FreeChain(dirs[d].slots[k].first, chains[o]);
      Dropped(fat0, vol.data, dirs, chains, o, vol.fats[0]);
      forall d2: nat, leaf2: string | d2 != d || !SameName(leaf, leaf2)
        ensures ReadsAs(vol.data, dirs, chains - {o}, d2, leaf2) == ReadsAs(vol.data, dirs, chains, d2, leaf2)
      {
        DropReads(vol.data, dirs, chains, d, k, leaf, d2, leaf2);
      }
      chains := chains - {o};
    }

    /** Building the new chain and writing the entry. */
    method StoreNew(d: nat, k: nat, leaf: string, buf: seq<byte>) returns (r: int)
      requires vol.Sound() && d < |dirs| && Chosen(dirs[d].slots, leaf, k) && !Folder(d, leaf)
      requires Consistent(vol.fats[0], vol.data, dirs, chains, {OfFile(d, k)})
      modifies this, vol`fats, vol`data
      ensures r == |buf| || r == -1
      ensures vol.Sound() && |dirs| == |old(dirs)| && |vol.fats[0]| == |old(vol.fats)[0]|
      ensures r == -1 <==> old(Vacant()) < Needed(|buf|, SECTOR * vol.spc)
      ensures r != -1 ==> (Valid() <==> Unshadowed(old(dirs)[d].slots, leaf))
      ensures r != -1 && Valid() ==>
                forall d2, leaf2 :: Holding(d2, leaf2) ==
                  if d2 == d && SameName(Stored(leaf), leaf2) then Some(File(buf, Needed(|buf|, SECTOR * vol.spc)))
                  else if d2 == d && SameName(leaf, leaf2) then None
                  else old(Holding(d2, leaf2))
      ensures r != -1 && Valid() ==> forall d2, leaf2 :: Folder(d2, leaf2) == old(Folder(d2, leaf2))
      ensures r != -1 ==> Vacant() + Needed(|buf|, SECTOR * vol.spc) == old(Vacant())
      ensures r != -1 ==> OneEntry(old(dirs), dirs, d, k, leaf, |buf|)
      ensures r == -1 ==>
                && dirs == old(dirs) && chains == old(chains) && vol.fats[0] == old(vol.fats)[0]
                && Consistent(vol.fats[0], vol.data, dirs, chains, {OfFile(d, k)})
                && forall x :: 0 <= x < |vol.data| && vol.fats[0][x] != 0 ==> vol.data[x] == old(vol.data)[x]
      ensures r == -1 ==> forall d2, leaf2 :: Holding(d2, leaf2) == old(Holding(d2, leaf2))
    {
      ghost var fat0, data0 := vol.fats[0], vol.data;
      assert Orderly(dirs[d].slots) && ChainsOk(fat0, chains) && |data0| == |fat0|;
      hide ReadsAs;
      hide Consistent;
      hide Live;
      hide FindEntry;
      hide ChainsOk;
      hide Concat;
      hide Chosen;
      hide Orderly;
      hide FreeCount;
      hide Needed;
      hide IsFolder;
      hide SameName;
      hide Stored;
      hide Unshadowed;
      hide IsChain;
      ghost var s;
      var ok, first;
      ok, first, s := vol.BuildChain(buf);
      if !ok {
        FailedKeeps(fat0, data0, vol.data, chains);
        SameConsistent(fat0, data0, vol.data, dirs, chains, {OfFile(d, k)});
        forall d2: nat, leaf2: string
          ensures ReadsAs(vol.data, dirs, chains, d2, leaf2) == ReadsAs(data0, dirs, chains, d2, leaf2)
        {
          SameReads(data0, vol.data, dirs, chains, d2, leaf2);
        }
        return -1;
      }
      var raw := PackName(leaf);
      var now := Entry(raw, false, first, |buf|);
      EnterNew(fat0, data0, d, k, leaf, buf, s, now);
      dirs := WithSlot(dirs, d, k, now);
      chains := chains[OfFile(d, k) := s];
      r := |buf|;
    }

    /** What StoreNew relies on for the new entry. */
    lemma EnterNew(fat0: Table, data0: seq<seq<byte>>, d: nat, k: nat, leaf: string, buf: seq<byte>, s: seq<nat>,
                   now: Slot)
      requires vol.Sound() && d < |dirs| && Chosen(dirs[d].slots, leaf, k) && !Folder(d, leaf)
      requires Consistent(fat0, data0, dirs, chains, {OfFile(d, k)}) && Added(fat0, data0, vol.fats[0], vol.data, s)
      requires now == Entry(Pack(leaf), false, Head(s), |buf|) && InTable(|vol.data|, s) && buf <= Concat(vol.data, s)
      ensures k < |dirs[d].slots|
      ensures var dirs', chains' := WithSlot(dirs, d, k, now), chains[OfFile(d, k) := s];
              && (Consistent(vol.fats[0], vol.data, dirs', chains', {}) <==> Unshadowed(dirs[d].slots, leaf))
              && (Unshadowed(dirs[d].slots, leaf) ==> FindEntry(dirs'[d].slots, Stored(leaf), 0) == k)
              && (Unshadowed(dirs[d].slots, leaf) ==>
                    forall d2: nat, leaf2: string ::
                      && (IsFolder(dirs', d2, leaf2) <==> IsFolder(dirs, d2, leaf2))
                      && ReadsAs(vol.data, dirs', chains', d2, leaf2) ==
                         if d2 == d && SameName(Stored(leaf), leaf2) then Some(File(buf, |s|))
                         else if d2 == d && SameName(leaf, leaf2) then None
                         else ReadsAs(data0, dirs, chains, d2, leaf2))
    {
      var slots := dirs[d].slots;
      assert Orderly(slots) && ChainsOk(fat0, chains) && |vol.data| == |data0|;
      ChosenOrderlyIff(slots, leaf, k, now);
      hide ReadsAs;
      hide Live;
      hide FindEntry;
      hide ChainsOk;
      hide Concat;
      hide Chosen;
      hide Orderly;
      hide IsFolder;
      hide SameName;
      hide Stored;
      hide Unshadowed;
      hide IsChain;
      hide InTable;
      hide Consistent;
      hide Added;
      hide SameContents;
      if Unshadowed(slots, leaf) {
        LongEnough(vol.data, s, buf);
        Entered(fat0, data0, vol.fats[0], vol.data, dirs, chains, d, k, s, now);
        ContentsKept(fat0, data0, vol.fats[0], vol.data, s, chains);
        EnterReads(data0, vol.data, dirs, chains, d, k, leaf, buf, s, now);
      } else {
        NotOrderly(vol.fats[0], vol.data, WithSlot(dirs, d, k, now), chains[OfFile(d, k) := s], d);
      }
    }

    /** read_file in a resolved directory; None for -1. */
    method ReadFile(d: nat, leaf: string, cap: nat) returns (r: Option<seq<byte>>)
      requires Valid() && d < |dirs|
      ensures match Reads(d, leaf)
              case None => r == None
              case Some(content) => r == Some(content[..Least(|content|, cap)])
    {
      hide Concat;
      hide FindEntry;
      hide Consistent;
      hide Live;
      var k := Find(d, leaf);
      if k == |dirs[d].slots| || dirs[d].slots[k].isDir {
        NoFile(vol.data, dirs, chains, d, k);
        return None;
      }
      ghost var s := FileReads(vol.fats[0], vol.data, dirs, chains, d, k);
      var out := vol.ReadChain(dirs[d].slots[k].first, dirs[d].slots[k].size, cap, s);
      assert Concat(vol.data, s)[..dirs[d].slots[k].size][..Least(dirs[d].slots[k].size, cap)] == out;
      r := Some(out);
    }

    /** unlink of a name that is no directory; its clusters come back. */
    method Unlink(d: nat, leaf: string) returns (ok: bool)
      requires Valid() && d < |dirs| && !Folder(d, leaf)
      modifies this, vol`fats
      ensures Valid() && |dirs| == |old(dirs)|
      ensures ok <==> old(Reads(d, leaf)).Some?
      ensures forall d2, leaf2 :: Holding(d2, leaf2) ==
                if d2 == d && SameName(leaf, leaf2) then None else old(Holding(d2, leaf2))
      ensures forall d2, leaf2 :: Folder(d2, leaf2) == old(Folder(d2, leaf2))
      ensures Vacant() == old(Vacant() + Clusters(d, leaf))
      ensures !ok ==> dirs == old(dirs)
      ensures ok ==>
                var k := FindEntry(old(dirs)[d].slots, leaf, 0);
                k < |old(dirs)[d].slots| && dirs == WithSlot(old(dirs), d, k, Deleted)
    {
      hide ReadsAs;
      hide Consistent;
      hide Live;
      hide FindEntry;
      hide Matches;
      hide SameName;
      hide IsFolder;
      hide FreeCount;
      var k := Find(d, leaf);
      if k == |dirs[d].slots| {
        NoClusters(vol.fats[0], vol.data, dirs, chains, d);
        forall leaf2 | SameName(leaf, leaf2)
          ensures ReadsAs(vol.data, dirs, chains, d, leaf2) == None
        {
          FindSame(dirs[d].slots, leaf, leaf2, 0);
          MissingReads(vol.data, dirs, chains, d, leaf2);
        }
        assert SameName(leaf, leaf) by { Reflexive(leaf); }
        return false;
      }
      FileOwner(vol.fats[0], vol.data, dirs, chains, d, k, leaf);
      DropOld(d, k, leaf);
      Erased(vol.fats[0], vol.data, dirs, chains, d, k);
      ghost var was := dirs;
      forall d2: nat, leaf2: string
        ensures ReadsAs(vol.data, WithSlot(was, d, k, Deleted), chains, d2, leaf2) ==
                if d2 == d && SameName(leaf, leaf2) then None else old(Holding(d2, leaf2))
        ensures IsFolder(WithSlot(was, d, k, Deleted), d2, leaf2) <==> IsFolder(was, d2, leaf2)
      {
        ErasedReads(vol.data, was, chains, d, k, leaf, d2, leaf2);
        assert d2 != d || !SameName(leaf, leaf2) ==> Holding(d2, leaf2) == old(Holding(d2, leaf2));
      }
      dirs := WithSlot(dirs, d, k, Deleted);
      ok := true;
    }
  }

  lemma ContentsKept(fat0: Table, data0: seq<seq<byte>>, fat: Table, data: seq<seq<byte>>, s: seq<nat>,
                     chains: map<Owner, seq<nat>>)
    requires ChainsOk(fat0, chains) && Added(fat0, data0, fat, data, s)
    ensures SameContents(data0, data, chains)
  {
    OthersKeep(fat0, data0, fat, data, s, chains);
    ChainsInTable(fat0, chains);
    hide InTable;
    hide Concat;
    hide ChainsOk;
  }

  /** A directory with two entries of a name is in no consistent volume. */
  lemma NotOrderly(fat: Table, data: seq<seq<byte>>, dirs: seq<Dir>, chains: map<Owner, seq<nat>>, d: nat)
    requires d < |dirs| && !Orderly(dirs[d].slots)
    ensures !Consistent(fat, data, dirs, chains, {})
  {
  }

  /** What all names are and read as once the entry is written. */
  lemma EnterReads(data0: seq<seq<byte>>, data: seq<seq<byte>>, dirs: seq<Dir>, chains: map<Owner, seq<nat>>, d: nat,
                   k: nat, leaf: string, buf: seq<byte>, s: seq<nat>, now: Slot)
    requires d < |dirs| && Orderly(dirs[d].slots) && Chosen(dirs[d].slots, leaf, k) && |data| == |data0|
    requires !IsFolder(dirs, d, leaf) && Unshadowed(dirs[d].slots, leaf)
    requires now.Entry? && !now.isDir && now.raw == Pack(leaf) && now.size == |buf|
    requires Orderly(dirs[d].slots[k := now]) && InTable(|data|, s) && buf <= Concat(data, s)
    requires SameContents(data0, data, chains)
    ensures var dirs' := WithSlot(dirs, d, k, now);
            && FindEntry(dirs'[d].slots, Stored(leaf), 0) == k
            && forall d2: nat, leaf2: string ::
                 && (IsFolder(dirs', d2, leaf2) <==> IsFolder(dirs, d2, leaf2))
                 && ReadsAs(data, dirs', chains[OfFile(d, k) := s], d2, leaf2) ==
                    if d2 == d && SameName(Stored(leaf), leaf2) then Some(File(buf, |s|))
                    else if d2 == d && SameName(leaf, leaf2) then None
                    else ReadsAs(data0, dirs, chains, d2, leaf2)
  {
    assert SameName(Stored(leaf), Stored(leaf));
    hide ReadsAs;
    hide FindEntry;
    hide Concat;
    hide Chosen;
    hide Orderly;
    hide IsFolder;
    hide SameName;
    hide Stored;
    hide Unshadowed;
    hide InTable;
    hide SameContents;
    FindStored(dirs[d].slots, leaf, k, now, Stored(leaf));
    var dirs' := WithSlot(dirs, d, k, now);
    forall d2: nat, leaf2: string
      ensures IsFolder(dirs', d2, leaf2) <==> IsFolder(dirs, d2, leaf2)
      ensures ReadsAs(data, dirs', chains[OfFile(d, k) := s], d2, leaf2) ==
              if d2 == d && SameName(Stored(leaf), leaf2) then Some(File(buf, |s|))
              else if d2 == d && SameName(leaf, leaf2) then None
              else ReadsAs(data0, dirs, chains, d2, leaf2)
    {
      StoredFolders(dirs, d, k, leaf, now, d2, leaf2);
      StoredReads(data0, data, dirs, chains, d, k, leaf, s, now, buf, d2, leaf2);
    }
  }

  lemma Reflexive(leaf: string)
    ensures SameName(leaf, leaf)
  {
  }

  /** The owner of a file that is found. */
  lemma FileOwner(fat: Table, data: seq<seq<byte>>, dirs: seq<Dir>, chains: map<Owner, seq<nat>>, d: nat, k: nat,
                  leaf: string)
    requires Consistent(fat, data, dirs, chains, {}) && d < |dirs| && !IsFolder(dirs, d, leaf)
    requires k == FindEntry(dirs[d].slots, leaf, 0) < |dirs[d].slots|
    ensures var o := OfFile(d, k);
            && Live(dirs, o) && o in chains && IsChain(fat, chains[o]) && InTable(|fat|, chains[o])
            && dirs[d].slots[k].Entry? && dirs[d].slots[k].first == Head(chains[o])
            && Chosen(dirs[d].slots, leaf, k) && dirs[d].slots[k] != Never && Orderly(dirs[d].slots)
            && ReadsAs(data, dirs, chains, d, leaf).Some?
            && ReadsAs(data, dirs, chains, d, leaf).value.clusters == |chains[o]|
  {
    assert Matches(dirs[d].slots[k], leaf);
    assert Live(dirs, OfFile(d, k)) && OwnerOk(data, dirs, chains, OfFile(d, k));
  }

  lemma NoClusters(fat: Table, data: seq<seq<byte>>, dirs: seq<Dir>, chains: map<Owner, seq<nat>>, d: nat)
    requires Consistent(fat, data, dirs, chains, {}) && d < |dirs|
    ensures OfFile(d, |dirs[d].slots|) !in chains
  {
  }

  /** A failed write that freed nothing left everything in place. */
  lemma Unharmed(fat: Table, data0: seq<seq<byte>>, data: seq<seq<byte>>, dirs: seq<Dir>, chains: map<Owner, seq<nat>>)
    requires Consistent(fat, data0, dirs, chains, {}) && |data| == |data0|
    requires forall x :: 0 <= x < |fat| && fat[x] != 0 ==> data[x] == data0[x]
    ensures Consistent(fat, data, dirs, chains, {})
    ensures forall d2, leaf2 :: ReadsAs(data, dirs, chains, d2, leaf2) == ReadsAs(data0, dirs, chains, d2, leaf2)
  {
    FailedKeeps(fat, data0, data, chains);
    SameConsistent(fat, data0, data, dirs, chains, {});
    forall d2, leaf2
      ensures ReadsAs(data, dirs, chains, d2, leaf2) == ReadsAs(data0, dirs, chains, d2, leaf2)
    {
      SameReads(data0, data, dirs, chains, d2, leaf2);
    }
  }

  lemma UnshadowedWider(slots: seq<Slot>, slots': seq<Slot>, leaf: string)
    requires WiderFind(slots, slots', leaf) && WiderFind(slots, slots', Stored(leaf))
    ensures Unshadowed(slots', leaf) <==> Unshadowed(slots, leaf)
  {
    hide FindEntry;
    hide Stored;
  }

  lemma NotFolder(dirs: seq<Dir>, d: nat, leaf: string)
    requires d < |dirs| && FindEntry(dirs[d].slots, leaf, 0) == |dirs[d].slots|
    ensures !IsFolder(dirs, d, leaf)
  {
  }

  lemma SlotIsOpen(dirs: seq<Dir>, d: nat, k: nat)
    requires d < |dirs| && k < |dirs[d].slots| && Open(dirs[d].slots[k])
    ensures !Live(dirs, OfFile(d, k))
  {
  }

  lemma TailSet(fat: Table, tail: nat, c: u16)
    requires 2 <= tail < |fat| && fat[tail] != 0 && c != 0
    ensures FreeCount(fat[tail := c]) == FreeCount(fat)
  {
    FreeSet(fat, tail, c, |fat|);
  }

  lemma NoFile(data: seq<seq<byte>>, dirs: seq<Dir>, chains: map<Owner, seq<nat>>, d: nat, k: nat)
    requires d < |dirs| && (k >= |dirs[d].slots| || (dirs[d].slots[k].Entry? && dirs[d].slots[k].isDir))
    ensures SlotReads(data, dirs, chains, d, k) == None
  {
  }

  lemma FileReads(fat: Table, data: seq<seq<byte>>, dirs: seq<Dir>, chains: map<Owner, seq<nat>>, d: nat, k: nat)
    returns (s: seq<nat>)
    requires Consistent(fat, data, dirs, chains, {}) && d < |dirs| && k < |dirs[d].slots|
    requires dirs[d].slots[k].Entry? && !dirs[d].slots[k].isDir
    ensures IsChain(fat, s) && InTable(|data|, s) && dirs[d].slots[k].first == Head(s)
    ensures dirs[d].slots[k].size <= |Concat(data, s)|
    ensures SlotReads(data, dirs, chains, d, k) == Some(File(Concat(data, s)[..dirs[d].slots[k].size], |s|))
  {
    var o := OfFile(d, k);
    assert Live(dirs, o) && OwnerOk(data, dirs, chains, o);
    s := chains[o];
  }

  lemma MissingReads(data: seq<seq<byte>>, dirs: seq<Dir>, chains: map<Owner, seq<nat>>, d: nat, leaf: string)
    requires d < |dirs| && FindEntry(dirs[d].slots, leaf, 0) == |dirs[d].slots|
    ensures ReadsAs(data, dirs, chains, d, leaf) == None
  {
  }

  lemma ErasedOrderly(slots: seq<Slot>, k: nat)
    requires Orderly(slots) && k < |slots| && slots[k] != Never
    ensures Orderly(slots[k := Deleted])
  {
  }

  /** A deleted slot owns nothing. */
  lemma Erased(fat: Table, data: seq<seq<byte>>, dirs: seq<Dir>, chains: map<Owner, seq<nat>>, d: nat, k: nat)
    requires d < |dirs| && k < |dirs[d].slots| && dirs[d].slots[k] != Never
    requires Consistent(fat, data, dirs, chains, {OfFile(d, k)})
    ensures Consistent(fat, data, WithSlot(dirs, d, k, Deleted), chains, {})
  {
    var dirs' := WithSlot(dirs, d, k, Deleted);
    forall p | Live(dirs', p)
      ensures OwnerOk(data, dirs', chains, p)
    {
      assert Live(dirs, p) && p != OfFile(d, k);
      assert OwnerOk(data, dirs, chains, p);
    }
    forall p | p in chains
      ensures Live(dirs', p)
    {
      assert Live(dirs, p);
    }
    assert Orderly(dirs[d].slots);
    ErasedOrderly(dirs[d].slots, k);
    hide Orderly;
    forall i | 0 <= i < |dirs'|
      ensures Orderly(dirs'[i].slots)
    {
      assert Orderly(dirs[i].slots);
    }
  }

  /** Its name is gone, and every other name is where it was. */
  lemma ErasedReads(data: seq<seq<byte>>, dirs: seq<Dir>, chains: map<Owner, seq<nat>>, d: nat, k: nat, leaf: string,
                    d2: nat, leaf2: string)
    requires d < |dirs| && Orderly(dirs[d].slots) && k == FindEntry(dirs[d].slots, leaf, 0) < |dirs[d].slots|
    ensures ReadsAs(data, WithSlot(dirs, d, k, Deleted), chains, d2, leaf2) ==
            if d2 == d && SameName(leaf, leaf2) then None else ReadsAs(data, dirs, chains, d2, leaf2)
    ensures !IsFolder(dirs, d, leaf) ==>
              (IsFolder(WithSlot(dirs, d, k, Deleted), d2, leaf2) <==> IsFolder(dirs, d2, leaf2))
  {
    if d2 < |dirs| {
      var slots := dirs[d].slots;
      var dirs' := WithSlot(dirs, d, k, Deleted);
      if d2 == d {
        ErasedOrderly(slots, k);
        FindAfter(slots, k, Deleted, leaf2);
        NotEntry(Deleted, leaf2);
        if SameName(leaf, leaf2) {
          FindSame(slots, leaf, leaf2, 0);
        }
        assert FindEntry(slots, leaf2, 0) == k ==> Matches(slots[k], leaf2);
      }
      hide Orderly;
      hide Concat;
      hide Matches;
      hide SameName;
      var k2 := FindEntry(dirs[d2].slots, leaf2, 0);
      hide FindEntry;
      assert d2 != d || k2 != k ==> Live(dirs', OfFile(d2, k2)) == Live(dirs, OfFile(d2, k2));
    }
  }

  lemma LongEnough(data: seq<seq<byte>>, s: seq<nat>, buf: seq<byte>)
    requires InTable(|data|, s) && buf <= Concat(data, s)
    ensures |buf| <= |Concat(data, s)|
  {
  }

  lemma ChainsInTable(fat: Table, chains: map<Owner, seq<nat>>)
    requires ChainsOk(fat, chains)
    ensures forall p :: p in chains ==> InTable(|fat|, chains[p])
  {
  }

  lemma OpenIsHole(fat: Table, data: seq<seq<byte>>, dirs: seq<Dir>, chains: map<Owner, seq<nat>>, d: nat, k: nat)
    requires Consistent(fat, data, dirs, chains, {}) && d < |dirs| && k < |dirs[d].slots| && Open(dirs[d].slots[k])
    ensures Consistent(fat, data, dirs, chains, {OfFile(d, k)})
  {
    NoOwner(fat, data, dirs, chains, OfFile(d, k));
  }

  /** Dropping one owner's chain changes what its own name reads as and no other. */
  lemma DropReads(data: seq<seq<byte>>, dirs: seq<Dir>, chains: map<Owner, seq<nat>>, d: nat, k: nat, leaf: string,
                  d2: nat, leaf2: string)
    requires d < |dirs| && k == FindEntry(dirs[d].slots, leaf, 0) < |dirs[d].slots|
    requires d2 != d || !SameName(leaf, leaf2)
    ensures ReadsAs(data, dirs, chains - {OfFile(d, k)}, d2, leaf2) == ReadsAs(data, dirs, chains, d2, leaf2)
  {
    if d2 < |dirs| {
      var k2 := FindEntry(dirs[d2].slots, leaf2, 0);
      if d2 == d {
        assert k2 < |dirs[d].slots| ==> Matches(dirs[d].slots[k2], leaf2);
        assert k2 != k;
      }
    }
    hide Concat;
  }
}
