/** The dentry cache in front of path resolution, and every name-space
    operation that may or may not flush it.
 */
module PathCache {
  import opened Paths

  const LINES: nat := 128
  const PATH_MAX: nat := 191
  const PARENT_MAX: nat := 255
  const FAST_MAX: nat := 60
  const DIRECT: nat := 12

  datatype Line = Free | Cached(path: string, ino: nat)

  /** `home` says which inode each block in use belongs to, 0 for the metadata;
      `marked` are the blocks whose bit is set; `live` are the numbers past the last
      group for which free_block would find a set bit in what it takes for a bitmap. */
  datatype Blocks = Blocks(home: map<nat, nat>, marked: set<nat>, live: set<nat>)

  /** `torn` once a block in use was written by a call that does not own it. */
  datatype State = State(fs: Fs, lines: seq<Line>, clock: nat, blocks: Blocks, torn: bool)

  predicate Shape(st: State) {
    |st.lines| == LINES && st.clock < 0x1_0000_0000
  }

  // The cache itself.

  predicate Holds(line: Line, path: string) {
    line.Cached? && line.path == path
  }

  function GetFrom(lines: seq<Line>, path: string, i: nat): (r: nat)
    requires i <= |lines|
    decreases |lines| - i
  {
    if i == |lines| then 0
    else if Holds(lines[i], path) then lines[i].ino
    else GetFrom(lines, path, i + 1)
  }

  function Put(st: State, path: string, ino: nat): (r: State)
    requires Shape(st)
    ensures Shape(r) && r.fs == st.fs && r.blocks == st.blocks && r.torn == st.torn
  {
    if |path| > PATH_MAX then st
    else st.(lines := st.lines[st.clock % LINES := Cached(path, ino)], clock := (st.clock + 1) % 0x1_0000_0000)
  }

  function Flush(st: State): (r: State)
    requires Shape(st)
    ensures Shape(r) && r.fs == st.fs && r.blocks == st.blocks && r.torn == st.torn
  {
    st.(lines := seq(LINES, _ => Free))
  }

  // Cached resolution.

  function LastSlash(path: string, n: nat): (r: int)
    requires n <= |path|
    ensures -1 <= r < n
    ensures r >= 0 ==> path[r] == '/'
    ensures forall i :: r < i < n ==> path[i] != '/'
  {
    if n == 0 then -1 else if path[n - 1] == '/' then n - 1 else LastSlash(path, n - 1)
  }

  function Leaf(path: string, slash: nat): (r: string)
    requires slash < |path|
    ensures |r| <= NAME_MAX
  {
    var leaf := path[slash + 1..];
    if |leaf| <= NAME_MAX then leaf else leaf[..NAME_MAX]
  }

  /** What the parent-directory shortcut finds; 0 when it does not apply. */
  function Shortcut(st: State, path: string): (r: nat) {
    var slash := LastSlash(path, |path|);
    if slash <= 0 || slash > PARENT_MAX then 0 else
      var d, leaf := GetFrom(st.lines, path[..slash], 0), Leaf(path, slash);
      var i := if d != 0 && leaf != "" then Lookup(st.fs, d, leaf) else 0;
      if Readable(st.fs, i) && !IsLink(st.fs, i) then i else 0
  }

  function Resolve(st: State, path: string): (r: (State, nat))
    requires Shape(st)
    ensures Shape(r.0) && r.0.fs == st.fs && r.0.blocks == st.blocks && r.0.torn == st.torn
  {
    var hit := GetFrom(st.lines, path, 0);
    if Readable(st.fs, hit) then (st, hit)
    else if Shortcut(st, path) != 0 then (Put(st, path, Shortcut(st, path)), Shortcut(st, path))
    else
      var i := ResolveFrom(st.fs, ROOT, path, 0);
      (if i != 0 then Put(st, path, i) else st, i)
  }

  /** Neither the leaf nor any symlink expansion on the way is cut off. */
  predicate Untruncated(fs: Fs, path: string) {
    && FitsFrom(fs, ROOT, path, 0)
    && |path| - LastSlash(path, |path|) - 1 <= NAME_MAX
  }

  // Coherence: a line holds what the walk would return.

  ghost predicate LineRight(fs: Fs, line: Line) {
    line.Cached? ==> line.ino != 0 && Readable(fs, line.ino) && ResolveFrom(fs, ROOT, line.path, 0) == line.ino
  }

  ghost predicate Right(st: State) {
    Shape(st) && forall i :: 0 <= i < LINES ==> LineRight(st.fs, st.lines[i])
  }

  lemma {:induction false} GetRight(st: State, path: string, i: nat)
    requires Right(st) && i <= LINES
    ensures var r := GetFrom(st.lines, path, i);
            r != 0 ==> Readable(st.fs, r) && r == ResolveFrom(st.fs, ROOT, path, 0)
    decreases LINES - i
  {
    if i < LINES && !Holds(st.lines[i], path) {
      GetRight(st, path, i + 1);
    } else if i < LINES {
      assert LineRight(st.fs, st.lines[i]);
    }
  }

  lemma ShortcutRight(st: State, path: string)
    requires Right(st) && Untruncated(st.fs, path) && Shortcut(st, path) != 0
    ensures Shortcut(st, path) == ResolveFrom(st.fs, ROOT, path, 0)
  {
    var slash := LastSlash(path, |path|);
    var dir, leaf := path[..slash], path[slash + 1..];
    GetRight(st, dir, 0);
    assert Leaf(path, slash) == leaf;
    assert '/' !in leaf;
    assert path == dir + "/" + leaf;
    assert Joined(dir, leaf, path);
    LeafLeads(st.fs, ResolveFrom(st.fs, ROOT, dir, 0), leaf);
    ResolveJoined(st.fs, ROOT, dir, leaf, path, 0, Shortcut(st, path));
  }

  /** On a coherent cache, resolve is the plain walk from the root. */
  lemma ResolveIsWalk(st: State, path: string)
    requires Right(st) && Untruncated(st.fs, path)
    ensures Resolve(st, path).1 == ResolveFrom(st.fs, ROOT, path, 0)
    ensures Right(Resolve(st, path).0)
  {
    GetRight(st, path, 0);
    ResolvedFrom(st.fs, ROOT, path, 0);
    if Shortcut(st, path) != 0 {
      ShortcutRight(st, path);
    }
    var i := Resolve(st, path).1;
    if i != 0 {
      PutRight(st, path, i);
    }
  }

  lemma PutRight(st: State, path: string, i: nat)
    requires Right(st) && i != 0 && i == ResolveFrom(st.fs, ROOT, path, 0)
    ensures Right(Put(st, path, i))
  {
    ResolvedFrom(st.fs, ROOT, path, 0);
    var st' := Put(st, path, i);
    forall k | 0 <= k < LINES
      ensures LineRight(st'.fs, st'.lines[k])
    {
      assert LineRight(st.fs, st.lines[k]);
    }
  }

  // Name-space steps.

  function SetInode(fs: Fs, i: nat, inode: Inode): Fs {
    fs.(inodes := fs.inodes[i := inode])
  }

  function SetLinks(fs: Fs, i: nat, links: nat): Fs {
    if i in fs.inodes then SetInode(fs, i, fs.inodes[i].(links := links)) else fs
  }

  function AddName(fs: Fs, d: nat, name: string, i: nat): Fs
    requires IsDir(fs, d)
  {
    var inode := fs.inodes[d];
    SetInode(fs, d, inode.(node := Dir(inode.node.entries[name := i])))
  }

  function DropName(fs: Fs, d: nat, name: string): Fs
    requires IsDir(fs, d)
  {
    var inode := fs.inodes[d];
    SetInode(fs, d, inode.(node := Dir(inode.node.entries - {name})))
  }

  /** remove_dirent: a name leaves a directory; what it leaves of a file's data comes later. */
  function Struck(fs: Fs, d: nat, name: string): Fs {
    if IsDir(fs, d) then DropName(fs, d, name) else fs
  }

  function Taken(fs: Fs, i: nat): Fs {
    fs.(used := fs.used + {i})
  }

  function Freed(fs: Fs, i: nat): Fs {
    fs.(used := fs.used - {i})
  }

  /** One link fewer; the inode is freed with its last link. */
  function Unlinked(fs: Fs, i: nat): Fs
    requires Readable(fs, i)
  {
    var links := if fs.inodes[i].links > 0 then fs.inodes[i].links - 1 else 0;
    var fs' := SetLinks(fs, i, links);
    if links == 0 then Freed(fs', i) else fs'
  }

  predicate NoChildren(fs: Fs, d: nat)
    requires IsDir(fs, d)
  {
    forall name :: name in fs.inodes[d].node.entries.Keys && Lookup(fs, d, name) != 0 ==> name == "." || name == ".."
  }

  /** Writing through a symlink's own inode leaves some other target in it. */
  function Scribbled(fs: Fs, i: nat, target: string): Fs {
    if IsLink(fs, i) then SetInode(fs, i, fs.inodes[i].(node := Link(target))) else fs
  }

  /** A new inode, named unless the directory has no room. */
  function Created(fs: Fs, at: Place, i: nat, node: Node, links: nat, room: bool): Fs
    requires at.Place? && IsDir(fs, at.dir)
  {
    var fs' := SetInode(Taken(fs, i), i, Inode(node, links));
    if room && IsDir(fs', at.dir) then AddName(fs', at.dir, at.leaf, i) else fs'
  }

  function WriteFile(fs: Fs, path: string, i: nat, room: bool): Fs {
    var at := ParentOf(fs, path);
    if at.Nowhere? || !IsDir(fs, at.dir) then fs else
      var there := Lookup(fs, at.dir, at.leaf);
      if there == 0 then (if i == 0 then fs else Created(fs, at, i, File(map[]), 1, room))
      else if !Readable(fs, there) || IsDir(fs, there) then fs
      else SetInode(fs, there, Inode(File(map[]), 1))
  }

  function Mkdir(fs: Fs, path: string, i: nat, room: bool): Fs {
    var at := ParentOf(fs, path);
    if at.Nowhere? || !IsDir(fs, at.dir) || Lookup(fs, at.dir, at.leaf) != 0 || i == 0 then fs else
      var fs' := Created(fs, at, i, Dir(map["." := i, ".." := at.dir]), 2, room);
      SetLinks(fs', at.dir, (fs.inodes[at.dir].links + 1) % 0x1_0000)
  }

  function Symlink(fs: Fs, target: string, path: string, i: nat, room: bool): Fs {
    var at := ParentOf(fs, path);
    if !Followable(target) || at.Nowhere? || !IsDir(fs, at.dir) || Lookup(fs, at.dir, at.leaf) != 0 || i == 0 then fs
    else if room then Created(fs, at, i, Link(target), 1, room)
    else SetInode(fs, i, Inode(Link(target), 1))
  }

  /** unlink does not ask whether the parent is a directory. */
  function Unlink(fs: Fs, path: string): Fs {
    var at := ParentOf(fs, path);
    if at.Nowhere? then fs else
      var i := Parsed(fs, at.dir, at.leaf);
      if !Readable(fs, i) then fs
      else if IsDir(fs, i) then
        if !NoChildren(fs, i) then fs else
          var fs' := Freed(SetLinks(Struck(fs, at.dir, at.leaf), i, 0), i);
          var links := fs'.inodes[at.dir].links;
          if links > 2 then SetLinks(fs', at.dir, links - 1) else fs'
      else Unlinked(Struck(fs, at.dir, at.leaf), i)
  }

  /** What rename has done before it moves the source entry. */
  function Replaced(fs: Fs, b: Place): (r: Fs)
    requires b.Place?
  {
    var there := Parsed(fs, b.dir, b.leaf);
    if there == 0 then fs else
      var struck := Struck(fs, b.dir, b.leaf);
      if Readable(struck, there) then Unlinked(struck, there) else struck
  }

  /** rename does not ask either, of neither parent. */
  function Rename(fs: Fs, from: string, to: string, room: bool): Fs {
    var a, b := ParentOf(fs, from), ParentOf(fs, to);
    if a.Nowhere? || b.Nowhere? then fs else
      var i := Parsed(fs, a.dir, a.leaf);
      var there := Parsed(fs, b.dir, b.leaf);
      if !Readable(fs, i) || !Readable(fs, b.dir) || there == i then fs else
        var moved := Struck(Replaced(fs, b), a.dir, a.leaf);
        if room && IsDir(moved, b.dir) then AddName(moved, b.dir, b.leaf, i) else moved
  }

  function Bumped(fs: Fs, i: nat): Fs {
    if i in fs.inodes then SetLinks(fs, i, (fs.inodes[i].links + 1) % 0x1_0000) else fs
  }

  /** The half of link after its target was resolved to i. */
  function LinkTo(fs: Fs, i: nat, path: string, room: bool): Fs {
    if !Readable(fs, i) || IsDir(fs, i) then fs else
      var fs' := Bumped(fs, i);
      var at := ParentOf(fs', path);
      if at.Nowhere? || !IsDir(fs', at.dir) || Lookup(fs', at.dir, at.leaf) != 0 || !room then fs'
      else AddName(fs', at.dir, at.leaf, i)
  }

  /** The inode the last component names; 0 when there is none. */
  function NamedBy(fs: Fs, path: string): nat {
    var at := ParentOf(fs, path);
    if at.Place? then Parsed(fs, at.dir, at.leaf) else 0
  }

  /** A write to this path makes a new file. */
  predicate Creates(fs: Fs, path: string) {
    var at := ParentOf(fs, path);
    at.Place? && IsDir(fs, at.dir) && Lookup(fs, at.dir, at.leaf) == 0
  }

  /** A write to this path goes to an inode that is there already. */
  predicate Hits(fs: Fs, path: string) {
    var at := ParentOf(fs, path);
    && at.Place? && IsDir(fs, at.dir)
    && Readable(fs, NamedBy(fs, path)) && !IsDir(fs, NamedBy(fs, path))
  }

  /** The unlink goes through and gives the inode back. */
  predicate UnlinkFrees(fs: Fs, path: string) {
    var i := NamedBy(fs, path);
    Readable(fs, i) && if IsDir(fs, i) then NoChildren(fs, i) else fs.inodes[i].links <= 1
  }

  /** The rename replaces another entry and gives that inode back. */
  predicate RenameFrees(fs: Fs, from: string, to: string) {
    var i, there := NamedBy(fs, from), NamedBy(fs, to);
    Readable(fs, i) && there != i && Readable(fs, there) && fs.inodes[there].links <= 1
  }

  function Pwrite(st: State, path: string, i: nat, scribble: string, room: bool): (r: State)
    requires Shape(st)
    ensures Shape(r) && r.blocks == st.blocks && r.torn == st.torn
  {
    if Creates(st.fs, path) then
      Flush(st).(fs := if i == 0 then st.fs else Created(st.fs, ParentOf(st.fs, path), i, File(map[]), 1, room))
    else if Hits(st.fs, path) then st.(fs := Scribbled(st.fs, NamedBy(st.fs, path), scribble))
    else st
  }

  // Symlinks kept in their inode, in place of the block numbers.

  predicate FastLink(fs: Fs, i: nat) {
    IsLink(fs, i) && |fs.inodes[i].node.target| <= FAST_MAX
  }

  function CharAt(text: string, i: nat): (c: nat)
    ensures c < 256
  {
    if i < |text| then text[i] as int % 256 else 0
  }

  /** The k-th block number that the text reads as. */
  function Word(text: string, k: nat): nat {
    CharAt(text, 4 * k) + 256 * CharAt(text, 4 * k + 1) + 65536 * CharAt(text, 4 * k + 2)
    + 16777216 * CharAt(text, 4 * k + 3)
  }

  /** The numbers that freeing the inode hands to free_block, for a text that
      leaves the index slots alone. */
  function Spelt(text: string): set<nat> {
    set k | 0 <= k < DIRECT && Word(text, k) != 0 :: Word(text, k)
  }

  // Runs.

  /** What the environment decides about a call besides its arguments: the blocks
      it is given and the inodes they are for (`got`), which of its inode's own
      blocks it frees (`gave`), what the data of a file it writes reads as in place
      of records (`data`), what can be read where blocks have changed hands (`left`),
      which numbers past the last group are `live` afterwards, and whether it went
      through an index table that had been overwritten, on disk or in its shared
      buffer (`wild`). */
  datatype Fallout = Fallout(wild: bool, left: Fs, data: map<nat, map<string, nat>>, got: map<nat, nat>,
                             gave: set<nat>, live: set<nat>)

  /** Each call with the clear bit of the inode bitmap it gets (0 for none), whether
      the directory has room, what a write through a symlink's inode would leave
      there, and the fallout.  Stat stands for the calls that only read, Touching
      for chmod, chown and utime. */
  datatype Event =
    | Stat(path: string)
    | Touching(path: string, out: Fallout)
    | Truncating(path: string, out: Fallout)
    | Writing(path: string, i: nat, room: bool, out: Fallout)
    | Pwriting(path: string, i: nat, scribble: string, room: bool, out: Fallout)
    | Symlinking(target: string, path: string, i: nat, room: bool, out: Fallout)
    | Mkdiring(path: string, i: nat, room: bool, out: Fallout)
    | Unlinking(path: string, out: Fallout)
    | Renaming(from: string, to: string, room: bool, out: Fallout)
    | Linking(target: string, path: string, room: bool, out: Fallout)

  predicate Clear(fs: Fs, i: nat) {
    i == 0 || i !in fs.used
  }

  /** The calls that allocate no block. */
  predicate Spares(e: Event) {
    e.Stat? || e.Touching? || e.Truncating? || e.Unlinking?
  }

  /** The inode whose blocks the call frees, 0 for none. */
  function Frees(st: State, e: Event): nat
    requires Shape(st)
  {
    match e
    case Truncating(path, _) =>
      var i := Resolve(Flush(st), path).1;
      if Readable(st.fs, i) && !IsDir(st.fs, i) then i else 0
    case Writing(path, _, _, _) => if Hits(st.fs, path) then NamedBy(st.fs, path) else 0
    case Unlinking(path, _) => if UnlinkFrees(st.fs, path) then NamedBy(st.fs, path) else 0
    case Renaming(from, to, _, _) => if RenameFrees(st.fs, from, to) then NamedBy(st.fs, to) else 0
    case _ => 0
  }

  /** The block numbers it frees because a symlink's text spells them. */
  function Misread(st: State, e: Event): set<nat>
    requires Shape(st)
  {
    var i := Frees(st, e);
    if FastLink(st.fs, i) then Spelt(st.fs.inodes[i].node.target) else {}
  }

  /** The blocks still in use, and those still marked, when the call allocates. */
  function InUse(st: State, e: Event): map<nat, nat>
    requires Shape(st) && !e.Stat?
  {
    st.blocks.home - e.out.gave
  }

  function Bits(st: State, e: Event): set<nat>
    requires Shape(st) && !e.Stat?
  {
    st.blocks.marked - e.out.gave - Misread(st, e)
  }

  /** The inode is one the bitmap can give, a pwrite is not refused, the blocks
      given have a clear bit, and those freed belong to the inode freed. */
  predicate Possible(st: State, e: Event)
    requires Shape(st)
  {
    && (match e
        case Writing(_, i, _, _) => Clear(st.fs, i)
        case Pwriting(path, i, _, _, _) => Clear(st.fs, i) && (Creates(st.fs, path) || Hits(st.fs, path))
        case Symlinking(_, _, i, _, _) => Clear(st.fs, i)
        case Mkdiring(_, i, _, _) => Clear(st.fs, i)
        case _ => true)
    && (!e.Stat? ==>
          && (Spares(e) ==> e.out.got == map[])
          && e.out.got.Keys !! Bits(st, e)
          && forall b :: b in e.out.gave ==> b in st.blocks.home && st.blocks.home[b] == Frees(st, e) != 0)
  }

  /** The inodes whose blocks are given away while still in use. */
  function Lost(st: State, e: Event): set<nat>
    requires Shape(st) && !e.Stat?
  {
    set b | b in e.out.got && b in InUse(st, e) :: InUse(st, e)[b]
  }

  /** The directory the last component is looked up in has been freed. */
  predicate Stray(fs: Fs, path: string) {
    var at := ParentOf(fs, path);
    at.Place? && at.dir !in fs.used
  }

  /** A symlink kept in its inode whose text reaches the index slots, or a number past the last group. */
  predicate Overreaching(st: State, i: nat) {
    FastLink(st.fs, i) &&
    var text := st.fs.inodes[i].node.target;
    |text| > 4 * DIRECT || Spelt(text) * st.blocks.live != {}
  }

  predicate Owns(st: State, i: nat) {
    i in st.fs.used && !Overreaching(st, i)
  }

  /** The call writes or frees blocks through an inode that does not own them. */
  predicate Foreign(st: State, e: Event)
    requires Shape(st)
  {
    match e
    case Stat(_) => false
    case Touching(_, _) => false
    case Truncating(path, _) =>
      var i := Resolve(Flush(st), path).1;
      Readable(st.fs, i) && !IsDir(st.fs, i) && (IsLink(st.fs, i) || i !in st.fs.used)
    case Writing(path, _, _, _) => Stray(st.fs, path) || (Hits(st.fs, path) && !Owns(st, NamedBy(st.fs, path)))
    case Pwriting(path, _, _, _, _) =>
      || Stray(st.fs, path)
      || (Hits(st.fs, path) && (FastLink(st.fs, NamedBy(st.fs, path)) || NamedBy(st.fs, path) !in st.fs.used))
    case Symlinking(_, path, _, _, _) => Stray(st.fs, path)
    case Mkdiring(path, _, _, _) => Stray(st.fs, path)
    case Unlinking(path, _) =>
      || Stray(st.fs, path)
      || (Readable(st.fs, NamedBy(st.fs, path)) && NamedBy(st.fs, path) !in st.fs.used)
      || (UnlinkFrees(st.fs, path) && !Owns(st, NamedBy(st.fs, path)))
    case Renaming(from, to, _, _) =>
      || Stray(st.fs, from) || Stray(st.fs, to)
      || (Readable(st.fs, NamedBy(st.fs, to)) && NamedBy(st.fs, to) !in st.fs.used)
      || (RenameFrees(st.fs, from, to) && !Owns(st, NamedBy(st.fs, to)))
    case Linking(target, path, _, _) => Stray(Bumped(st.fs, Resolve(st, target).1), path)
  }

  predicate Damages(st: State, e: Event)
    requires Shape(st)
  {
    !e.Stat? && (st.torn || e.out.wild || Foreign(st, e))
  }

  /** What the call itself does to the name space and the cache. */
  function Perform(st: State, e: Event): (r: State)
    requires Shape(st)
    ensures Shape(r) && r.blocks == st.blocks && r.torn == st.torn
  {
    match e
    case Stat(path) => Resolve(st, path).0
    case Touching(path, _) => Resolve(st, path).0
    case Truncating(path, _) => Resolve(Flush(st), path).0
    case Writing(path, i, room, _) => Flush(st).(fs := WriteFile(st.fs, path, i, room))
    case Pwriting(path, i, scribble, room, _) => Pwrite(st, path, i, scribble, room)
    case Symlinking(target, path, i, room, _) => st.(fs := Symlink(st.fs, target, path, i, room))
    case Mkdiring(path, i, room, _) => Flush(st).(fs := Mkdir(st.fs, path, i, room))
    case Unlinking(path, _) => Flush(st).(fs := Unlink(st.fs, path))
    case Renaming(from, to, room, _) => Flush(st).(fs := Rename(st.fs, from, to, room))
    case Linking(target, path, room, _) =>
      var (st', i) := Resolve(st, target);
      st'.(fs := LinkTo(st'.fs, i, path, room))
  }

  function DirOf(fs: Fs, path: string): set<nat> {
    var at := ParentOf(fs, path);
    if at.Place? then {at.dir} else {}
  }

  /** The inodes whose data the call may change. */
  function Written(st: State, e: Event): set<nat>
    requires Shape(st)
  {
    match e
    case Truncating(path, _) => {Resolve(Flush(st), path).1}
    case Writing(path, i, _, _) => {i, NamedBy(st.fs, path)}
    case Pwriting(path, i, _, _, _) => {i, NamedBy(st.fs, path)}
    case Unlinking(path, _) => DirOf(st.fs, path)
    case Renaming(from, to, _, _) => DirOf(st.fs, from) + DirOf(st.fs, to)
    case _ => {}
  }

  function Reworded(fs: Fs, who: set<nat>, data: map<nat, map<string, nat>>): Fs {
    fs.(inodes := map i | i in fs.inodes ::
          if i in who && i in data && fs.inodes[i].node.File? then fs.inodes[i].(node := File(data[i]))
          else fs.inodes[i])
  }

  /** Allocating zeroes and hands out the blocks of freed inodes, whose block
      numbers stay on disk: those inodes may read as anything. */
  function Reused(fs: Fs, left: Fs): Fs {
    fs.(inodes := (left.inodes - fs.used) + (fs.inodes - (fs.inodes.Keys - fs.used)))
  }

  /** The inodes in `lost` read as anything; with metadata lost, everything does. */
  function Overlaid(fs: Fs, lost: set<nat>, left: Fs): Fs {
    if 0 in lost then left
    else fs.(inodes := (fs.inodes - lost) + (left.inodes - (left.inodes.Keys - lost)))
  }

  function Settled(st: State, e: Event): Blocks
    requires Shape(st) && !e.Stat?
  {
    Blocks(InUse(st, e) + e.out.got, Bits(st, e) + e.out.got.Keys, e.out.live)
  }

  function Step(st: State, e: Event): (r: State)
    requires Shape(st)
    ensures Shape(r)
  {
    if !Possible(st, e) then st
    else if e.Stat? then Perform(st, e)
    else
      var st' := Perform(st, e).(blocks := Settled(st, e));
      var fs := Reworded(st'.fs, Written(st, e), e.out.data);
      if Damages(st, e) then st'.(fs := e.out.left, torn := true)
      else if Lost(st, e) != {} then st'.(fs := Overlaid(fs, Lost(st, e), e.out.left), torn := true)
      else if Spares(e) then st'.(fs := fs)
      else st'.(fs := Reused(fs, e.out.left))
  }

  function Boot(fs: Fs, blocks: Blocks): (r: State)
    ensures Shape(r)
  {
    State(fs, seq(LINES, _ => Free), 0, blocks, false)
  }

  function Run(fs: Fs, blocks: Blocks, events: seq<Event>): (r: State)
    ensures Shape(r)
  {
    if events == [] then Boot(fs, blocks) else Step(Run(fs, blocks, events[..|events| - 1]), events[|events| - 1])
  }

  /** Everything an allocated directory names is allocated. */
  ghost predicate Sound(fs: Fs) {
    Region(fs, fs.used)
  }

  /** Every block in use has its bit set, so that none is given away. */
  predicate Kept(blocks: Blocks) {
    blocks.home.Keys <= blocks.marked
  }

  /** What the cache relies on: resolved paths are not cut, and a call that does
      not flush damages nothing, does not write a symlink, and allocates only
      where no name dangles and no block in use has a clear bit. */
  ghost predicate Allowed(st: State, e: Event)
    requires Shape(st)
  {
    match e
    case Stat(path) => Untruncated(st.fs, path)
    case Touching(path, _) => Untruncated(st.fs, path) && !Damages(st, e)
    case Truncating(path, _) => Untruncated(st.fs, path) && !Damages(st, e)
    case Linking(target, _, _, _) =>
      Untruncated(st.fs, target) && Sound(st.fs) && Kept(st.blocks) && !Damages(st, e)
    case Symlinking(_, _, _, _, _) => Sound(st.fs) && Kept(st.blocks) && !Damages(st, e)
    case Pwriting(path, _, _, _, _) =>
      Hits(st.fs, path) ==>
        Sound(st.fs) && Kept(st.blocks) && !Damages(st, e) && !IsLink(st.fs, NamedBy(st.fs, path))
    case _ => true
  }

  ghost predicate AllAllowed(fs: Fs, blocks: Blocks, events: seq<Event>) {
    events != [] ==>
      && AllAllowed(fs, blocks, events[..|events| - 1])
      && Allowed(Run(fs, blocks, events[..|events| - 1]), events[|events| - 1])
  }

  // Each step keeps the cache right.

  lemma FlushRight(st: State, fs: Fs)
    requires Shape(st)
    ensures Right(Flush(st).(fs := fs))
  {
  }

  lemma GrowRight(st: State, fs: Fs, live: set<nat>)
    requires Right(st) && Region(st.fs, live) && Grown(st.fs, fs, live)
    ensures Right(st.(fs := fs))
  {
    forall k | 0 <= k < LINES
      ensures LineRight(fs, st.lines[k])
    {
      assert LineRight(st.fs, st.lines[k]);
      if st.lines[k].Cached? {
        ResolveSurvives(st.fs, fs, live, ROOT, st.lines[k].path, 0);
      }
    }
  }

  lemma SymlinkGrows(fs: Fs, target: string, path: string, i: nat, room: bool)
    requires Sound(fs) && Clear(fs, i)
    ensures Grown(fs, Symlink(fs, target, path, i, room), fs.used)
    ensures fs.used <= Symlink(fs, target, path, i, room).used
  {
  }

  lemma LinkGrows(fs: Fs, i: nat, path: string, room: bool, live: set<nat>)
    ensures Grown(fs, LinkTo(fs, i, path, room), live)
    ensures fs.used <= LinkTo(fs, i, path, room).used
  {
  }

  lemma ReusedGrows(fs: Fs, fs': Fs, left: Fs, live: set<nat>)
    requires Grown(fs, fs', live) && live <= fs'.used
    ensures Grown(fs, Reused(fs', left), live)
  {
  }

  lemma RewordedGrows(fs: Fs, fs': Fs, who: set<nat>, data: map<nat, map<string, nat>>, live: set<nat>)
    requires Grown(fs, fs', live)
    ensures Grown(fs, Reworded(fs', who, data), live) && Reworded(fs', who, data).used == fs'.used
  {
    var fs'' := Reworded(fs', who, data);
    assert forall d, name :: Lookup(fs'', d, name) == Lookup(fs', d, name);
  }

  /** A region that always exists: every readable or named inode. */
  function Everything(fs: Fs): set<nat> {
    {ROOT} + fs.inodes.Keys +
    (set d, name | d in fs.inodes && fs.inodes[d].node.Dir? && name in fs.inodes[d].node.entries ::
       fs.inodes[d].node.entries[name])
  }

  lemma EverythingIsRegion(fs: Fs)
    ensures Region(fs, Everything(fs))
  {
  }

  /** A call that flushed first leaves an empty cache, whatever became of the disk. */
  lemma FlushedStepRight(st: State, e: Event)
    requires Shape(st) && Possible(st, e)
    requires e.Writing? || e.Mkdiring? || e.Unlinking? || e.Renaming? || (e.Pwriting? && Creates(st.fs, e.path))
    ensures Right(Step(st, e))
  {
    assert Step(st, e).lines == Flush(st).lines;
  }

  /** While every block in use has its bit set, none is given away. */
  lemma NothingLost(st: State, e: Event)
    requires Shape(st) && !e.Stat? && Possible(st, e) && Kept(st.blocks) && Misread(st, e) == {}
    ensures Lost(st, e) == {}
  {
  }

  /** A call that does not flush, on a disk where nothing dangles. */
  lemma GrowingStepRight(st: State, e: Event, fs': Fs)
    requires Right(st) && Sound(st.fs) && Kept(st.blocks) && Possible(st, e) && !Damages(st, e)
    requires e.Symlinking? || e.Linking? || e.Pwriting?
    requires Right(Perform(st, e).(fs := st.fs)) && Perform(st, e).fs == fs'
    requires Grown(st.fs, fs', st.fs.used) && st.fs.used <= fs'.used
    ensures Right(Step(st, e))
  {
    hide Foreign;
    hide Perform;
    hide Resolve;
    hide Grown;
    hide Reworded;
    hide Reused;
    NothingLost(st, e);
    hide Lost;
    hide Bits;
    var p := Perform(st, e);
    var fs1 := Reworded(fs', Written(st, e), e.out.data);
    RewordedGrows(st.fs, fs', Written(st, e), e.out.data, st.fs.used);
    ReusedGrows(st.fs, fs1, e.out.left, st.fs.used);
    GrowRight(p.(fs := st.fs), Reused(fs1, e.out.left), st.fs.used);
  }

  lemma TruncateRight(st: State, path: string, out: Fallout)
    requires Right(st) && Allowed(st, Truncating(path, out)) && Possible(st, Truncating(path, out))
    ensures Right(Step(st, Truncating(path, out)))
  {
    var e := Truncating(path, out);
    FlushRight(st, st.fs);
    ResolveIsWalk(Flush(st), path);
    var st' := Resolve(Flush(st), path).0;
    EverythingIsRegion(st.fs);
    assert Grown(st.fs, st.fs, Everything(st.fs));
    RewordedGrows(st.fs, st.fs, Written(st, e), out.data, Everything(st.fs));
    GrowRight(st', Reworded(st.fs, Written(st, e), out.data), Everything(st.fs));
    assert Lost(st, e) == {};
    hide Resolve;
    hide Grown;
    hide Everything;
    hide Reworded;
  }

  lemma TouchRight(st: State, path: string, out: Fallout)
    requires Right(st) && Allowed(st, Touching(path, out)) && Possible(st, Touching(path, out))
    ensures Right(Step(st, Touching(path, out)))
  {
    ResolveIsWalk(st, path);
    var e := Touching(path, out);
    assert Reworded(st.fs, {}, out.data) == st.fs;
    assert Lost(st, e) == {};
    hide Resolve;
  }

  lemma StepRight(st: State, e: Event)
    requires Right(st) && Allowed(st, e)
    ensures Right(Step(st, e))
  {
    hide Step;
    if !Possible(st, e) {
      Refused(st, e);
    } else {
      match e
      case Stat(path) =>
        ResolveIsWalk(st, path);
        StatStep(st, path);
      case Touching(path, out) => TouchRight(st, path, out);
      case Truncating(path, out) => TruncateRight(st, path, out);
      case Writing(_, _, _, _) => FlushedStepRight(st, e);
      case Pwriting(path, _, _, _, _) =>
        if Creates(st.fs, path) {
          FlushedStepRight(st, e);
        } else {
          GrowingStepRight(st, e, st.fs);
        }
      case Symlinking(target, path, i, room, _) =>
        SymlinkGrows(st.fs, target, path, i, room);
        GrowingStepRight(st, e, Symlink(st.fs, target, path, i, room));
      case Mkdiring(_, _, _, _) => FlushedStepRight(st, e);
      case Unlinking(_, _) => FlushedStepRight(st, e);
      case Renaming(_, _, _, _) => FlushedStepRight(st, e);
      case Linking(target, path, room, _) =>
        ResolveIsWalk(st, target);
        var i := Resolve(st, target).1;
        LinkGrows(st.fs, i, path, room, st.fs.used);
        GrowingStepRight(st, e, LinkTo(st.fs, i, path, room));
    }
  }

  lemma Refused(st: State, e: Event)
    requires Shape(st) && !Possible(st, e)
    ensures Step(st, e) == st
  {
  }

  lemma StatStep(st: State, path: string)
    requires Shape(st)
    ensures Step(st, Stat(path)) == Resolve(st, path).0
  {
  }

  lemma {:induction false} RunRight(fs: Fs, blocks: Blocks, events: seq<Event>)
    requires AllAllowed(fs, blocks, events)
    ensures Right(Run(fs, blocks, events))
  {
    if events != [] {
      RunRight(fs, blocks, events[..|events| - 1]);
      StepRight(Run(fs, blocks, events[..|events| - 1]), events[|events| - 1]);
    }
  }

  /** After every such run the cached resolve, shortcut included, is the plain walk. */
  lemma CachedResolveIsWalk(fs: Fs, blocks: Blocks, events: seq<Event>, path: string)
    requires AllAllowed(fs, blocks, events)
    requires Untruncated(Run(fs, blocks, events).fs, path)
    ensures Resolve(Run(fs, blocks, events), path).1 == ResolveFrom(Run(fs, blocks, events).fs, ROOT, path, 0)
  {
    RunRight(fs, blocks, events);
    ResolveIsWalk(Run(fs, blocks, events), path);
  }

  // When names stop dangling.

  /** Some allocated directory other than x itself names x, besides entry `name` of d. */
  ghost predicate NamedBeside(fs: Fs, x: nat, d: nat, name: string) {
    exists e, n :: e in fs.used && e != x && (e, n) != (d, name) && Lookup(fs, e, n) == x
  }

  ghost predicate Named(fs: Fs, x: nat) {
    exists e, n :: e in fs.used && e != x && Lookup(fs, e, n) == x
  }

  lemma FreedSoundIff(fs: Fs, x: nat)
    requires Sound(fs) && x != 0
    ensures Sound(Freed(fs, x)) <==> x != ROOT && !Named(fs, x)
  {
    var fs' := Freed(fs, x);
    assert forall d, name :: Lookup(fs', d, name) == Lookup(fs, d, name);
    if x != ROOT && !Named(fs, x) {
      forall d, name | d in fs'.used && Lookup(fs', d, name) != 0
        ensures Lookup(fs', d, name) in fs'.used
      {
      }
    } else if x != ROOT {
      var e, n :| e in fs.used && e != x && Lookup(fs, e, n) == x;
      assert e in fs'.used && Lookup(fs', e, n) !in fs'.used;
    }
  }

  ghost predicate SameNames(fs: Fs, fs': Fs) {
    forall d, name :: Lookup(fs', d, name) == Lookup(fs, d, name)
  }

  ghost predicate OneNameLess(fs: Fs, fs': Fs, d: nat, name: string) {
    forall e: nat, n: string :: Lookup(fs', e, n) == if (e, n) == (d, name) then 0 else Lookup(fs, e, n)
  }

  lemma SetLinksNames(fs: Fs, i: nat, links: nat)
    ensures SameNames(fs, SetLinks(fs, i, links)) && SetLinks(fs, i, links).used == fs.used
  {
  }

  lemma StruckNames(fs: Fs, d: nat, name: string)
    ensures OneNameLess(fs, Struck(fs, d, name), d, name) && Struck(fs, d, name).used == fs.used
  {
  }

  lemma SoundBySame(fs: Fs, fs': Fs)
    requires SameNames(fs, fs') && fs'.used == fs.used
    ensures Sound(fs) <==> Sound(fs')
  {
  }

  /** Dropping one name of x and then freeing x. */
  lemma DropAndFree(fs: Fs, fs': Fs, d: nat, name: string, x: nat)
    requires Sound(fs) && x != 0 && OneNameLess(fs, fs', d, name) && fs'.used == fs.used
    ensures Sound(fs')
    ensures Sound(Freed(fs', x)) <==> x != ROOT && !NamedBeside(fs, x, d, name)
  {
    FreedSoundIff(fs', x);
    if NamedBeside(fs, x, d, name) {
      var e, n :| e in fs.used && e != x && (e, n) != (d, name) && Lookup(fs, e, n) == x;
      assert Lookup(fs', e, n) == x;
    }
    if Named(fs', x) {
      var e, n :| e in fs'.used && e != x && Lookup(fs', e, n) == x;
      assert Lookup(fs, e, n) == x && (e, n) != (d, name);
    }
  }

  ghost predicate UnlinkStrands(fs: Fs, path: string) {
    UnlinkFrees(fs, path) &&
    var at := ParentOf(fs, path);
    var i := NamedBy(fs, path);
    i == ROOT || NamedBeside(fs, i, at.dir, at.leaf)
  }

  /** Unlink leaves a dangling name exactly when the inode it frees had another
      one, be the parent a directory or a file. */
  lemma UnlinkSoundIff(fs: Fs, path: string)
    requires Sound(fs)
    ensures Sound(Unlink(fs, path)) <==> !UnlinkStrands(fs, path)
  {
    var at := ParentOf(fs, path);
    if at.Place? {
      var i := Parsed(fs, at.dir, at.leaf);
      if Readable(fs, i) {
        var struck := Struck(fs, at.dir, at.leaf);
        StruckNames(fs, at.dir, at.leaf);
        if IsDir(fs, i) {
          if NoChildren(fs, i) {
            var fs1 := SetLinks(struck, i, 0);
            SetLinksNames(struck, i, 0);
            DropAndFree(fs, fs1, at.dir, at.leaf, i);
            var freed := Freed(fs1, i);
            var links := freed.inodes[at.dir].links;
            if links > 2 {
              SetLinksNames(freed, at.dir, links - 1);
              SoundBySame(freed, Unlink(fs, path));
            }
          }
        } else {
          var links := if fs.inodes[i].links > 0 then fs.inodes[i].links - 1 else 0;
          SetLinksNames(struck, i, links);
          DropAndFree(fs, SetLinks(struck, i, links), at.dir, at.leaf, i);
        }
      }
    }
  }

  /** The rename goes through and leaves an entry in a directory. */
  predicate RenameEnters(fs: Fs, from: string, to: string, room: bool) {
    var b := ParentOf(fs, to);
    && room && b.Place? && IsDir(fs, b.dir)
    && Readable(fs, NamedBy(fs, from)) && NamedBy(fs, from) != NamedBy(fs, to)
  }

  /** It frees an inode that has another name, or enters one that file data
      spelled and that is not allocated. */
  ghost predicate RenameStrands(fs: Fs, from: string, to: string, room: bool) {
    || (RenameEnters(fs, from, to, room) && NamedBy(fs, from) !in fs.used)
    || (RenameFrees(fs, from, to) &&
        var b := ParentOf(fs, to);
        NamedBy(fs, to) == ROOT || NamedBeside(fs, NamedBy(fs, to), b.dir, b.leaf))
  }

  ghost predicate OneNameMore(fs: Fs, fs': Fs, d: nat, name: string, i: nat) {
    forall e: nat, n: string :: Lookup(fs', e, n) == if (e, n) == (d, name) then i else Lookup(fs, e, n)
  }

  lemma AddNames(fs: Fs, d: nat, name: string, i: nat)
    requires IsDir(fs, d)
    ensures OneNameMore(fs, AddName(fs, d, name, i), d, name, i) && AddName(fs, d, name, i).used == fs.used
  {
  }

  lemma SoundByMore(fs: Fs, fs': Fs, d: nat, name: string, i: nat)
    requires OneNameMore(fs, fs', d, name, i) && fs'.used == fs.used && Lookup(fs, d, name) == 0
    requires i in fs.used
    ensures Sound(fs) <==> Sound(fs')
  {
    if Sound(fs') {
      forall e, n | e in fs.used && Lookup(fs, e, n) != 0
        ensures Lookup(fs, e, n) in fs.used
      {
        assert Lookup(fs', e, n) == Lookup(fs, e, n);
      }
    }
  }

  /** Taking a name away from an inode that stays allocated. */
  lemma SoundByLess(fs: Fs, fs': Fs, d: nat, name: string)
    requires OneNameLess(fs, fs', d, name) && fs'.used == fs.used && Lookup(fs, d, name) in fs.used
    ensures Sound(fs) <==> Sound(fs')
  {
    if Sound(fs') {
      forall e, n | e in fs.used && Lookup(fs, e, n) != 0
        ensures Lookup(fs, e, n) in fs.used
      {
        assert (e, n) != (d, name) ==> Lookup(fs', e, n) == Lookup(fs, e, n);
      }
    }
  }

  lemma ReplacedSoundIff(fs: Fs, b: Place)
    requires Sound(fs) && b.Place?
    ensures var there := Parsed(fs, b.dir, b.leaf);
            Sound(Replaced(fs, b)) <==>
            (Readable(fs, there) && fs.inodes[there].links <= 1 ==>
               there != ROOT && !NamedBeside(fs, there, b.dir, b.leaf))
  {
    var there := Parsed(fs, b.dir, b.leaf);
    if there != 0 {
      var struck := Struck(fs, b.dir, b.leaf);
      StruckNames(fs, b.dir, b.leaf);
      if Readable(struck, there) {
        var links := if struck.inodes[there].links > 0 then struck.inodes[there].links - 1 else 0;
        SetLinksNames(struck, there, links);
        DropAndFree(fs, SetLinks(struck, there, links), b.dir, b.leaf, there);
      } else {
        DropAndFree(fs, struck, b.dir, b.leaf, there);
      }
    }
  }

  lemma ReplacedNames(fs: Fs, b: Place)
    requires b.Place?
    ensures OneNameLess(fs, Replaced(fs, b), b.dir, b.leaf)
    ensures var there := Parsed(fs, b.dir, b.leaf);
            Replaced(fs, b).used ==
            if Readable(fs, there) && fs.inodes[there].links <= 1 then fs.used - {there} else fs.used
    ensures forall d :: IsDir(fs, d) <==> IsDir(Replaced(fs, b), d)
  {
  }

  /** The allocated inodes that have a name, and the root. */
  ghost function Rooted(fs: Fs): set<nat> {
    set x | x in fs.used && (x == ROOT || Named(fs, x))
  }

  lemma RootedIsRegion(fs: Fs)
    requires Sound(fs)
    ensures Region(fs, Rooted(fs))
  {
    forall d, name | d in Rooted(fs) && Lookup(fs, d, name) != 0
      ensures Lookup(fs, d, name) in Rooted(fs)
    {
      var x := Lookup(fs, d, name);
      if x != d {
        assert d in fs.used && Lookup(fs, d, name) == x;
        assert Named(fs, x);
      }
    }
  }

  /** The inode that holds the last component is allocated, and is the root or has a name. */
  lemma ParentRooted(fs: Fs, path: string)
    requires Sound(fs)
    ensures var at := ParentOf(fs, path); at.Place? ==> at.dir in Rooted(fs)
  {
    if Readable(fs, ROOT) && Strip(path) != "" {
      RootedIsRegion(fs);
      ParentWalkStays(fs, Rooted(fs), ROOT, Strip(path));
    }
  }

  /** The half of rename after the replaced entry is gone. */
  lemma MovedSound(fs: Fs, fs1: Fs, a: Place, b: Place, i: nat)
    requires Sound(fs) && a.Place? && b.Place? && a.dir in fs.used && i == Parsed(fs, a.dir, a.leaf) != 0
    requires OneNameLess(fs, fs1, b.dir, b.leaf) && (forall d :: IsDir(fs, d) <==> IsDir(fs1, d))
    requires fs1.used == fs.used || (exists x :: x != i && fs1.used == fs.used - {x})
    requires i != Parsed(fs, b.dir, b.leaf)
    ensures Sound(Struck(fs1, a.dir, a.leaf)) <==> Sound(fs1)
  {
    StruckNames(fs1, a.dir, a.leaf);
    if IsDir(fs, a.dir) {
      assert Lookup(fs1, a.dir, a.leaf) == i;
      SoundByLess(fs1, Struck(fs1, a.dir, a.leaf), a.dir, a.leaf);
    }
  }

  /** Entering an inode that is not allocated. */
  lemma EnteredUnsound(fs: Fs, d: nat, name: string, i: nat)
    requires IsDir(fs, d) && d in fs.used && i !in fs.used && i != 0
    ensures !Sound(AddName(fs, d, name, i))
  {
    assert Lookup(AddName(fs, d, name, i), d, name) == i;
  }

  /** The last step of rename: the entry goes into the directory, if there is room. */
  lemma EntrySoundIff(fs: Fs, d: nat, name: string, i: nat)
    requires IsDir(fs, d) && i != 0 && Lookup(fs, d, name) == 0
    ensures Sound(AddName(fs, d, name, i)) <==> Sound(fs) && (d in fs.used ==> i in fs.used)
  {
    AddNames(fs, d, name, i);
    if d !in fs.used {
      UnusedEntry(fs, AddName(fs, d, name, i), d, name, i);
    } else if i in fs.used {
      SoundByMore(fs, AddName(fs, d, name, i), d, name, i);
    } else {
      EnteredUnsound(fs, d, name, i);
    }
  }

  /** Rename leaves a dangling name exactly when the inode it replaces is freed with
      another name left, or the one it enters is not allocated. */
  lemma RenameSoundIff(fs: Fs, from: string, to: string, room: bool)
    requires Sound(fs)
    ensures Sound(Rename(fs, from, to, room)) <==> !RenameStrands(fs, from, to, room)
  {
    var a, b := ParentOf(fs, from), ParentOf(fs, to);
    ParentRooted(fs, from);
    ParentRooted(fs, to);
    hide ParentOf;
    if a.Place? && b.Place? {
      var i, there := Parsed(fs, a.dir, a.leaf), Parsed(fs, b.dir, b.leaf);
      if Readable(fs, i) && Readable(fs, b.dir) && there != i {
        var fs1 := Replaced(fs, b);
        ReplacedSoundIff(fs, b);
        ReplacedNames(fs, b);
        hide Replaced;
        MovedSound(fs, fs1, a, b, i);
        var fs2 := Struck(fs1, a.dir, a.leaf);
        StruckNames(fs1, a.dir, a.leaf);
        assert IsDir(fs2, b.dir) <==> IsDir(fs, b.dir);
        hide Struck;
        hide Sound;
        hide NamedBeside;
        if room && IsDir(fs2, b.dir) {
          EntrySoundIff(fs2, b.dir, b.leaf, i);
          if b.dir !in fs2.used {
            FreedParent(fs, b);
          }
        }
      }
    }
  }

  /** A directory that gave itself away still has the name it was reached by. */
  lemma FreedParent(fs: Fs, b: Place)
    requires b.Place? && b.dir in Rooted(fs) && Parsed(fs, b.dir, b.leaf) == b.dir
    ensures b.dir == ROOT || NamedBeside(fs, b.dir, b.dir, b.leaf)
  {
    if b.dir != ROOT {
      var e, n :| e in fs.used && e != b.dir && Lookup(fs, e, n) == b.dir;
      assert (e, n) != (b.dir, b.leaf);
    }
  }

  lemma UnusedEntry(fs: Fs, fs': Fs, d: nat, name: string, i: nat)
    requires OneNameMore(fs, fs', d, name, i) && fs'.used == fs.used && d !in fs.used
    ensures Sound(fs') <==> Sound(fs)
  {
    assert forall e, n :: e in fs.used ==> Lookup(fs', e, n) == Lookup(fs, e, n);
  }

  lemma ParentUsed(fs: Fs, path: string)
    requires Sound(fs)
    ensures var at := ParentOf(fs, path); at.Place? ==> at.dir in fs.used
  {
    if Readable(fs, ROOT) && Strip(path) != "" {
      ParentWalkStays(fs, fs.used, ROOT, Strip(path));
    }
  }

  lemma CreatedSound(fs: Fs, at: Place, i: nat, node: Node, links: nat, room: bool)
    requires Sound(fs) && at.Place? && IsDir(fs, at.dir) && at.dir in fs.used && i !in fs.used
    requires Lookup(fs, at.dir, at.leaf) == 0
    requires node.Dir? ==> node.entries.Values <= {i, at.dir}
    ensures Sound(Created(fs, at, i, node, links, room))
  {
    var fs1 := SetInode(Taken(fs, i), i, Inode(node, links));
    assert Sound(fs1) by {
      forall d, name | d in fs1.used && Lookup(fs1, d, name) != 0
        ensures Lookup(fs1, d, name) in fs1.used
      {
        if d == i {
          assert Lookup(fs1, d, name) in node.entries.Values;
        } else {
          assert Lookup(fs1, d, name) == Lookup(fs, d, name);
        }
      }
    }
    if room {
      AddNames(fs1, at.dir, at.leaf, i);
      SoundByMore(fs1, AddName(fs1, at.dir, at.leaf, i), at.dir, at.leaf, i);
    }
  }

  lemma WriteFileSound(fs: Fs, path: string, i: nat, room: bool)
    requires Sound(fs) && Clear(fs, i)
    ensures Sound(WriteFile(fs, path, i, room))
  {
    ParentUsed(fs, path);
    var at := ParentOf(fs, path);
    if at.Place? && IsDir(fs, at.dir) {
      var there := Lookup(fs, at.dir, at.leaf);
      if there == 0 && i != 0 {
        CreatedSound(fs, at, i, File(map[]), 1, room);
      } else if Readable(fs, there) && !IsDir(fs, there) {
        SoundBySame(fs, SetInode(fs, there, Inode(File(map[]), 1)));
      }
    }
  }

  lemma MkdirSound(fs: Fs, path: string, i: nat, room: bool)
    requires Sound(fs) && Clear(fs, i)
    ensures Sound(Mkdir(fs, path, i, room))
  {
    ParentUsed(fs, path);
    var at := ParentOf(fs, path);
    if at.Place? && IsDir(fs, at.dir) && Lookup(fs, at.dir, at.leaf) == 0 && i != 0 {
      var node := Dir(map["." := i, ".." := at.dir]);
      CreatedSound(fs, at, i, node, 2, room);
      var fs1 := Created(fs, at, i, node, 2, room);
      var links := (fs.inodes[at.dir].links + 1) % 0x1_0000;
      SetLinksNames(fs1, at.dir, links);
      SoundBySame(fs1, SetLinks(fs1, at.dir, links));
    }
  }

  lemma SymlinkSound(fs: Fs, target: string, path: string, i: nat, room: bool)
    requires Sound(fs) && Clear(fs, i)
    ensures Sound(Symlink(fs, target, path, i, room))
  {
    ParentUsed(fs, path);
    var at := ParentOf(fs, path);
    if Followable(target) && at.Place? && IsDir(fs, at.dir) && Lookup(fs, at.dir, at.leaf) == 0 && i != 0 {
      if room {
        CreatedSound(fs, at, i, Link(target), 1, room);
      } else {
        var fs' := SetInode(fs, i, Inode(Link(target), 1));
        assert forall d, name :: d in fs.used ==> Lookup(fs', d, name) == Lookup(fs, d, name);
      }
    }
  }

  lemma LinkSound(fs: Fs, i: nat, path: string, room: bool)
    requires Sound(fs) && (i != 0 ==> i in fs.used)
    ensures Sound(LinkTo(fs, i, path, room))
  {
    if Readable(fs, i) && !IsDir(fs, i) {
      var links := (fs.inodes[i].links + 1) % 0x1_0000;
      var fs1 := SetLinks(fs, i, links);
      SetLinksNames(fs, i, links);
      SoundBySame(fs, fs1);
      var at := ParentOf(fs1, path);
      if at.Place? && IsDir(fs1, at.dir) && Lookup(fs1, at.dir, at.leaf) == 0 {
        AddNames(fs1, at.dir, at.leaf, i);
        SoundByMore(fs1, AddName(fs1, at.dir, at.leaf, i), at.dir, at.leaf, i);
      }
    }
  }

  lemma ScribbledSound(fs: Fs, i: nat, target: string)
    requires Sound(fs)
    ensures Sound(Scribbled(fs, i, target))
  {
    SoundBySame(fs, Scribbled(fs, i, target));
  }

  lemma PwriteSound(st: State, path: string, i: nat, scribble: string, room: bool)
    requires Shape(st) && Sound(st.fs) && Clear(st.fs, i)
    ensures Sound(Pwrite(st, path, i, scribble, room).fs)
  {
    ParentUsed(st.fs, path);
    if Creates(st.fs, path) {
      if i != 0 {
        CreatedSound(st.fs, ParentOf(st.fs, path), i, File(map[]), 1, room);
      }
    } else {
      ScribbledSound(st.fs, NamedBy(st.fs, path), scribble);
    }
  }

  /** Reusing the blocks of freed inodes cannot reach an allocated directory. */
  lemma ReusedSoundIff(fs: Fs, left: Fs)
    ensures Sound(Reused(fs, left)) <==> Sound(fs)
    ensures ROOT in fs.used ==> (IsLink(Reused(fs, left), ROOT) <==> IsLink(fs, ROOT))
  {
    assert forall d, name :: d in fs.used ==> Lookup(Reused(fs, left), d, name) == Lookup(fs, d, name);
  }

  // When a call leaves the whole disk in order.

  /** No name dangles, no block was written by a stranger, and every block in use has its bit set. */
  ghost predicate Whole(st: State) {
    Sound(st.fs) && !IsLink(st.fs, ROOT) && !st.torn && Kept(st.blocks)
  }

  ghost predicate Strands(st: State, e: Event) {
    || (e.Unlinking? && UnlinkStrands(st.fs, e.path))
    || (e.Renaming? && RenameStrands(st.fs, e.from, e.to, e.room))
  }

  /** The text of a symlink freed by the call spells no block in use. */
  predicate Harmless(st: State, e: Event)
    requires Shape(st) && !e.Stat?
  {
    Misread(st, e) !! InUse(st, e).Keys
  }

  /** The call strands no name, reads no block in use out of a symlink's text, and
      goes through no inode that is not its own and no overwritten index table. */
  ghost predicate Tidy(st: State, e: Event)
    requires Shape(st)
  {
    e.Stat? || (!e.out.wild && !Foreign(st, e) && !Strands(st, e) && Harmless(st, e))
  }

  lemma NamedUsed(fs: Fs, path: string)
    requires Sound(fs)
    ensures !Stray(fs, path)
    ensures var at := ParentOf(fs, path);
            at.Place? && IsDir(fs, at.dir) && NamedBy(fs, path) != 0 ==> NamedBy(fs, path) in fs.used
  {
    ParentUsed(fs, path);
  }

  /** Whatever resolve answers, from the cache or not, is allocated. */
  lemma ResolveUsed(st: State, path: string)
    requires Right(st) && Sound(st.fs)
    ensures var i := Resolve(st, path).1; i != 0 ==> i in st.fs.used
  {
    GetRight(st, path, 0);
    if ResolveFrom(st.fs, ROOT, path, 0) != 0 {
      ResolveSurvives(st.fs, st.fs, st.fs.used, ROOT, path, 0);
    }
    var slash := LastSlash(path, |path|);
    if Shortcut(st, path) != 0 {
      var dir := path[..slash];
      GetRight(st, dir, 0);
      ResolveSurvives(st.fs, st.fs, st.fs.used, ROOT, dir, 0);
    }
  }

  /** A call that hits an unallocated inode named by file data, writes into a symlink
      kept in its inode, or frees one that reaches further than the groups' bitmaps. */
  predicate Wanders(st: State, e: Event) {
    var fs := st.fs;
    match e
    case Writing(path, _, _, _) => Hits(fs, path) && Overreaching(st, NamedBy(fs, path))
    case Pwriting(path, _, _, _, _) => Hits(fs, path) && FastLink(fs, NamedBy(fs, path))
    case Unlinking(path, _) =>
      || (Readable(fs, NamedBy(fs, path)) && NamedBy(fs, path) !in fs.used)
      || (UnlinkFrees(fs, path) && Overreaching(st, NamedBy(fs, path)))
    case Renaming(from, to, _, _) =>
      || (Readable(fs, NamedBy(fs, to)) && NamedBy(fs, to) !in fs.used)
      || (RenameFrees(fs, from, to) && Overreaching(st, NamedBy(fs, to)))
    case _ => false
  }

  /** On a disk in order these are all the calls that go through an inode that is not their own. */
  lemma ForeignIff(st: State, e: Event)
    requires Right(st) && Whole(st)
    ensures Foreign(st, e) <==> Wanders(st, e)
  {
    match e
    case Stat(_) =>
    case Touching(_, _) =>
    case Truncating(path, _) =>
      FlushRight(st, st.fs);
      ResolveUsed(Flush(st), path);
      ResolveNoLink(Flush(st), path);
      hide Resolve;
    case Writing(path, _, _, _) => NamedUsed(st.fs, path);
    case Pwriting(path, _, _, _, _) => NamedUsed(st.fs, path);
    case Symlinking(_, path, _, _, _) => NamedUsed(st.fs, path);
    case Mkdiring(path, _, _, _) => NamedUsed(st.fs, path);
    case Unlinking(path, _) => NamedUsed(st.fs, path);
    case Renaming(from, to, _, _) =>
      NamedUsed(st.fs, from);
      NamedUsed(st.fs, to);
    case Linking(target, path, _, _) =>
      BumpedSound(st.fs, Resolve(st, target).1);
      NamedUsed(Bumped(st.fs, Resolve(st, target).1), path);
  }

  /** Resolving with a cold cache never ends on a symlink. */
  lemma ResolveNoLink(st: State, path: string)
    requires Right(st) && !IsLink(st.fs, ROOT)
    ensures !IsLink(st.fs, Resolve(st, path).1)
  {
    GetRight(st, path, 0);
    ResolvedFrom(st.fs, ROOT, path, 0);
  }

  lemma BumpedSound(fs: Fs, i: nat)
    requires Sound(fs)
    ensures Sound(Bumped(fs, i))
  {
    SoundBySame(fs, Bumped(fs, i));
  }

  lemma PerformSoundIff(st: State, e: Event)
    requires Right(st) && Sound(st.fs) && Possible(st, e)
    ensures Sound(Perform(st, e).fs) <==> !Strands(st, e)
  {
    match e
    case Stat(_) =>
    case Touching(_, _) =>
    case Truncating(_, _) =>
    case Writing(path, i, room, _) => WriteFileSound(st.fs, path, i, room);
    case Pwriting(path, i, scribble, room, _) => PwriteSound(st, path, i, scribble, room);
    case Symlinking(target, path, i, room, _) => SymlinkSound(st.fs, target, path, i, room);
    case Mkdiring(path, i, room, _) => MkdirSound(st.fs, path, i, room);
    case Unlinking(path, _) => UnlinkSoundIff(st.fs, path);
    case Renaming(from, to, room, _) => RenameSoundIff(st.fs, from, to, room);
    case Linking(target, path, room, _) =>
      ResolveUsed(st, target);
      LinkSound(st.fs, Resolve(st, target).1, path, room);
  }

  lemma RootNotCreated(st: State, path: string, i: nat, scribble: string, room: bool)
    requires Shape(st) && Clear(st.fs, i) && !IsLink(st.fs, ROOT) && ROOT in st.fs.used
    ensures !IsLink(WriteFile(st.fs, path, i, room), ROOT) && !IsLink(Mkdir(st.fs, path, i, room), ROOT)
    ensures !IsLink(Symlink(st.fs, scribble, path, i, room), ROOT)
    ensures !IsLink(Pwrite(st, path, i, scribble, room).fs, ROOT)
  {
  }

  lemma RootNotRemoved(fs: Fs, path: string, i: nat, room: bool)
    requires !IsLink(fs, ROOT)
    ensures !IsLink(Unlink(fs, path), ROOT) && !IsLink(LinkTo(fs, i, path, room), ROOT)
  {
  }

  lemma RootNotMoved(fs: Fs, from: string, to: string, room: bool)
    requires !IsLink(fs, ROOT)
    ensures !IsLink(Rename(fs, from, to, room), ROOT)
  {
  }

  lemma RootNotLink(st: State, e: Event)
    requires Shape(st) && Possible(st, e) && !IsLink(st.fs, ROOT) && ROOT in st.fs.used
    ensures !IsLink(Perform(st, e).fs, ROOT)
  {
    hide WriteFile;
    hide Mkdir;
    hide Symlink;
    hide Pwrite;
    hide Unlink;
    hide Rename;
    hide LinkTo;
    match e
    case Writing(path, i, room, _) => RootNotCreated(st, path, i, "", room);
    case Pwriting(path, i, scribble, room, _) => RootNotCreated(st, path, i, scribble, room);
    case Symlinking(target, path, i, room, _) => RootNotCreated(st, path, i, target, room);
    case Mkdiring(path, i, room, _) => RootNotCreated(st, path, i, "", room);
    case Unlinking(path, _) => RootNotRemoved(st.fs, path, 0, false);
    case Renaming(from, to, room, _) => RootNotMoved(st.fs, from, to, room);
    case Linking(target, path, room, _) => RootNotRemoved(st.fs, path, Resolve(st, target).1, room);
    case _ =>
  }

  lemma RewordedSoundIff(fs: Fs, who: set<nat>, data: map<nat, map<string, nat>>)
    ensures var fs' := Reworded(fs, who, data);
            (Sound(fs') <==> Sound(fs)) && fs'.used == fs.used && (IsLink(fs', ROOT) <==> IsLink(fs, ROOT))
  {
    SoundBySame(fs, Reworded(fs, who, data));
  }

  /** A block in use is given away, or left with a clear bit, exactly when the text
      of a symlink spelled it. */
  lemma BlocksKeptIff(st: State, e: Event)
    requires Shape(st) && !e.Stat? && Possible(st, e) && Kept(st.blocks)
    ensures (Lost(st, e) == {} && Kept(Settled(st, e))) <==> Harmless(st, e)
  {
    hide Misread;
    var home, bits, got := InUse(st, e), Bits(st, e), e.out.got;
    if Harmless(st, e) {
      assert forall b :: b in home ==> b in bits;
    } else {
      var b :| b in Misread(st, e) && b in home;
      if b in got {
        assert home[b] in Lost(st, e);
      } else {
        assert b in Settled(st, e).home && b !in Settled(st, e).marked;
      }
    }
  }

  /** From a disk in order, a call that stays with its own inodes leaves it in order
      exactly when it strands no name and reads no block in use out of a symlink's text. */
  lemma StepWholeIff(st: State, e: Event)
    requires Right(st) && Whole(st) && Possible(st, e) && !e.Stat? && !Damages(st, e)
    ensures Whole(Step(st, e)) <==> !Strands(st, e) && Harmless(st, e)
  {
    PerformSoundIff(st, e);
    RootNotLink(st, e);
    BlocksKeptIff(st, e);
    var p := Perform(st, e).fs;
    RewordedSoundIff(p, Written(st, e), e.out.data);
    ReusedSoundIff(Reworded(p, Written(st, e), e.out.data), e.out.left);
    hide Perform;
    hide Sound;
    hide Reused;
    hide Reworded;
    hide Strands;
    hide Harmless;
    hide Damages;
    hide Lost;
    hide Overlaid;
    hide Written;
    hide Possible;
  }

  /** Tidy, and besides no resolved path is cut and no symlink is written by pwrite. */
  ghost predicate Careful(st: State, e: Event)
    requires Shape(st)
  {
    && Tidy(st, e)
    && match e
       case Stat(path) => Untruncated(st.fs, path)
       case Touching(path, _) => Untruncated(st.fs, path)
       case Truncating(path, _) => Untruncated(st.fs, path)
       case Linking(target, _, _, _) => Untruncated(st.fs, target)
       case Pwriting(path, _, _, _, _) => !(Hits(st.fs, path) && IsLink(st.fs, NamedBy(st.fs, path)))
       case _ => true
  }

  lemma StepSound(st: State, e: Event)
    requires Right(st) && Whole(st) && Careful(st, e)
    ensures Right(Step(st, e)) && Whole(Step(st, e))
  {
    hide Foreign;
    StepRight(st, e);
    if !Possible(st, e) {
      Refused(st, e);
    } else if e.Stat? {
      StatStep(st, e.path);
    } else {
      StepWholeIff(st, e);
    }
    hide Step;
    hide Possible;
  }

  ghost predicate AllCareful(fs: Fs, blocks: Blocks, events: seq<Event>) {
    events != [] ==>
      && AllCareful(fs, blocks, events[..|events| - 1])
      && Careful(Run(fs, blocks, events[..|events| - 1]), events[|events| - 1])
  }

  lemma {:induction false} RunSound(fs: Fs, blocks: Blocks, events: seq<Event>)
    requires Sound(fs) && !IsLink(fs, ROOT) && Kept(blocks) && AllCareful(fs, blocks, events)
    ensures Right(Run(fs, blocks, events)) && Whole(Run(fs, blocks, events))
  {
    if events != [] {
      RunSound(fs, blocks, events[..|events| - 1]);
      StepSound(Run(fs, blocks, events[..|events| - 1]), events[|events| - 1]);
    }
  }

  /** From a sound file system, every run of careful calls keeps the cached
      resolve equal to the walk, and never hands out an inode still named. */
  lemma CarefulRunsStayCoherent(fs: Fs, blocks: Blocks, events: seq<Event>, path: string, i: nat)
    requires Sound(fs) && !IsLink(fs, ROOT) && Kept(blocks) && AllCareful(fs, blocks, events)
    requires Untruncated(Run(fs, blocks, events).fs, path)
    ensures Resolve(Run(fs, blocks, events), path).1 == ResolveFrom(Run(fs, blocks, events).fs, ROOT, path, 0)
    ensures i != 0 && Clear(Run(fs, blocks, events).fs, i) ==> !Named(Run(fs, blocks, events).fs, i)
  {
    RunSound(fs, blocks, events);
    ResolveIsWalk(Run(fs, blocks, events), path);
  }
}
