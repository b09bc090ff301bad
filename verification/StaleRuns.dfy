/** Runs after which the dentry cache and the walk disagree: one for each thing
    the cache relies on.
 */
module StaleRuns {
  import opened Paths
  import opened PathCache
  import B = BlockAlloc

  // Short paths.

  /** A component, a slash and the rest. */
  lemma FirstComponent(name: string, rest: string, p: string)
    requires Plain(name) && Tail(rest) && p == name + "/" + rest
    ensures p[0] != '/' && CompLen(p) == |name| && p[..|name|] == name && Rest(p) == rest
  {
    assert name[0] in name && p[0] == name[0];
    ScanFirst(name, rest, p, 0);
    assert p[|name|..] == "/" + rest && ("/" + rest)[1..] == rest;
    assert Strip(rest) == rest;
  }

  lemma {:induction false} ScanFirst(name: string, rest: string, p: string, n: nat)
    requires Plain(name) && p == name + "/" + rest && n <= |name|
    ensures ScanComp(p, n) == |name|
    decreases |name| - n
  {
    if n < |name| {
      assert p[n] == name[n] && name[n] in name;
      ScanFirst(name, rest, p, n + 1);
    } else {
      assert p[n] == '/';
    }
  }

  /** A path of one plain component under the root. */
  lemma OneComponent(fs: Fs, name: string, path: string)
    requires Plain(name) && path == "/" + name && Readable(fs, ROOT)
    ensures ParentOf(fs, path) == Place(ROOT, name)
    ensures Strip(path) == name && CompLen(name) == |name| && Rest(name) == ""
    ensures LastSlash(path, |path|) == 0
  {
    assert path[1..] == name && name[0] in name;
    assert Strip(name) == name;
    assert Strip(path) == name;
    ScanWhole(name, 0);
    assert name[..CompLen(name)] == name && name[CompLen(name)..] == "";
    forall i | 0 < i < |path|
      ensures path[i] != '/'
    {
      assert path[i] == name[i - 1] && name[i - 1] in name;
    }
    assert path[0] == '/';
  }

  /** The parent of a path of two, when the first names a directory. */
  lemma TwoComponents(fs: Fs, first: string, second: string, path: string)
    requires Plain(first) && Plain(second) && path == "/" + first + "/" + second && Readable(fs, ROOT)
    requires IsDir(fs, Lookup(fs, ROOT, first))
    ensures ParentOf(fs, path) == Place(Lookup(fs, ROOT, first), second)
  {
    var p := first + "/" + second;
    assert path[1..] == p && second[0] in second;
    FirstComponent(first, second, p);
    assert Strip(path) == Strip(p) == p;
    hide Strip;
    TwoComponentWalk(fs, first, second, p);
  }

  lemma TwoComponentWalk(fs: Fs, first: string, second: string, p: string)
    requires Plain(second) && Tail(second) && IsDir(fs, Lookup(fs, ROOT, first)) && Tail(p)
    requires p[..CompLen(p)] == first && Rest(p) == second
    ensures ParentWalk(fs, ROOT, p) == Place(Lookup(fs, ROOT, first), second)
  {
    ScanWhole(second, 0);
    assert second[..CompLen(second)] == second && Rest(second) == "";
    hide CompLen;
    hide Rest;
    var i := Lookup(fs, ROOT, first);
    assert Chase(fs, ROOT, i, MAX_DEPTH) == i;
    assert ParentWalk(fs, i, second) == Place(i, second);
  }

  /** Resolving a path of one that the root names. */
  lemma OneComponentWalk(fs: Fs, name: string, path: string, depth: nat)
    requires Plain(name) && path == "/" + name && IsDir(fs, ROOT) && depth <= MAX_DEPTH
    ensures var i := Lookup(fs, ROOT, name);
            ResolveFrom(fs, ROOT, path, depth) ==
            if !Readable(fs, i) then 0
            else if !IsLink(fs, i) then i
            else if Followable(fs.inodes[i].node.target) then
              ResolveFrom(fs, ROOT, fs.inodes[i].node.target, depth + 1)
            else 0
  {
    OneComponent(fs, name, path);
    assert name[..CompLen(name)] == name;
    var i := Lookup(fs, ROOT, name);
    if Readable(fs, i) && !IsLink(fs, i) {
      assert Walk(fs, i, "", depth) == i;
    }
  }

  lemma {:induction false} GetFree(lines: seq<Line>, path: string, i: nat)
    requires i <= |lines| && forall k :: i <= k < |lines| ==> lines[k] == Free
    ensures GetFrom(lines, path, i) == 0
    decreases |lines| - i
  {
    if i < |lines| {
      GetFree(lines, path, i + 1);
    }
  }

  lemma RunStep(fs: Fs, blocks: Blocks, events: seq<Event>, e: Event)
    ensures Run(fs, blocks, events + [e]) == Step(Run(fs, blocks, events), e)
    ensures events == [] ==> Run(fs, blocks, [e]) == Step(Boot(fs, blocks), e)
  {
    assert (events + [e])[..|events|] == events;
    if events == [] {
      assert events + [e] == [e];
    }
  }

  /** An empty cache after `clock` insertions. */
  function Cold(fs: Fs, clock: nat, blocks: Blocks): State {
    State(fs, seq(LINES, _ => Free), clock, blocks, false)
  }

  /** The same with one line. */
  function Warm(fs: Fs, path: string, i: nat, blocks: Blocks): State {
    State(fs, seq(LINES, _ => Free)[0 := Cached(path, i)], 1, blocks, false)
  }

  const EMPTY_ROOT: Fs := Fs(map[2 := Inode(Dir(map[]), 2)], {2})

  const EMPTY: Node := File(map[])

  /** The root directory's only block. */
  const ROOT_BLOCK: nat := 97

  const START: Blocks := Blocks(map[ROOT_BLOCK := 2], {ROOT_BLOCK}, {})

  /** Nothing else on the disk changes. */
  const QUIET: Fallout := Fallout(false, EMPTY_ROOT, map[], map[], {}, {})

  /** With every inode allocated there is nothing to reuse. */
  lemma NothingFreed(fs: Fs, left: Fs)
    requires fs.inodes.Keys <= fs.used && left.inodes.Keys <= fs.used
    ensures Reused(fs, left) == fs
  {
  }

  lemma NotReworded(fs: Fs, who: set<nat>)
    ensures Reworded(fs, who, map[]) == fs
  {
  }

  /** A call on an undamaged disk that gives away no block in use. */
  lemma CalmStep(st: State, e: Event, blocks: Blocks)
    requires Shape(st) && !e.Stat? && e.out.data == map[] && Possible(st, e) && !Damages(st, e)
    requires Settled(st, e) == blocks && Lost(st, e) == {}
    ensures Step(st, e) == Perform(st, e).(fs := if Spares(e) then Perform(st, e).fs
                                                 else Reused(Perform(st, e).fs, e.out.left),
                                           blocks := blocks)
  {
    NotReworded(Perform(st, e).fs, Written(st, e));
    hide Perform;
    hide Possible;
    hide Damages;
    hide Written;
    hide Reused;
    hide Reworded;
    hide Settled;
    hide Lost;
  }

  /** One that neither gets nor frees a block. */
  lemma QuietStep(st: State, e: Event)
    requires Shape(st) && !e.Stat? && e.out == QUIET && st.blocks.live == {}
    requires Possible(st, e) && !Damages(st, e) && Misread(st, e) == {}
    ensures Step(st, e) == Perform(st, e).(fs := if Spares(e) then Perform(st, e).fs
                                                 else Reused(Perform(st, e).fs, EMPTY_ROOT))
  {
    assert st.blocks.home - {} + map[] == st.blocks.home;
    assert st.blocks.marked - {} - {} + {} == st.blocks.marked;
    assert Settled(st, e) == st.blocks;
    CalmStep(st, e, st.blocks);
    hide Step;
    hide Perform;
    hide Reused;
  }

  /** What one lookup leaves in an empty cache. */
  lemma FirstLookup(fs: Fs, path: string, blocks: Blocks)
    requires ResolveFrom(fs, ROOT, path, 0) != 0 && |path| <= PATH_MAX
    ensures var i := ResolveFrom(fs, ROOT, path, 0);
            Resolve(Cold(fs, 0, blocks), path) == (Warm(fs, path, i, blocks), i)
  {
    var st := Cold(fs, 0, blocks);
    GetFree(st.lines, path, 0);
    var slash := LastSlash(path, |path|);
    if slash > 0 {
      GetFree(st.lines, path[..slash], 0);
    }
    hide ResolveFrom;
    hide GetFrom;
  }

  lemma LookupStep(fs: Fs, path: string, blocks: Blocks, i: nat)
    requires ResolveFrom(fs, ROOT, path, 0) == i != 0 && |path| <= PATH_MAX
    ensures Step(Cold(fs, 0, blocks), Stat(path)) == Warm(fs, path, i, blocks)
  {
    FirstLookup(fs, path, blocks);
    StatStep(Cold(fs, 0, blocks), path);
    hide ResolveFrom;
    hide Resolve;
    hide Step;
  }

  /** A write that makes a file, on a disk where every inode is allocated. */
  lemma WriteStep(fs: Fs, clock: nat, blocks: Blocks, path: string, i: nat, fs': Fs)
    requires clock < 0x1_0000_0000 && blocks.live == {} && Clear(fs, i) && !Stray(fs, path)
    requires Hits(fs, path) ==> NamedBy(fs, path) in fs.used && !FastLink(fs, NamedBy(fs, path))
    requires WriteFile(fs, path, i, true) == fs' && fs'.inodes.Keys <= fs'.used && ROOT in fs'.used
    ensures forall lines :: |lines| == LINES ==>
              Step(State(fs, lines, clock, blocks, false), Writing(path, i, true, QUIET)) == Cold(fs', clock, blocks)
  {
    forall lines | |lines| == LINES
      ensures Step(State(fs, lines, clock, blocks, false), Writing(path, i, true, QUIET)) == Cold(fs', clock, blocks)
    {
      var st, e := State(fs, lines, clock, blocks, false), Writing(path, i, true, QUIET);
      hide WriteFile;
      hide Stray;
      hide Hits;
      hide NamedBy;
      hide FastLink;
      QuietStep(st, e);
      NothingFreed(fs', EMPTY_ROOT);
      hide Step;
      hide Reused;
    }
  }

  /** An unlink that frees no block. */
  lemma UnlinkStep(fs: Fs, clock: nat, blocks: Blocks, path: string, fs': Fs)
    requires clock < 0x1_0000_0000 && blocks.live == {} && !Stray(fs, path)
    requires NamedBy(fs, path) in fs.used && !FastLink(fs, NamedBy(fs, path)) && Unlink(fs, path) == fs'
    ensures Step(Cold(fs, clock, blocks), Unlinking(path, QUIET)) == Cold(fs', clock, blocks)
  {
    var st, e := Cold(fs, clock, blocks), Unlinking(path, QUIET);
    assert !FastLink(fs, 0);
    hide Unlink;
    hide Stray;
    hide NamedBy;
    hide UnlinkFrees;
    hide FastLink;
    QuietStep(st, e);
    hide Step;
  }

  /** A symlink short enough for its inode. */
  lemma SymlinkStep(st: State, target: string, path: string, i: nat, fs': Fs)
    requires Shape(st) && !st.torn && st.blocks.live == {} && Clear(st.fs, i) && !Stray(st.fs, path)
    requires Symlink(st.fs, target, path, i, true) == fs' && fs'.inodes.Keys <= fs'.used && ROOT in fs'.used
    ensures Step(st, Symlinking(target, path, i, true, QUIET)) == st.(fs := fs')
  {
    hide Symlink;
    hide Stray;
    QuietStep(st, Symlinking(target, path, i, true, QUIET));
    NothingFreed(fs', EMPTY_ROOT);
    hide Step;
    hide Reused;
  }

  // An inode that is reused while a name still leads to it.

  /** A root directory naming inode 3, which may be allocated or not. */
  function Disk(names: map<string, nat>, node: Node, links: nat, used: set<nat>): Fs {
    Fs(map[2 := Inode(Dir(names), 2), 3 := Inode(node, links)], used)
  }

  lemma AfterCreate(name: string, path: string)
    requires Plain(name) && path == "/" + name
    ensures Step(Boot(EMPTY_ROOT, START), Writing(path, 3, true, QUIET)) ==
            Cold(Disk(map[name := 3], EMPTY, 1, {2, 3}), 0, START)
  {
    OneComponent(EMPTY_ROOT, name, path);
    hide ParentOf;
    assert WriteFile(EMPTY_ROOT, path, 3, true) == Disk(map[name := 3], EMPTY, 1, {2, 3});
    hide WriteFile;
    WriteStep(EMPTY_ROOT, 0, START, path, 3, Disk(map[name := 3], EMPTY, 1, {2, 3}));
    hide Step;
  }

  lemma LinkAdds()
    ensures LinkTo(Disk(map["a" := 3], EMPTY, 1, {2, 3}), 3, "/b", true) ==
            Disk(map["a" := 3, "b" := 3], EMPTY, 2, {2, 3})
    ensures !Stray(Bumped(Disk(map["a" := 3], EMPTY, 1, {2, 3}), 3), "/b")
  {
    var fs := Disk(map["a" := 3], EMPTY, 2, {2, 3});
    assert Bumped(Disk(map["a" := 3], EMPTY, 1, {2, 3}), 3) == fs;
    OneComponent(fs, "b", "/b");
    assert Lookup(fs, ROOT, "b") == 0;
  }

  lemma LinkStep(fs: Fs, target: string, path: string, i: nat, fs': Fs)
    requires i != 0 && ResolveFrom(fs, ROOT, target, 0) == i && |target| <= PATH_MAX
    requires !Stray(Bumped(fs, i), path) && LinkTo(fs, i, path, true) == fs'
    requires fs'.inodes.Keys <= fs'.used && ROOT in fs'.used
    ensures Step(Cold(fs, 0, START), Linking(target, path, true, QUIET)) == Warm(fs', target, i, START)
  {
    FirstLookup(fs, target, START);
    NothingFreed(fs', EMPTY_ROOT);
    hide ResolveFrom;
    hide Resolve;
    hide LinkTo;
    hide Stray;
    hide Bumped;
    QuietStep(Cold(fs, 0, START), Linking(target, path, true, QUIET));
    hide Step;
    hide Reused;
  }

  lemma AfterLink()
    ensures Step(Cold(Disk(map["a" := 3], EMPTY, 1, {2, 3}), 0, START), Linking("/a", "/b", true, QUIET)) ==
            Warm(Disk(map["a" := 3, "b" := 3], EMPTY, 2, {2, 3}), "/a", 3, START)
  {
    var fs := Disk(map["a" := 3], EMPTY, 1, {2, 3});
    OneComponentWalk(fs, "a", "/a", 0);
    LinkAdds();
    hide ResolveFrom;
    hide LinkTo;
    LinkStep(fs, "/a", "/b", 3, Disk(map["a" := 3, "b" := 3], EMPTY, 2, {2, 3}));
    hide Step;
  }

  lemma AfterOverwrite()
    ensures Step(Warm(Disk(map["a" := 3, "b" := 3], EMPTY, 2, {2, 3}), "/a", 3, START),
                 Writing("/a", 0, true, QUIET)) ==
            Cold(Disk(map["a" := 3, "b" := 3], EMPTY, 1, {2, 3}), 1, START)
  {
    var fs, fs' := Disk(map["a" := 3, "b" := 3], EMPTY, 2, {2, 3}), Disk(map["a" := 3, "b" := 3], EMPTY, 1, {2, 3});
    OneComponent(fs, "a", "/a");
    hide ParentOf;
    assert WriteFile(fs, "/a", 0, true) == fs';
    hide WriteFile;
    WriteStep(fs, 1, START, "/a", 0, fs');
    hide Step;
  }

  lemma AfterUnlink()
    ensures Step(Cold(Disk(map["a" := 3, "b" := 3], EMPTY, 1, {2, 3}), 1, START), Unlinking("/a", QUIET)) ==
            Cold(Disk(map["b" := 3], EMPTY, 0, {2}), 1, START)
  {
    var fs, fs' := Disk(map["a" := 3, "b" := 3], EMPTY, 1, {2, 3}), Disk(map["b" := 3], EMPTY, 0, {2});
    OneComponent(fs, "a", "/a");
    hide ParentOf;
    assert map["a" := 3, "b" := 3] - {"a"} == map["b" := 3];
    assert Unlink(fs, "/a") == fs';
    hide Unlink;
    UnlinkStep(fs, 1, START, "/a", fs');
    hide Step;
  }

  lemma AfterLookup()
    ensures var st := Cold(Disk(map["b" := 3], EMPTY, 0, {2}), 1, START);
            var st' := Step(st, Stat("/b"));
            && st'.fs == Disk(map["b" := 3], EMPTY, 0, {2}) && !st'.torn && st'.blocks == START
            && st'.lines[0] == Free && st'.lines[1] == Cached("/b", 3)
  {
    var st := Cold(Disk(map["b" := 3], EMPTY, 0, {2}), 1, START);
    StatStep(st, "/b");
    hide Step;
    OneComponent(st.fs, "b", "/b");
    OneComponentWalk(st.fs, "b", "/b", 0);
    GetFree(st.lines, "/b", 0);
    hide ResolveFrom;
  }

  lemma AfterSymlink(st: State)
    requires Shape(st) && st.fs == Disk(map["b" := 3], EMPTY, 0, {2}) && !st.torn && st.blocks == START
    requires st.lines[0] == Free && st.lines[1] == Cached("/b", 3)
    ensures var st' := Step(st, Symlinking("/x", "/c", 3, true, QUIET));
            Resolve(st', "/b").1 == 3 && ResolveFrom(st'.fs, ROOT, "/b", 0) == 0
  {
    OneComponent(st.fs, "c", "/c");
    hide ParentOf;
    var fs' := Disk(map["b" := 3, "c" := 3], Link("/x"), 1, {2, 3});
    assert Symlink(st.fs, "/x", "/c", 3, true) == fs';
    hide Symlink;
    SymlinkStep(st, "/x", "/c", 3, fs');
    hide Step;
    StaleAfter(st.(fs := fs'));
  }

  lemma StaleAfter(st: State)
    requires Shape(st) && st.fs == Disk(map["b" := 3, "c" := 3], Link("/x"), 1, {2, 3})
    requires st.lines[0] == Free && st.lines[1] == Cached("/b", 3)
    ensures Resolve(st, "/b").1 == 3 && ResolveFrom(st.fs, ROOT, "/b", 0) == 0
  {
    assert GetFrom(st.lines, "/b", 0) == GetFrom(st.lines, "/b", 1) == 3;
    OneComponentWalk(st.fs, "b", "/b", 0);
    OneComponentWalk(st.fs, "x", "/x", 1);
    hide ResolveFrom;
  }

  /** Create /a, hard-link it as /b, overwrite /a (which resets the link count),
      unlink /a, look /b up, create a symlink: it reuses the inode that /b still
      names, and /b goes on being answered from the cache. */
  lemma StrandedNameGoesStale()
    ensures var st := Run(EMPTY_ROOT, START, [Writing("/a", 3, true, QUIET), Linking("/a", "/b", true, QUIET),
                                              Writing("/a", 0, true, QUIET), Unlinking("/a", QUIET), Stat("/b"),
                                              Symlinking("/x", "/c", 3, true, QUIET)]);
            Resolve(st, "/b").1 == 3 && ResolveFrom(st.fs, ROOT, "/b", 0) == 0
  {
    assert Plain("a") && "/a" == "/" + "a";
    hide *;
    var e0, e1 := Writing("/a", 3, true, QUIET), Linking("/a", "/b", true, QUIET);
    var e2, e3 := Writing("/a", 0, true, QUIET), Unlinking("/a", QUIET);
    var e4, e5 := Stat("/b"), Symlinking("/x", "/c", 3, true, QUIET);
    RunStep(EMPTY_ROOT, START, [], e0);
    RunStep(EMPTY_ROOT, START, [e0], e1);
    assert [e0] + [e1] == [e0, e1];
    RunStep(EMPTY_ROOT, START, [e0, e1], e2);
    assert [e0, e1] + [e2] == [e0, e1, e2];
    RunStep(EMPTY_ROOT, START, [e0, e1, e2], e3);
    assert [e0, e1, e2] + [e3] == [e0, e1, e2, e3];
    RunStep(EMPTY_ROOT, START, [e0, e1, e2, e3], e4);
    assert [e0, e1, e2, e3] + [e4] == [e0, e1, e2, e3, e4];
    RunStep(EMPTY_ROOT, START, [e0, e1, e2, e3, e4], e5);
    assert [e0, e1, e2, e3, e4] + [e5] == [e0, e1, e2, e3, e4, e5];
    AfterCreate("a", "/a");
    AfterLink();
    AfterOverwrite();
    AfterUnlink();
    AfterLookup();
    AfterSymlink(Run(EMPTY_ROOT, START, [e0, e1, e2, e3, e4]));
  }

  // A name that a file's data spells.

  /** The two files of the run: /d with inode 3, and /f with inode 4. */
  function Pair(d: Inode, f: Inode, names: map<string, nat>, used: set<nat>): Fs {
    Fs(map[2 := Inode(Dir(names), 2), 3 := d, 4 := f], used)
  }

  const BOTH: map<string, nat> := map["d" := 3, "f" := 4]

  const WITH_D: Fs := Disk(map["d" := 3], EMPTY, 1, {2, 3})

  /** The data of /f reads as one record, which names inode 3. */
  const SPELT: Fs := Pair(Inode(EMPTY, 1), Inode(File(map["x" := 3]), 1), BOTH, {2, 3, 4})

  /** Inode 3 is free, and /d still names it. */
  const UNSPELT: Fs := Pair(Inode(EMPTY, 0), Inode(EMPTY, 1), BOTH, {2, 4})

  const RELINKED: Fs :=
    Pair(Inode(Link("/x"), 1), Inode(EMPTY, 1), map["d" := 3, "f" := 4, "c" := 3], {2, 3, 4})

  /** The same with what the data of inode 4 reads as afterwards. */
  function Wording(data: map<string, nat>): Fallout {
    QUIET.(data := map[4 := data])
  }

  const UNWORDED: Fs := Pair(Inode(EMPTY, 1), Inode(EMPTY, 1), BOTH, {2, 3, 4})

  lemma MakeF()
    ensures WriteFile(WITH_D, "/f", 4, true) == UNWORDED && NamedBy(WITH_D, "/f") == 0 && !Stray(WITH_D, "/f")
    ensures !Hits(WITH_D, "/f")
  {
    OneComponent(WITH_D, "f", "/f");
    hide ParentOf;
  }

  lemma AfterSpell()
    ensures Step(Cold(WITH_D, 0, START), Writing("/f", 4, true, Wording(map["x" := 3]))) == Cold(SPELT, 0, START)
  {
    MakeF();
    hide WriteFile;
    hide Hits;
    hide NamedBy;
    hide Stray;
    assert Reworded(UNWORDED, {4, 0}, map[4 := map["x" := 3]]) == SPELT;
    NothingFreed(SPELT, EMPTY_ROOT);
    hide Reused;
    hide Reworded;
    WordedStep(Cold(WITH_D, 0, START), Writing("/f", 4, true, Wording(map["x" := 3])), UNWORDED, {4, 0});
    hide Step;
  }

  /** A call on an undamaged disk that changes what a file's data reads as. */
  lemma WordedStep(st: State, e: Event, fs: Fs, who: set<nat>)
    requires Shape(st) && !e.Stat? && e.out == QUIET.(data := e.out.data) && st.blocks.live == {}
    requires Possible(st, e) && !Damages(st, e) && Misread(st, e) == {}
    requires Perform(st, e).fs == fs && Written(st, e) == who
    ensures Step(st, e) == Perform(st, e).(fs := if Spares(e) then Reworded(fs, who, e.out.data)
                                                 else Reused(Reworded(fs, who, e.out.data), EMPTY_ROOT))
  {
    assert st.blocks.home - {} + map[] == st.blocks.home;
    assert st.blocks.marked - {} - {} + {} == st.blocks.marked;
    assert Settled(st, e) == st.blocks;
    hide Perform;
    hide Possible;
    hide Damages;
    hide Written;
    hide Reused;
    hide Reworded;
  }

  /** The parent of a path below a file. */
  lemma BelowFile()
    ensures ParentOf(SPELT, "/f/x") == Place(4, "x")
  {
    var p := "f/x";
    assert "/f/x"[1..] == p && Strip("/f/x") == Strip(p) == p;
    FirstComponent("f", "x", p);
    ScanWhole("x", 0);
    assert "x"[..CompLen("x")] == "x" && Rest("x") == "";
    hide Strip;
    hide CompLen;
    hide Rest;
    assert Chase(SPELT, ROOT, 4, MAX_DEPTH) == 4;
    assert ParentWalk(SPELT, 4, "x") == Place(4, "x");
  }

  const STRUCK: Fs := Pair(Inode(EMPTY, 0), Inode(File(map["x" := 3]), 1), BOTH, {2, 4})

  lemma UnlinkX()
    ensures Unlink(SPELT, "/f/x") == STRUCK && NamedBy(SPELT, "/f/x") == 3 && !Stray(SPELT, "/f/x")
    ensures DirOf(SPELT, "/f/x") == {4}
  {
    BelowFile();
    hide ParentOf;
  }

  lemma AfterUnspell()
    ensures Step(Cold(SPELT, 0, START), Unlinking("/f/x", Wording(map[]))) == Cold(UNSPELT, 0, START)
  {
    UnlinkX();
    assert !FastLink(SPELT, 3) && !FastLink(SPELT, 0);
    hide Unlink;
    hide NamedBy;
    hide Stray;
    hide DirOf;
    hide FastLink;
    hide UnlinkFrees;
    assert Reworded(STRUCK, {4}, map[4 := map[]]) == UNSPELT;
    hide Reworded;
    WordedStep(Cold(SPELT, 0, START), Unlinking("/f/x", Wording(map[])), STRUCK, {4});
    hide Step;
  }

  lemma AfterLookupD()
    ensures Step(Cold(UNSPELT, 0, START), Stat("/d")) == Warm(UNSPELT, "/d", 3, START)
  {
    OneComponentWalk(UNSPELT, "d", "/d", 0);
    hide ResolveFrom;
    LookupStep(UNSPELT, "/d", START, 3);
    hide Step;
  }

  lemma Relink()
    ensures Symlink(UNSPELT, "/x", "/c", 3, true) == RELINKED && !Stray(UNSPELT, "/c")
  {
    OneComponent(UNSPELT, "c", "/c");
    hide ParentOf;
    var made := SetInode(Taken(UNSPELT, 3), 3, Inode(Link("/x"), 1));
    assert made == Pair(Inode(Link("/x"), 1), Inode(EMPTY, 1), BOTH, {2, 3, 4});
    assert AddName(made, 2, "c", 3) == RELINKED;
  }

  lemma AfterRelink()
    ensures Step(Warm(UNSPELT, "/d", 3, START), Symlinking("/x", "/c", 3, true, QUIET)) ==
            Warm(RELINKED, "/d", 3, START)
  {
    Relink();
    hide Symlink;
    hide Stray;
    SymlinkStep(Warm(UNSPELT, "/d", 3, START), "/x", "/c", 3, RELINKED);
    hide Step;
  }

  lemma SpeltStale()
    ensures var st := Warm(RELINKED, "/d", 3, START);
            Resolve(st, "/d").1 == 3 && ResolveFrom(RELINKED, ROOT, "/d", 0) == 0
  {
    assert GetFrom(Warm(RELINKED, "/d", 3, START).lines, "/d", 0) == 3;
    OneComponentWalk(RELINKED, "d", "/d", 0);
    OneComponentWalk(RELINKED, "x", "/x", 1);
    hide ResolveFrom;
  }

  /** Write /d, write /f with data that reads as a record naming /d's inode, unlink
      "/f/x", look /d up, create a symlink: the unlink freed the inode of /d, the
      symlink takes it, and /d goes on being answered from the cache. */
  lemma SpeltNameGoesStale()
    ensures var st := Run(EMPTY_ROOT, START, [Writing("/d", 3, true, QUIET),
                                              Writing("/f", 4, true, Wording(map["x" := 3])),
                                              Unlinking("/f/x", Wording(map[])), Stat("/d"),
                                              Symlinking("/x", "/c", 3, true, QUIET)]);
            Resolve(st, "/d").1 == 3 && ResolveFrom(st.fs, ROOT, "/d", 0) == 0 && !st.torn
  {
    assert Plain("d") && "/d" == "/" + "d";
    assert !Warm(RELINKED, "/d", 3, START).torn && Warm(RELINKED, "/d", 3, START).fs == RELINKED;
    hide *;
    var e0, e1 := Writing("/d", 3, true, QUIET), Writing("/f", 4, true, Wording(map["x" := 3]));
    var e2, e3, e4 := Unlinking("/f/x", Wording(map[])), Stat("/d"), Symlinking("/x", "/c", 3, true, QUIET);
    RunStep(EMPTY_ROOT, START, [], e0);
    RunStep(EMPTY_ROOT, START, [e0], e1);
    assert [e0] + [e1] == [e0, e1];
    RunStep(EMPTY_ROOT, START, [e0, e1], e2);
    assert [e0, e1] + [e2] == [e0, e1, e2];
    RunStep(EMPTY_ROOT, START, [e0, e1, e2], e3);
    assert [e0, e1, e2] + [e3] == [e0, e1, e2, e3];
    RunStep(EMPTY_ROOT, START, [e0, e1, e2, e3], e4);
    assert [e0, e1, e2, e3] + [e4] == [e0, e1, e2, e3, e4];
    AfterCreate("d", "/d");
    AfterSpell();
    AfterUnspell();
    AfterLookupD();
    AfterRelink();
    SpeltStale();
  }

  // A freed directory whose block is reused while a ".." still leads to it.

  const UNDER_A: Node := Dir(map["." := 5, ".." := 4])

  /** The file /f, the directory with inode 4, and the one made inside it with inode 5. */
  function Tree(root: Inode, a: Inode, used: set<nat>): Fs {
    Fs(map[2 := root, 3 := Inode(EMPTY, 1), 4 := a, 5 := Inode(UNDER_A, 2)], used)
  }

  const WITH_F: Fs := Disk(map["f" := 3], EMPTY, 1, {2, 3})

  const WITH_A: Fs :=
    Fs(map[2 := Inode(Dir(map["f" := 3, "a" := 4]), 3), 3 := Inode(EMPTY, 1),
           4 := Inode(Dir(map["." := 4, ".." := 2]), 2)], {2, 3, 4})

  const WITH_B: Fs :=
    Tree(Inode(Dir(map["f" := 3, "a" := 4]), 3), Inode(Dir(map["." := 4, ".." := 2, "b" := 5]), 3), {2, 3, 4, 5})

  const MOVED: Fs :=
    Tree(Inode(Dir(map["f" := 3, "a" := 4, "c" := 5]), 3), Inode(Dir(map["." := 4, ".." := 2]), 3), {2, 3, 4, 5})

  const DROPPED: Fs :=
    Tree(Inode(Dir(map["f" := 3, "c" := 5]), 2), Inode(Dir(map["." := 4, ".." := 2]), 0), {2, 3, 5})

  /** The freed directory's block has been zeroed and belongs to /f now. */
  const ZEROED: Fs := Tree(Inode(Dir(map["f" := 3, "c" := 5]), 2), Inode(Dir(map[]), 0), {2, 3, 5})

  const BLOCK_A: nat := 30
  const BLOCK_B: nat := 31

  const ONE_DIR: Blocks := Blocks(map[ROOT_BLOCK := 2, BLOCK_A := 4], {ROOT_BLOCK, BLOCK_A}, {})
  const TWO_DIRS: Blocks := Blocks(map[ROOT_BLOCK := 2, BLOCK_A := 4, BLOCK_B := 5], {ROOT_BLOCK, BLOCK_A, BLOCK_B}, {})
  const LESS_A: Blocks := Blocks(map[ROOT_BLOCK := 2, BLOCK_B := 5], {ROOT_BLOCK, BLOCK_B}, {})
  const GROWN: Blocks := Blocks(map[ROOT_BLOCK := 2, BLOCK_B := 5, BLOCK_A := 3], {ROOT_BLOCK, BLOCK_A, BLOCK_B}, {})

  /** The call is given one block for an inode. */
  function Given(b: nat, i: nat): Fallout {
    QUIET.(got := map[b := i])
  }

  /** A mkdir on an undamaged disk with every inode allocated. */
  lemma MkdirStep(fs: Fs, path: string, i: nat, fs': Fs, blocks: Blocks, b: nat, blocks': Blocks)
    requires Clear(fs, i) && !Stray(fs, path) && Mkdir(fs, path, i, true) == fs'
    requires fs'.inodes.Keys <= fs'.used && ROOT in fs'.used && b !in blocks.home && b !in blocks.marked
    requires blocks' == Blocks(blocks.home[b := i], blocks.marked + {b}, {})
    ensures Step(Cold(fs, 0, blocks), Mkdiring(path, i, true, Given(b, i))) == Cold(fs', 0, blocks')
  {
    var st, e := Cold(fs, 0, blocks), Mkdiring(path, i, true, Given(b, i));
    assert blocks.home - {} + map[b := i] == blocks.home[b := i];
    hide Mkdir;
    hide Stray;
    CalmStep(st, e, blocks');
    NothingFreed(fs', EMPTY_ROOT);
    hide Step;
    hide Reused;
  }

  lemma AfterMkdirA()
    ensures Step(Cold(WITH_F, 0, START), Mkdiring("/a", 4, true, Given(BLOCK_A, 4))) == Cold(WITH_A, 0, ONE_DIR)
  {
    OneComponent(WITH_F, "a", "/a");
    hide ParentOf;
    assert Mkdir(WITH_F, "/a", 4, true) == WITH_A;
    hide Mkdir;
    MkdirStep(WITH_F, "/a", 4, WITH_A, START, BLOCK_A, ONE_DIR);
    hide Step;
  }

  lemma AfterMkdirB()
    ensures Step(Cold(WITH_A, 0, ONE_DIR), Mkdiring("/a/b", 5, true, Given(BLOCK_B, 5))) == Cold(WITH_B, 0, TWO_DIRS)
  {
    assert "/" + "a" + "/" + "b" == "/a/b";
    TwoComponents(WITH_A, "a", "b", "/a/b");
    hide ParentOf;
    MkdirInA();
    hide Mkdir;
    MkdirStep(WITH_A, "/a/b", 5, WITH_B, ONE_DIR, BLOCK_B, TWO_DIRS);
    hide Step;
  }

  lemma MkdirInA()
    requires ParentOf(WITH_A, "/a/b") == Place(4, "b")
    ensures Mkdir(WITH_A, "/a/b", 5, true) == WITH_B
  {
    hide ParentOf;
    var made := Created(WITH_A, Place(4, "b"), 5, UNDER_A, 2, true);
    assert made.inodes[4] == Inode(Dir(map["." := 4, ".." := 2, "b" := 5]), 2);
    assert SetLinks(made, 4, 3) == WITH_B;
  }

  /** A rename between directories to a name that is not there. */
  lemma RenameParts(fs: Fs, from: string, to: string, a: Place, b: Place)
    requires ParentOf(fs, from) == a && ParentOf(fs, to) == b && a.Place? && b.Place? && IsDir(fs, a.dir)
    requires Readable(fs, Lookup(fs, a.dir, a.leaf)) && IsDir(fs, b.dir) && Lookup(fs, b.dir, b.leaf) == 0
    ensures Rename(fs, from, to, true) ==
            AddName(DropName(fs, a.dir, a.leaf), b.dir, b.leaf, Lookup(fs, a.dir, a.leaf))
  {
    hide ParentOf;
  }

  lemma MoveOut()
    requires ParentOf(WITH_B, "/a/b") == Place(4, "b") && ParentOf(WITH_B, "/c") == Place(2, "c")
    ensures Rename(WITH_B, "/a/b", "/c", true) == MOVED
  {
    hide ParentOf;
    RenameParts(WITH_B, "/a/b", "/c", Place(4, "b"), Place(2, "c"));
    hide Rename;
    assert map["." := 4, ".." := 2, "b" := 5] - {"b"} == map["." := 4, ".." := 2];
  }

  lemma RenameStep(fs: Fs, from: string, to: string, fs': Fs)
    requires !Stray(fs, from) && !Stray(fs, to) && NamedBy(fs, to) == 0 && Rename(fs, from, to, true) == fs'
    requires fs'.inodes.Keys <= fs'.used && ROOT in fs'.used
    ensures Step(Cold(fs, 0, TWO_DIRS), Renaming(from, to, true, QUIET)) == Cold(fs', 0, TWO_DIRS)
  {
    hide Rename;
    hide Stray;
    hide NamedBy;
    QuietStep(Cold(fs, 0, TWO_DIRS), Renaming(from, to, true, QUIET));
    NothingFreed(fs', EMPTY_ROOT);
    hide Step;
    hide Reused;
  }

  lemma AfterMove()
    ensures Step(Cold(WITH_B, 0, TWO_DIRS), Renaming("/a/b", "/c", true, QUIET)) == Cold(MOVED, 0, TWO_DIRS)
  {
    assert "/" + "a" + "/" + "b" == "/a/b";
    TwoComponents(WITH_B, "a", "b", "/a/b");
    OneComponent(WITH_B, "c", "/c");
    hide ParentOf;
    MoveOut();
    hide Rename;
    RenameStep(WITH_B, "/a/b", "/c", MOVED);
    hide Step;
  }

  /** Removing an empty directory. */
  lemma RmdirParts(fs: Fs, path: string, at: Place)
    requires ParentOf(fs, path) == at && at.Place? && IsDir(fs, at.dir) && IsDir(fs, Lookup(fs, at.dir, at.leaf))
    requires NoChildren(fs, Lookup(fs, at.dir, at.leaf)) && Lookup(fs, at.dir, at.leaf) != at.dir
    ensures var i, links := Lookup(fs, at.dir, at.leaf), fs.inodes[at.dir].links;
            Unlink(fs, path) == SetLinks(Freed(SetLinks(DropName(fs, at.dir, at.leaf), i, 0), i), at.dir,
                                         if links > 2 then links - 1 else links)
  {
    hide ParentOf;
  }

  lemma DropA()
    requires ParentOf(MOVED, "/a") == Place(2, "a")
    ensures Unlink(MOVED, "/a") == DROPPED && NoChildren(MOVED, 4)
  {
    hide ParentOf;
    RmdirParts(MOVED, "/a", Place(2, "a"));
    hide Unlink;
    assert map["f" := 3, "a" := 4, "c" := 5] - {"a"} == map["f" := 3, "c" := 5];
  }

  lemma RemovesA()
    ensures Unlink(MOVED, "/a") == DROPPED && NamedBy(MOVED, "/a") == 4
    ensures !Stray(MOVED, "/a") && UnlinkFrees(MOVED, "/a")
  {
    OneComponent(MOVED, "a", "/a");
    hide ParentOf;
    DropA();
    hide Unlink;
    hide NoChildren;
  }

  /** An unlink that gives back one block. */
  lemma RmdirStep(fs: Fs, path: string, i: nat, fs': Fs, blocks: Blocks, b: nat, blocks': Blocks)
    requires Unlink(fs, path) == fs' && NamedBy(fs, path) == i && !Stray(fs, path) && UnlinkFrees(fs, path)
    requires i in fs.used && i != 0 && !FastLink(fs, i) && b in blocks.home && blocks.home[b] == i
    requires blocks' == Blocks(blocks.home - {b}, blocks.marked - {b}, {})
    ensures Step(Cold(fs, 0, blocks), Unlinking(path, QUIET.(gave := {b}))) == Cold(fs', 0, blocks')
  {
    var st, e := Cold(fs, 0, blocks), Unlinking(path, QUIET.(gave := {b}));
    hide Unlink;
    hide NamedBy;
    hide Stray;
    hide UnlinkFrees;
    hide FastLink;
    assert blocks.home - {b} + map[] == blocks'.home && blocks.marked - {b} - {} + {} == blocks'.marked;
    CalmStep(st, e, blocks');
    hide Step;
  }

  lemma AfterDrop()
    ensures Step(Cold(MOVED, 0, TWO_DIRS), Unlinking("/a", QUIET.(gave := {BLOCK_A}))) == Cold(DROPPED, 0, LESS_A)
  {
    RemovesA();
    hide Unlink;
    hide NamedBy;
    hide Stray;
    hide UnlinkFrees;
    assert TWO_DIRS.home - {BLOCK_A} == LESS_A.home && TWO_DIRS.marked - {BLOCK_A} == LESS_A.marked;
    RmdirStep(MOVED, "/a", 4, DROPPED, TWO_DIRS, BLOCK_A, LESS_A);
    hide Step;
  }

  const UP: string := "/c/../.."

  lemma WalkUp(fs: Fs)
    requires IsDir(fs, ROOT) && Lookup(fs, ROOT, "c") == 5 && IsDir(fs, 5) && Lookup(fs, 5, "..") == 4 && IsDir(fs, 4)
    requires !IsLink(fs, Lookup(fs, 4, ".."))
    ensures var i := Lookup(fs, 4, ".."); ResolveFrom(fs, ROOT, UP, 0) == if Readable(fs, i) then i else 0
  {
    assert UP[1..] == "c/../.." && Strip(UP) == "c/../..";
    FirstComponent("c", "../..", "c/../..");
    FirstComponent("..", "..", "../..");
    ScanWhole("..", 0);
    assert ".."[..CompLen("..")] == ".." && Rest("..") == "";
    var p, q, r := "c/../..", "../..", "..";
    assert ResolveFrom(fs, ROOT, UP, 0) == Walk(fs, ROOT, p, 0);
    hide Strip;
    hide CompLen;
    hide Rest;
    assert Walk(fs, ROOT, p, 0) == Walk(fs, 5, q, 0) == Walk(fs, 4, r, 0);
  }

  lemma AfterLookUp()
    ensures Step(Cold(DROPPED, 0, LESS_A), Stat(UP)) == Warm(DROPPED, UP, 2, LESS_A)
  {
    WalkUp(DROPPED);
    hide ResolveFrom;
    LookupStep(DROPPED, UP, LESS_A, 2);
    hide Step;
  }

  /** A pwrite that grows an existing file by one block. */
  lemma GrowStep(st: State, path: string, i: nat, b: nat, left: Fs, blocks': Blocks)
    requires Shape(st) && !st.torn && Hits(st.fs, path) && !Stray(st.fs, path) && NamedBy(st.fs, path) == i
    requires i in st.fs.used && !IsLink(st.fs, i) && b !in st.blocks.marked && b !in st.blocks.home
    requires blocks' == Blocks(st.blocks.home[b := i], st.blocks.marked + {b}, {})
    ensures Step(st, Pwriting(path, 0, "", true, Given(b, i).(left := left))) ==
            st.(fs := Reused(st.fs, left), blocks := blocks')
  {
    var e := Pwriting(path, 0, "", true, Given(b, i).(left := left));
    assert st.blocks.home - {} + map[b := i] == st.blocks.home[b := i];
    NotCreated(st.fs, path);
    hide Hits;
    hide Creates;
    hide Stray;
    hide NamedBy;
    CalmStep(st, e, blocks');
    hide Step;
    hide Reused;
  }

  lemma NotCreated(fs: Fs, path: string)
    requires Hits(fs, path)
    ensures !Creates(fs, path)
  {
  }

  lemma AfterGrow()
    ensures Step(Warm(DROPPED, UP, 2, LESS_A), Pwriting("/f", 0, "", true, Given(BLOCK_A, 3).(left := ZEROED))) ==
            Warm(ZEROED, UP, 2, GROWN)
  {
    OneComponent(DROPPED, "f", "/f");
    hide ParentOf;
    assert Hits(DROPPED, "/f") && NamedBy(DROPPED, "/f") == 3 && !Stray(DROPPED, "/f");
    hide Hits;
    hide NamedBy;
    hide Stray;
    assert Reused(DROPPED, ZEROED) == ZEROED;
    hide Reused;
    GrowStep(Warm(DROPPED, UP, 2, LESS_A), "/f", 3, BLOCK_A, ZEROED, GROWN);
    hide Step;
  }

  lemma UpStale()
    ensures var st := Warm(ZEROED, UP, 2, GROWN);
            Resolve(st, UP).1 == 2 && ResolveFrom(st.fs, ROOT, UP, 0) == 0 && !st.torn && Kept(st.blocks)
  {
    assert GetFrom(Warm(ZEROED, UP, 2, GROWN).lines, UP, 0) == 2;
    WalkUp(ZEROED);
    hide ResolveFrom;
  }

  /** Write /f, make /a and /a/b, move /a/b to /c, remove /a, look up "/c/../..",
      then let a pwrite grow /f into the block /a had: the cache goes on
      answering 2 where the walk fails. */
  lemma ReusedBlockGoesStale()
    ensures var st := Run(EMPTY_ROOT, START,
                          [Writing("/f", 3, true, QUIET), Mkdiring("/a", 4, true, Given(BLOCK_A, 4)),
                           Mkdiring("/a/b", 5, true, Given(BLOCK_B, 5)), Renaming("/a/b", "/c", true, QUIET),
                           Unlinking("/a", QUIET.(gave := {BLOCK_A})), Stat(UP),
                           Pwriting("/f", 0, "", true, Given(BLOCK_A, 3).(left := ZEROED))]);
            Resolve(st, UP).1 == 2 && ResolveFrom(st.fs, ROOT, UP, 0) == 0 && !st.torn && Kept(st.blocks)
  {
    assert Plain("f") && "/f" == "/" + "f";
    hide *;
    var e0, e1 := Writing("/f", 3, true, QUIET), Mkdiring("/a", 4, true, Given(BLOCK_A, 4));
    var e2, e3 := Mkdiring("/a/b", 5, true, Given(BLOCK_B, 5)), Renaming("/a/b", "/c", true, QUIET);
    var e4, e5 := Unlinking("/a", QUIET.(gave := {BLOCK_A})), Stat(UP);
    var e6 := Pwriting("/f", 0, "", true, Given(BLOCK_A, 3).(left := ZEROED));
    RunStep(EMPTY_ROOT, START, [], e0);
    RunStep(EMPTY_ROOT, START, [e0], e1);
    assert [e0] + [e1] == [e0, e1];
    RunStep(EMPTY_ROOT, START, [e0, e1], e2);
    assert [e0, e1] + [e2] == [e0, e1, e2];
    RunStep(EMPTY_ROOT, START, [e0, e1, e2], e3);
    assert [e0, e1, e2] + [e3] == [e0, e1, e2, e3];
    RunStep(EMPTY_ROOT, START, [e0, e1, e2, e3], e4);
    assert [e0, e1, e2, e3] + [e4] == [e0, e1, e2, e3, e4];
    RunStep(EMPTY_ROOT, START, [e0, e1, e2, e3, e4], e5);
    assert [e0, e1, e2, e3, e4] + [e5] == [e0, e1, e2, e3, e4, e5];
    RunStep(EMPTY_ROOT, START, [e0, e1, e2, e3, e4, e5], e6);
    assert [e0, e1, e2, e3, e4, e5] + [e6] == [e0, e1, e2, e3, e4, e5, e6];
    AfterCreate("f", "/f");
    AfterMkdirA();
    AfterMkdirB();
    AfterMove();
    AfterDrop();
    AfterLookUp();
    AfterGrow();
    UpStale();
  }

  // A symlink kept in its inode, freed as if its text were block numbers.

  const WITH_L: Fs :=
    Fs(map[2 := Inode(Dir(map["f" := 3, "l" := 4]), 2), 3 := Inode(EMPTY, 1), 4 := Inode(Link("a"), 1)], {2, 3, 4})

  const LESS_L: Fs :=
    Fs(map[2 := Inode(Dir(map["f" := 3]), 2), 3 := Inode(EMPTY, 1), 4 := Inode(Link("a"), 0)], {2, 3})

  /** Block 97 was the root directory's; now it holds the data of /f, which reads as no record. */
  const LOST: Fs := LESS_L.(inodes := LESS_L.inodes[2 := Inode(Dir(map[]), 2)])

  const UNMARKED: Blocks := Blocks(map[ROOT_BLOCK := 2], {}, {})

  /** The twelve direct slots of an inode that holds this text. */
  function Slots(text: string): (s: seq<nat>)
    ensures |s| == DIRECT && forall k :: 0 <= k < DIRECT ==> s[k] == Word(text, k)
  {
    seq(DIRECT, k requires 0 <= k < DIRECT => Word(text, k))
  }

  /** A text of one character is one block number. */
  lemma OneLetter(c: char)
    requires 0 < c as int < 256
    ensures Slots([c])[0] == c as int && forall k :: 1 <= k < DIRECT ==> Slots([c])[k] == 0
    ensures Spelt([c]) == {c as int}
  {
    assert Word([c], 0) == c as int;
  }

  /** On a full device the block that a one-letter symlink spells is the next one handed out. */
  lemma LetterComesBack(st: B.State, g: B.Geometry, c: char)
    requires B.Counted(st, g) && B.Frees(g, c as int) && 0 < c as int < 256
    requires forall x: nat :: B.Frees(g, x) ==> B.Used(st, g, x)
    ensures B.Alloc(B.FreeAll(st, g, Slots([c])), g).1 == c as int
  {
    OneLetter(c);
    B.FreeAllOne(st, g, Slots([c]), c as int);
    B.FreedComesBack(st, g, c as int, B.Missed);
  }

  lemma AfterSymlinkL()
    ensures Step(Cold(WITH_F, 0, START), Symlinking("a", "/l", 4, true, QUIET)) == Cold(WITH_L, 0, START)
  {
    OneComponent(WITH_F, "l", "/l");
    hide ParentOf;
    assert Symlink(WITH_F, "a", "/l", 4, true) == WITH_L;
    hide Symlink;
    SymlinkStep(Cold(WITH_F, 0, START), "a", "/l", 4, WITH_L);
    hide Step;
  }

  lemma UnlinkL()
    ensures Unlink(WITH_L, "/l") == LESS_L && UnlinkFrees(WITH_L, "/l") && NamedBy(WITH_L, "/l") == 4
    ensures !Stray(WITH_L, "/l")
  {
    OneComponent(WITH_L, "l", "/l");
    hide ParentOf;
    assert map["f" := 3, "l" := 4] - {"l"} == map["f" := 3];
  }

  /** The unlink clears the bit of the root directory's block. */
  lemma AfterUnlinkL()
    ensures Step(Cold(WITH_L, 0, START), Unlinking("/l", QUIET)) == Cold(LESS_L, 0, UNMARKED)
  {
    UnlinkL();
    OneLetter('a');
    var st, e := Cold(WITH_L, 0, START), Unlinking("/l", QUIET);
    hide Unlink;
    hide UnlinkFrees;
    hide NamedBy;
    hide Stray;
    hide Spelt;
    assert Frees(st, e) == 4 && Misread(st, e) == {ROOT_BLOCK};
    assert START.home - {} + map[] == UNMARKED.home && START.marked - {} - {ROOT_BLOCK} + {} == UNMARKED.marked;
    CalmStep(st, e, UNMARKED);
    hide Step;
  }

  lemma AfterStatF()
    ensures Step(Cold(LESS_L, 0, UNMARKED), Stat("/f")) == Warm(LESS_L, "/f", 3, UNMARKED)
  {
    OneComponentWalk(LESS_L, "f", "/f", 0);
    hide ResolveFrom;
    LookupStep(LESS_L, "/f", UNMARKED, 3);
    hide Step;
  }

  /** The pwrite is given the root directory's block. */
  lemma AfterWriteF()
    ensures var st' := Step(Warm(LESS_L, "/f", 3, UNMARKED),
                            Pwriting("/f", 0, "", true, Given(ROOT_BLOCK, 3).(left := LOST)));
            st'.fs == LOST && st'.lines == Warm(LESS_L, "/f", 3, UNMARKED).lines
  {
    OneComponent(LESS_L, "f", "/f");
    hide ParentOf;
    var st, e := Warm(LESS_L, "/f", 3, UNMARKED), Pwriting("/f", 0, "", true, Given(ROOT_BLOCK, 3).(left := LOST));
    assert Hits(LESS_L, "/f") && NamedBy(LESS_L, "/f") == 3 && !Stray(LESS_L, "/f");
    NotCreated(LESS_L, "/f");
    hide Hits;
    hide Creates;
    hide NamedBy;
    hide Stray;
    assert InUse(st, e)[ROOT_BLOCK] == 2 && ROOT_BLOCK in e.out.got;
    assert Lost(st, e) == {2};
    hide Lost;
    NotReworded(LESS_L, Written(st, e));
    hide Reworded;
    assert Overlaid(LESS_L, {2}, LOST) == LOST;
    hide Overlaid;
  }

  lemma LetterStale(st: State)
    requires Shape(st) && st.fs == LOST && st.lines == Warm(LESS_L, "/f", 3, UNMARKED).lines
    ensures Resolve(st, "/f").1 == 3 && ResolveFrom(st.fs, ROOT, "/f", 0) == 0
  {
    OneComponentWalk(LOST, "f", "/f", 0);
    hide ResolveFrom;
    assert GetFrom(st.lines, "/f", 0) == 3;
  }

  lemma LetterRun()
    ensures var st := Run(EMPTY_ROOT, START, [Writing("/f", 3, true, QUIET), Symlinking("a", "/l", 4, true, QUIET),
                                              Unlinking("/l", QUIET), Stat("/f"),
                                              Pwriting("/f", 0, "", true, Given(ROOT_BLOCK, 3).(left := LOST))]);
            Resolve(st, "/f").1 == 3 && ResolveFrom(st.fs, ROOT, "/f", 0) == 0
  {
    assert Plain("f") && "/f" == "/" + "f";
    hide *;
    var e0, e1 := Writing("/f", 3, true, QUIET), Symlinking("a", "/l", 4, true, QUIET);
    var e2, e3 := Unlinking("/l", QUIET), Stat("/f");
    var e4 := Pwriting("/f", 0, "", true, Given(ROOT_BLOCK, 3).(left := LOST));
    RunStep(EMPTY_ROOT, START, [], e0);
    RunStep(EMPTY_ROOT, START, [e0], e1);
    assert [e0] + [e1] == [e0, e1];
    RunStep(EMPTY_ROOT, START, [e0, e1], e2);
    assert [e0, e1] + [e2] == [e0, e1, e2];
    RunStep(EMPTY_ROOT, START, [e0, e1, e2], e3);
    assert [e0, e1, e2] + [e3] == [e0, e1, e2, e3];
    RunStep(EMPTY_ROOT, START, [e0, e1, e2, e3], e4);
    assert [e0, e1, e2, e3] + [e4] == [e0, e1, e2, e3, e4];
    AfterCreate("f", "/f");
    AfterSymlinkL();
    AfterUnlinkL();
    AfterStatF();
    AfterWriteF();
    LetterStale(Run(EMPTY_ROOT, START, [e0, e1, e2, e3, e4]));
  }

  /** Write /f, make the symlink /l with target "a", remove it, look up /f, then
      let a pwrite grow /f: removing /l cleared the bit of block 97, the root
      directory's.  On a full device that is the block the pwrite is given, and /f
      goes on being answered from the cache.  No name was left dangling. */
  lemma FreedSymlinkGoesStale(dev: B.State, g: B.Geometry)
    requires B.Counted(dev, g) && B.Frees(g, ROOT_BLOCK)
    requires forall x: nat :: B.Frees(g, x) ==> B.Used(dev, g, x)
    ensures var b := B.Alloc(B.FreeAll(dev, g, Slots("a")), g).1;
            var st := Run(EMPTY_ROOT, START, [Writing("/f", 3, true, QUIET), Symlinking("a", "/l", 4, true, QUIET),
                                              Unlinking("/l", QUIET), Stat("/f"),
                                              Pwriting("/f", 0, "", true, Given(b, 3).(left := LOST))]);
            b == ROOT_BLOCK && Resolve(st, "/f").1 == 3 && ResolveFrom(st.fs, ROOT, "/f", 0) == 0
  {
    assert ['a'] == "a" && 'a' as int == ROOT_BLOCK;
    LetterComesBack(dev, g, 'a');
    LetterRun();
    hide *;
  }

  // A pwrite to a symlink.

  /** /l is a symlink to the file /f; its target is a parameter. */
  function Linked(target: string): Fs {
    Fs(map[2 := Inode(Dir(map["l" := 3, "f" := 4]), 2), 3 := Inode(Link(target), 1), 4 := Inode(EMPTY, 1)], {2, 3, 4})
  }

  /** A target longer than the reader of symlinks accepts. */
  function Overlong(): (t: string)
    ensures |t| == 300 && !Followable(t)
  {
    seq(300, _ => 'x')
  }

  lemma AfterFollow()
    ensures Step(Boot(Linked("/f"), START), Stat("/l")) == Warm(Linked("/f"), "/l", 4, START)
  {
    var fs := Linked("/f");
    OneComponentWalk(fs, "l", "/l", 0);
    OneComponentWalk(fs, "f", "/f", 1);
    hide ResolveFrom;
    LookupStep(fs, "/l", START, 4);
    hide Step;
  }

  /** A pwrite past the end of /l goes to the symlink's own inode, not to /f, and
      leaves a length that no longer reads as a target. */
  lemma PwriteOnLinkGoesStale()
    ensures var st := Step(Step(Boot(Linked("/f"), START), Stat("/l")),
                           Pwriting("/l", 0, "", true, QUIET.(left := Linked(Overlong()))));
            Resolve(st, "/l").1 == 4 && ResolveFrom(st.fs, ROOT, "/l", 0) == 0
  {
    AfterFollow();
    var st1 := Warm(Linked("/f"), "/l", 4, START);
    OneComponent(st1.fs, "l", "/l");
    hide ParentOf;
    var st2 := Step(st1, Pwriting("/l", 0, "", true, QUIET.(left := Linked(Overlong()))));
    assert Hits(st1.fs, "/l") && NamedBy(st1.fs, "/l") == 3;
    assert st2.fs == Linked(Overlong()) && st2.lines == st1.lines;
    assert GetFrom(st2.lines, "/l", 0) == 4;
    OneComponentWalk(st2.fs, "l", "/l", 0);
    hide ResolveFrom;
    hide Step;
  }

  // A leaf longer than a name.

  /** The inode that the part of the leaf which fits a name gives, under a cached parent. */
  function CutName(st: State, path: string, slash: nat): nat
    requires slash < |path|
  {
    Lookup(st.fs, GetFrom(st.lines, path[..slash], 0), Leaf(path, slash))
  }

  predicate LongLeaf(st: State, path: string, slash: nat)
    requires Shape(st)
  {
    && slash == LastSlash(path, |path|) && 0 < slash <= PARENT_MAX && |path| > slash + 1 + NAME_MAX
    && Readable(st.fs, CutName(st, path, slash)) && !IsLink(st.fs, CutName(st, path, slash))
  }

  /** The walk goes on from the inode the cut name gives. */
  lemma LongLeafWalks(st: State, path: string, slash: nat, v: nat)
    requires Right(st) && LongLeaf(st, path, slash) && FitsFrom(st.fs, ROOT, path, 0)
    requires var tail := path[slash + 1 + NAME_MAX..];
             Tail(tail) && Leads(st.fs, CutName(st, path, slash), tail, v)
    ensures ResolveFrom(st.fs, ROOT, path, 0) == v
  {
    var dir, leaf := path[..slash], path[slash + 1..];
    GetRight(st, dir, 0);
    var d := GetFrom(st.lines, dir, 0);
    assert '/' !in leaf;
    assert leaf[0] in leaf;
    assert leaf[NAME_MAX..] == path[slash + 1 + NAME_MAX..];
    assert Leaf(path, slash) == leaf[..NAME_MAX];
    hide ResolveFrom;
    hide Leads;
    LongLeafLeads(st.fs, d, leaf, v);
    assert path == dir + "/" + leaf;
    ResolveJoined(st.fs, ROOT, dir, leaf, path, 0, v);
  }

  /** A leaf longer than 255 characters is cut by the shortcut but split by the
      walk: they agree exactly when the rest of the leaf leads back to where it starts. */
  lemma LongLeafAgreesIff(st: State, path: string, slash: nat, v: nat)
    requires Right(st) && LongLeaf(st, path, slash) && FitsFrom(st.fs, ROOT, path, 0)
    requires GetFrom(st.lines, path, 0) == 0
    requires var tail := path[slash + 1 + NAME_MAX..];
             Tail(tail) && Leads(st.fs, CutName(st, path, slash), tail, v)
    ensures Resolve(st, path).1 == ResolveFrom(st.fs, ROOT, path, 0) <==> v == CutName(st, path, slash)
  {
    LongLeafWalks(st, path, slash, v);
    hide ResolveFrom;
    hide Leads;
  }

  lemma LongLeafLeads(fs: Fs, d: nat, leaf: string, v: nat)
    requires |leaf| > NAME_MAX && '/' !in leaf && Tail(leaf) && Tail(leaf[NAME_MAX..])
    requires var i := Lookup(fs, d, leaf[..NAME_MAX]);
             Readable(fs, i) && !IsLink(fs, i) && Leads(fs, i, leaf[NAME_MAX..], v)
    ensures Leads(fs, d, leaf, v)
  {
    ScanLong(leaf, 0);
    assert Rest(leaf) == leaf[NAME_MAX..];
  }

  lemma {:induction false} ScanLong(leaf: string, n: nat)
    requires |leaf| > NAME_MAX && '/' !in leaf && n <= NAME_MAX
    ensures ScanComp(leaf, n) == NAME_MAX
    decreases NAME_MAX - n
  {
    if n < NAME_MAX {
      assert leaf[n] in leaf;
      ScanLong(leaf, n + 1);
    }
  }

  /** Under any cached parent, when the cut name is a plain file the walk fails
      and the shortcut answers that file. */
  lemma LongLeafDisagrees(st: State, path: string, slash: nat)
    requires Right(st) && LongLeaf(st, path, slash) && FitsFrom(st.fs, ROOT, path, 0)
    requires st.fs.inodes[CutName(st, path, slash)].node.File?
    ensures Resolve(st, path).1 == CutName(st, path, slash) && ResolveFrom(st.fs, ROOT, path, 0) == 0
  {
    var tail := path[slash + 1 + NAME_MAX..];
    assert tail[0] == path[slash + 1 + NAME_MAX];
    assert Leads(st.fs, CutName(st, path, slash), tail, 0);
    LongLeafWalks(st, path, slash, 0);
    GetRight(st, path, 0);
    hide ResolveFrom;
    hide Leads;
  }
}
