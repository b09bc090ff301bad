/** The dentry cache and the walk as the code runs them, loop by loop. */
module DentryTable {
  import opened Paths
  import opened PathCache

  class Dentries {
    var fs: Fs
    const lines: array<Line>
    var clock: nat

    ghost predicate Valid()
      reads this, lines
    {
      Shape(View())
    }

    /** The cache over an undamaged disk; resolution never asks about damage. */
    ghost function View(): State
      reads this, lines
    {
      State(fs, lines[..], clock, Blocks(map[], {}, {}), false)
    }

    constructor (image: Fs)
      ensures Valid() && View() == Boot(image, Blocks(map[], {}, {})) && fresh(lines)
    {
      fs, clock := image, 0;
      lines := new Line[LINES](_ => Free);
      new;
      assert lines[..] == Boot(image, Blocks(map[], {}, {})).lines;
    }

    method Get(path: string) returns (ino: nat)
      requires Valid()
      ensures ino == GetFrom(lines[..], path, 0)
    {
      var i := 0;
      while i < lines.Length
        invariant 0 <= i <= lines.Length
        invariant GetFrom(lines[..], path, 0) == GetFrom(lines[..], path, i)
      {
        if lines[i].Cached? && lines[i].path == path {
          return lines[i].ino;
        }
        i := i + 1;
      }
      ino := 0;
    }

    method Store(path: string, ino: nat)
      requires Valid()
      modifies lines, this`clock
      ensures Valid() && View() == Put(old(View()), path, ino)
    {
      if |path| > PATH_MAX {
        return;
      }
      var idx := clock % LINES;
      clock := (clock + 1) % 0x1_0000_0000;
      lines[idx] := Cached(path, ino);
    }

    method InvalidateAll()
      requires Valid()
      modifies lines
      ensures Valid() && View() == Flush(old(View()))
    {
      var i := 0;
      while i < lines.Length
        invariant 0 <= i <= lines.Length == LINES
        invariant forall k :: 0 <= k < i ==> lines[k] == Free
      {
        lines[i] := Free;
        i := i + 1;
      }
      assert lines[..] == Flush(old(View())).lines;
    }

    /** resolve: exact hit, then the parent shortcut, then the walk. */
    method ResolvePath(path: string) returns (ino: nat)
      requires Valid()
      modifies lines, this`clock
      ensures Valid() && (View(), ino) == Resolve(old(View()), path)
    {
      var hit := Get(path);
      if hit != 0 && hit in fs.inodes {
        return hit;
      }
      var slash := FindSlash(path);
      if slash > 0 && slash <= PARENT_MAX {
        var leaf := path[slash + 1..];
        if |leaf| > NAME_MAX {
          leaf := leaf[..NAME_MAX];
        }
        var parent := Get(path[..slash]);
        if parent != 0 && |leaf| > 0 && IsDir(fs, parent) {
          ino := Lookup(fs, parent, leaf);
          if ino != 0 && ino in fs.inodes && !fs.inodes[ino].node.Link? {
            Store(path, ino);
            return;
          }
        }
      }
      ino := ResolveWalk(fs, ROOT, path, 0);
      if ino != 0 {
        Store(path, ino);
      }
    }
  }

  method FindSlash(path: string) returns (slash: int)
    ensures slash == LastSlash(path, |path|)
  {
    slash := -1;
    var i := 0;
    while i < |path|
      invariant 0 <= i <= |path|
      invariant slash == LastSlash(path, i)
    {
      if path[i] == '/' {
        slash := i;
      }
      i := i + 1;
    }
  }

  /** resolve_from: slashes, then one component at a time. */
  method ResolveWalk(fs: Fs, start: nat, path: string, depth: nat) returns (ino: nat)
    requires depth <= MAX_DEPTH + 1
    ensures ino == ResolveFrom(fs, start, path, depth)
    decreases MAX_DEPTH + 1 - depth
  {
    if depth > MAX_DEPTH || !Readable(fs, start) {
      return 0;
    }
    var at := start;
    var p := path;
    while p != "" && p[0] == '/'
      invariant Strip(p) == Strip(path)
      invariant at == if p == path then start else ROOT
      invariant p != path ==> path != "" && path[0] == '/'
      decreases |p|
    {
      p := p[1..];
      at := ROOT;
    }
    if !Readable(fs, at) {
      return 0;
    }
    ghost var goal := Walk(fs, at, p, depth);
    while p != ""
      invariant p != "" ==> p[0] != '/'
      invariant Readable(fs, at) && Walk(fs, at, p, depth) == goal
      decreases |p|
    {
      var name, rest := Component(p);
      if !IsDir(fs, at) {
        return 0;
      }
      var next := Lookup(fs, at, name);
      if !Readable(fs, next) {
        return 0;
      }
      if fs.inodes[next].node.Link? {
        var target := fs.inodes[next].node.target;
        if |target| == 0 || |target| > NAME_MAX {
          return 0;
        }
        var longer := Expand(target, rest);
        var restart := if target[0] == '/' then ROOT else at;
        ino := ResolveWalk(fs, restart, longer, depth + 1);
        return;
      }
      at := next;
      p := rest;
    }
    ino := at;
  }

  /** The next component, at most 255 characters, and the path after its slashes. */
  method Component(p: string) returns (name: string, rest: string)
    ensures name == p[..CompLen(p)] && rest == Rest(p)
  {
    var n := 0;
    while n < |p| && p[n] != '/' && n < NAME_MAX
      invariant 0 <= n <= |p| && n <= NAME_MAX
      invariant ScanComp(p, n) == CompLen(p)
    {
      n := n + 1;
    }
    name := p[..n];
    rest := p[n..];
    while rest != "" && rest[0] == '/'
      invariant Strip(rest) == Strip(p[n..])
      decreases |rest|
    {
      rest := rest[1..];
    }
  }

  /** Target, a slash if needed, and the rest, cut at 511 characters. */
  method Expand(target: string, rest: string) returns (r: string)
    requires Followable(target)
    ensures r == Cut(Expanded(target, rest))
  {
    r := target;
    if rest != "" {
      if r[|r| - 1] != '/' {
        r := r + "/";
      }
      ghost var head := r;
      assert Expanded(target, rest) == head + rest;
      var k := 0;
      while k < |rest| && |r| < EXPANDED_MAX
        invariant 0 <= k <= |rest| && |head| + k <= EXPANDED_MAX
        invariant r == head + rest[..k]
      {
        r := r + [rest[k]];
        k := k + 1;
      }
      assert r == (head + rest)[..|head| + k];
    }
  }

  /** resolve_parent: walk to the directory of the last component, chasing symlinks on the way. */
  method FindParent(fs: Fs, path: string) returns (place: Place)
    ensures place == ParentOf(fs, path)
  {
    if !Readable(fs, ROOT) {
      return Nowhere;
    }
    var p := path;
    while p != "" && p[0] == '/'
      invariant Strip(p) == Strip(path)
      decreases |p|
    {
      p := p[1..];
    }
    if p == "" {
      return Nowhere;
    }
    var at := ROOT;
    var name, rest := Component(p);
    while rest != ""
      invariant p != "" && p[0] != '/'
      invariant name == p[..CompLen(p)] && rest == Rest(p)
      invariant ParentWalk(fs, at, p) == ParentOf(fs, path)
      decreases |p|
    {
      var next := Lookup(fs, at, name);
      if !Readable(fs, next) {
        return Nowhere;
      }
      next := ChaseLinks(fs, at, next);
      if next == 0 {
        return Nowhere;
      }
      at, p := next, rest;
      name, rest := Component(p);
    }
    place := Place(at, name);
  }

  /** The bounded symlink loop inside resolve_parent. */
  method ChaseLinks(fs: Fs, base: nat, first: nat) returns (i: nat)
    ensures i == Chase(fs, base, first, MAX_DEPTH)
  {
    i := first;
    var left: nat := MAX_DEPTH;
    while IsLink(fs, i) && left > 0
      invariant 0 <= left <= MAX_DEPTH
      invariant Chase(fs, base, i, left) == Chase(fs, base, first, MAX_DEPTH)
      decreases left
    {
      var target := fs.inodes[i].node.target;
      if !Followable(target) {
        return 0;
      }
      var r := ResolveWalk(fs, if target[0] == '/' then ROOT else base, target, 0);
      if !Readable(fs, r) {
        return 0;
      }
      i := r;
      left := left - 1;
    }
  }
}
