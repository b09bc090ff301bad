/** The ext2 name space as path resolution sees it, and the plain walk
    (resolve_from, resolve_parent) over it.
 */
module Paths {
  const ROOT: nat := 2
  const NAME_MAX: nat := 255
  const EXPANDED_MAX: nat := 511
  const MAX_DEPTH: nat := 8

  /** A file may be taken for a directory by the calls that do not look: `spells`
      is what its data reads as then. */
  datatype Node = Dir(entries: map<string, nat>) | File(spells: map<string, nat>) | Link(target: string)

  /** One inode: what it is, and its link count (16 bits on disk). */
  datatype Inode = Inode(node: Node, links: nat)

  /** Inodes that can be read, freed ones included, and the inode bitmap. */
  datatype Fs = Fs(inodes: map<nat, Inode>, used: set<nat>)

  predicate Readable(fs: Fs, i: nat) {
    i != 0 && i in fs.inodes
  }

  predicate IsDir(fs: Fs, i: nat) {
    Readable(fs, i) && fs.inodes[i].node.Dir?
  }

  predicate IsLink(fs: Fs, i: nat) {
    Readable(fs, i) && fs.inodes[i].node.Link?
  }

  /** dir_lookup on a directory: 0 when the name is absent. */
  function Lookup(fs: Fs, d: nat, name: string): nat {
    if IsDir(fs, d) && name in fs.inodes[d].node.entries then fs.inodes[d].node.entries[name] else 0
  }

  /** dir_lookup on whatever inode was read last. */
  function Parsed(fs: Fs, d: nat, name: string): (r: nat)
    ensures IsDir(fs, d) ==> r == Lookup(fs, d, name)
    ensures r != 0 ==> Readable(fs, d)
  {
    if Readable(fs, d) && fs.inodes[d].node.File? && name in fs.inodes[d].node.spells
    then fs.inodes[d].node.spells[name] else Lookup(fs, d, name)
  }

  // Taking a path apart.

  function Strip(p: string): (r: string)
    ensures |r| <= |p|
    ensures r != "" ==> r[0] != '/'
  {
    if p != "" && p[0] == '/' then Strip(p[1..]) else p
  }

  /** The length of the first component, which is cut at 255 characters. */
  function CompLen(p: string): (n: nat)
    ensures n <= |p| && n <= NAME_MAX
    ensures p != "" && p[0] != '/' ==> n > 0
  {
    ScanComp(p, 0)
  }

  function ScanComp(p: string, n: nat): (r: nat)
    requires n <= |p| && n <= NAME_MAX
    ensures n <= r <= |p| && r <= NAME_MAX
    ensures n < |p| && p[n] != '/' && n < NAME_MAX ==> r > n
    decreases |p| - n
  {
    if n < |p| && p[n] != '/' && n < NAME_MAX then ScanComp(p, n + 1) else n
  }

  function Rest(p: string): (r: string)
    ensures |r| <= |p|
    ensures p != "" && p[0] != '/' ==> |r| < |p|
    ensures r != "" ==> r[0] != '/'
  {
    Strip(p[CompLen(p)..])
  }

  function Cut(p: string): (r: string)
    ensures |r| <= EXPANDED_MAX
  {
    if |p| <= EXPANDED_MAX then p else p[..EXPANDED_MAX]
  }

  /** Target and remaining path before they are cut to the expansion buffer. */
  function Expanded(target: string, rest: string): (r: string)
    requires target != ""
    ensures |r| <= |target| + 1 + |rest| && |r| > 0 && r[0] == target[0]
  {
    if rest == "" then target
    else if target[|target| - 1] == '/' then target + rest
    else target + "/" + rest
  }

  predicate Followable(target: string) {
    0 < |target| <= NAME_MAX
  }

  // The walk; 0 is failure.

  function ResolveFrom(fs: Fs, start: nat, path: string, depth: nat): (r: nat)
    requires depth <= MAX_DEPTH + 1
    decreases MAX_DEPTH + 1 - depth, |path| + 1
  {
    if depth > MAX_DEPTH || !Readable(fs, start) then 0 else
      var at := if path != "" && path[0] == '/' then ROOT else start;
      if !Readable(fs, at) then 0 else Walk(fs, at, Strip(path), depth)
  }

  function Walk(fs: Fs, at: nat, p: string, depth: nat): (r: nat)
    requires depth <= MAX_DEPTH && (p != "" ==> p[0] != '/')
    decreases MAX_DEPTH + 1 - depth, |p|
  {
    if p == "" then at else
      var next := Lookup(fs, at, p[..CompLen(p)]);
      if !Readable(fs, next) then 0
      else if IsLink(fs, next) then
        var target := fs.inodes[next].node.target;
        if !Followable(target) then 0
        else ResolveFrom(fs, if target[0] == '/' then ROOT else at, Cut(Expanded(target, Rest(p))), depth + 1)
      else Walk(fs, next, Rest(p), depth)
  }

  /** No symlink expansion met by the walk overflows the expansion buffer. */
  predicate FitsFrom(fs: Fs, start: nat, path: string, depth: nat)
    requires depth <= MAX_DEPTH + 1
    decreases MAX_DEPTH + 1 - depth, |path| + 1
  {
    if depth > MAX_DEPTH || !Readable(fs, start) then true else
      var at := if path != "" && path[0] == '/' then ROOT else start;
      if !Readable(fs, at) then true else Fits(fs, at, Strip(path), depth)
  }

  predicate Fits(fs: Fs, at: nat, p: string, depth: nat)
    requires depth <= MAX_DEPTH && (p != "" ==> p[0] != '/')
    decreases MAX_DEPTH + 1 - depth, |p|
  {
    if p == "" then true else
      var next := Lookup(fs, at, p[..CompLen(p)]);
      if !Readable(fs, next) then true
      else if IsLink(fs, next) then
        var target := fs.inodes[next].node.target;
        if !Followable(target) then true else
          var path := Expanded(target, Rest(p));
          && |path| <= EXPANDED_MAX
          && FitsFrom(fs, if target[0] == '/' then ROOT else at, path, depth + 1)
      else Fits(fs, next, Rest(p), depth)
  }

  // The walk ends on something readable, and on a symlink only if it starts on one.

  lemma {:induction false} ResolvedFrom(fs: Fs, start: nat, path: string, depth: nat)
    requires depth <= MAX_DEPTH + 1
    ensures var r := ResolveFrom(fs, start, path, depth);
            r != 0 ==> Readable(fs, r) && (!IsLink(fs, start) && !IsLink(fs, ROOT) ==> !IsLink(fs, r))
    decreases MAX_DEPTH + 1 - depth, |path| + 1
  {
    if depth <= MAX_DEPTH && Readable(fs, start) {
      var at := if path != "" && path[0] == '/' then ROOT else start;
      if Readable(fs, at) {
        Resolved(fs, at, Strip(path), depth);
      }
    }
  }

  lemma {:induction false} Resolved(fs: Fs, at: nat, p: string, depth: nat)
    requires depth <= MAX_DEPTH && (p != "" ==> p[0] != '/') && Readable(fs, at)
    ensures var r := Walk(fs, at, p, depth);
            r != 0 ==> Readable(fs, r) && (!IsLink(fs, at) && !IsLink(fs, ROOT) ==> !IsLink(fs, r))
    decreases MAX_DEPTH + 1 - depth, |p|
  {
    if p != "" {
      var next := Lookup(fs, at, p[..CompLen(p)]);
      if Readable(fs, next) {
        if !IsLink(fs, next) {
          Resolved(fs, next, Rest(p), depth);
        } else if Followable(fs.inodes[next].node.target) {
          var target := fs.inodes[next].node.target;
          ResolvedFrom(fs, if target[0] == '/' then ROOT else at, Cut(Expanded(target, Rest(p))), depth + 1);
        }
      }
    }
  }

  // Growing the name space by fresh names cannot change a path that resolves.

  /** A set of inodes that holds the root and whatever its directories name. */
  ghost predicate Region(fs: Fs, live: set<nat>) {
    && ROOT in live
    && forall d, name :: d in live && Lookup(fs, d, name) != 0 ==> Lookup(fs, d, name) in live
  }

  /** fs' keeps the region's inodes, except that its directories may name more. */
  ghost predicate Grown(fs: Fs, fs': Fs, live: set<nat>) {
    forall i :: i in live && Readable(fs, i) ==>
      && Readable(fs', i)
      && if IsDir(fs, i) then
           IsDir(fs', i) && forall name :: Lookup(fs, i, name) != 0 ==> Lookup(fs', i, name) == Lookup(fs, i, name)
         else if IsLink(fs, i) then fs'.inodes[i].node == fs.inodes[i].node
         else fs'.inodes[i].node.File?
  }

  lemma {:induction false} WalkSurvives(fs: Fs, fs': Fs, live: set<nat>, at: nat, p: string, depth: nat)
    requires depth <= MAX_DEPTH && (p != "" ==> p[0] != '/')
    requires Region(fs, live) && Grown(fs, fs', live) && at in live
    requires Walk(fs, at, p, depth) != 0
    ensures Walk(fs', at, p, depth) == Walk(fs, at, p, depth) && Walk(fs, at, p, depth) in live
    decreases MAX_DEPTH + 1 - depth, |p|
  {
    if p != "" {
      var next := Lookup(fs, at, p[..CompLen(p)]);
      assert next in live && Lookup(fs', at, p[..CompLen(p)]) == next;
      if IsLink(fs, next) {
        var target := fs.inodes[next].node.target;
        ResolveSurvives(fs, fs', live, if target[0] == '/' then ROOT else at,
                        Cut(Expanded(target, Rest(p))), depth + 1);
      } else {
        WalkSurvives(fs, fs', live, next, Rest(p), depth);
      }
    }
  }

  lemma {:induction false} ResolveSurvives(fs: Fs, fs': Fs, live: set<nat>, start: nat, path: string, depth: nat)
    requires depth <= MAX_DEPTH + 1
    requires Region(fs, live) && Grown(fs, fs', live) && start in live
    requires ResolveFrom(fs, start, path, depth) != 0
    ensures ResolveFrom(fs', start, path, depth) == ResolveFrom(fs, start, path, depth)
    ensures ResolveFrom(fs, start, path, depth) in live
    decreases MAX_DEPTH + 1 - depth, |path| + 1
  {
    var at := if path != "" && path[0] == '/' then ROOT else start;
    WalkSurvives(fs, fs', live, at, Strip(path), depth);
  }

  // Appending to a path that resolves.

  /** q is p with `tail` as further components. */
  predicate Joined(p: string, tail: string, q: string) {
    q == p + "/" + tail || ((p == "" || p[|p| - 1] == '/') && q == p + tail)
  }

  predicate Tail(tail: string) {
    tail != "" && tail[0] != '/'
  }

  /** One component that is not cut. */
  predicate Plain(leaf: string) {
    0 < |leaf| <= NAME_MAX && '/' !in leaf
  }

  /** From d the tail leads to v, however many symlinks were followed before. */
  ghost predicate Leads(fs: Fs, d: nat, tail: string, v: nat)
    requires Tail(tail)
  {
    forall depth: nat :: depth <= MAX_DEPTH ==> Walk(fs, d, tail, depth) == v
  }

  /** A leaf that d names as a non-symlink. */
  lemma LeafLeads(fs: Fs, d: nat, leaf: string)
    requires Plain(leaf) && Readable(fs, Lookup(fs, d, leaf)) && !IsLink(fs, Lookup(fs, d, leaf))
    ensures leaf[0] in leaf && Leads(fs, d, leaf, Lookup(fs, d, leaf))
  {
    assert leaf[0] in leaf;
    ScanWhole(leaf, 0);
    assert leaf[..CompLen(leaf)] == leaf && Rest(leaf) == "";
  }

  lemma {:induction false} StripJoined(p: string, tail: string, q: string)
    requires Joined(p, tail, q) && Tail(tail)
    ensures Joined(Strip(p), tail, Strip(q))
    ensures p != "" ==> q != "" && p[0] == q[0]
  {
    if p != "" && p[0] == '/' {
      assert Joined(p[1..], tail, q[1..]) by {
        assert (p + "/" + tail)[1..] == p[1..] + "/" + tail;
        assert (p + tail)[1..] == p[1..] + tail;
      }
      StripJoined(p[1..], tail, q[1..]);
    } else if p == "" {
      assert Strip(tail) == tail;
      if q != tail {
        assert q[1..] == tail;
      }
    }
  }

  lemma {:induction false} ScanJoined(p: string, tail: string, q: string, n: nat)
    requires Joined(p, tail, q) && Tail(tail) && p != "" && n <= |p| && n <= NAME_MAX
    requires n == |p| ==> p[|p| - 1] != '/'
    ensures ScanComp(q, n) == ScanComp(p, n)
    decreases |p| - n
  {
    assert |p| <= |q| && forall i :: 0 <= i < |p| ==> q[i] == p[i];
    if n < |p| && p[n] != '/' && n < NAME_MAX {
      ScanJoined(p, tail, q, n + 1);
    } else if n == |p| {
      assert q[n] == '/';
    }
  }

  lemma RestJoined(p: string, tail: string, q: string)
    requires Joined(p, tail, q) && Tail(tail) && p != "" && p[0] != '/'
    ensures CompLen(q) == CompLen(p) && p[..CompLen(p)] == q[..CompLen(p)]
    ensures Joined(Rest(p), tail, Rest(q))
  {
    ScanJoined(p, tail, q, 0);
    var n := CompLen(p);
    assert (p + "/" + tail)[n..] == p[n..] + "/" + tail;
    assert (p + tail)[n..] == p[n..] + tail;
    if n == |p| {
      ScanStops(p, 0);
    }
    StripJoined(p[n..], tail, q[n..]);
  }

  lemma {:induction false} ScanStops(p: string, n: nat)
    requires n <= |p| && n <= NAME_MAX && ScanComp(p, n) == |p| && n < |p|
    ensures p[|p| - 1] != '/'
    decreases |p| - n
  {
    if n + 1 < |p| {
      ScanStops(p, n + 1);
    }
  }

  lemma ExpandJoined(target: string, rest: string, tail: string, rest': string)
    requires target != "" && Joined(rest, tail, rest') && Tail(tail)
    requires rest == "" ==> rest' == tail
    ensures Joined(Expanded(target, rest), tail, Expanded(target, rest'))
    ensures |Expanded(target, rest)| <= |Expanded(target, rest')|
  {
    if rest != "" {
      var head := if target[|target| - 1] == '/' then target else target + "/";
      assert Expanded(target, rest) == head + rest && Expanded(target, rest') == head + rest';
      assert head + (rest + "/" + tail) == (head + rest) + "/" + tail;
      assert head + (rest + tail) == (head + rest) + tail;
    }
  }

  /** Walking p and then the tail is walking the two joined. */
  lemma {:induction false} WalkJoined(fs: Fs, at: nat, p: string, tail: string, q: string, depth: nat, v: nat)
    requires depth <= MAX_DEPTH && (p != "" ==> p[0] != '/') && (q != "" ==> q[0] != '/')
    requires Joined(p, tail, q) && Tail(tail) && Fits(fs, at, q, depth)
    requires Walk(fs, at, p, depth) != 0 && Leads(fs, Walk(fs, at, p, depth), tail, v)
    ensures Walk(fs, at, q, depth) == v
    decreases MAX_DEPTH + 1 - depth, |p|
  {
    if p == "" {
      assert q == tail;
    } else {
      RestJoined(p, tail, q);
      var next := Lookup(fs, at, p[..CompLen(p)]);
      hide Leads;
      hide Joined;
      if IsLink(fs, next) {
        var target := fs.inodes[next].node.target;
        RestEmpty(Rest(p), tail, Rest(q));
        ExpandJoined(target, Rest(p), tail, Rest(q));
        ResolveJoined(fs, if target[0] == '/' then ROOT else at,
                      Expanded(target, Rest(p)), tail, Expanded(target, Rest(q)), depth + 1, v);
      } else {
        WalkJoined(fs, next, Rest(p), tail, Rest(q), depth, v);
      }
    }
  }

  lemma RestEmpty(rest: string, tail: string, rest': string)
    requires Joined(rest, tail, rest') && (rest' != "" ==> rest'[0] != '/')
    ensures rest == "" ==> rest' == tail
  {
  }

  lemma {:induction false} ResolveJoined(fs: Fs, start: nat, p: string, tail: string, q: string, depth: nat, v: nat)
    requires depth <= MAX_DEPTH + 1 && p != ""
    requires Joined(p, tail, q) && Tail(tail) && FitsFrom(fs, start, q, depth)
    requires ResolveFrom(fs, start, p, depth) != 0 && Leads(fs, ResolveFrom(fs, start, p, depth), tail, v)
    ensures ResolveFrom(fs, start, q, depth) == v
    decreases MAX_DEPTH + 1 - depth, |p| + 1
  {
    StripJoined(p, tail, q);
    var at := if p[0] == '/' then ROOT else start;
    hide Leads;
    WalkJoined(fs, at, Strip(p), tail, Strip(q), depth, v);
  }

  lemma {:induction false} ScanWhole(leaf: string, n: nat)
    requires Plain(leaf) && n <= |leaf|
    ensures ScanComp(leaf, n) == |leaf|
    decreases |leaf| - n
  {
    if n < |leaf| {
      assert leaf[n] in leaf;
      ScanWhole(leaf, n + 1);
    }
  }

  // The directory and leaf that the mutating calls act on (resolve_parent).

  datatype Place = Nowhere | Place(dir: nat, leaf: string)

  /** Following an intermediate symlink held by directory `base`; 0 is failure. */
  function Chase(fs: Fs, base: nat, i: nat, left: nat): (r: nat)
    decreases left
  {
    if !IsLink(fs, i) || left == 0 then i else
      var target := fs.inodes[i].node.target;
      if !Followable(target) then 0 else
        var r := ResolveFrom(fs, if target[0] == '/' then ROOT else base, target, 0);
        if Readable(fs, r) then Chase(fs, base, r, left - 1) else 0
  }

  function ParentWalk(fs: Fs, at: nat, p: string): (r: Place)
    requires p != "" && p[0] != '/'
    decreases |p|
  {
    var name, rest := p[..CompLen(p)], Rest(p);
    if rest == "" then Place(at, name) else
      var next := Lookup(fs, at, name);
      if !Readable(fs, next) then Nowhere else
        var i := Chase(fs, at, next, MAX_DEPTH);
        if i == 0 then Nowhere else ParentWalk(fs, i, rest)
  }

  function ParentOf(fs: Fs, path: string): (r: Place) {
    if !Readable(fs, ROOT) || Strip(path) == "" then Nowhere else ParentWalk(fs, ROOT, Strip(path))
  }

  /** Following links from inside a region stays inside it. */
  lemma {:induction false} ChaseStays(fs: Fs, live: set<nat>, base: nat, i: nat, left: nat)
    requires Region(fs, live) && base in live && i in live
    ensures var r := Chase(fs, base, i, left); r != 0 ==> r in live
    decreases left
  {
    if IsLink(fs, i) && left > 0 {
      var target := fs.inodes[i].node.target;
      if Followable(target) {
        var start := if target[0] == '/' then ROOT else base;
        var r := ResolveFrom(fs, start, target, 0);
        if Readable(fs, r) {
          ResolveSurvives(fs, fs, live, start, target, 0);
          ChaseStays(fs, live, base, r, left - 1);
        }
      }
    }
  }

  lemma {:induction false} ParentWalkStays(fs: Fs, live: set<nat>, at: nat, p: string)
    requires p != "" && p[0] != '/' && Region(fs, live) && at in live
    ensures var r := ParentWalk(fs, at, p); r.Place? ==> r.dir in live
    decreases |p|
  {
    var next := Lookup(fs, at, p[..CompLen(p)]);
    if Rest(p) != "" && Readable(fs, next) {
      ChaseStays(fs, live, at, next, MAX_DEPTH);
      var i := Chase(fs, at, next, MAX_DEPTH);
      if i != 0 {
        ParentWalkStays(fs, live, i, Rest(p));
      }
    }
  }
}
