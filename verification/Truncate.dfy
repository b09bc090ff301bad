/** Truncating a file: free_blocks_range clears an entry of the single-indirect
    table in the `ind` buffer after freeing its block, and the free has loaded a
    descriptor block into that buffer.
 */
module Truncate {
  import opened Basics
  import opened BlockTree
  import opened FileBlocks

  /** What a free_block call that finds its bit set does besides clearing it: the
      descriptor block it leaves in `ind`, and the metadata it rewrites. */
  datatype Release = Release(gd: Block, touched: map<nat, Block>)

  /** The first two words of a descriptor block name the bitmaps of group 0. */
  ghost predicate ReleaseOk(r: Release, meta: set<nat>, bs: nat) {
    && |r.gd| == bs >= 8 && r.touched.Keys <= meta && (forall x :: x in r.touched.Keys ==> |r.touched[x]| == bs)
    && Entry(r.gd, 0) != 0 && Entry(r.gd, 0) in meta && Entry(r.gd, 1) != 0 && Entry(r.gd, 1) in meta
  }

  // Sweeping a table.

  /** The table as it is on disk, and the blocks whose bit is set. */
  datatype Sweep = Sweep(table: Block, marked: set<nat>)

  /** One entry: an unmarked block is only dropped from the table, but freeing a
      marked one leaves the descriptor block in the table's place. */
  function Cleared(s: Sweep, k: nat, r: Release): (s': Sweep)
    requires 4 * k + 4 <= |s.table| == |r.gd|
    ensures |s'.table| == |s.table| && s'.marked <= s.marked
  {
    var b := Entry(s.table, k);
    if b == 0 then s
    else if b in s.marked then Sweep(WithEntry(r.gd, k, 0), s.marked - {b})
    else s.(table := WithEntry(s.table, k, 0))
  }

  /** Entries [from, to), one after the other; rs holds one release for each. */
  function Swept(s: Sweep, from: nat, to: nat, rs: seq<Release>): (s': Sweep)
    requires 4 * to <= |s.table| && to <= |rs| && forall i :: 0 <= i < |rs| ==> |rs[i].gd| == |s.table|
    ensures |s'.table| == |s.table| && s'.marked <= s.marked
  {
    if from >= to then s else Cleared(Swept(s, from, to - 1, rs), to - 1, rs[to - 1])
  }

  /** Entry k names a block that is in use. */
  predicate Busy(s: Sweep, k: nat)
    requires 4 * k + 4 <= |s.table|
  {
    Entry(s.table, k) != 0 && Entry(s.table, k) in s.marked
  }

  /** What truncation is for: the entries in the range are empty, the others as before. */
  ghost predicate Right(table: Block, table': Block, from: nat, to: nat)
    requires |table| == |table'|
  {
    forall j :: 0 <= j && 4 * j + 4 <= |table| ==>
      Entry(table', j) == if from <= j < to then 0 else Entry(table, j)
  }

  /** Nothing in use was met: the entries before k are cleared, the rest untouched. */
  ghost predicate Clean(s: Sweep, s': Sweep, from: nat, k: nat)
    requires |s.table| == |s'.table| && 4 * k <= |s.table|
  {
    && s'.marked == s.marked && Right(s.table, s'.table, from, k)
    && forall j :: from <= j < k ==> !Busy(s, j)
  }

  predicate MetAny(s: Sweep, from: nat, k: nat)
    requires 4 * k <= |s.table|
  {
    exists j :: from <= j < k && Busy(s, j)
  }

  /** The last block in use was met at z: the table is the descriptor block from there,
      cleared from z to k. */
  ghost predicate Overrun(s: Sweep, s': Sweep, from: nat, k: nat, z: nat, gd: Block)
    requires |s.table| == |s'.table| == |gd| && 4 * k <= |s.table| && |s.table| >= 8
  {
    && from <= z < k && MetAny(s, from, k)
    && Right(gd, s'.table, z, k)
    && (z == 0 ==> k == 1 && Entry(gd, 1) in s'.marked)
  }

  lemma CutLater(a: Block, b: Block, from: nat, k: nat)
    requires |a| == |b| && from <= k && 4 * k + 4 <= |a| && Right(a, b, from, k)
    ensures Right(a, WithEntry(b, k, 0), from, k + 1)
    ensures Entry(b, k) == 0 ==> Right(a, b, from, k + 1)
  {
    forall j | 0 <= j && 4 * j + 4 <= |a|
      ensures Entry(WithEntry(b, k, 0), j) == if from <= j < k + 1 then 0 else Entry(a, j)
    {
      EntrySet(b, k, 0, j);
    }
    hide Entry;
    hide WithEntry;
  }

  lemma CutHere(gd: Block, k: nat)
    requires 4 * k + 4 <= |gd|
    ensures Right(gd, WithEntry(gd, k, 0), k, k + 1)
  {
    assert Right(gd, gd, k, k);
    CutLater(gd, gd, k, k);
  }

  /** The table holds no metadata, and all metadata is in use. */
  ghost predicate Apart(s: Sweep, meta: set<nat>) {
    && meta <= s.marked
    && forall j :: 0 <= j && 4 * j + 4 <= |s.table| ==> Entry(s.table, j) == 0 || Entry(s.table, j) !in meta
  }

  ghost predicate Releases(rs: seq<Release>, meta: set<nat>, bs: nat) {
    forall i :: 0 <= i < |rs| ==> ReleaseOk(rs[i], meta, bs)
  }

  /** One more entry of a sweep that met nothing in use. */
  lemma CleanNext(s: Sweep, s': Sweep, from: nat, k: nat, r: Release, meta: set<nat>)
    requires |s.table| == |s'.table| >= 8 && from <= k && 4 * k + 4 <= |s.table| && Clean(s, s', from, k)
    requires ReleaseOk(r, meta, |s.table|) && Apart(s, meta)
    ensures !Busy(s, k) ==> Clean(s, Cleared(s', k, r), from, k + 1)
    ensures Busy(s, k) ==> Overrun(s, Cleared(s', k, r), from, k + 1, k, r.gd)
  {
    hide Entry;
    hide WithEntry;
    hide MetAny;
    hide Apart;
    assert Entry(s'.table, k) == Entry(s.table, k);
    if Busy(s, k) {
      SecondWord(s, s', from, k, r, meta);
      MetHere(s, from, k);
      CutHere(r.gd, k);
      hide Right;
    } else {
      CutLater(s.table, s'.table, from, k);
      hide Right;
    }
  }

  lemma MetHere(s: Sweep, from: nat, k: nat)
    requires 4 * k + 4 <= |s.table| && from <= k && Busy(s, k)
    ensures MetAny(s, from, k + 1)
  {
    hide Busy;
  }

  /** The bitmap named by the second word is in use and is not the block in entry k. */
  lemma SecondWord(s: Sweep, s': Sweep, from: nat, k: nat, r: Release, meta: set<nat>)
    requires |s.table| == |s'.table| >= 8 && 4 * k + 4 <= |s.table| && Clean(s, s', from, k) && Busy(s, k)
    requires ReleaseOk(r, meta, |s.table|) && Apart(s, meta)
    ensures Entry(r.gd, 1) in s'.marked && Entry(r.gd, 1) != Entry(s.table, k)
  {
    hide Entry;
    hide Right;
  }

  lemma MetStill(s: Sweep, from: nat, k: nat)
    requires 4 * k + 4 <= |s.table| && MetAny(s, from, k)
    ensures MetAny(s, from, k + 1)
  {
    hide Busy;
  }

  /** One more entry of a sweep that has met something: it meets something again, or not. */
  lemma OverrunNext(s: Sweep, s': Sweep, from: nat, k: nat, z: nat, gd: Block, r: Release, meta: set<nat>)
    requires |s.table| == |s'.table| == |gd| >= 8 && 4 * k + 4 <= |s.table| && Overrun(s, s', from, k, z, gd)
    requires ReleaseOk(r, meta, |s.table|) && Entry(gd, 1) != 0
    ensures Busy(s', k) ==> Overrun(s, Cleared(s', k, r), from, k + 1, k, r.gd)
    ensures !Busy(s', k) ==> Overrun(s, Cleared(s', k, r), from, k + 1, z, gd)
  {
    hide Entry;
    hide WithEntry;
    hide MetAny;
    MetStill(s, from, k);
    if Busy(s', k) {
      hide Right;
      CutHere(r.gd, k);
    } else {
      assert Entry(s'.table, k) == Entry(gd, k);
      hide Right;
      CutLater(gd, s'.table, z, k);
    }
  }

  /** How a sweep ends. */
  lemma {:induction false} SweepEnds(s: Sweep, from: nat, to: nat, rs: seq<Release>, meta: set<nat>)
    returns (z: nat)
    requires from <= to <= |rs| && 4 * to <= |s.table| && |s.table| >= 8
    requires Releases(rs, meta, |s.table|) && Apart(s, meta)
    ensures Clean(s, Swept(s, from, to, rs), from, to) ||
            (z < to && Overrun(s, Swept(s, from, to, rs), from, to, z, rs[z].gd))
  {
    hide Entry;
    hide MetAny;
    hide Cleared;
    hide Apart;
    z := 0;
    if from < to {
      var z0 := SweepEnds(s, from, to - 1, rs, meta);
      var s' := Swept(s, from, to - 1, rs);
      assert ReleaseOk(rs[to - 1], meta, |s.table|);
      assert z0 < to - 1 ==> ReleaseOk(rs[z0], meta, |s.table|);
      hide Clean;
      hide Overrun;
      if Clean(s, s', from, to - 1) {
        CleanNext(s, s', from, to - 1, rs[to - 1], meta);
        z := to - 1;
      } else {
        OverrunNext(s, s', from, to - 1, z0, rs[z0].gd, rs[to - 1], meta);
        z := if Busy(s', to - 1) then to - 1 else z0;
      }
    }
  }

  /** A table that was overrun is never right: the descriptor's first words are no file's blocks. */
  lemma OverrunWrong(s: Sweep, s': Sweep, from: nat, to: nat, z: nat, gd: Block, meta: set<nat>)
    requires |s.table| == |s'.table| == |gd| >= 8 && 4 * to <= |s.table| && Overrun(s, s', from, to, z, gd)
    requires Apart(s, meta)
    requires Entry(gd, 0) != 0 && Entry(gd, 0) in meta && Entry(gd, 1) != 0 && Entry(gd, 1) in meta
    ensures !Right(s.table, s'.table, from, to)
  {
    hide Entry;
    var j := if z == 0 then 1 else 0;
    assert Entry(s'.table, j) == Entry(gd, j);
    assert Entry(s.table, j) == 0 || Entry(s.table, j) !in meta;
  }

  /** Truncating inside the single-indirect range comes out right exactly when there was
      nothing in use to free there. */
  lemma SweepRightIff(s: Sweep, from: nat, to: nat, rs: seq<Release>, meta: set<nat>)
    requires to <= |rs| && 4 * to <= |s.table| && |s.table| >= 8
    requires Releases(rs, meta, |s.table|) && Apart(s, meta)
    ensures Right(s.table, Swept(s, from, to, rs).table, from, to) <==> forall k :: from <= k < to ==> !Busy(s, k)
  {
    if from >= to {
      return;
    }
    var z := SweepEnds(s, from, to, rs, meta);
    var s' := Swept(s, from, to, rs);
    if !Clean(s, s', from, to) {
      assert ReleaseOk(rs[z], meta, |s.table|);
      OverrunWrong(s, s', from, to, z, rs[z].gd, meta);
    }
  }

  /** A sweep from the first entry on that frees a block goes on to free the second word
      of the descriptor block, which is the inode bitmap. */
  lemma {:induction false} SweepFreesBitmap(s: Sweep, to: nat, rs: seq<Release>, meta: set<nat>)
    requires 2 <= to <= |rs| && 4 * to <= |s.table| && Releases(rs, meta, |s.table|) && Apart(s, meta)
    requires Busy(s, 0)
    ensures Entry(rs[0].gd, 1) in s.marked && Entry(rs[0].gd, 1) !in Swept(s, 0, to, rs).marked
  {
    assert ReleaseOk(rs[0], meta, |s.table|);
    if to == 2 {
      EntrySet(rs[0].gd, 0, 0, 1);
      assert Swept(s, 0, 1, rs) == Cleared(s, 0, rs[0]);
      hide Entry;
      hide WithEntry;
    } else {
      SweepFreesBitmap(s, to - 1, rs, meta);
    }
  }

  // The whole of free_blocks_range.

  /** The entries of the single-indirect table that a range of logical blocks covers. */
  function Lo(start: nat): nat {
    if start > DIRECT then start - DIRECT else 0
  }

  function Hi(end: nat, bs: nat): nat {
    if end <= DIRECT then 0 else if end - DIRECT <= bs / 4 then end - DIRECT else bs / 4
  }

  /** The direct roots in the range are cleared. */
  function Cut(roots: seq<u32>, start: nat, end: nat): (r: seq<u32>)
    ensures |r| == |roots|
    ensures forall i :: 0 <= i < |roots| ==> r[i] == if i < DIRECT && start <= i < end then 0 else roots[i]
  {
    seq(|roots|, i requires 0 <= i < |roots| => if i < DIRECT && start <= i < end then 0 else roots[i])
  }

  /** The direct blocks in the range are free. */
  function Unmarked(marked: set<nat>, roots: seq<u32>, start: nat, end: nat): set<nat> {
    set x | x in marked && !exists i :: 0 <= i < |roots| && i < DIRECT && start <= i < end && roots[i] == x != 0
  }

  /** The range covers the whole table, which is then dropped with its root. */
  predicate Whole(start: nat, end: nat, bs: nat) {
    start <= DIRECT && end >= DIRECT + bs / 4
  }

  function Later(rs: seq<Release>): seq<Release> {
    if |rs| > DIRECT then rs[DIRECT..] else []
  }

  /** The table after the range was freed. */
  function Table(table: Block, marked: set<nat>, roots: seq<u32>, start: nat, end: nat, rs: seq<Release>): (s: Sweep)
    requires end <= |rs| && forall i :: 0 <= i < |rs| ==> |rs[i].gd| == |table|
    ensures |s.table| == |table|
  {
    Swept(Sweep(table, Unmarked(marked, roots, start, end)), Lo(start), Hi(end, |table|), Later(rs))
  }

  /** What is left after the blocks [start, l) of the range: direct roots cleared, the table as swept. */
  ghost predicate Progress(d0: seq<Block>, r0: seq<u32>, m0: set<nat>, d: seq<Block>, r: seq<u32>, m: set<nat>, bs: nat,
                           meta: set<nat>, start: nat, l: nat, rs: seq<Release>)
    requires IsDisk(d0, bs) && |r0| == ROOTS && l <= |rs| && Releases(rs, meta, bs)
  {
    && |d| == |d0| && r == Cut(r0, start, l)
    && (forall x :: 0 <= x < |d| && x !in meta && x != r0[12] ==> d[x] == d0[x])
    && if 0 < r0[12] < |d0| then Sweep(d[r0[12]], m) == Table(d0[r0[12]], m0, r0, start, l, rs)
       else m == Unmarked(m0, r0, start, l)
  }

  lemma StartRange(d0: seq<Block>, r0: seq<u32>, m0: set<nat>, bs: nat, meta: set<nat>, start: nat, rs: seq<Release>)
    requires IsDisk(d0, bs) && |r0| == ROOTS && start <= |rs| && Releases(rs, meta, bs)
    ensures Progress(d0, r0, m0, d0, r0, m0, bs, meta, start, start, rs)
  {
    assert Cut(r0, start, start) == r0;
    assert Unmarked(m0, r0, start, start) == m0;
  }

  lemma TableNext(table: Block, marked: set<nat>, roots: seq<u32>, start: nat, l: nat, rs: seq<Release>)
    requires |roots| == ROOTS && start <= l < |rs| && forall i :: 0 <= i < |rs| ==> |rs[i].gd| == |table|
    ensures var s, s' := Table(table, marked, roots, start, l, rs), Table(table, marked, roots, start, l + 1, rs);
            && (l < DIRECT ==>
                  && s == Sweep(table, Unmarked(marked, roots, start, l))
                  && s' == Sweep(table, Unmarked(marked, roots, start, l + 1)))
            && (DIRECT <= l < DIRECT + |table| / 4 ==> s' == Cleared(s, l - DIRECT, rs[l]))
            && (DIRECT + |table| / 4 <= l ==> s' == s)
  {
    UnmarkedNext(marked, roots, start, l);
    hide Unmarked;
    hide Cleared;
  }

  lemma UnmarkedNext(marked: set<nat>, roots: seq<u32>, start: nat, l: nat)
    requires |roots| == ROOTS && start <= l
    ensures l < DIRECT ==> Unmarked(marked, roots, start, l + 1) ==
                           if roots[l] == 0 then Unmarked(marked, roots, start, l)
                           else Unmarked(marked, roots, start, l) - {roots[l]}
    ensures l >= DIRECT ==> Unmarked(marked, roots, start, l + 1) == Unmarked(marked, roots, start, l)
  {
  }

  lemma CutRoots(d0: seq<Block>, r0: seq<u32>, m0: set<nat>, d: seq<Block>, r: seq<u32>, m: set<nat>, bs: nat,
                 meta: set<nat>, start: nat, l: nat, rs: seq<Release>)
    requires IsDisk(d0, bs) && |r0| == ROOTS && l <= |rs| && Releases(rs, meta, bs)
    requires Progress(d0, r0, m0, d, r, m, bs, meta, start, l, rs)
    ensures |d| == |d0| && |r| == ROOTS && r[12] == r0[12]
  {
  }

  lemma DirectNext(d0: seq<Block>, r0: seq<u32>, m0: set<nat>, d: seq<Block>, r: seq<u32>, m: set<nat>,
                   d': seq<Block>, r': seq<u32>, m': set<nat>, bs: nat, meta: set<nat>, start: nat, l: nat,
                   rs: seq<Release>)
    requires IsDisk(d0, bs) && |r0| == ROOTS && start <= l < |rs| && Releases(rs, meta, bs)
    requires r0[12] != 0 ==> r0[12] < |d0| && r0[12] !in meta
    requires Progress(d0, r0, m0, d, r, m, bs, meta, start, l, rs) && l < DIRECT
    requires |d'| == |d| && |r| == ROOTS && r' == r[l := 0] && m' == if r[l] == 0 then m else m - {r[l]}
    requires forall x :: 0 <= x < |d| && x !in meta ==> d'[x] == d[x]
    ensures Progress(d0, r0, m0, d', r', m', bs, meta, start, l + 1, rs)
  {
    UnmarkedNext(m0, r0, start, l);
    if r0[12] != 0 {
      TableNext(d0[r0[12]], m0, r0, start, l, rs);
    }
    CutNext(r0, start, l);
    hide Unmarked;
    hide Table;
    hide Cut;
    hide Releases;
  }

  lemma EntryNext(d0: seq<Block>, r0: seq<u32>, m0: set<nat>, d: seq<Block>, r: seq<u32>, m: set<nat>,
                  d': seq<Block>, m': set<nat>, bs: nat, meta: set<nat>, start: nat, l: nat, rs: seq<Release>)
    requires IsDisk(d0, bs) && |r0| == ROOTS && start <= l < |rs| && Releases(rs, meta, bs)
    requires 0 < r0[12] < |d0| && DIRECT <= l < DIRECT + bs / 4
    requires Progress(d0, r0, m0, d, r, m, bs, meta, start, l, rs)
    requires |d'| == |d| && |d[r0[12]]| == |rs[l].gd| == bs
    requires Sweep(d'[r0[12]], m') == Cleared(Sweep(d[r0[12]], m), l - DIRECT, rs[l])
    requires forall x :: 0 <= x < |d| && x !in meta && x != r0[12] ==> d'[x] == d[x]
    ensures Progress(d0, r0, m0, d', r, m', bs, meta, start, l + 1, rs)
  {
    TableNext(d0[r0[12]], m0, r0, start, l, rs);
    CutNext(r0, start, l);
    hide Table;
    hide Cut;
    hide Cleared;
    hide Releases;
  }

  lemma PastNext(d0: seq<Block>, r0: seq<u32>, m0: set<nat>, d: seq<Block>, r: seq<u32>, m: set<nat>, bs: nat,
                 meta: set<nat>, start: nat, l: nat, rs: seq<Release>)
    requires IsDisk(d0, bs) && |r0| == ROOTS && start <= l < |rs| && Releases(rs, meta, bs) && DIRECT <= l
    requires r0[12] == 0 || DIRECT + bs / 4 <= l
    requires Progress(d0, r0, m0, d, r, m, bs, meta, start, l, rs)
    ensures Progress(d0, r0, m0, d, r, m, bs, meta, start, l + 1, rs)
  {
    UnmarkedNext(m0, r0, start, l);
    if 0 < r0[12] < |d0| {
      TableNext(d0[r0[12]], m0, r0, start, l, rs);
    }
    CutNext(r0, start, l);
    hide Unmarked;
    hide Table;
    hide Cut;
    hide Releases;
  }

  /** The inode and the shared buffer while free_blocks_range works on them. */
  class ShrinkingFile {
    const bs: nat
    const meta: set<nat>
    var disk: seq<Block>
    var roots: seq<u32>
    var marked: set<nat>
    var ind: Block

    ghost predicate Shaped()
      reads this
    {
      IsDisk(disk, bs) && |roots| == ROOTS && |ind| == bs
    }

    constructor (blockSize: nat, image: seq<Block>, blocks: seq<u32>, metadata: set<nat>, taken: set<nat>)
      requires IsDisk(image, blockSize) && |blocks| == ROOTS
      ensures Shaped() && bs == blockSize && disk == image && roots == blocks && meta == metadata && marked == taken
    {
      bs, meta := blockSize, metadata;
      disk, roots, marked, ind := image, blocks, taken, Zeros(blockSize);
    }

    /** free_block, as its callers see it. */
    method FreeBlock(b: u32, r: Release)
      requires Shaped() && ReleaseOk(r, meta, bs)
      modifies this`disk, this`marked, this`ind
      ensures Shaped() && |disk| == |old(disk)| && marked == old(marked) - {b}
      ensures ind == if b in old(marked) then r.gd else old(ind)
      ensures forall x :: 0 <= x < |disk| && x !in meta ==> disk[x] == old(disk)[x]
    {
      if b in marked {
        marked := marked - {b};
        disk := Overlaid(disk, r.touched);
        ind := r.gd;
      }
    }

    /** The step in the single-indirect range: the table goes through `ind`. */
    method FreeEntry(t: u32, k: nat, r: Release)
      requires Shaped() && ReleaseOk(r, meta, bs) && 0 < t < |disk| && t !in meta && k < bs / 4
      modifies this`disk, this`marked, this`ind
      ensures Shaped() && |disk| == |old(disk)|
      ensures Sweep(disk[t], marked) == Cleared(Sweep(old(disk)[t], old(marked)), k, r)
      ensures forall x :: 0 <= x < |disk| && x !in meta && x != t ==> disk[x] == old(disk)[x]
    {
      hide Entry;
      hide WithEntry;
      ind := disk[t];
      var b := Entry(ind, k);
      if b != 0 {
        FreeBlock(b, r);
        ind := WithEntry(ind, k, 0);
      }
      disk := disk[t := ind];
    }

    /** free_blocks_range; rs[l] and `last` are what the frees it comes to leave behind.
        It does what truncation is for exactly when the table is dropped as a whole or there
        is nothing in use to free in it, and nothing is mapped beyond it. */
    method FreeRange(start: nat, end: nat, rs: seq<Release>, last: Release, ghost own: set<nat>)
      requires Shaped() && File(disk, bs, roots, own) && own !! meta && meta <= marked
      requires start <= end <= |rs| && Releases(rs, meta, bs) && ReleaseOk(last, meta, bs)
      modifies this`disk, this`roots, this`marked, this`ind
      ensures Shaped() && |disk| == |old(disk)|
      ensures Shrunk(old(disk), old(roots), disk, roots, bs, start, end) <==>
              && (Whole(start, end, bs) || !Holds(old(disk), old(roots), bs, old(marked), start, end))
              && NoneBeyond(old(disk), old(roots), bs, start, end)
      ensures Left(old(disk), old(roots), old(marked), disk, roots, marked, bs, meta, start, end, rs)
    {
      ghost var d0, r0, m0 := disk, roots, marked;
      RootApart(disk, bs, roots, own, meta);
      assert IsDisk(d0, bs) && |r0| == ROOTS;
      hide *;
      FreeLogicals(start, end, rs, d0, r0, m0);
      DropTable(start, end, rs, last, d0, r0, m0);
      ShrunkIff(d0, r0, m0, disk, roots, marked, bs, meta, own, start, end, rs);
    }

    /** Its loop. */
    method FreeLogicals(start: nat, end: nat, rs: seq<Release>, ghost d0: seq<Block>, ghost r0: seq<u32>,
                        ghost m0: set<nat>)
      requires Shaped() && start <= end <= |rs| && Releases(rs, meta, bs)
      requires IsDisk(d0, bs) && |r0| == ROOTS && (r0[12] != 0 ==> r0[12] < |d0| && r0[12] !in meta)
      requires disk == d0 && roots == r0 && marked == m0
      modifies this`disk, this`roots, this`marked, this`ind
      ensures Shaped() && |disk| == |d0|
      ensures Progress(d0, r0, m0, disk, roots, marked, bs, meta, start, end, rs)
    {
      StartRange(disk, roots, marked, bs, meta, start, rs);
      hide Progress;
      hide IsDisk;
      hide ReleaseOk;
      var l := start;
      while l < end
        invariant start <= l <= end && Shaped() && |disk| == |d0|
        invariant Progress(d0, r0, m0, disk, roots, marked, bs, meta, start, l, rs)
      {
        assert ReleaseOk(rs[l], meta, bs);
        FreeLogical(l, start, rs, d0, r0, m0);
        l := l + 1;
      }
    }

    /** One round of its loop. */
    method FreeLogical(l: nat, ghost start: nat, rs: seq<Release>, ghost d0: seq<Block>, ghost r0: seq<u32>,
                       ghost m0: set<nat>)
      requires Shaped() && start <= l < |rs| && Releases(rs, meta, bs) && ReleaseOk(rs[l], meta, bs)
      requires IsDisk(d0, bs) && |r0| == ROOTS && (r0[12] != 0 ==> r0[12] < |d0| && r0[12] !in meta)
      requires Progress(d0, r0, m0, disk, roots, marked, bs, meta, start, l, rs)
      modifies this`disk, this`roots, this`marked, this`ind
      ensures Shaped() && |disk| == |d0|
      ensures Progress(d0, r0, m0, disk, roots, marked, bs, meta, start, l + 1, rs)
    {
      ghost var d, r, m := disk, roots, marked;
      CutRoots(d0, r0, m0, d, r, m, bs, meta, start, l, rs);
      hide Progress;
      hide Cleared;
      hide Releases;
      hide ReleaseOk;
      hide IsDisk;
      if l < DIRECT {
        var b := roots[l];
        if b != 0 {
          FreeBlock(b, rs[l]);
          roots := roots[l := 0];
        }
        DirectNext(d0, r0, m0, d, r, m, disk, roots, marked, bs, meta, start, l, rs);
      } else if l < DIRECT + bs / 4 {
        var t := roots[12];
        if t != 0 {
          FreeEntry(t, l - DIRECT, rs[l]);
          EntryNext(d0, r0, m0, d, r, m, disk, marked, bs, meta, start, l, rs);
        } else {
          PastNext(d0, r0, m0, d, r, m, bs, meta, start, l, rs);
        }
      } else {
        PastNext(d0, r0, m0, d, r, m, bs, meta, start, l, rs);
      }
    }

    /** The table itself goes when the range covered all of it. */
    method DropTable(start: nat, end: nat, ghost rs: seq<Release>, last: Release, ghost d0: seq<Block>,
                     ghost r0: seq<u32>, ghost m0: set<nat>)
      requires Shaped() && start <= end <= |rs| && Releases(rs, meta, bs) && ReleaseOk(last, meta, bs)
      requires IsDisk(d0, bs) && |r0| == ROOTS && (r0[12] != 0 ==> r0[12] < |d0| && r0[12] !in meta)
      requires Progress(d0, r0, m0, disk, roots, marked, bs, meta, start, end, rs)
      modifies this`disk, this`roots, this`marked, this`ind
      ensures Shaped() && |disk| == |d0|
      ensures Left(d0, r0, m0, disk, roots, marked, bs, meta, start, end, rs)
    {
      hide Unmarked;
      hide Table;
      hide Releases;
      hide ReleaseOk;
      if start <= DIRECT && end >= DIRECT + bs / 4 {
        var t := roots[12];
        if t != 0 {
          FreeBlock(t, last);
          roots := roots[12 := 0];
        }
      }
    }
  }

  // What the file maps afterwards.

  /** The state that free_blocks_range leaves. */
  ghost predicate Left(d0: seq<Block>, r0: seq<u32>, m0: set<nat>, d: seq<Block>, r: seq<u32>, m: set<nat>, bs: nat,
                       meta: set<nat>, start: nat, end: nat, rs: seq<Release>)
    requires IsDisk(d0, bs) && |r0| == ROOTS && end <= |rs| && Releases(rs, meta, bs)
  {
    && |d| == |d0| && |r| == ROOTS
    && (forall i :: 0 <= i < ROOTS && i != 12 ==> r[i] == if i < DIRECT && start <= i < end then 0 else r0[i])
    && r[12] == (if Whole(start, end, bs) then 0 else r0[12])
    && (forall x :: 0 <= x < |d| && x !in meta && x != r0[12] ==> d[x] == d0[x])
    && if 0 < r0[12] < |d0| then
         var s := Table(d0[r0[12]], m0, r0, start, end, rs);
         d[r0[12]] == s.table && m == if Whole(start, end, bs) then s.marked - {r0[12]} else s.marked
       else m == Unmarked(m0, r0, start, end)
  }

  /** What truncation is for: the logical blocks in the range are gone, the others where they were. */
  ghost predicate Shrunk(d0: seq<Block>, r0: seq<u32>, d: seq<Block>, r: seq<u32>, bs: nat, start: nat, end: nat)
    requires IsDisk(d0, bs) && |r0| == ROOTS && IsDisk(d, bs) && |r| == ROOTS
  {
    forall l :: 0 <= l < Reach(bs) ==> Map(d, bs, r, l) == if start <= l < end then 0 else Map(d0, bs, r0, l)
  }

  /** The range has a block in use in the single-indirect table. */
  predicate Holds(d0: seq<Block>, r0: seq<u32>, bs: nat, marked: set<nat>, start: nat, end: nat)
    requires IsDisk(d0, bs) && |r0| == ROOTS
  {
    exists k :: Lo(start) <= k < Hi(end, bs) && Child(d0, bs, r0[12], k) != 0 && Child(d0, bs, r0[12], k) in marked
  }

  /** The range maps nothing in the double- and triple-indirect parts, which are not freed. */
  ghost predicate NoneBeyond(d0: seq<Block>, r0: seq<u32>, bs: nat, start: nat, end: nat)
    requires IsDisk(d0, bs) && |r0| == ROOTS
  {
    forall l :: start <= l < end && DIRECT + bs / 4 <= l < Reach(bs) ==> Map(d0, bs, r0, l) == 0
  }

  lemma CutNext(roots: seq<u32>, start: nat, l: nat)
    requires |roots| == ROOTS && start <= l
    ensures var c := Cut(roots, start, l);
            && Cut(roots, start, l + 1) == (if l < DIRECT then c[l := 0] else c)
            && (l < DIRECT ==> c[l] == roots[l]) && c[12] == roots[12]
  {
  }

  lemma RootApart(disk: seq<Block>, bs: nat, roots: seq<u32>, own: set<nat>, meta: set<nat>)
    requires File(disk, bs, roots, own) && own !! meta
    ensures roots[12] != 0 ==> roots[12] < |disk| && roots[12] !in meta
  {
    assert ValidAddr([12], bs);
    RootIs(disk, bs, roots, 12);
  }

  /** Below the last two roots nothing has moved. */
  lemma {:induction false} FarSame(d0: seq<Block>, r0: seq<u32>, d: seq<Block>, r: seq<u32>, bs: nat, own: set<nat>,
                                   meta: set<nat>, a: Addr)
    requires File(d0, bs, r0, own) && own !! meta && IsDisk(d, bs) && |d| == |d0| && |r| == ROOTS
    requires r[13] == r0[13] && r[14] == r0[14] && ValidAddr(a, bs) && a[0] >= 13
    requires forall x :: 0 <= x < |d| && x !in meta && x != r0[12] ==> d[x] == d0[x]
    ensures Num(d, bs, r, a) == Num(d0, bs, r0, a)
    decreases |a|
  {
    if |a| > 1 {
      ParentValid(a, bs);
      FarSame(d0, r0, d, r, bs, own, meta, Parent(a));
      assert ValidAddr([12], bs) && [12] != Parent(a);
      RootIs(d0, bs, r0, 12);
    }
  }

  /** The table of a file, once its direct blocks in the range are free. */
  lemma TableApart(d0: seq<Block>, r0: seq<u32>, m0: set<nat>, bs: nat, own: set<nat>, meta: set<nat>, start: nat,
                   end: nat)
    requires File(d0, bs, r0, own) && own !! meta && meta <= m0 && r0[12] != 0
    ensures r0[12] < |d0|
    ensures var s := Sweep(d0[r0[12]], Unmarked(m0, r0, start, end));
            && Apart(s, meta)
            && forall k :: 0 <= k < bs / 4 ==> (Busy(s, k) <==> Entry(s.table, k) != 0 && Entry(s.table, k) in m0)
  {
    RootApart(d0, bs, r0, own, meta);
    var s := Sweep(d0[r0[12]], Unmarked(m0, r0, start, end));
    forall i: nat | i < DIRECT && r0[i] != 0
      ensures r0[i] in own
    {
      assert ValidAddr([i], bs);
      RootIs(d0, bs, r0, i);
      TableReadable(d0, bs, r0, own, [i]);
    }
    forall k | 0 <= k < bs / 4 && Entry(s.table, k) != 0
      ensures Entry(s.table, k) in own
      ensures forall i: nat :: i < DIRECT && r0[i] != 0 ==> r0[i] != Entry(s.table, k)
    {
      assert ValidAddr([12], bs) && IsTable([12]);
      RootIs(d0, bs, r0, 12);
      TableEntry(d0, bs, r0, [12], k);
      assert [12] + [k] == [12, k];
      TableReadable(d0, bs, r0, own, [12, k]);
      forall i: nat | i < DIRECT && r0[i] != 0
        ensures r0[i] != Entry(s.table, k)
      {
        assert ValidAddr([i], bs) && [i] != [12, k];
        RootIs(d0, bs, r0, i);
      }
    }
    hide Entry;
    hide Num;
  }

  /** The blocks that hang in the table. */
  lemma SingleMaps(disk: seq<Block>, roots: seq<u32>, bs: nat, l: nat)
    requires IsDisk(disk, bs) && |roots| == ROOTS && l < Reach(bs)
    ensures l < DIRECT ==> Map(disk, bs, roots, l) == roots[l]
    ensures DIRECT <= l < DIRECT + bs / 4 ==> Map(disk, bs, roots, l) == Child(disk, bs, roots[12], l - DIRECT)
  {
    AddrValid(l, bs);
    Levels(disk, bs, roots, AddrOf(l, bs));
  }

  lemma FarMaps(d0: seq<Block>, r0: seq<u32>, d: seq<Block>, r: seq<u32>, bs: nat, own: set<nat>, meta: set<nat>,
                l: nat)
    requires File(d0, bs, r0, own) && own !! meta && IsDisk(d, bs) && |d| == |d0| && |r| == ROOTS
    requires r[13] == r0[13] && r[14] == r0[14] && DIRECT + bs / 4 <= l < Reach(bs)
    requires forall x :: 0 <= x < |d| && x !in meta && x != r0[12] ==> d[x] == d0[x]
    ensures Map(d, bs, r, l) == Map(d0, bs, r0, l)
  {
    AddrValid(l, bs);
    FarSame(d0, r0, d, r, bs, own, meta, AddrOf(l, bs));
  }

  /** The single-indirect range comes out right. */
  ghost predicate SingleShrunk(d0: seq<Block>, r0: seq<u32>, d: seq<Block>, r: seq<u32>, bs: nat, start: nat, end: nat)
    requires IsDisk(d0, bs) && |r0| == ROOTS && IsDisk(d, bs) && |r| == ROOTS
  {
    forall k :: 0 <= k < bs / 4 ==>
      Child(d, bs, r[12], k) == if Lo(start) <= k < Hi(end, bs) then 0 else Child(d0, bs, r0[12], k)
  }

  lemma SingleIff(d0: seq<Block>, r0: seq<u32>, m0: set<nat>, d: seq<Block>, r: seq<u32>, m: set<nat>, bs: nat,
                  meta: set<nat>, own: set<nat>, start: nat, end: nat, rs: seq<Release>)
    requires File(d0, bs, r0, own) && own !! meta && meta <= m0 && IsDisk(d, bs)
    requires start <= end <= |rs| && Releases(rs, meta, bs)
    requires Left(d0, r0, m0, d, r, m, bs, meta, start, end, rs)
    ensures SingleShrunk(d0, r0, d, r, bs, start, end) <==>
            Whole(start, end, bs) || !Holds(d0, r0, bs, m0, start, end)
  {
    assert IsDisk(d0, bs) && |r0| == ROOTS;
    hide Table;
    hide Releases;
    hide Unmarked;
    hide Entry;
    if Whole(start, end, bs) || r0[12] == 0 {
    } else {
      TableApart(d0, r0, m0, bs, own, meta, start, end);
      hide File;
      RightIff(d0, r0, d, r, bs, start, end);
      hide SingleShrunk;
      TableIff(d0, r0, m0, bs, meta, start, end, rs);
    }
  }

  lemma TableIff(d0: seq<Block>, r0: seq<u32>, m0: set<nat>, bs: nat, meta: set<nat>, start: nat, end: nat,
                 rs: seq<Release>)
    requires IsDisk(d0, bs) && |r0| == ROOTS && 0 < r0[12] < |d0| && end <= |rs| && Releases(rs, meta, bs)
    requires var s := Sweep(d0[r0[12]], Unmarked(m0, r0, start, end));
             && Apart(s, meta)
             && forall k :: 0 <= k < bs / 4 ==> (Busy(s, k) <==> Entry(s.table, k) != 0 && Entry(s.table, k) in m0)
    ensures Right(d0[r0[12]], Table(d0[r0[12]], m0, r0, start, end, rs).table, Lo(start), Hi(end, bs)) <==>
            !Holds(d0, r0, bs, m0, start, end)
  {
    var s := Sweep(d0[r0[12]], Unmarked(m0, r0, start, end));
    SweepRightIff(s, Lo(start), Hi(end, bs), Later(rs), meta);
    hide Unmarked;
    hide Entry;
    hide Busy;
    hide Right;
    hide Swept;
    hide Apart;
    assert forall k :: 0 <= k < bs / 4 ==> Child(d0, bs, r0[12], k) == Entry(s.table, k);
    hide Child;
    if Holds(d0, r0, bs, m0, start, end) {
      var k :| Lo(start) <= k < Hi(end, bs) && Child(d0, bs, r0[12], k) != 0 && Child(d0, bs, r0[12], k) in m0;
      assert Busy(s, k);
    }
  }

  lemma RightIff(d0: seq<Block>, r0: seq<u32>, d: seq<Block>, r: seq<u32>, bs: nat, start: nat, end: nat)
    requires IsDisk(d0, bs) && |r0| == ROOTS && IsDisk(d, bs) && |r| == ROOTS && |d| == |d0|
    requires r[12] == r0[12] && 0 < r0[12] < |d0|
    ensures SingleShrunk(d0, r0, d, r, bs, start, end) <==>
            Right(d0[r0[12]], d[r0[12]], Lo(start), Hi(end, bs))
  {
    hide Entry;
    var t, t' := d0[r0[12]], d[r0[12]];
    if SingleShrunk(d0, r0, d, r, bs, start, end) {
      forall j | 0 <= j && 4 * j + 4 <= |t|
        ensures Entry(t', j) == if Lo(start) <= j < Hi(end, bs) then 0 else Entry(t, j)
      {
        assert Child(d, bs, r[12], j) == Entry(t', j);
      }
    }
    if Right(t, t', Lo(start), Hi(end, bs)) {
      forall k | 0 <= k < bs / 4
        ensures Child(d, bs, r[12], k) == if Lo(start) <= k < Hi(end, bs) then 0 else Child(d0, bs, r0[12], k)
      {
        assert Child(d, bs, r[12], k) == Entry(t', k);
      }
    }
  }

  lemma ShrunkIff(d0: seq<Block>, r0: seq<u32>, m0: set<nat>, d: seq<Block>, r: seq<u32>, m: set<nat>, bs: nat,
                  meta: set<nat>, own: set<nat>, start: nat, end: nat, rs: seq<Release>)
    requires File(d0, bs, r0, own) && own !! meta && meta <= m0 && IsDisk(d, bs)
    requires start <= end <= |rs| && Releases(rs, meta, bs)
    requires Left(d0, r0, m0, d, r, m, bs, meta, start, end, rs)
    ensures Shrunk(d0, r0, d, r, bs, start, end) <==>
            && (Whole(start, end, bs) || !Holds(d0, r0, bs, m0, start, end))
            && NoneBeyond(d0, r0, bs, start, end)
  {
    SingleIff(d0, r0, m0, d, r, m, bs, meta, own, start, end, rs);
    forall l | 0 <= l < Reach(bs)
      ensures Parted(d0, r0, d, r, bs, start, end, l)
    {
      PartedAt(d0, r0, m0, d, r, m, bs, meta, own, start, end, rs, l);
    }
    ShrunkParts(d0, r0, d, r, bs, start, end);
    hide *;
  }

  /** What becomes of a logical block depends on its range. */
  ghost predicate Parted(d0: seq<Block>, r0: seq<u32>, d: seq<Block>, r: seq<u32>, bs: nat, start: nat, end: nat,
                         l: nat)
    requires IsDisk(d0, bs) && |r0| == ROOTS && IsDisk(d, bs) && |r| == ROOTS && l < Reach(bs)
  {
    if l < DIRECT then Map(d, bs, r, l) == if start <= l < end then 0 else Map(d0, bs, r0, l)
    else if l < DIRECT + bs / 4 then
      && Map(d, bs, r, l) == Child(d, bs, r[12], l - DIRECT)
      && Map(d0, bs, r0, l) == Child(d0, bs, r0[12], l - DIRECT)
    else Map(d, bs, r, l) == Map(d0, bs, r0, l)
  }

  lemma PartedAt(d0: seq<Block>, r0: seq<u32>, m0: set<nat>, d: seq<Block>, r: seq<u32>, m: set<nat>, bs: nat,
                 meta: set<nat>, own: set<nat>, start: nat, end: nat, rs: seq<Release>, l: nat)
    requires File(d0, bs, r0, own) && own !! meta && IsDisk(d, bs) && l < Reach(bs)
    requires end <= |rs| && Releases(rs, meta, bs) && Left(d0, r0, m0, d, r, m, bs, meta, start, end, rs)
    ensures Parted(d0, r0, d, r, bs, start, end, l)
  {
    hide Map;
    hide Reach;
    hide Releases;
    SingleMaps(d, r, bs, l);
    SingleMaps(d0, r0, bs, l);
    if DIRECT + bs / 4 <= l {
      FarMaps(d0, r0, d, r, bs, own, meta, l);
    }
  }

  lemma ShrunkParts(d0: seq<Block>, r0: seq<u32>, d: seq<Block>, r: seq<u32>, bs: nat, start: nat, end: nat)
    requires IsDisk(d0, bs) && |r0| == ROOTS && IsDisk(d, bs) && |r| == ROOTS
    requires forall l :: 0 <= l < Reach(bs) ==> Parted(d0, r0, d, r, bs, start, end, l)
    ensures Shrunk(d0, r0, d, r, bs, start, end) <==>
            SingleShrunk(d0, r0, d, r, bs, start, end) && NoneBeyond(d0, r0, bs, start, end)
  {
    assert DIRECT + bs / 4 <= Reach(bs);
    hide Map;
    hide Reach;
    hide Child;
    if Shrunk(d0, r0, d, r, bs, start, end) {
      forall k | 0 <= k < bs / 4
        ensures Child(d, bs, r[12], k) == if Lo(start) <= k < Hi(end, bs) then 0 else Child(d0, bs, r0[12], k)
      {
        assert Parted(d0, r0, d, r, bs, start, end, k + DIRECT);
      }
      forall l | start <= l < end && DIRECT + bs / 4 <= l < Reach(bs)
        ensures Map(d0, bs, r0, l) == 0
      {
        assert Parted(d0, r0, d, r, bs, start, end, l);
      }
    }
    if SingleShrunk(d0, r0, d, r, bs, start, end) && NoneBeyond(d0, r0, bs, start, end) {
      forall l | 0 <= l < Reach(bs)
        ensures Map(d, bs, r, l) == if start <= l < end then 0 else Map(d0, bs, r0, l)
      {
        assert Parted(d0, r0, d, r, bs, start, end, l);
      }
    }
  }

  // A file of thirteen blocks cut to twelve.

  function ThirteenDisk(): (d: seq<Block>)
    ensures IsDisk(d, 1024) && |d| == 16
  {
    BlankDisk()[6 := WithEntry(Zeros(1024), 0, 7)]
  }

  function ThirteenRoots(): (r: seq<u32>)
    ensures |r| == ROOTS
  {
    NoRoots()[12 := 6]
  }

  lemma ThirteenFile()
    ensures File(ThirteenDisk(), 1024, ThirteenRoots(), {6, 7})
    ensures Child(ThirteenDisk(), 1024, ThirteenRoots()[12], 0) == 7
  {
    EntrySet(Zeros(1024), 0, 7, 0);
    EmptyFile(BlankDisk(), 1024);
    SinglePlaced(BlankDisk(), 1024, NoRoots(), {}, 6, 0, 7);
    assert {} + {6} + {7} == {6, 7};
    hide File;
    hide Placed;
    hide Entry;
    hide WithEntry;
  }

  function OneRelease(): (r: Release)
    ensures |r.gd| == 1024
  {
    Release(Descriptor(), map[])
  }

  lemma OneReleaseOk()
    ensures ReleaseOk(OneRelease(), {0, 1, 2, 3, 4}, 1024)
  {
    DescriptorWords();
    hide Entry;
    hide Descriptor;
  }

  const THIRTEEN_META: set<nat> := {0, 1, 2, 3, 4}
  const THIRTEEN_TAKEN: set<nat> := {0, 1, 2, 3, 4, 6, 7}

  function ThirteenReleases(): (rs: seq<Release>)
    ensures |rs| == 13 && forall i :: 0 <= i < |rs| ==> rs[i] == OneRelease() && |rs[i].gd| == 1024
  {
    seq(13, _ => OneRelease())
  }

  /** Its last block is freed, and the table is left with the words of the descriptor block. */
  method ThirteenToTwelve() returns (f: ShrinkingFile)
    ensures IsDisk(f.disk, 1024) && |f.roots| == ROOTS && 7 !in f.marked
    ensures !Shrunk(ThirteenDisk(), ThirteenRoots(), f.disk, f.roots, 1024, 12, 13)
    ensures forall j :: 0 < j < 256 ==> Child(f.disk, 1024, f.roots[12], j) == Entry(Descriptor(), j)
  {
    ThirteenReady();
    ThirteenHolds();
    assert !Whole(12, 13, 1024);
    hide *;
    f := new ShrinkingFile(1024, ThirteenDisk(), ThirteenRoots(), THIRTEEN_META, THIRTEEN_TAKEN);
    f.FreeRange(12, 13, ThirteenReleases(), OneRelease(), {6, 7});
    ThirteenLeft(f.disk, f.roots, f.marked);
  }

  lemma ThirteenReady()
    ensures File(ThirteenDisk(), 1024, ThirteenRoots(), {6, 7})
    ensures ReleaseOk(OneRelease(), THIRTEEN_META, 1024) && Releases(ThirteenReleases(), THIRTEEN_META, 1024)
    ensures {6, 7} !! THIRTEEN_META && THIRTEEN_META <= THIRTEEN_TAKEN
  {
    ThirteenFile();
    OneReleaseOk();
    hide File;
    hide ReleaseOk;
    hide OneRelease;
  }

  lemma ThirteenHolds()
    ensures Holds(ThirteenDisk(), ThirteenRoots(), 1024, THIRTEEN_TAKEN, 12, 13)
  {
    ThirteenFile();
    hide File;
    hide Child;
    assert Lo(12) == 0 && Hi(13, 1024) == 1;
  }

  lemma ThirteenTable()
    ensures var s := Table(ThirteenDisk()[6], THIRTEEN_TAKEN, ThirteenRoots(), 12, 13, ThirteenReleases());
            && 7 !in s.marked && |s.table| == 1024
            && forall j :: 0 < j < 256 ==> Entry(s.table, j) == Entry(Descriptor(), j)
  {
    var s0 := Sweep(ThirteenDisk()[6], Unmarked(THIRTEEN_TAKEN, ThirteenRoots(), 12, 13));
    EntrySet(Zeros(1024), 0, 7, 0);
    assert 7 in s0.marked;
    forall j | 0 < j < 256
      ensures Entry(WithEntry(Descriptor(), 0, 0), j) == Entry(Descriptor(), j)
    {
      EntrySet(Descriptor(), 0, 0, j);
    }
    hide Entry;
    hide WithEntry;
    hide Descriptor;
    hide Unmarked;
    var rest := Later(ThirteenReleases());
    assert Swept(s0, 0, 1, rest) == Cleared(s0, 0, OneRelease());
  }

  lemma ThirteenLeft(d: seq<Block>, r: seq<u32>, m: set<nat>)
    requires IsDisk(d, 1024) && Releases(ThirteenReleases(), THIRTEEN_META, 1024)
    requires Left(ThirteenDisk(), ThirteenRoots(), THIRTEEN_TAKEN, d, r, m, 1024, THIRTEEN_META, 12, 13,
                  ThirteenReleases())
    ensures 7 !in m && |r| == ROOTS && forall j :: 0 < j < 256 ==> Child(d, 1024, r[12], j) == Entry(Descriptor(), j)
  {
    ThirteenTable();
    hide Table;
    hide Entry;
    hide Descriptor;
    hide Unmarked;
    hide Releases;
  }
}
