/** Reading and writing a file's bytes through its block map, with the shared
    scratch buffers as fields: allocating a block overwrites the `ind` buffer
    with a group-descriptor block, which the index-table code does not expect.
 */
module FileBlocks {
  import opened Basics
  import opened LittleEndian
  import opened BlockTree
  import opened Rings

  /** What one alloc_block call comes back with: the block (0 when the disk is
      full), the descriptor block it leaves in `ind`, and the metadata it rewrites. */
  datatype Grant = Grant(db: u32, gd: Block, touched: map<nat, Block>)

  ghost predicate GrantOk(g: Grant, used: set<nat>, meta: set<nat>, blocks: nat, bs: nat) {
    g.db != 0 ==>
      && g.db !in used && g.db < blocks && |g.gd| == bs
      && g.touched.Keys <= meta && forall x :: x in g.touched.Keys ==> |g.touched[x]| == bs
  }

  ghost predicate SupplyOk(supply: seq<Grant>, used: set<nat>, meta: set<nat>, blocks: nat, bs: nat) {
    && (forall i :: 0 <= i < |supply| ==> GrantOk(supply[i], used, meta, blocks, bs))
    && (forall i, j :: 0 <= i < j < |supply| && supply[i].db != 0 ==> supply[i].db != supply[j].db)
  }

  /** The next n allocations succeed. */
  predicate Supplied(supply: seq<Grant>, n: nat) {
    n <= |supply| && forall i :: 0 <= i < n ==> supply[i].db != 0
  }

  /** n allocations were asked for and granted. */
  predicate Drawn(before: seq<Grant>, after: seq<Grant>, n: nat) {
    Supplied(before, n) && after == before[n..]
  }

  function One(b: bool): nat {
    if b then 1 else 0
  }

  function Overlaid(disk: seq<Block>, touched: map<nat, Block>): (r: seq<Block>)
    ensures |r| == |disk|
    ensures forall x :: 0 <= x < |disk| ==> r[x] == if x in touched then touched[x] else disk[x]
  {
    seq(|disk|, x requires 0 <= x < |disk| => if x in touched then touched[x] else disk[x])
  }

  /** db hangs at address a below tables that are there, the missing ones new; all else is as before. */
  ghost predicate Placed(disk: seq<Block>, roots: seq<u32>, disk': seq<Block>, roots': seq<u32>, bs: nat, a: Addr,
                         db: u32)
    requires IsDisk(disk, bs) && |roots| == ROOTS && IsDisk(disk', bs) && |roots'| == ROOTS
  {
    forall b :: ValidAddr(b, bs) ==>
      var n, n' := Num(disk, bs, roots, b), Num(disk', bs, roots', b);
      if b == a then n' == db else if n == 0 && b < a then n' != 0 else n' == n
  }

  /** Same blocks everywhere. */
  ghost predicate Same(disk: seq<Block>, roots: seq<u32>, disk': seq<Block>, roots': seq<u32>, bs: nat)
    requires IsDisk(disk, bs) && |roots| == ROOTS && IsDisk(disk', bs) && |roots'| == ROOTS
  {
    forall b :: ValidAddr(b, bs) ==> Num(disk', bs, roots', b) == Num(disk, bs, roots, b)
  }

  // Placing a data block, table by table.

  /** In a table that exists. */
  lemma EntryPlaced(disk: seq<Block>, bs: nat, roots: seq<u32>, own: set<nat>, a: Addr, i: nat, db: u32)
    requires File(disk, bs, roots, own) && ValidAddr(a, bs) && IsTable(a) && i < bs / 4
    requires ValidAddr(a + [i], bs) && !IsTable(a + [i]) && db != 0 && db !in own && db < |disk|
    requires Num(disk, bs, roots, a) != 0
    ensures var t := Num(disk, bs, roots, a);
            var disk' := disk[t := WithEntry(disk[t], i, db)];
            && IsDisk(disk', bs)
            && Placed(disk, roots, disk', roots, bs, a + [i], db)
            && File(disk', bs, roots, own + {db})
  {
    HangEntry(disk, bs, roots, own, a, i, db);
    NoneAbsent(disk, bs, roots, a);
    forall b | ValidAddr(b, bs) && b < a + [i]
      ensures Num(disk, bs, roots, b) != 0
    {
      assert b <= a;
      AbsentIff(disk, bs, roots, a, b);
    }
    hide Num;
    hide File;
    hide WithEntry;
  }

  /** In the single-indirect table, newly hung at root 12. */
  lemma SinglePlaced(disk: seq<Block>, bs: nat, roots: seq<u32>, own: set<nat>, t: u32, i: nat, db: u32)
    requires File(disk, bs, roots, own) && i < bs / 4 && roots[12] == 0
    requires t != 0 && t !in own && t < |disk| && disk[t] == Zeros(bs)
    requires db != 0 && db !in own && db < |disk| && db != t
    ensures var disk' := disk[t := WithEntry(Zeros(bs), i, db)];
            && IsDisk(disk', bs)
            && Placed(disk, roots, disk', roots[12 := t], bs, [12, i], db)
            && File(disk', bs, roots[12 := t], own + {t} + {db})
  {
    var roots' := roots[12 := t];
    assert ValidAddr([12], bs) && IsTable([12]);
    HangRoot(disk, bs, roots, own, 12, t);
    assert Num(disk, bs, roots', [12]) == t;
    assert [12] + [i] == [12, i];
    EntryPlaced(disk, bs, roots', own + {t}, [12], i, db);
    PlacedAfter(disk, roots, disk, roots', disk[t := WithEntry(Zeros(bs), i, db)], roots', bs, [12], t, [12, i], db);
  }

  /** Hanging an empty table, then placing a block. */
  lemma PlacedAfter(d0: seq<Block>, r0: seq<u32>, d1: seq<Block>, r1: seq<u32>, d2: seq<Block>, r2: seq<u32>,
                    bs: nat, c: Addr, v: u32, a: Addr, db: u32)
    requires IsDisk(d0, bs) && |r0| == ROOTS && IsDisk(d1, bs) && |r1| == ROOTS && IsDisk(d2, bs) && |r2| == ROOTS
    requires ValidAddr(c, bs) && IsTable(c) && Num(d0, bs, r0, c) == 0
    requires v != 0 && c < a && Hung(d0, r0, d1, r1, bs, c, v) && Placed(d1, r1, d2, r2, bs, a, db)
    ensures Placed(d0, r0, d2, r2, bs, a, db)
  {
    hide Num;
  }

  /** In the leaf table of a triple-indirect block, newly hung below an existing table p. */
  lemma LeafPlaced(disk: seq<Block>, bs: nat, roots: seq<u32>, own: set<nat>, p: Addr, i: nat, t: u32, j: nat, db: u32)
    requires File(disk, bs, roots, own) && ValidAddr(p, bs) && IsTable(p) && i < bs / 4 && j < bs / 4
    requires ValidAddr(p + [i], bs) && IsTable(p + [i]) && ValidAddr(p + [i] + [j], bs) && !IsTable(p + [i] + [j])
    requires Num(disk, bs, roots, p) != 0 && Num(disk, bs, roots, p + [i]) == 0
    requires t != 0 && t !in own && t < |disk| && disk[t] == Zeros(bs)
    requires db != 0 && db !in own && db < |disk| && db != t
    ensures var q := Num(disk, bs, roots, p);
            var disk' := disk[t := WithEntry(Zeros(bs), j, db)][q := WithEntry(disk[q], i, t)];
            && IsDisk(disk', bs)
            && Placed(disk, roots, disk', roots, bs, p + [i] + [j], db)
            && File(disk', bs, roots, own + {t} + {db})
  {
    hide Num;
    hide WithEntry;
    hide Zeros;
    var q := Num(disk, bs, roots, p);
    HangEntry(disk, bs, roots, own, p, i, t);
    var d1 := disk[q := WithEntry(disk[q], i, t)];
    assert Num(d1, bs, roots, p + [i]) == t;
    assert d1[t] == Zeros(bs);
    EntryPlaced(d1, bs, roots, own + {t}, p + [i], j, db);
    var d2 := d1[t := WithEntry(Zeros(bs), j, db)];
    assert d2 == disk[t := WithEntry(Zeros(bs), j, db)][q := WithEntry(disk[q], i, t)];
    PlacedAfter(disk, roots, d1, roots, d2, roots, bs, p + [i], t, p + [i] + [j], db);
  }

  /** Blocks of `scope` other than those in `but` hold what they held. */
  ghost predicate Kept(disk: seq<Block>, disk': seq<Block>, scope: set<nat>, but: set<nat>) {
    |disk'| == |disk| && forall x :: x in scope && x !in but && x < |disk| ==> disk'[x] == disk[x]
  }

  const FILE_MAX: nat := 0xFFFF_FFFF

  /** File sizes and offsets are 32-bit, so every block asked for is in reach of the map. */
  lemma InReach(pos: nat, bs: nat)
    requires SizeOk(bs) && pos <= FILE_MAX
    ensures pos / bs < Reach(bs)
  {
    ReachValues();
    hide Reach;
    if bs == 1024 {
      assert pos / 1024 <= 4194303;
    } else if bs == 2048 {
      assert pos / 2048 <= 2097151;
    } else {
      assert pos / 4096 <= 1048575;
    }
  }

  lemma ReachValues()
    ensures Reach(1024) == 16843020 && Reach(2048) == 134480396 && Reach(4096) == 1074791436
  {
  }

  /** The byte of the file at a position; holes read as zero. */
  function ByteAt(disk: seq<Block>, bs: nat, roots: seq<u32>, pos: nat): byte
    requires IsDisk(disk, bs) && |roots| == ROOTS && pos <= FILE_MAX
  {
    InReach(pos, bs);
    Content(disk, bs, roots, pos / bs)[pos % bs]
  }

  /** The bytes from `off` on are those of src, every other byte is as before. */
  ghost predicate Overwritten(disk: seq<Block>, roots: seq<u32>, disk': seq<Block>, roots': seq<u32>, bs: nat,
                              off: nat, src: seq<byte>)
    requires IsDisk(disk, bs) && |roots| == ROOTS && IsDisk(disk', bs) && |roots'| == ROOTS
  {
    forall x :: 0 <= x <= FILE_MAX ==>
      ByteAt(disk', bs, roots', x) == if off <= x < off + |src| then src[x - off] else ByteAt(disk, bs, roots, x)
  }

  ghost predicate SafeAt(disk: seq<Block>, bs: nat, roots: seq<u32>, l: nat)
    requires IsDisk(disk, bs) && |roots| == ROOTS
  {
    l < Reach(bs) && Safe(disk, bs, roots, l)
  }

  /** Logical block l holds some byte of [off, end). */
  predicate Touched(l: nat, off: nat, end: nat, bs: nat)
    requires bs > 0
  {
    off / bs <= l && l * bs < end
  }

  function NoRoots(): (r: seq<u32>)
    ensures |r| == ROOTS
  {
    seq(ROOTS, _ => 0)
  }

  lemma {:induction false} EmptyNum(disk: seq<Block>, bs: nat, a: Addr)
    requires IsDisk(disk, bs) && ValidAddr(a, bs)
    ensures Num(disk, bs, NoRoots(), a) == 0
    decreases |a|
  {
    if |a| > 1 {
      ParentValid(a, bs);
      EmptyNum(disk, bs, Parent(a));
    }
  }

  lemma EmptyFile(disk: seq<Block>, bs: nat)
    requires IsDisk(disk, bs)
    ensures File(disk, bs, NoRoots(), {})
  {
    forall a | ValidAddr(a, bs)
      ensures Num(disk, bs, NoRoots(), a) == 0
    {
      EmptyNum(disk, bs, a);
    }
  }

  class Ext2File {
    const bs: nat
    const meta: set<nat>
    var disk: seq<Block>
    var roots: seq<u32>
    var size: nat
    var supply: seq<Grant>
    ghost var used: set<nat>
    ghost var own: set<nat>
    var ind: Block
    var ind2: Block
    var ind3: Block
    var blk: Block

    ghost predicate Valid()
      reads this
    {
      && IsDisk(disk, bs) && |roots| == ROOTS && File(disk, bs, roots, own)
      && own <= used && meta <= used && own !! meta && 0 in meta
      && SupplyOk(supply, used, meta, |disk|, bs)
      && |ind| == |ind2| == |ind3| == |blk| == bs
      && size < 0x1_0000_0000
    }

    /** An empty file on a disk with blocks `taken`, some of them metadata. */
    constructor (blockSize: nat, image: seq<Block>, metadata: set<nat>, ghost taken: set<nat>, grants: seq<Grant>)
      requires IsDisk(image, blockSize) && metadata <= taken && 0 in metadata
      requires SupplyOk(grants, taken, metadata, |image|, blockSize)
      ensures Valid() && bs == blockSize && meta == metadata && used == taken && own == {} && size == 0
      ensures disk == image && supply == grants && roots == NoRoots()
    {
      bs, meta := blockSize, metadata;
      disk, roots, size, supply := image, NoRoots(), 0, grants;
      used, own := taken, {};
      ind, ind2, ind3, blk := Zeros(blockSize), Zeros(blockSize), Zeros(blockSize), Zeros(blockSize);
      new;
      EmptyFile(image, blockSize);
    }

    /** alloc_block, as the rest of the file system sees it. */
    method AllocBlock() returns (db: u32)
      requires Valid()
      modifies this`disk, this`supply, this`used, this`ind, this`blk
      ensures Valid() && |disk| == |old(disk)|
      ensures Same(old(disk), roots, disk, roots, bs)
      ensures db == 0 ==> disk == old(disk) && used == old(used)
      ensures db != 0 ==> db !in old(used) && db < |disk| && used == old(used) + {db} && disk[db] == Zeros(bs)
      ensures Kept(old(disk), disk, old(used) - meta, {})
      ensures db == 0 <==> old(supply) == [] || old(supply)[0].db == 0
      ensures db != 0 ==> db == old(supply)[0].db && ind == old(supply)[0].gd
      ensures supply == if old(supply) == [] then [] else old(supply)[1..]
    {
      if supply == [] {
        return 0;
      }
      var g := supply[0];
      SupplyNext(supply, used, meta, |disk|, bs);
      supply := supply[1..];
      db := g.db;
      if db != 0 {
        ghost var was := disk;
        disk := Overlaid(disk, g.touched)[db := Zeros(bs)];
        used := used + {db};
        ind := g.gd;
        blk := g.gd;
        FileFrame(was, disk, bs, roots, own);
      }
    }

    /** A block allocated for the file but not yet hung into it. */
    ghost predicate Fresh(db: u32)
      reads this
    {
      db != 0 && db < |disk| && db in used && db !in own && db !in meta
    }

    /** inode_set_block below twelve. */
    method SetDirect(l: nat, db: u32)
      requires Valid() && l < DIRECT && Fresh(db)
      modifies this`roots, this`own
      ensures Valid() && own == old(own) + {db}
      ensures Placed(old(disk), old(roots), disk, roots, bs, [l], db)
    {
      assert ValidAddr([l], bs) && !IsTable([l]);
      HangRoot(disk, bs, roots, own, l, db);
      roots := roots[l := db];
      own := own + {db};
    }

    /** Writing back a table that was read into a buffer, with db in entry i. */
    method WriteLeaf(t: u32, table: Block, i: nat, db: u32, ghost a: Addr)
      requires Valid() && Fresh(db) && ValidAddr(a, bs) && IsTable(a) && i < bs / 4
      requires ValidAddr(a + [i], bs) && !IsTable(a + [i])
      requires t != 0 && t < |disk| && t == Num(disk, bs, roots, a) && table == disk[t]
      modifies this`disk, this`own
      ensures Valid() && |disk| == |old(disk)| && own == old(own) + {db}
      ensures Placed(old(disk), roots, disk, roots, bs, a + [i], db)
      ensures Kept(old(disk), disk, used, {t})
    {
      EntryPlaced(disk, bs, roots, own, a, i, db);
      hide Num;
      hide File;
      hide Placed;
      hide WithEntry;
      disk := disk[t := WithEntry(table, i, db)];
      own := own + {db};
    }

    /** inode_set_block in the single-indirect range, creating the table if need be. */
    method SetSingle(i: nat, db: u32) returns (ok: bool)
      requires Valid() && i < bs / 4 && Fresh(db)
      modifies this`disk, this`roots, this`supply, this`used, this`own, this`ind, this`blk
      ensures Valid() && |disk| == |old(disk)| && old(used) <= used
      ensures ok <==> Supplied(old(supply), One(old(roots)[12] == 0))
      ensures ok ==> Drawn(old(supply), supply, One(old(roots)[12] == 0))
      ensures ok ==> Placed(old(disk), old(roots), disk, roots, bs, [12, i], db)
      ensures !ok ==> Same(old(disk), old(roots), disk, roots, bs)
      ensures own <= old(own) + {db} + (used - old(used))
      ensures Kept(old(disk), disk, old(used) - meta, {old(roots)[12]})
    {
      hide Num;
      hide File;
      hide Zeros;
      hide WithEntry;
      hide Placed;
      hide Same;
      hide SupplyOk;
      ghost var was := disk;
      var t := roots[12];
      assert [12] + [i] == [12, i] && ValidAddr([12], bs) && ValidAddr([12, i], bs);
      RootIs(disk, bs, roots, 12);
      hide ValidAddr;
      if t == 0 {
        t := AllocBlock();
        if t == 0 {
          return false;
        }
        ind := Zeros(bs);
        ind := WithEntry(ind, i, db);
        SinglePlaced(disk, bs, roots, own, t, i, db);
        PlacedFrom(was, roots, disk, roots, disk[t := ind], roots[12 := t], bs, [12, i], db);
        roots := roots[12 := t];
        disk := disk[t := ind];
        own := own + {t} + {db};
      } else {
        TableReadable(disk, bs, roots, own, [12]);
        ind := disk[t];
        WriteLeaf(t, ind, i, db, [12]);
        ind := WithEntry(ind, i, db);
      }
      ok := true;
    }

    /** inode_set_block in the double-indirect range.  When the table below the
        top one is missing, the allocation of it replaces the top table, still in
        `ind`, by the descriptor block. */
    method SetDouble(ti: nat, li: nat, db: u32) returns (ok: bool)
      requires Valid() && ti < bs / 4 && li < bs / 4 && Fresh(db)
      requires ValidAddr([13, ti], bs)
      modifies this`disk, this`roots, this`supply, this`used, this`own, this`ind, this`ind2, this`blk
      ensures |disk| == |old(disk)| && |roots| == ROOTS && IsDisk(disk, bs)
      ensures Num(old(disk), bs, old(roots), [13, ti]) == 0 ==>
                (ok <==> Supplied(old(supply), if old(roots)[13] == 0 then 2 else 1))
      ensures Num(old(disk), bs, old(roots), [13, ti]) != 0 ==>
                && ok && Valid() && own == old(own) + {db} && used == old(used) && supply == old(supply)
                && Placed(old(disk), old(roots), disk, roots, bs, [13, ti, li], db)
                && Kept(old(disk), disk, old(used) - meta, {Num(old(disk), bs, old(roots), [13, ti])})
      ensures Num(old(disk), bs, old(roots), [13, ti]) == 0 && ok ==>
                var k := if old(roots)[13] == 0 then 1 else 0;
                && k < |old(supply)| && |old(supply)[k].gd| == bs && 0 < roots[13] < |disk|
                && disk[roots[13]] == WithEntry(old(supply)[k].gd, ti, old(supply)[k].db)
    {
      hide Num;
      hide File;
      hide Zeros;
      hide WithEntry;
      hide Placed;
      hide Same;
      hide SupplyOk;
      hide Entry;
      assert [13] + [ti] == [13, ti];
      assert [13, ti] + [li] == [13, ti, li] && ValidAddr([13], bs) && ValidAddr([13, ti, li], bs);
      RootIs(disk, bs, roots, 13);
      TableEntry(disk, bs, roots, [13], ti);
      hide ValidAddr;
      var dind := roots[13];
      if dind == 0 {
        dind := AllocBlock();
        if dind == 0 {
          return false;
        }
        ind := Zeros(bs);
        SameRoot(old(disk), disk, bs, roots, 13);
        HangRoot(disk, bs, roots, own, 13, dind);
        roots := roots[13 := dind];
        own := own + {dind};
        ZeroEntry(bs, ti);
      } else {
        TableReadable(disk, bs, roots, own, [13]);
        ind := disk[dind];
      }
      var mid := Entry(ind, ti);
      if mid == 0 {
        ok := DoubleNoTable(dind, ti, li, db);
      } else {
        TableReadable(disk, bs, roots, own, [13, ti]);
        ind2 := disk[mid];
        WriteLeaf(mid, ind2, li, db, [13, ti]);
        ind2 := WithEntry(ind2, li, db);
        ok := true;
      }
    }

    /** The leaf table is missing: the top table in `ind` does not survive its allocation. */
    method DoubleNoTable(dind: u32, ti: nat, li: nat, db: u32) returns (ok: bool)
      requires Valid() && ti < bs / 4 && li < bs / 4 && 0 < dind < |disk|
      modifies this`disk, this`supply, this`used, this`ind, this`ind2, this`blk
      ensures |disk| == |old(disk)| && IsDisk(disk, bs)
      ensures ok <==> Supplied(old(supply), 1)
      ensures ok ==>
                && |old(supply)| > 0 && |old(supply)[0].gd| == bs
                && disk[dind] == WithEntry(old(supply)[0].gd, ti, old(supply)[0].db)
    {
      hide Num;
      hide File;
      hide Zeros;
      hide WithEntry;
      hide Same;
      hide SupplyOk;
      var mid := AllocBlock();
      if mid == 0 {
        return false;
      }
      ind2 := Zeros(bs);
      ind := WithEntry(ind, ti, mid);
      ind2 := WithEntry(ind2, li, db);
      disk := disk[mid := ind2];
      disk := disk[dind := ind];
      ok := true;
    }

    /** inode_set_block in the triple-indirect range.  With the second-level table
        in place a missing leaf table is no trouble; without it, the two
        allocations leave the bare descriptor block as the top table. */
    method SetTriple(ai: nat, bi: nat, ci: nat, db: u32) returns (ok: bool)
      requires Valid() && ai < bs / 4 && bi < bs / 4 && ci < bs / 4 && Fresh(db)
      requires ValidAddr([14, ai], bs)
      modifies this`disk, this`roots, this`supply, this`used, this`own, this`ind, this`ind2, this`ind3, this`blk
      ensures |disk| == |old(disk)| && |roots| == ROOTS
      ensures Num(old(disk), bs, old(roots), [14, ai]) != 0 ==>
                && Valid() && old(used) <= used && own <= old(own) + {db} + (used - old(used))
                && ValidAddr([14, ai, bi], bs)
                && (ok <==> Supplied(old(supply), One(Num(old(disk), bs, old(roots), [14, ai, bi]) == 0)))
                && (ok ==> Drawn(old(supply), supply, One(Num(old(disk), bs, old(roots), [14, ai, bi]) == 0)))
                && (ok ==> Placed(old(disk), old(roots), disk, roots, bs, [14, ai, bi, ci], db))
                && (!ok ==> Same(old(disk), old(roots), disk, roots, bs))
                && Kept(old(disk), disk, old(used) - meta,
                        {Num(old(disk), bs, old(roots), [14, ai]), Num(old(disk), bs, old(roots), [14, ai, bi])})
      ensures Num(old(disk), bs, old(roots), [14, ai]) == 0 ==>
                (ok <==> Supplied(old(supply), if old(roots)[14] == 0 then 3 else 2))
      ensures Num(old(disk), bs, old(roots), [14, ai]) == 0 && ok ==>
                var k := if old(roots)[14] == 0 then 2 else 1;
                && k < |old(supply)| && 0 < roots[14] < |disk|
                && disk[roots[14]] == old(supply)[k].gd
    {
      hide Num;
      hide File;
      hide Zeros;
      hide WithEntry;
      hide Placed;
      hide Same;
      hide SupplyOk;
      hide Entry;
      assert [14] + [ai] == [14, ai] && ValidAddr([14], bs);
      RootIs(disk, bs, roots, 14);
      TableEntry(disk, bs, roots, [14], ai);
      hide ValidAddr;
      var tind := roots[14];
      if tind == 0 {
        tind := AllocBlock();
        if tind == 0 {
          return false;
        }
        ind := Zeros(bs);
        SameRoot(old(disk), disk, bs, roots, 14);
        HangRoot(disk, bs, roots, own, 14, tind);
        roots := roots[14 := tind];
        own := own + {tind};
        ZeroEntry(bs, ai);
      } else {
        TableReadable(disk, bs, roots, own, [14]);
        ind := disk[tind];
      }
      var d2 := Entry(ind, ai);
      if d2 == 0 {
        ok := TripleNoTable(tind, ai, bi, ci, db);
      } else {
        TableReadable(disk, bs, roots, own, [14, ai]);
        ind2 := disk[d2];
        ok := TripleBelow(d2, ai, bi, ci, db);
      }
    }

    /** The second-level table is missing: both tables below the top are allocated. */
    method TripleNoTable(tind: u32, ai: nat, bi: nat, ci: nat, db: u32) returns (ok: bool)
      requires Valid() && ai < bs / 4 && bi < bs / 4 && ci < bs / 4
      requires 0 < tind < |disk| && tind in used
      modifies this`disk, this`supply, this`used, this`ind, this`ind2, this`ind3, this`blk
      ensures |disk| == |old(disk)|
      ensures ok <==> Supplied(old(supply), 2)
      ensures ok ==> |old(supply)| > 1 && disk[tind] == old(supply)[1].gd
    {
      hide Num;
      hide File;
      hide Zeros;
      hide WithEntry;
      hide Same;
      hide SupplyOk;
      var d2 := AllocBlock();
      if d2 == 0 {
        return false;
      }
      ind2 := Zeros(bs);
      ind := WithEntry(ind, ai, d2);
      // ind2 was just cleared, so the leaf table is missing too.
      var mid := AllocBlock();
      if mid == 0 {
        return false;
      }
      ind3 := Zeros(bs);
      ind2 := WithEntry(ind2, bi, mid);
      ind3 := WithEntry(ind3, ci, db);
      disk := disk[mid := ind3];
      disk := disk[d2 := ind2];
      disk := disk[tind := ind];
      ok := true;
    }

    /** The second-level table d2 is in `ind2`; the top table need not be written. */
    method TripleBelow(d2: u32, ai: nat, bi: nat, ci: nat, db: u32) returns (ok: bool)
      requires Valid() && ai < bs / 4 && bi < bs / 4 && ci < bs / 4 && Fresh(db)
      requires ValidAddr([14, ai], bs) && d2 == Num(disk, bs, roots, [14, ai]) && 0 < d2 < |disk| && ind2 == disk[d2]
      modifies this`disk, this`supply, this`used, this`own, this`ind, this`ind2, this`ind3, this`blk
      ensures Valid() && |disk| == |old(disk)| && old(used) <= used
      ensures own <= old(own) + {db} + (used - old(used))
      ensures ValidAddr([14, ai, bi], bs)
      ensures ok <==> Supplied(old(supply), One(Num(old(disk), bs, roots, [14, ai, bi]) == 0))
      ensures ok ==> Drawn(old(supply), supply, One(Num(old(disk), bs, roots, [14, ai, bi]) == 0))
      ensures ok ==> Placed(old(disk), roots, disk, roots, bs, [14, ai, bi, ci], db)
      ensures !ok ==> Same(old(disk), roots, disk, roots, bs)
      ensures Kept(old(disk), disk, old(used) - meta, {d2, Num(old(disk), bs, roots, [14, ai, bi])})
    {
      hide Num;
      hide File;
      hide Zeros;
      hide WithEntry;
      hide Placed;
      hide Same;
      hide SupplyOk;
      hide Entry;
      assert [14, ai] + [bi] == [14, ai, bi] && [14, ai, bi] + [ci] == [14, ai, bi, ci];
      assert ValidAddr([14, ai, bi], bs) && ValidAddr([14, ai, bi, ci], bs);
      TableEntry(disk, bs, roots, [14, ai], bi);
      hide ValidAddr;
      var mid := Entry(ind2, bi);
      if mid == 0 {
        ok := NewLeaf(d2, bi, ci, db, [14, ai]);
      } else {
        TableReadable(disk, bs, roots, own, [14, ai, bi]);
        ind3 := disk[mid];
        WriteLeaf(mid, ind3, ci, db, [14, ai, bi]);
        ind3 := WithEntry(ind3, ci, db);
        ok := true;
      }
    }

    /** A leaf table hung below the table d2, which `ind2` still holds after the allocation. */
    method NewLeaf(d2: u32, bi: nat, ci: nat, db: u32, ghost p: Addr) returns (ok: bool)
      requires Valid() && bi < bs / 4 && ci < bs / 4 && Fresh(db) && 0 < d2 < |disk| && ind2 == disk[d2]
      requires ValidAddr(p, bs) && IsTable(p) && ValidAddr(p + [bi], bs) && IsTable(p + [bi])
      requires ValidAddr(p + [bi] + [ci], bs) && !IsTable(p + [bi] + [ci])
      requires d2 == Num(disk, bs, roots, p) && Num(disk, bs, roots, p + [bi]) == 0
      modifies this`disk, this`supply, this`used, this`own, this`ind, this`ind2, this`ind3, this`blk
      ensures Valid() && |disk| == |old(disk)| && old(used) <= used
      ensures own <= old(own) + {db} + (used - old(used))
      ensures ok <==> Supplied(old(supply), 1)
      ensures ok ==> Drawn(old(supply), supply, 1)
      ensures ok ==> Placed(old(disk), roots, disk, roots, bs, p + [bi] + [ci], db)
      ensures !ok ==> Same(old(disk), roots, disk, roots, bs)
      ensures Kept(old(disk), disk, old(used) - meta, {d2})
    {
      hide Num;
      hide File;
      hide Zeros;
      hide WithEntry;
      hide Placed;
      hide Same;
      hide SupplyOk;
      hide Entry;
      hide ValidAddr;
      hide IsTable;
      ghost var was := disk;
      TableReadable(disk, bs, roots, own, p);
      var mid := AllocBlock();
      if mid == 0 {
        return false;
      }
      SameNum(was, roots, disk, roots, bs, p);
      SameNum(was, roots, disk, roots, bs, p + [bi]);
      ind3 := Zeros(bs);
      ind2 := WithEntry(ind2, bi, mid);
      ind3 := WithEntry(ind3, ci, db);
      LeafPlaced(disk, bs, roots, own, p, bi, mid, ci, db);
      PlacedFrom(was, roots, disk, roots, disk[mid := ind3][d2 := ind2], roots, bs, p + [bi] + [ci], db);
      disk := disk[mid := ind3];
      disk := disk[d2 := ind2];
      own := own + {mid} + {db};
      ok := true;
    }

    /** map_block: the tables on the way pass through `ind2` and `ind`. */
    method MapBlock(l: nat) returns (m: u32)
      requires Valid() && l < Reach(bs)
      modifies this`ind, this`ind2
      ensures Valid() && m == Map(disk, bs, roots, l)
    {
      AddrValid(l, bs);
      Levels(disk, bs, roots, AddrOf(l, bs));
      hide Num;
      hide File;
      hide SupplyOk;
      hide Entry;
      hide Reach;
      var per := bs / 4;
      if l < DIRECT {
        return roots[l];
      }
      var r := l - DIRECT;
      if r < per {
        var t := roots[12];
        if t == 0 || t >= |disk| {
          return 0;
        }
        ind := disk[t];
        return Entry(ind, r);
      }
      r := r - per;
      if r < per * per {
        var dind := roots[13];
        if dind == 0 || dind >= |disk| {
          return 0;
        }
        ind2 := disk[dind];
        var mid := Entry(ind2, r / per);
        if mid == 0 || mid >= |disk| {
          return 0;
        }
        ind := disk[mid];
        return Entry(ind, r % per);
      }
      r := r - per * per;
      m := MapTriple(r / (per * per), r / per % per, r % per);
    }

    /** The three levels below the last root. */
    method MapTriple(ai: nat, bi: nat, ci: nat) returns (m: u32)
      requires Valid() && ai < bs / 4 && bi < bs / 4 && ci < bs / 4
      modifies this`ind, this`ind2
      ensures Valid() && m == Child(disk, bs, Child(disk, bs, Child(disk, bs, roots[14], ai), bi), ci)
    {
      hide Num;
      hide File;
      hide SupplyOk;
      hide Entry;
      var tind := roots[14];
      if tind == 0 || tind >= |disk| {
        return 0;
      }
      ind2 := disk[tind];
      var dind := Entry(ind2, ai);
      if dind == 0 || dind >= |disk| {
        return 0;
      }
      ind2 := disk[dind];
      var mid := Entry(ind2, bi);
      if mid == 0 || mid >= |disk| {
        return 0;
      }
      ind := disk[mid];
      m := Entry(ind, ci);
    }

    /** inode_set_block where the tables it relies on survive.  It fails exactly when
        a table that is missing on the way cannot be allocated. */
    method SetBlock(l: nat, db: u32) returns (ok: bool)
      requires Valid() && l < Reach(bs) && Fresh(db) && Safe(disk, bs, roots, l)
      modifies this`disk, this`roots, this`supply, this`used, this`own, this`ind, this`ind2, this`ind3, this`blk
      ensures Valid() && |disk| == |old(disk)| && old(used) <= used
      ensures own <= old(own) + {db} + (used - old(used))
      ensures ok <==> Supplied(old(supply), Tables(old(disk), bs, old(roots), l))
      ensures ok ==> Drawn(old(supply), supply, Tables(old(disk), bs, old(roots), l))
      ensures ok ==> Placed(old(disk), old(roots), disk, roots, bs, AddrOf(l, bs), db)
      ensures !ok ==> Same(old(disk), old(roots), disk, roots, bs)
      ensures DataKept(old(disk), old(roots), disk, bs, db)
      ensures Kept(old(disk), disk, old(used) - meta, old(own))
    {
      TableCount(disk, bs, roots, l);
      assert ValidAddr([12], bs) && IsTable([12]);
      RootIs(disk, bs, roots, 12);
      hide Num;
      hide File;
      hide SupplyOk;
      hide Placed;
      hide Same;
      hide Reach;
      hide Kept;
      hide IsTable;
      hide Supplied;
      hide WithEntry;
      hide DataKept;
      hide Tables;
      hide Drawn;
      hide Safe;
      if l < DIRECT {
        SetDirect(l, db);
        ok := true;
        DrawnNone(supply);
        KeptNone(disk, old(used) - meta, {old(roots)[12]});
      } else if l - DIRECT < bs / 4 {
        ok := SetSingle(l - DIRECT, db);
      } else if l - DIRECT - bs / 4 < bs / 4 * (bs / 4) {
        ok := SetFar(l, db);
        return;
      } else {
        ok := SetFarther(l, db);
        return;
      }
      KeptData(old(disk), old(roots), disk, bs, old(used), meta, old(own), db, [12], [12]);
    }

    /** inode_set_block in the triple-indirect range, by logical block. */
    method SetFarther(l: nat, db: u32) returns (ok: bool)
      requires Valid() && DIRECT + bs / 4 + bs / 4 * (bs / 4) <= l < Reach(bs) && Fresh(db)
      requires Safe(disk, bs, roots, l)
      modifies this`disk, this`roots, this`supply, this`used, this`own, this`ind, this`ind2, this`ind3, this`blk
      ensures Valid() && |disk| == |old(disk)| && old(used) <= used
      ensures own <= old(own) + {db} + (used - old(used))
      ensures ok <==> Supplied(old(supply), Tables(old(disk), bs, old(roots), l))
      ensures ok ==> Drawn(old(supply), supply, Tables(old(disk), bs, old(roots), l))
      ensures ok ==> Placed(old(disk), old(roots), disk, roots, bs, AddrOf(l, bs), db)
      ensures !ok ==> Same(old(disk), old(roots), disk, roots, bs)
      ensures DataKept(old(disk), old(roots), disk, bs, db)
      ensures Kept(old(disk), disk, old(used) - meta, old(own))
    {
      AddrValid(l, bs);
      ghost var a := AddrOf(l, bs);
      AddrPrefixes(a, bs);
      TableCount(disk, bs, roots, l);
      assert Num(disk, bs, roots, a[..2]) != 0;
      var per := bs / 4;
      var r := l - DIRECT - per - per * per;
      assert a == [14, r / (per * per), r / per % per, r % per];
      hide Num;
      hide File;
      hide SupplyOk;
      hide Placed;
      hide Same;
      hide Reach;
      hide Kept;
      hide IsTable;
      hide Supplied;
      hide WithEntry;
      hide DataKept;
      hide Tables;
      hide Drawn;
      hide AddrOf;
      hide Safe;
      ok := SetTriple(r / (per * per), r / per % per, r % per, db);
      KeptData(old(disk), old(roots), disk, bs, old(used), meta, old(own), db, a[..2], a[..3]);
    }

    /** inode_set_block in the double-indirect range, by logical block. */
    method SetFar(l: nat, db: u32) returns (ok: bool)
      requires Valid() && l < Reach(bs) && DIRECT + bs / 4 <= l < DIRECT + bs / 4 + bs / 4 * (bs / 4)
      requires Fresh(db) && Safe(disk, bs, roots, l)
      modifies this`disk, this`roots, this`supply, this`used, this`own, this`ind, this`ind2, this`ind3, this`blk
      ensures Valid() && |disk| == |old(disk)| && old(used) <= used
      ensures own <= old(own) + {db} + (used - old(used))
      ensures ok <==> Supplied(old(supply), Tables(old(disk), bs, old(roots), l))
      ensures ok ==> Drawn(old(supply), supply, Tables(old(disk), bs, old(roots), l))
      ensures ok ==> Placed(old(disk), old(roots), disk, roots, bs, AddrOf(l, bs), db)
      ensures !ok ==> Same(old(disk), old(roots), disk, roots, bs)
      ensures DataKept(old(disk), old(roots), disk, bs, db)
      ensures Kept(old(disk), disk, old(used) - meta, old(own))
    {
      AddrValid(l, bs);
      ghost var a := AddrOf(l, bs);
      AddrPrefixes(a, bs);
      TableCount(disk, bs, roots, l);
      assert Num(disk, bs, roots, a[..2]) != 0;
      var per := bs / 4;
      var r := l - DIRECT - per;
      assert a == [13, r / per, r % per];
      hide Num;
      hide File;
      hide SupplyOk;
      hide Placed;
      hide Same;
      hide Reach;
      hide Kept;
      hide IsTable;
      hide Supplied;
      hide WithEntry;
      hide DataKept;
      hide Tables;
      hide Drawn;
      hide AddrOf;
      hide Safe;
      ok := SetDouble(r / per, r % per, db);
      DrawnNone(supply);
      KeptData(old(disk), old(roots), disk, bs, old(used), meta, old(own), db, a[..2], a[..2]);
    }

    /** One chunk of pwrite: read-modify-write of an existing block, or a new
        zero-filled block hung into the map. */
    method WriteChunk(l: nat, boff: nat, chunk: seq<byte>) returns (ok: bool)
      requires Valid() && l < Reach(bs) && boff + |chunk| <= bs && Safe(disk, bs, roots, l)
      modifies this`disk, this`roots, this`supply, this`used, this`own, this`ind, this`ind2, this`ind3, this`blk
      ensures Valid() && |disk| == |old(disk)| && old(used) <= used && own <= old(own) + (used - old(used))
      ensures Kept(old(disk), disk, old(used) - meta, old(own))
      ensures TablesStay(old(disk), old(roots), disk, roots, bs)
      ensures ok <==> Supplied(old(supply), Shortage(old(disk), bs, old(roots), l))
      ensures ok ==> Drawn(old(supply), supply, Shortage(old(disk), bs, old(roots), l))
      ensures ok ==> Filled(old(disk), old(roots), disk, roots, bs, l)
      ensures Rewritten(old(disk), old(roots), disk, roots, bs, l,
                        if ok then Splice(Content(old(disk), bs, old(roots), l), boff, chunk)
                        else Content(old(disk), bs, old(roots), l))
    {
      ShortageIs(disk, bs, roots, l);
      hide Num;
      hide File;
      hide SupplyOk;
      hide Reach;
      hide Splice;
      hide Rewritten;
      hide Content;
      hide Safe;
      hide Kept;
      hide Filled;
      hide Shortage;
      hide Drawn;
      hide Same;
      ghost var d := disk;
      var db := MapBlock(l);
      if db != 0 {
        RewriteExisting(l, db, boff, chunk);
        DrawnNone(supply);
        FilledAlready(d, disk, bs, roots, l);
        RewrittenStays(d, roots, disk, roots, bs, l, Splice(Content(d, bs, roots, l), boff, chunk));
        return true;
      }
      ok := NewChunk(l, boff, chunk);
      RewrittenStays(d, old(roots), disk, roots, bs, l,
                     if ok then Splice(Content(d, bs, old(roots), l), boff, chunk) else Content(d, bs, old(roots), l));
    }

    /** Read-modify-write of a block the file already has. */
    method RewriteExisting(l: nat, db: u32, boff: nat, chunk: seq<byte>)
      requires Valid() && l < Reach(bs) && boff + |chunk| <= bs
      requires db != 0 && db == Map(disk, bs, roots, l)
      modifies this`disk, this`blk
      ensures Valid() && |disk| == |old(disk)|
      ensures Kept(old(disk), disk, used - meta, own)
      ensures Same(old(disk), roots, disk, roots, bs)
      ensures Rewritten(old(disk), roots, disk, roots, bs, l, Splice(Content(old(disk), bs, roots, l), boff, chunk))
    {
      AddrValid(l, bs);
      TableReadable(disk, bs, roots, own, AddrOf(l, bs));
      hide Num;
      hide File;
      hide SupplyOk;
      hide Reach;
      hide Splice;
      hide Rewritten;
      hide Same;
      blk := disk[db];
      blk := Splice(blk, boff, chunk);
      DataWritten(disk, bs, roots, own, l, blk);
      disk := disk[db := blk];
    }

    /** A new block, zero-filled around the chunk. */
    method NewChunk(l: nat, boff: nat, chunk: seq<byte>) returns (ok: bool)
      requires Valid() && l < Reach(bs) && boff + |chunk| <= bs && Safe(disk, bs, roots, l)
      requires Map(disk, bs, roots, l) == 0
      modifies this`disk, this`roots, this`supply, this`used, this`own, this`ind, this`ind2, this`ind3, this`blk
      ensures Valid() && |disk| == |old(disk)| && old(used) <= used && own <= old(own) + (used - old(used))
      ensures Kept(old(disk), disk, old(used) - meta, old(own))
      ensures ok <==> Supplied(old(supply), 1 + Tables(old(disk), bs, old(roots), l))
      ensures ok ==> Drawn(old(supply), supply, 1 + Tables(old(disk), bs, old(roots), l))
      ensures ok ==> Filled(old(disk), old(roots), disk, roots, bs, l)
      ensures Rewritten(old(disk), old(roots), disk, roots, bs, l,
                        if ok then Splice(Content(old(disk), bs, old(roots), l), boff, chunk)
                        else Content(old(disk), bs, old(roots), l))
    {
      hide Num;
      hide File;
      hide SupplyOk;
      hide Reach;
      hide Splice;
      hide Zeros;
      hide Rewritten;
      hide Placed;
      hide Same;
      hide DataKept;
      hide Kept;
      hide Content;
      hide Safe;
      hide Tables;
      hide Filled;
      HoleReads(disk, bs, roots, l);
      ghost var d0, r0 := disk, roots;
      SuppliedFirst(supply, Tables(disk, bs, roots, l));
      hide Supplied;
      hide Drawn;
      var db := FilledBlock(l, boff, chunk);
      if db == 0 {
        Reread(disk, roots, bs, l);
        KeptNone(disk, used - meta, own);
        return false;
      }
      ghost var d2, scope := disk, used - meta;
      TablesSame(d0, d2, bs, r0, l);
      ok := HangChunk(l, db);
      if ok {
        DrawnMore(old(supply), supply, Tables(d0, bs, r0, l));
        FilledFrom(d0, d2, r0, disk, roots, bs, l);
      }
      ReadsSame(d0, d2, r0, bs, l);
      Resumed(d0, d2, r0, disk, roots, bs, l, if ok then d2[db] else Content(d0, bs, r0, l));
      KeptTwice(d0, d2, disk, old(used) - meta, scope, old(own));
    }

    /** alloc_block for data, and the block written with the chunk in it. */
    method FilledBlock(l: nat, boff: nat, chunk: seq<byte>) returns (db: u32)
      requires Valid() && l < Reach(bs) && boff + |chunk| <= bs && Safe(disk, bs, roots, l)
      modifies this`disk, this`supply, this`used, this`ind, this`blk
      ensures Valid() && |disk| == |old(disk)| && old(used) <= used
      ensures db == 0 ==> disk == old(disk) && used == old(used)
      ensures db == 0 <==> old(supply) == [] || old(supply)[0].db == 0
      ensures supply == if old(supply) == [] then [] else old(supply)[1..]
      ensures db != 0 ==> Same(old(disk), roots, disk, roots, bs)
      ensures db != 0 ==>
                && Fresh(db) && db !in old(used) && used == old(used) + {db} && Safe(disk, bs, roots, l)
                && disk[db] == Splice(Zeros(bs), boff, chunk)
                && Rewritten(old(disk), roots, disk, roots, bs, l, Content(old(disk), bs, roots, l))
                && Kept(old(disk), disk, old(used) - meta, own)
    {
      hide Num;
      hide File;
      hide SupplyOk;
      hide Reach;
      hide Splice;
      hide Zeros;
      hide Rewritten;
      hide Same;
      hide Content;
      hide Safe;
      ghost var d0 := disk;
      db := AllocBlock();
      if db != 0 {
        blk := Zeros(bs);
        blk := Splice(blk, boff, chunk);
        ghost var d1 := disk;
        disk := disk[db := blk];
        Outside(d0, d1, disk, bs, roots, own, old(used) - meta, l);
        SafeSame(d0, disk, bs, roots, l);
      }
    }

    /** The filled block hung into the map. */
    method HangChunk(l: nat, db: u32) returns (ok: bool)
      requires Valid() && l < Reach(bs) && Fresh(db) && Safe(disk, bs, roots, l)
      modifies this`disk, this`roots, this`supply, this`used, this`own, this`ind, this`ind2, this`ind3, this`blk
      ensures Valid() && |disk| == |old(disk)| && old(used) <= used && own <= old(own) + {db} + (used - old(used))
      ensures Kept(old(disk), disk, old(used) - meta, old(own))
      ensures ok <==> Supplied(old(supply), Tables(old(disk), bs, old(roots), l))
      ensures ok ==> Drawn(old(supply), supply, Tables(old(disk), bs, old(roots), l))
      ensures ok ==> Filled(old(disk), old(roots), disk, roots, bs, l)
      ensures Rewritten(old(disk), old(roots), disk, roots, bs, l,
                        if ok then old(disk)[db] else Content(old(disk), bs, old(roots), l))
    {
      hide Num;
      hide File;
      hide SupplyOk;
      hide Reach;
      hide Rewritten;
      hide Placed;
      hide Same;
      hide DataKept;
      hide Content;
      hide Safe;
      hide Kept;
      hide Tables;
      hide Supplied;
      hide Drawn;
      hide Filled;
      ghost var d, r := disk, roots;
      ok := SetBlock(l, db);
      if ok {
        PlacedFilled(d, r, disk, roots, bs, l, db);
        PlacedContent(d, r, disk, roots, bs, l, db);
      } else {
        SameContent(d, r, disk, roots, bs, l, db);
      }
    }

    /** The loop of pwrite on an open file. */
    method Pwrite(off: nat, buf: seq<byte>) returns (done: nat)
      requires Valid() && off + |buf| <= FILE_MAX
      requires forall l :: Touched(l, off, off + |buf|, bs) ==> SafeAt(disk, bs, roots, l)
      modifies this`disk, this`roots, this`size, this`supply, this`used, this`own,
               this`ind, this`ind2, this`ind3, this`blk
      ensures Valid() && old(used) <= used && own <= old(own) + (used - old(used))
      ensures done <= |buf| && size == if off + done > old(size) then off + done else old(size)
      ensures Overwritten(old(disk), old(roots), disk, roots, bs, off, buf[..done])
      ensures Kept(old(disk), disk, old(used) - meta, old(own))
      // As many bytes as the allocator grants blocks and tables for.
      ensures Exactly(old(disk), old(roots), old(supply), bs, off, done, |buf|)
    {
      hide Num;
      hide File;
      hide SupplyOk;
      hide Reach;
      hide Rewritten;
      hide Content;
      hide Safe;
      hide Kept;
      hide SafeAt;
      hide Touched;
      hide Splice;
      hide Overwritten;
      hide Supplied;
      hide Drawn;
      hide Shortage;
      hide Filled;
      hide Paid;
      hide Exactly;
      hide End;
      ghost var d0, r0, s0 := disk, roots, supply;
      NothingPaid(disk, roots, bs, supply, off, |buf|);
      NothingWritten(disk, roots, bs, off);
      KeptNone(disk, used - meta, own);
      assert buf[..0] == [];
      done := 0;
      while done < |buf|
        invariant 0 <= done <= |buf| && Valid() && |disk| == |d0| && size == old(size)
        invariant old(used) <= used && own <= old(own) + (used - old(used))
        invariant forall l :: Touched(l, off, off + |buf|, bs) ==> SafeAt(disk, bs, roots, l)
        invariant Overwritten(d0, r0, disk, roots, bs, off, buf[..done])
        invariant Kept(d0, disk, old(used) - meta, old(own))
        invariant done == |buf| ==> Exactly(d0, r0, s0, bs, off, done, |buf|)
        invariant Paid(d0, r0, s0, disk, roots, supply, bs, off, done)
        invariant done < |buf| ==> End(off, done, bs) == (off + done) / bs
      {
        var pos := off + done;
        var l, boff := pos / bs, pos % bs;
        var n := if bs - boff > |buf| - done then |buf| - done else bs - boff;
        var chunk := buf[done..done + n];
        SafeHere(disk, bs, roots, off, pos, off + |buf|);
        ghost var d1, r1, own1, used1 := disk, roots, own, used;
        ghost var s1 := supply;
        var ok := WriteChunk(l, boff, chunk);
        PaidNext(d0, r0, s0, d1, r1, s1, disk, roots, supply, bs, off, done, n, |buf|, ok);
        SafeLater(d1, r1, disk, roots, bs, off, off + |buf|);
        KeptGrown(d0, d1, disk, old(used) - meta, used1 - meta, old(own), own1);
        if !ok {
          ChunkNone(d1, r1, disk, roots, bs, pos);
          Extended(d0, r0, d1, r1, disk, roots, bs, off, buf[..done], []);
          assert buf[..done] + [] == buf[..done];
          break;
        }
        ChunkBytes(d1, r1, disk, roots, bs, pos, chunk);
        Extended(d0, r0, d1, r1, disk, roots, bs, off, buf[..done], chunk);
        assert buf[..done] + chunk == buf[..done + n];
        done := done + n;
        if done == |buf| {
          PaidAll(d0, r0, s0, disk, roots, supply, bs, off, done);
        }
      }
      if off + done > size {
        size := off + done;
      }
    }

    /** The loop of pread on an open file. */
    method Pread(off: nat, len: nat) returns (out: seq<byte>)
      requires Valid()
      modifies this`ind, this`ind2, this`blk
      ensures Valid()
      ensures |out| == if off >= size then 0 else if len < size - off then len else size - off
      ensures forall i :: 0 <= i < |out| ==> out[i] == ByteAt(disk, bs, roots, off + i)
    {
      hide Num;
      hide File;
      hide SupplyOk;
      hide Reach;
      hide ByteAt;
      out := [];
      if off >= size {
        return;
      }
      var want := if len < size - off then len else size - off;
      while |out| < want
        invariant |out| <= want && Valid()
        invariant forall i :: 0 <= i < |out| ==> out[i] == ByteAt(disk, bs, roots, off + i)
        decreases want - |out|
      {
        var chunk := ReadChunk(off + |out|, want - |out|);
        out := out + chunk;
      }
    }

    /** One step of that loop: the rest of the block at `pos`, or less. */
    method ReadChunk(pos: nat, most: nat) returns (chunk: seq<byte>)
      requires Valid() && most > 0 && pos + most <= FILE_MAX
      modifies this`ind, this`ind2, this`blk
      ensures Valid() && 0 < |chunk| <= most
      ensures forall i :: 0 <= i < |chunk| ==> chunk[i] == ByteAt(disk, bs, roots, pos + i)
    {
      hide Num;
      hide File;
      hide SupplyOk;
      hide Reach;
      var l, boff := pos / bs, pos % bs;
      InReach(pos, bs);
      var pb := MapBlock(l);
      var n := if bs - boff < most then bs - boff else most;
      if pb == 0 {
        blk := Zeros(bs);
      } else {
        AddrValid(l, bs);
        TableReadable(disk, bs, roots, own, AddrOf(l, bs));
        blk := disk[pb];
      }
      assert blk == Content(disk, bs, roots, l);
      BlockBytes(disk, roots, bs, pos, n);
      hide Content;
      hide ByteAt;
      chunk := blk[boff..boff + n];
      forall i | 0 <= i < n
        ensures chunk[i] == ByteAt(disk, bs, roots, pos + i)
      {
        assert chunk[i] == blk[boff + (pos + i - pos)];
      }
    }

    /** A write read back: the bytes come back, as many as the allocator grants blocks and
        tables for, which is all of them exactly when it grants all that are missing. */
    method WriteThenRead(off: nat, buf: seq<byte>) returns (out: seq<byte>)
      requires Valid() && off + |buf| <= FILE_MAX
      requires forall l :: Touched(l, off, off + |buf|, bs) ==> SafeAt(disk, bs, roots, l)
      modifies this`disk, this`roots, this`size, this`supply, this`used, this`own,
               this`ind, this`ind2, this`ind3, this`blk
      ensures Valid() && out <= buf && size >= old(size)
      ensures Overwritten(old(disk), old(roots), disk, roots, bs, off, out)
      ensures Exactly(old(disk), old(roots), old(supply), bs, off, |out|, |buf|)
      ensures out == buf <==> Supplied(old(supply), Demand(old(disk), bs, old(roots), off, |buf|))
    {
      var done := Pwrite(off, buf);
      hide Overwritten;
      hide Demand;
      hide Supplied;
      out := Pread(off, done);
      RoundTrip(old(disk), old(roots), disk, roots, bs, off, buf[..done], out);
    }
  }

  /** Logical block l now reads as `now`, every other as before; existing tables stay. */
  ghost predicate Rewritten(disk: seq<Block>, roots: seq<u32>, disk': seq<Block>, roots': seq<u32>, bs: nat, l: nat,
                            now: Block)
    requires IsDisk(disk, bs) && |roots| == ROOTS && IsDisk(disk', bs) && |roots'| == ROOTS && l < Reach(bs)
  {
    && (forall m :: 0 <= m < Reach(bs) ==>
          Content(disk', bs, roots', m) == if m == l then now else Content(disk, bs, roots, m))
    && TablesStay(disk, roots, disk', roots', bs)
  }

  /** An index table once in place stays in place. */
  ghost predicate TablesStay(disk: seq<Block>, roots: seq<u32>, disk': seq<Block>, roots': seq<u32>, bs: nat)
    requires IsDisk(disk, bs) && |roots| == ROOTS && IsDisk(disk', bs) && |roots'| == ROOTS
  {
    forall b :: ValidAddr(b, bs) && IsTable(b) && Num(disk, bs, roots, b) != 0 ==>
      Num(disk', bs, roots', b) == Num(disk, bs, roots, b)
  }

  /** The blocks and tables that the n bytes from `off` on are short of. */
  function Demand(disk: seq<Block>, bs: nat, roots: seq<u32>, off: nat, n: nat): nat
    requires IsDisk(disk, bs) && |roots| == ROOTS && off + n <= FILE_MAX
  {
    EndsInReach(off, n, bs);
    |Missing(disk, bs, roots, End(off, 0, bs), End(off, n, bs))|
  }

  /** The logical block behind the last of n bytes from `off` on. */
  function End(off: nat, n: nat, bs: nat): nat
    requires bs > 0
  {
    if n == 0 then off / bs else (off + n - 1) / bs + 1
  }

  lemma EndsInReach(off: nat, n: nat, bs: nat)
    requires SizeOk(bs) && off + n <= FILE_MAX
    ensures End(off, n, bs) <= Reach(bs)
  {
    InReach(off, bs);
    if n > 0 {
      InReach(off + n - 1, bs);
    }
  }

  /** Exactly the addresses on the way to l that were missing no longer are. */
  ghost predicate Filled(disk: seq<Block>, roots: seq<u32>, disk': seq<Block>, roots': seq<u32>, bs: nat, l: nat)
    requires IsDisk(disk, bs) && |roots| == ROOTS && IsDisk(disk', bs) && |roots'| == ROOTS && l < Reach(bs)
  {
    forall b :: ValidAddr(b, bs) ==>
      (Num(disk', bs, roots', b) == 0 <==> Num(disk, bs, roots, b) == 0 && !(b <= AddrOf(l, bs)))
  }

  /** Exactly the addresses that n bytes from `off` on were short of are filled. */
  ghost predicate FilledUp(disk: seq<Block>, roots: seq<u32>, disk': seq<Block>, roots': seq<u32>, bs: nat, off: nat,
                           n: nat)
    requires IsDisk(disk, bs) && |roots| == ROOTS && IsDisk(disk', bs) && |roots'| == ROOTS && off + n <= FILE_MAX
  {
    EndsInReach(off, n, bs);
    forall b :: ValidAddr(b, bs) ==>
      (Num(disk', bs, roots', b) == 0 <==>
       Num(disk, bs, roots, b) == 0 && b !in Missing(disk, bs, roots, End(off, 0, bs), End(off, n, bs)))
  }

  /** How many blocks a chunk in logical block l has to allocate. */
  function Shortage(disk: seq<Block>, bs: nat, roots: seq<u32>, l: nat): nat
    requires IsDisk(disk, bs) && |roots| == ROOTS && l < Reach(bs)
  {
    AddrValid(l, bs);
    |Absent(disk, bs, roots, AddrOf(l, bs))|
  }

  lemma ShortageIs(disk: seq<Block>, bs: nat, roots: seq<u32>, l: nat)
    requires IsDisk(disk, bs) && |roots| == ROOTS && l < Reach(bs)
    ensures Shortage(disk, bs, roots, l) ==
            if Map(disk, bs, roots, l) == 0 then 1 + Tables(disk, bs, roots, l) else 0
  {
    AddrValid(l, bs);
    var a := AddrOf(l, bs);
    hide Reach;
    hide AddrOf;
    if Num(disk, bs, roots, a) == 0 {
      OneAbsent(disk, bs, roots, a);
    } else {
      NoneAbsent(disk, bs, roots, a);
    }
  }

  lemma DrawnNone(supply: seq<Grant>)
    ensures Drawn(supply, supply, 0) && Supplied(supply, 0)
  {
    assert supply[0..] == supply;
  }

  /** The first of 1 + n allocations, and the n behind it. */
  lemma SuppliedFirst(supply: seq<Grant>, n: nat)
    ensures Supplied(supply, 1 + n) <==> supply != [] && supply[0].db != 0 && Supplied(supply[1..], n)
  {
    if supply != [] && supply[0].db != 0 && Supplied(supply[1..], n) {
      assert forall i :: 0 < i < 1 + n ==> supply[i] == supply[1..][i - 1];
    }
  }

  lemma DrawnMore(before: seq<Grant>, after: seq<Grant>, n: nat)
    requires before != [] && before[0].db != 0 && Drawn(before[1..], after, n)
    ensures Drawn(before, after, 1 + n)
  {
    SuppliedFirst(before, n);
    assert before[1 + n..] == before[1..][n..];
  }

  lemma SuppliedOn(s0: seq<Grant>, s1: seq<Grant>, m: nat, n: nat)
    requires Drawn(s0, s1, m)
    ensures Supplied(s0, m + n) <==> Supplied(s1, n)
  {
    if Supplied(s1, n) {
      assert forall i :: m <= i < m + n ==> s0[i] == s1[i - m];
    }
  }

  lemma DrawnOn(s0: seq<Grant>, s1: seq<Grant>, s2: seq<Grant>, m: nat, n: nat)
    requires Drawn(s0, s1, m) && Drawn(s1, s2, n)
    ensures Drawn(s0, s2, m + n)
  {
    SuppliedOn(s0, s1, m, n);
    assert s0[m + n..] == s0[m..][n..];
  }

  lemma TablesSame(d0: seq<Block>, d1: seq<Block>, bs: nat, roots: seq<u32>, l: nat)
    requires IsDisk(d0, bs) && IsDisk(d1, bs) && |roots| == ROOTS && l < Reach(bs) && Same(d0, roots, d1, roots, bs)
    ensures Tables(d1, bs, roots, l) == Tables(d0, bs, roots, l)
  {
    AddrValid(l, bs);
    var a := AddrOf(l, bs);
    if |a| > 1 {
      ParentValid(a, bs);
      AbsentSame(d0, d1, bs, roots, Parent(a));
    }
  }

  lemma {:induction false} AbsentSame(d0: seq<Block>, d1: seq<Block>, bs: nat, roots: seq<u32>, a: Addr)
    requires IsDisk(d0, bs) && IsDisk(d1, bs) && |roots| == ROOTS && Same(d0, roots, d1, roots, bs) && ValidAddr(a, bs)
    ensures Absent(d1, bs, roots, a) == Absent(d0, bs, roots, a)
    decreases |a|
  {
    if |a| > 1 {
      ParentValid(a, bs);
      AbsentSame(d0, d1, bs, roots, Parent(a));
    }
  }

  lemma PlacedFilled(d: seq<Block>, r: seq<u32>, d': seq<Block>, r': seq<u32>, bs: nat, l: nat, db: u32)
    requires IsDisk(d, bs) && |r| == ROOTS && IsDisk(d', bs) && |r'| == ROOTS && l < Reach(bs) && db != 0
    requires Placed(d, r, d', r', bs, AddrOf(l, bs), db)
    ensures Filled(d, r, d', r', bs, l)
  {
    hide Num;
    hide Reach;
    hide AddrOf;
  }

  lemma FilledAlready(d: seq<Block>, d': seq<Block>, bs: nat, roots: seq<u32>, l: nat)
    requires IsDisk(d, bs) && IsDisk(d', bs) && |roots| == ROOTS && l < Reach(bs)
    requires Map(d, bs, roots, l) != 0 && Same(d, roots, d', roots, bs)
    ensures Filled(d, roots, d', roots, bs, l)
  {
    AddrValid(l, bs);
    var a := AddrOf(l, bs);
    NoneAbsent(d, bs, roots, a);
    forall b | ValidAddr(b, bs)
      ensures Num(d', bs, roots, b) == Num(d, bs, roots, b) && (b <= a ==> Num(d, bs, roots, b) != 0)
    {
      AbsentIff(d, bs, roots, a, b);
    }
    hide Num;
  }

  lemma FilledFrom(d0: seq<Block>, d1: seq<Block>, r: seq<u32>, d2: seq<Block>, r2: seq<u32>, bs: nat, l: nat)
    requires IsDisk(d0, bs) && IsDisk(d1, bs) && IsDisk(d2, bs) && |r| == |r2| == ROOTS && l < Reach(bs)
    requires Same(d0, r, d1, r, bs) && Filled(d1, r, d2, r2, bs, l)
    ensures Filled(d0, r, d2, r2, bs, l)
  {
    hide Num;
    hide Reach;
    hide AddrOf;
  }

  lemma RewrittenStays(d: seq<Block>, r: seq<u32>, d': seq<Block>, r': seq<u32>, bs: nat, l: nat, now: Block)
    requires IsDisk(d, bs) && |r| == ROOTS && IsDisk(d', bs) && |r'| == ROOTS && l < Reach(bs)
    requires Rewritten(d, r, d', r', bs, l, now)
    ensures TablesStay(d, r, d', r', bs)
  {
  }

  // Counting as a write goes on.

  /** The grants drawn and the addresses filled are what the first `done` bytes were short of. */
  ghost predicate Paid(d0: seq<Block>, r0: seq<u32>, s0: seq<Grant>, disk: seq<Block>, roots: seq<u32>,
                       supply: seq<Grant>, bs: nat, off: nat, done: nat)
    requires IsDisk(d0, bs) && |r0| == ROOTS && IsDisk(disk, bs) && |roots| == ROOTS && off + done <= FILE_MAX
  {
    Drawn(s0, supply, Demand(d0, bs, r0, off, done)) && FilledUp(d0, r0, disk, roots, bs, off, done)
  }

  /** Of `len` bytes, `done` is as many as the supply has blocks and tables for. */
  ghost predicate Exactly(disk: seq<Block>, roots: seq<u32>, supply: seq<Grant>, bs: nat, off: nat, done: nat, len: nat)
    requires IsDisk(disk, bs) && |roots| == ROOTS && off + len <= FILE_MAX
  {
    forall n :: 0 <= n <= len ==> (n <= done <==> Supplied(supply, Demand(disk, bs, roots, off, n)))
  }

  lemma NothingPaid(disk: seq<Block>, roots: seq<u32>, bs: nat, supply: seq<Grant>, off: nat, len: nat)
    requires IsDisk(disk, bs) && |roots| == ROOTS && off + len <= FILE_MAX
    ensures Paid(disk, roots, supply, disk, roots, supply, bs, off, 0) && End(off, 0, bs) == off / bs
    ensures len == 0 ==> Exactly(disk, roots, supply, bs, off, 0, 0)
  {
    DrawnNone(supply);
  }

  /** A chunk ends in the block where it starts; one that fills the block is followed by the next block. */
  lemma ChunkEnds(off: nat, done: nat, n: nat, bs: nat)
    requires bs > 0 && 0 < n <= bs - (off + done) % bs
    ensures End(off, done + n, bs) == (off + done) / bs + 1
    ensures n == bs - (off + done) % bs ==> (off + done + n) / bs == (off + done) / bs + 1
    ensures End(off, 0, bs) <= (off + done) / bs
  {
    var pos := off + done;
    DivModUnique(pos + n - 1, bs, pos / bs, pos % bs + n - 1);
    if n == bs - pos % bs {
      assert pos + n == (pos / bs + 1) * bs;
      DivModUnique(pos + n, bs, pos / bs + 1, 0);
    }
    DivMonotone(off, pos, bs);
  }

  /** The next chunk is short of what its block is short of by now. */
  lemma DemandNext(d0: seq<Block>, r0: seq<u32>, d1: seq<Block>, r1: seq<u32>, bs: nat, s0: seq<Grant>, s1: seq<Grant>,
                   off: nat, done: nat, n: nat, m: nat)
    requires IsDisk(d0, bs) && |r0| == ROOTS && IsDisk(d1, bs) && |r1| == ROOTS && off + done + n <= FILE_MAX
    requires End(off, 0, bs) <= m < Reach(bs) && End(off, done, bs) == m && End(off, done + n, bs) == m + 1
    requires FilledUp(d0, r0, d1, r1, bs, off, done) && Drawn(s0, s1, Demand(d0, bs, r0, off, done))
    ensures Demand(d0, bs, r0, off, done + n) == Demand(d0, bs, r0, off, done) + Shortage(d1, bs, r1, m)
    ensures Supplied(s0, Demand(d0, bs, r0, off, done + n)) <==> Supplied(s1, Shortage(d1, bs, r1, m))
  {
    hide Reach;
    hide Num;
    hide Missing;
    hide Shortage;
    hide ValidAddr;
    hide End;
    MissingNext(d0, r0, d1, r1, bs, End(off, 0, bs), m);
    hide Supplied;
    hide Drawn;
    SuppliedOn(s0, s1, Demand(d0, bs, r0, off, done), Shortage(d1, bs, r1, m));
  }

  lemma MissingNext(d0: seq<Block>, r0: seq<u32>, d1: seq<Block>, r1: seq<u32>, bs: nat, lo: nat, m: nat)
    requires IsDisk(d0, bs) && |r0| == ROOTS && IsDisk(d1, bs) && |r1| == ROOTS && lo <= m < Reach(bs)
    requires forall b :: ValidAddr(b, bs) ==>
               (Num(d1, bs, r1, b) == 0 <==> Num(d0, bs, r0, b) == 0 && b !in Missing(d0, bs, r0, lo, m))
    ensures |Missing(d0, bs, r0, lo, m + 1)| == |Missing(d0, bs, r0, lo, m)| + Shortage(d1, bs, r1, m)
  {
    AddrValid(m, bs);
    var a := AddrOf(m, bs);
    var past, here := Missing(d0, bs, r0, lo, m), Absent(d1, bs, r1, a);
    AbsentValid(d0, bs, r0, a);
    AbsentValid(d1, bs, r1, a);
    MissingValid(d0, bs, r0, lo, m);
    forall b | ValidAddr(b, bs)
      ensures b in here <==> b in Absent(d0, bs, r0, a) && b !in past
    {
      AbsentIff(d0, bs, r0, a, b);
      AbsentIff(d1, bs, r1, a, b);
    }
    assert here !! past;
    assert past + Absent(d0, bs, r0, a) == past + here;
  }

  lemma FilledOn(d0: seq<Block>, r0: seq<u32>, d1: seq<Block>, r1: seq<u32>, d2: seq<Block>, r2: seq<u32>, bs: nat,
                 off: nat, done: nat, n: nat, m: nat)
    requires IsDisk(d0, bs) && |r0| == ROOTS && IsDisk(d1, bs) && |r1| == ROOTS && IsDisk(d2, bs) && |r2| == ROOTS
    requires off + done + n <= FILE_MAX
    requires End(off, 0, bs) <= m < Reach(bs) && End(off, done, bs) == m && End(off, done + n, bs) == m + 1
    requires FilledUp(d0, r0, d1, r1, bs, off, done) && Filled(d1, r1, d2, r2, bs, m)
    ensures FilledUp(d0, r0, d2, r2, bs, off, done + n)
  {
    AddrValid(m, bs);
    var lo, a := End(off, 0, bs), AddrOf(m, bs);
    assert Missing(d0, bs, r0, lo, m + 1) == Missing(d0, bs, r0, lo, m) + Absent(d0, bs, r0, a);
    hide End;
    hide Missing;
    hide Reach;
    hide Num;
    hide Absent;
    hide AddrOf;
    forall b | ValidAddr(b, bs)
      ensures Num(d2, bs, r2, b) == 0 <==> Num(d0, bs, r0, b) == 0 && b !in Missing(d0, bs, r0, lo, m + 1)
    {
      AbsentIff(d0, bs, r0, a, b);
    }
  }

  lemma DivMonotone(x: nat, y: nat, n: nat)
    requires n > 0 && x <= y
    ensures x / n <= y / n
  {
    if x / n > y / n {
      AtLeastOnce(x / n - y / n, n);
    }
  }

  lemma SuppliedLess(supply: seq<Grant>, m: nat, n: nat)
    requires m <= n && Supplied(supply, n)
    ensures Supplied(supply, m)
  {
  }

  lemma DemandGrows(disk: seq<Block>, roots: seq<u32>, bs: nat, off: nat, m: nat, n: nat)
    requires IsDisk(disk, bs) && |roots| == ROOTS && m <= n && off + n <= FILE_MAX
    ensures Demand(disk, bs, roots, off, m) <= Demand(disk, bs, roots, off, n)
  {
    EndsInReach(off, m, bs);
    EndsInReach(off, n, bs);
    if m > 0 {
      DivMonotone(off + m - 1, off + n - 1, bs);
    } else if n > 0 {
      DivMonotone(off, off + n - 1, bs);
    }
    var lo := End(off, 0, bs);
    MissingGrows(disk, bs, roots, lo, End(off, m, bs), End(off, n, bs));
    CardSub(Missing(disk, bs, roots, lo, End(off, m, bs)), Missing(disk, bs, roots, lo, End(off, n, bs)));
  }

  lemma CardSub<T>(a: set<T>, b: set<T>)
    requires a <= b
    ensures |a| <= |b|
  {
    assert b == a + (b - a);
  }

  lemma DemandMet(disk: seq<Block>, roots: seq<u32>, bs: nat, supply: seq<Grant>, off: nat, done: nat)
    requires IsDisk(disk, bs) && |roots| == ROOTS && off + done <= FILE_MAX
    requires Supplied(supply, Demand(disk, bs, roots, off, done))
    ensures forall n :: 0 <= n <= done ==> Supplied(supply, Demand(disk, bs, roots, off, n))
  {
    forall n | 0 <= n <= done
      ensures Supplied(supply, Demand(disk, bs, roots, off, n))
    {
      DemandGrows(disk, roots, bs, off, n, done);
      SuppliedLess(supply, Demand(disk, bs, roots, off, n), Demand(disk, bs, roots, off, done));
    }
  }

  lemma PaidAll(d0: seq<Block>, r0: seq<u32>, s0: seq<Grant>, disk: seq<Block>, roots: seq<u32>, supply: seq<Grant>,
                bs: nat, off: nat, len: nat)
    requires IsDisk(d0, bs) && |r0| == ROOTS && IsDisk(disk, bs) && |roots| == ROOTS && off + len <= FILE_MAX
    requires Paid(d0, r0, s0, disk, roots, supply, bs, off, len)
    ensures Exactly(d0, r0, s0, bs, off, len, len)
  {
    hide Demand;
    hide FilledUp;
    DemandMet(d0, r0, bs, s0, off, len);
  }

  lemma DemandStops(d0: seq<Block>, r0: seq<u32>, s0: seq<Grant>, bs: nat, off: nat, done: nat, len: nat)
    requires IsDisk(d0, bs) && |r0| == ROOTS && done < len && off + len <= FILE_MAX
    requires Supplied(s0, Demand(d0, bs, r0, off, done)) && !Supplied(s0, Demand(d0, bs, r0, off, done + 1))
    ensures Exactly(d0, r0, s0, bs, off, done, len)
  {
    hide Demand;
    hide Supplied;
    DemandMet(d0, r0, bs, s0, off, done);
    forall n | done < n <= len
      ensures !Supplied(s0, Demand(d0, bs, r0, off, n))
    {
      if Supplied(s0, Demand(d0, bs, r0, off, n)) {
        DemandMet(d0, r0, bs, s0, off, n);
      }
    }
  }

  /** One chunk: paid for and written, or the end of the write. */
  lemma PaidNext(d0: seq<Block>, r0: seq<u32>, s0: seq<Grant>, d1: seq<Block>, r1: seq<u32>, s1: seq<Grant>,
                 d2: seq<Block>, r2: seq<u32>, s2: seq<Grant>, bs: nat, off: nat, done: nat, n: nat, len: nat, ok: bool)
    requires IsDisk(d0, bs) && |r0| == ROOTS && IsDisk(d1, bs) && |r1| == ROOTS && IsDisk(d2, bs) && |r2| == ROOTS
    requires done + n <= len && off + len <= FILE_MAX && 0 < n <= bs - (off + done) % bs
    requires done + n == len || n == bs - (off + done) % bs
    requires (off + done) / bs < Reach(bs) && End(off, done, bs) == (off + done) / bs
    requires Paid(d0, r0, s0, d1, r1, s1, bs, off, done)
    requires ok <==> Supplied(s1, Shortage(d1, bs, r1, (off + done) / bs))
    requires ok ==> Drawn(s1, s2, Shortage(d1, bs, r1, (off + done) / bs))
    requires ok ==> Filled(d1, r1, d2, r2, bs, (off + done) / bs)
    ensures ok ==> Paid(d0, r0, s0, d2, r2, s2, bs, off, done + n)
    ensures ok && done + n < len ==> End(off, done + n, bs) == (off + done + n) / bs
    ensures !ok ==> Exactly(d0, r0, s0, bs, off, done, len)
  {
    ChunkEnds(off, done, n, bs);
    ChunkEnds(off, done, 1, bs);
    hide *;
    if ok {
      PaidMore(d0, r0, s0, d1, r1, s1, d2, r2, s2, bs, off, done, n, (off + done) / bs);
    } else {
      PaidUp(d0, r0, s0, d1, r1, s1, bs, off, done, len, (off + done) / bs);
    }
  }

  lemma PaidMore(d0: seq<Block>, r0: seq<u32>, s0: seq<Grant>, d1: seq<Block>, r1: seq<u32>, s1: seq<Grant>,
                 d2: seq<Block>, r2: seq<u32>, s2: seq<Grant>, bs: nat, off: nat, done: nat, n: nat, l: nat)
    requires IsDisk(d0, bs) && |r0| == ROOTS && IsDisk(d1, bs) && |r1| == ROOTS && IsDisk(d2, bs) && |r2| == ROOTS
    requires off + done + n <= FILE_MAX
    requires End(off, 0, bs) <= l < Reach(bs) && End(off, done, bs) == l && End(off, done + n, bs) == l + 1
    requires Paid(d0, r0, s0, d1, r1, s1, bs, off, done)
    requires Drawn(s1, s2, Shortage(d1, bs, r1, l)) && Filled(d1, r1, d2, r2, bs, l)
    ensures Paid(d0, r0, s0, d2, r2, s2, bs, off, done + n)
  {
    hide End;
    hide Demand;
    hide FilledUp;
    hide Filled;
    hide Shortage;
    hide Reach;
    hide Supplied;
    hide Drawn;
    DemandNext(d0, r0, d1, r1, bs, s0, s1, off, done, n, l);
    DrawnOn(s0, s1, s2, Demand(d0, bs, r0, off, done), Shortage(d1, bs, r1, l));
    FilledOn(d0, r0, d1, r1, d2, r2, bs, off, done, n, l);
  }

  lemma PaidUp(d0: seq<Block>, r0: seq<u32>, s0: seq<Grant>, d1: seq<Block>, r1: seq<u32>, s1: seq<Grant>,
               bs: nat, off: nat, done: nat, len: nat, l: nat)
    requires IsDisk(d0, bs) && |r0| == ROOTS && IsDisk(d1, bs) && |r1| == ROOTS && done < len && off + len <= FILE_MAX
    requires End(off, 0, bs) <= l < Reach(bs) && End(off, done, bs) == l && End(off, done + 1, bs) == l + 1
    requires Paid(d0, r0, s0, d1, r1, s1, bs, off, done) && !Supplied(s1, Shortage(d1, bs, r1, l))
    ensures Exactly(d0, r0, s0, bs, off, done, len)
  {
    hide End;
    hide Demand;
    hide FilledUp;
    hide Shortage;
    hide Reach;
    hide Supplied;
    DemandNext(d0, r0, d1, r1, bs, s0, s1, off, done, 1, l);
    DemandStops(d0, r0, s0, bs, off, done, len);
  }

  /** How many index tables a block is short of. */
  function Tables(disk: seq<Block>, bs: nat, roots: seq<u32>, l: nat): nat
    requires IsDisk(disk, bs) && |roots| == ROOTS && l < Reach(bs)
  {
    AddrValid(l, bs);
    |Lacking(disk, bs, roots, AddrOf(l, bs))|
  }

  lemma TableCount(disk: seq<Block>, bs: nat, roots: seq<u32>, l: nat)
    requires IsDisk(disk, bs) && |roots| == ROOTS && l < Reach(bs) && Safe(disk, bs, roots, l)
    ensures var a := AddrOf(l, bs);
            && (|a| == 1 || |a| == 3 ==> Tables(disk, bs, roots, l) == 0)
            && (|a| == 2 ==> Tables(disk, bs, roots, l) == One(roots[12] == 0))
            && (|a| == 4 ==>
                  ValidAddr(a[..3], bs) && Tables(disk, bs, roots, l) == One(Num(disk, bs, roots, a[..3]) == 0))
  {
    AddrValid(l, bs);
    var a := AddrOf(l, bs);
    AddrPrefixes(a, bs);
    hide Reach;
    hide Entry;
    if |a| == 3 {
      NoneAbsent(disk, bs, roots, a[..2]);
    } else if |a| > 1 {
      LackingLast(disk, bs, roots, a);
    }
  }

  lemma HoleReads(disk: seq<Block>, bs: nat, roots: seq<u32>, l: nat)
    requires IsDisk(disk, bs) && |roots| == ROOTS && l < Reach(bs) && Map(disk, bs, roots, l) == 0
    ensures Content(disk, bs, roots, l) == Zeros(bs)
  {
  }

  lemma SafeSame(d0: seq<Block>, d1: seq<Block>, bs: nat, roots: seq<u32>, l: nat)
    requires IsDisk(d0, bs) && IsDisk(d1, bs) && |roots| == ROOTS && l < Reach(bs)
    requires Same(d0, roots, d1, roots, bs)
    ensures Safe(d0, bs, roots, l) <==> Safe(d1, bs, roots, l)
  {
    AddrValid(l, bs);
    AddrPrefixes(AddrOf(l, bs), bs);
  }

  lemma KeptTwice(d0: seq<Block>, d1: seq<Block>, d2: seq<Block>, scope: set<nat>, wider: set<nat>, but: set<nat>)
    requires Kept(d0, d1, scope, but) && Kept(d1, d2, wider, but) && scope <= wider
    ensures Kept(d0, d2, scope, but)
  {
  }

  lemma Reread(disk: seq<Block>, roots: seq<u32>, bs: nat, l: nat)
    requires IsDisk(disk, bs) && |roots| == ROOTS && l < Reach(bs)
    ensures Rewritten(disk, roots, disk, roots, bs, l, Content(disk, bs, roots, l))
  {
  }

  /** Overwriting a data block of the file. */
  lemma DataWritten(disk: seq<Block>, bs: nat, roots: seq<u32>, own: set<nat>, l: nat, now: Block)
    requires File(disk, bs, roots, own) && l < Reach(bs) && |now| == bs
    requires Map(disk, bs, roots, l) != 0
    ensures var n := Map(disk, bs, roots, l);
            && n < |disk| && n in own
            && IsDisk(disk[n := now], bs) && File(disk[n := now], bs, roots, own)
            && Same(disk, roots, disk[n := now], roots, bs)
            && Rewritten(disk, roots, disk[n := now], roots, bs, l, now)
  {
    AddrValid(l, bs);
    var a, n := AddrOf(l, bs), Map(disk, bs, roots, l);
    var disk' := disk[n := now];
    forall b | ValidAddr(b, bs)
      ensures Num(disk', bs, roots, b) == Num(disk, bs, roots, b)
    {
      LeafWriteNum(disk, bs, roots, own, a, now, b);
    }
    forall m | 0 <= m < Reach(bs)
      ensures Content(disk', bs, roots, m) == if m == l then now else Content(disk, bs, roots, m)
    {
      AddrValid(m, bs);
      AddrRoundTrip(l, bs);
      AddrRoundTrip(m, bs);
    }
  }

  lemma {:induction false} LeafWriteNum(disk: seq<Block>, bs: nat, roots: seq<u32>, own: set<nat>, a: Addr,
                                        now: Block, b: Addr)
    requires File(disk, bs, roots, own) && ValidAddr(a, bs) && !IsTable(a) && |now| == bs && ValidAddr(b, bs)
    requires Num(disk, bs, roots, a) != 0
    ensures var disk' := disk[Num(disk, bs, roots, a) := now];
            IsDisk(disk', bs) && Num(disk', bs, roots, b) == Num(disk, bs, roots, b)
    decreases |b|
  {
    if |b| > 1 {
      ParentValid(b, bs);
      LeafWriteNum(disk, bs, roots, own, a, now, Parent(b));
    }
  }

  /** The allocation and the fill of db, which no file owns, change nothing the file reads. */
  lemma Outside(d0: seq<Block>, d1: seq<Block>, d2: seq<Block>, bs: nat, roots: seq<u32>, own: set<nat>,
                scope: set<nat>, l: nat)
    requires File(d0, bs, roots, own) && own <= scope && IsDisk(d1, bs) && IsDisk(d2, bs) && l < Reach(bs)
    requires Kept(d0, d1, scope, {}) && Kept(d1, d2, scope, {})
    ensures File(d2, bs, roots, own) && Same(d0, roots, d2, roots, bs)
    ensures Rewritten(d0, roots, d2, roots, bs, l, Content(d0, bs, roots, l))
  {
    FileFrame(d0, d2, bs, roots, own);
    forall m | 0 <= m < Reach(bs)
      ensures Content(d2, bs, roots, m) == Content(d0, bs, roots, m)
    {
      AddrValid(m, bs);
    }
  }

  lemma PlacedContent(d: seq<Block>, r: seq<u32>, d': seq<Block>, r': seq<u32>, bs: nat, l: nat, db: u32)
    requires IsDisk(d, bs) && |r| == ROOTS && IsDisk(d', bs) && |r'| == ROOTS && l < Reach(bs) && db != 0
    requires DataKept(d, r, d', bs, db) && Placed(d, r, d', r', bs, AddrOf(l, bs), db)
    ensures Rewritten(d, r, d', r', bs, l, d[db])
  {
    forall m | 0 <= m < Reach(bs)
      ensures Content(d', bs, r', m) == if m == l then d[db] else Content(d, bs, r, m)
    {
      AddrValid(m, bs);
      AddrRoundTrip(l, bs);
      AddrRoundTrip(m, bs);
    }
  }

  lemma SameContent(d: seq<Block>, r: seq<u32>, d': seq<Block>, r': seq<u32>, bs: nat, l: nat, db: u32)
    requires IsDisk(d, bs) && |r| == ROOTS && IsDisk(d', bs) && |r'| == ROOTS && l < Reach(bs)
    requires DataKept(d, r, d', bs, db) && Same(d, r, d', r', bs)
    ensures Rewritten(d, r, d', r', bs, l, Content(d, bs, r, l))
  {
    forall m | 0 <= m < Reach(bs)
      ensures Content(d', bs, r', m) == Content(d, bs, r, m)
    {
      AddrValid(m, bs);
    }
  }

  lemma ReadsSame(d0: seq<Block>, d1: seq<Block>, r: seq<u32>, bs: nat, l: nat)
    requires IsDisk(d0, bs) && IsDisk(d1, bs) && |r| == ROOTS && l < Reach(bs)
    requires Rewritten(d0, r, d1, r, bs, l, Content(d0, bs, r, l))
    ensures Content(d1, bs, r, l) == Content(d0, bs, r, l)
  {
  }

  lemma Resumed(d0: seq<Block>, d1: seq<Block>, r: seq<u32>, d2: seq<Block>, r2: seq<u32>, bs: nat, l: nat, now: Block)
    requires IsDisk(d0, bs) && IsDisk(d1, bs) && IsDisk(d2, bs) && |r| == |r2| == ROOTS && l < Reach(bs)
    requires Rewritten(d0, r, d1, r, bs, l, Content(d0, bs, r, l))
    requires Rewritten(d1, r, d2, r2, bs, l, now)
    ensures Rewritten(d0, r, d2, r2, bs, l, now)
  {
    hide Content;
    hide Num;
  }

  lemma NothingWritten(disk: seq<Block>, roots: seq<u32>, bs: nat, off: nat)
    requires IsDisk(disk, bs) && |roots| == ROOTS
    ensures Overwritten(disk, roots, disk, roots, bs, off, [])
  {
  }

  /** One rewritten block, byte by byte. */
  lemma ChunkBytes(d: seq<Block>, r: seq<u32>, d': seq<Block>, r': seq<u32>, bs: nat, pos: nat, chunk: seq<byte>)
    requires IsDisk(d, bs) && |r| == ROOTS && IsDisk(d', bs) && |r'| == ROOTS && pos <= FILE_MAX
    requires pos / bs < Reach(bs) && pos % bs + |chunk| <= bs
    requires Rewritten(d, r, d', r', bs, pos / bs, Splice(Content(d, bs, r, pos / bs), pos % bs, chunk))
    ensures Overwritten(d, r, d', r', bs, pos, chunk)
  {
    forall x | 0 <= x <= FILE_MAX
      ensures ByteAt(d', bs, r', x) == if pos <= x < pos + |chunk| then chunk[x - pos] else ByteAt(d, bs, r, x)
    {
      ChunkByte(d, r, d', r', bs, pos, chunk, x);
    }
  }

  lemma ChunkByte(d: seq<Block>, r: seq<u32>, d': seq<Block>, r': seq<u32>, bs: nat, pos: nat, chunk: seq<byte>, x: nat)
    requires IsDisk(d, bs) && |r| == ROOTS && IsDisk(d', bs) && |r'| == ROOTS && pos <= FILE_MAX && x <= FILE_MAX
    requires pos / bs < Reach(bs) && pos % bs + |chunk| <= bs
    requires Rewritten(d, r, d', r', bs, pos / bs, Splice(Content(d, bs, r, pos / bs), pos % bs, chunk))
    ensures ByteAt(d', bs, r', x) == if pos <= x < pos + |chunk| then chunk[x - pos] else ByteAt(d, bs, r, x)
  {
    hide Content;
    hide Reach;
    hide TablesStay;
    InReach(x, bs);
    var l, boff := pos / bs, pos % bs;
    if x / bs == l {
      assert x - pos == x % bs - boff;
      Spliced(Content(d, bs, r, l), boff, chunk, x % bs);
    } else {
      Elsewhere(pos, x, bs, |chunk|);
    }
  }

  lemma Spliced(s: seq<byte>, at: nat, bytes: seq<byte>, i: nat)
    requires at + |bytes| <= |s| && i < |s|
    ensures Splice(s, at, bytes)[i] == if at <= i < at + |bytes| then bytes[i - at] else s[i]
  {
  }

  lemma ChunkNone(d: seq<Block>, r: seq<u32>, d': seq<Block>, r': seq<u32>, bs: nat, pos: nat)
    requires IsDisk(d, bs) && |r| == ROOTS && IsDisk(d', bs) && |r'| == ROOTS && pos <= FILE_MAX
    requires pos / bs < Reach(bs)
    requires Rewritten(d, r, d', r', bs, pos / bs, Content(d, bs, r, pos / bs))
    ensures Overwritten(d, r, d', r', bs, pos, [])
  {
    var c := Content(d, bs, r, pos / bs);
    assert Splice(c, pos % bs, []) == c;
    ChunkBytes(d, r, d', r', bs, pos, []);
  }

  lemma Elsewhere(pos: nat, x: nat, bs: nat, n: nat)
    requires bs > 0 && pos % bs + n <= bs && x / bs != pos / bs
    ensures !(pos <= x < pos + n)
  {
    if pos <= x < pos + n {
      DivModUnique(x, bs, pos / bs, pos % bs + (x - pos));
    }
  }

  lemma BlockBytes(disk: seq<Block>, roots: seq<u32>, bs: nat, pos: nat, n: nat)
    requires IsDisk(disk, bs) && |roots| == ROOTS && pos + n <= FILE_MAX + 1 && n <= bs - pos % bs && pos <= FILE_MAX
    ensures pos / bs < Reach(bs)
    ensures forall x :: pos <= x < pos + n ==>
              ByteAt(disk, bs, roots, x) == Content(disk, bs, roots, pos / bs)[pos % bs + (x - pos)]
  {
    hide Content;
    hide Reach;
    InReach(pos, bs);
    forall x | pos <= x < pos + n
      ensures ByteAt(disk, bs, roots, x) == Content(disk, bs, roots, pos / bs)[pos % bs + (x - pos)]
    {
      DivModUnique(x, bs, pos / bs, pos % bs + (x - pos));
    }
  }

  lemma Extended(d0: seq<Block>, r0: seq<u32>, d1: seq<Block>, r1: seq<u32>, d2: seq<Block>, r2: seq<u32>, bs: nat,
                 off: nat, src: seq<byte>, chunk: seq<byte>)
    requires IsDisk(d0, bs) && |r0| == ROOTS && IsDisk(d1, bs) && |r1| == ROOTS && IsDisk(d2, bs) && |r2| == ROOTS
    requires Overwritten(d0, r0, d1, r1, bs, off, src) && Overwritten(d1, r1, d2, r2, bs, off + |src|, chunk)
    ensures Overwritten(d0, r0, d2, r2, bs, off, src + chunk)
  {
    hide ByteAt;
  }

  lemma SafeHere(disk: seq<Block>, bs: nat, roots: seq<u32>, off: nat, pos: nat, end: nat)
    requires IsDisk(disk, bs) && |roots| == ROOTS && off <= pos < end
    requires forall l :: Touched(l, off, end, bs) ==> SafeAt(disk, bs, roots, l)
    ensures pos / bs < Reach(bs) && Safe(disk, bs, roots, pos / bs)
  {
    AtLeastOnce(off / bs - pos / bs, bs);
    assert Touched(pos / bs, off, end, bs);
  }

  lemma SafeLater(d: seq<Block>, r: seq<u32>, d': seq<Block>, r': seq<u32>, bs: nat, off: nat, end: nat)
    requires IsDisk(d, bs) && |r| == ROOTS && IsDisk(d', bs) && |r'| == ROOTS
    requires TablesStay(d, r, d', r', bs)
    requires forall m :: Touched(m, off, end, bs) ==> SafeAt(d, bs, r, m)
    ensures forall m :: Touched(m, off, end, bs) ==> SafeAt(d', bs, r', m)
  {
    hide Touched;
    forall m | Touched(m, off, end, bs)
      ensures SafeAt(d', bs, r', m)
    {
      assert SafeAt(d, bs, r, m);
      AddrValid(m, bs);
      AddrPrefixes(AddrOf(m, bs), bs);
    }
  }

  lemma KeptGrown(d0: seq<Block>, d1: seq<Block>, d2: seq<Block>, scope: set<nat>, wider: set<nat>, own: set<nat>,
                  own1: set<nat>)
    requires Kept(d0, d1, scope, own) && Kept(d1, d2, wider, own1) && scope <= wider && own1 * scope <= own
    ensures Kept(d0, d2, scope, own)
  {
  }

  /** Data blocks and db are not written. */
  ghost predicate DataKept(disk: seq<Block>, roots: seq<u32>, disk': seq<Block>, bs: nat, db: u32)
    requires IsDisk(disk, bs) && |roots| == ROOTS
  {
    && |disk'| == |disk| && db < |disk| && disk'[db] == disk[db]
    && forall b :: ValidAddr(b, bs) && !IsTable(b) ==>
         var n := Num(disk, bs, roots, b);
         0 < n < |disk| ==> disk'[n] == disk[n]
  }

  /** Writing two tables of the file writes no data block of it and nothing outside it. */
  lemma KeptData(disk: seq<Block>, roots: seq<u32>, disk': seq<Block>, bs: nat, used: set<nat>, meta: set<nat>,
                 own: set<nat>, db: u32, p: Addr, q: Addr)
    requires File(disk, bs, roots, own) && own <= used && own !! meta && 0 in meta
    requires ValidAddr(p, bs) && IsTable(p) && ValidAddr(q, bs) && IsTable(q)
    requires 0 < db < |disk| && db in used && db !in meta && db !in own
    requires Kept(disk, disk', used - meta, {Num(disk, bs, roots, p), Num(disk, bs, roots, q)})
    ensures DataKept(disk, roots, disk', bs, db)
    ensures Kept(disk, disk', used - meta, own)
  {
    forall b | ValidAddr(b, bs) && !IsTable(b)
      ensures var n := Num(disk, bs, roots, b); 0 < n < |disk| ==> disk'[n] == disk[n]
    {
      var n := Num(disk, bs, roots, b);
      if 0 < n < |disk| {
        assert n in own && b != p && b != q;
      }
    }
  }

  lemma KeptNone(disk: seq<Block>, scope: set<nat>, but: set<nat>)
    ensures Kept(disk, disk, scope, but)
  {
  }

  /** The proper prefixes of an address name tables. */
  lemma AddrPrefixes(a: Addr, bs: nat)
    requires ValidAddr(a, bs)
    ensures |a| > 2 ==> a[..2] == [a[0], a[1]] && ValidAddr(a[..2], bs) && IsTable(a[..2])
    ensures |a| > 3 ==> a[..3] == [a[0], a[1], a[2]] && ValidAddr(a[..3], bs) && IsTable(a[..3])
  {
  }

  function Child(disk: seq<Block>, bs: nat, t: u32, i: nat): u32
    requires IsDisk(disk, bs) && i < bs / 4
  {
    if t == 0 || t >= |disk| then 0 else Entry(disk[t], i)
  }

  /** The number at an address, table by table. */
  lemma {:induction false} Levels(disk: seq<Block>, bs: nat, roots: seq<u32>, a: Addr)
    requires IsDisk(disk, bs) && |roots| == ROOTS && ValidAddr(a, bs)
    ensures var n := Num(disk, bs, roots, a);
            var r := roots[a[0]];
            && (|a| == 1 ==> n == r)
            && (|a| == 2 ==> n == Child(disk, bs, r, a[1]))
            && (|a| == 3 ==> n == Child(disk, bs, Child(disk, bs, r, a[1]), a[2]))
            && (|a| == 4 ==> n == Child(disk, bs, Child(disk, bs, Child(disk, bs, r, a[1]), a[2]), a[3]))
    decreases |a|
  {
    hide Entry;
    if |a| > 1 {
      ParentValid(a, bs);
      var p := Parent(a);
      Levels(disk, bs, roots, p);
      assert Num(disk, bs, roots, a) == Child(disk, bs, Num(disk, bs, roots, p), Last(a));
      assert p[0] == a[0] && (|a| > 2 ==> p[1] == a[1]) && (|a| > 3 ==> p[2] == a[2]);
      assert |a| <= 4;
    }
  }

  /** The number at a table's i-th child, when the table exists. */
  lemma TableEntry(disk: seq<Block>, bs: nat, roots: seq<u32>, a: Addr, i: nat)
    requires IsDisk(disk, bs) && |roots| == ROOTS && ValidAddr(a, bs) && IsTable(a) && i < bs / 4
    ensures ValidAddr(a + [i], bs)
    ensures var t := Num(disk, bs, roots, a);
            Num(disk, bs, roots, a + [i]) == Child(disk, bs, t, i)
  {
    ChildValid(a, i, bs);
  }

  lemma SameRoot(d0: seq<Block>, d1: seq<Block>, bs: nat, roots: seq<u32>, k: nat)
    requires IsDisk(d0, bs) && IsDisk(d1, bs) && |roots| == ROOTS && ValidAddr([k], bs)
    ensures Num(d1, bs, roots, [k]) == Num(d0, bs, roots, [k]) == roots[k]
  {
  }

  lemma RootIs(disk: seq<Block>, bs: nat, roots: seq<u32>, k: nat)
    requires IsDisk(disk, bs) && |roots| == ROOTS && ValidAddr([k], bs)
    ensures Num(disk, bs, roots, [k]) == roots[k]
  {
  }

  lemma SameNum(d0: seq<Block>, r0: seq<u32>, d1: seq<Block>, r1: seq<u32>, bs: nat, a: Addr)
    requires IsDisk(d0, bs) && |r0| == ROOTS && IsDisk(d1, bs) && |r1| == ROOTS && ValidAddr(a, bs)
    requires Same(d0, r0, d1, r1, bs)
    ensures Num(d1, bs, r1, a) == Num(d0, bs, r0, a)
  {
  }

  lemma TableReadable(disk: seq<Block>, bs: nat, roots: seq<u32>, own: set<nat>, a: Addr)
    requires File(disk, bs, roots, own) && ValidAddr(a, bs) && Num(disk, bs, roots, a) != 0
    ensures Num(disk, bs, roots, a) < |disk| && Num(disk, bs, roots, a) in own
  {
  }

  /** Placement counts from any state with the same blocks. */
  lemma PlacedFrom(d0: seq<Block>, r0: seq<u32>, d1: seq<Block>, r1: seq<u32>, d2: seq<Block>, r2: seq<u32>,
                   bs: nat, a: Addr, db: u32)
    requires IsDisk(d0, bs) && |r0| == ROOTS && IsDisk(d1, bs) && |r1| == ROOTS && IsDisk(d2, bs) && |r2| == ROOTS
    requires Same(d0, r0, d1, r1, bs) && Placed(d1, r1, d2, r2, bs, a, db)
    ensures Placed(d0, r0, d2, r2, bs, a, db)
  {
    hide Num;
  }

  lemma SupplyNext(supply: seq<Grant>, used: set<nat>, meta: set<nat>, blocks: nat, bs: nat)
    requires supply != [] && SupplyOk(supply, used, meta, blocks, bs)
    ensures GrantOk(supply[0], used, meta, blocks, bs)
    ensures SupplyOk(supply[1..], used, meta, blocks, bs)
    ensures supply[0].db != 0 ==> SupplyOk(supply[1..], used + {supply[0].db}, meta, blocks, bs)
  {
    var rest := supply[1..];
    assert forall i :: 0 <= i < |rest| ==> rest[i] == supply[i + 1];
  }

  // What callers may rely on.

  /** Bytes written by a pwrite are what a pread of the same range returns. */
  lemma RoundTrip(d0: seq<Block>, r0: seq<u32>, d1: seq<Block>, r1: seq<u32>, bs: nat, off: nat, src: seq<byte>,
                  out: seq<byte>)
    requires IsDisk(d0, bs) && |r0| == ROOTS && IsDisk(d1, bs) && |r1| == ROOTS && off + |src| <= FILE_MAX
    requires Overwritten(d0, r0, d1, r1, bs, off, src)
    requires |out| == |src| && forall i :: 0 <= i < |out| ==> out[i] == ByteAt(d1, bs, r1, off + i)
    ensures out == src
  {
    hide ByteAt;
    forall i | 0 <= i < |out|
      ensures out[i] == src[i]
    {
      assert ByteAt(d1, bs, r1, off + i) == src[off + i - off];
    }
  }

  /** A write that keeps everything in use outside one file keeps every byte of any other file. */
  lemma OtherFileKept(disk: seq<Block>, disk': seq<Block>, bs: nat, roots: seq<u32>, theirs: set<nat>,
                      scope: set<nat>, own: set<nat>, pos: nat)
    requires File(disk, bs, roots, theirs) && IsDisk(disk', bs) && Kept(disk, disk', scope, own)
    requires theirs <= scope && theirs !! own && pos <= FILE_MAX
    ensures File(disk', bs, roots, theirs)
    ensures ByteAt(disk', bs, roots, pos) == ByteAt(disk, bs, roots, pos)
  {
    FileFrame(disk, disk', bs, roots, theirs);
    InReach(pos, bs);
    AddrValid(pos / bs, bs);
    hide Num;
    hide Reach;
  }

  /** The double-indirect top table after a missing table was allocated under it:
      its other entries are kept exactly when the descriptor block happens to agree. */
  lemma ClobberKeepsIff(disk: seq<Block>, roots: seq<u32>, disk': seq<Block>, roots': seq<u32>, bs: nat,
                        gd: Block, ti: nat, mid: u32)
    requires IsDisk(disk, bs) && |roots| == ROOTS && IsDisk(disk', bs) && |roots'| == ROOTS
    requires |gd| == bs && ti < bs / 4 && 0 < roots'[13] < |disk'| && disk'[roots'[13]] == WithEntry(gd, ti, mid)
    ensures TopKept(disk, roots, disk', roots', bs, ti) <==>
            forall j :: 0 <= j < bs / 4 && j != ti ==> Entry(gd, j) == Top(disk, roots, bs, j)
    ensures Top(disk', roots', bs, ti) == mid
  {
    forall j | 0 <= j < bs / 4
      ensures Top(disk', roots', bs, j) == if j == ti then mid else Entry(gd, j)
    {
      EntrySet(gd, ti, mid, j);
    }
    hide Top;
    hide Entry;
  }

  /** Entry j of the double-indirect top table. */
  function Top(disk: seq<Block>, roots: seq<u32>, bs: nat, j: nat): u32
    requires IsDisk(disk, bs) && |roots| == ROOTS && j < bs / 4
  {
    Child(disk, bs, roots[13], j)
  }

  ghost predicate TopKept(disk: seq<Block>, roots: seq<u32>, disk': seq<Block>, roots': seq<u32>, bs: nat, ti: nat)
    requires IsDisk(disk, bs) && |roots| == ROOTS && IsDisk(disk', bs) && |roots'| == ROOTS
  {
    forall j :: 0 <= j < bs / 4 && j != ti ==> Top(disk', roots', bs, j) == Top(disk, roots, bs, j)
  }

  /** A descriptor block names two bitmaps and an inode table, so a new top table never comes out right. */
  lemma NewTopNeverKept(disk: seq<Block>, roots: seq<u32>, disk': seq<Block>, roots': seq<u32>, bs: nat,
                        gd: Block, ti: nat, mid: u32)
    requires IsDisk(disk, bs) && |roots| == ROOTS && IsDisk(disk', bs) && |roots'| == ROOTS
    requires |gd| == bs && ti < bs / 4 && 0 < roots'[13] < |disk'| && disk'[roots'[13]] == WithEntry(gd, ti, mid)
    requires roots[13] == 0 && Entry(gd, 0) != 0 && Entry(gd, 1) != 0
    ensures !TopKept(disk, roots, disk', roots', bs, ti)
  {
    ClobberKeepsIff(disk, roots, disk', roots', bs, gd, ti, mid);
    var j := if ti == 0 then 1 else 0;
    assert Top(disk, roots, bs, j) == 0;
  }

  /** Every empty file: the first block installed in the double-indirect range leaves a top
      table filled with descriptor words. */
  method EmptyFileLosesTopTable(bs: nat, image: seq<Block>, meta: set<nat>, ghost taken: set<nat>,
                                grants: seq<Grant>, ti: nat, li: nat, db: u32)
    returns (f: Ext2File)
    requires IsDisk(image, bs) && meta <= taken && 0 in meta && SupplyOk(grants, taken, meta, |image|, bs)
    requires ti < bs / 4 && li < bs / 4 && 0 < db < |image| && db in taken && db !in meta
    requires Supplied(grants, 2) && |grants[1].gd| == bs
    requires Entry(grants[1].gd, 0) != 0 && Entry(grants[1].gd, 1) != 0
    ensures IsDisk(f.disk, bs) && |f.roots| == ROOTS
    ensures !TopKept(image, NoRoots(), f.disk, f.roots, bs, ti)
  {
    assert ValidAddr([13, ti], bs);
    EmptyNum(image, bs, [13, ti]);
    hide Num;
    hide File;
    hide Entry;
    hide WithEntry;
    hide TopKept;
    hide SupplyOk;
    hide ValidAddr;
    f := new Ext2File(bs, image, meta, taken, grants);
    var ok := f.SetDouble(ti, li, db);
    NewTopNeverKept(image, NoRoots(), f.disk, f.roots, bs, grants[1].gd, ti, grants[1].db);
  }

  // A sixteen-block disk whose descriptor block starts with the words 3 and 4.

  function BlankDisk(): (d: seq<Block>)
    ensures IsDisk(d, 1024) && |d| == 16
  {
    seq(16, _ => Zeros(1024))
  }

  function Descriptor(): (b: Block)
    ensures |b| == 1024
  {
    WithEntry(WithEntry(Zeros(1024), 0, 3), 1, 4)
  }

  lemma DescriptorWords()
    ensures Entry(Descriptor(), 0) == 3 && Entry(Descriptor(), 1) == 4
  {
    var one := WithEntry(Zeros(1024), 0, 3);
    EntrySet(Zeros(1024), 0, 3, 0);
    EntrySet(one, 1, 4, 0);
    EntrySet(one, 1, 4, 1);
    hide Entry;
    hide WithEntry;
    hide Zeros;
  }

  function TwoGrants(): (g: seq<Grant>)
    ensures SupplyOk(g, {0, 1, 2, 5}, {0, 1, 2}, 16, 1024) && Supplied(g, 2)
    ensures g[1].gd == Descriptor()
  {
    [Grant(6, Descriptor(), map[]), Grant(7, Descriptor(), map[])]
  }

  method SmallFileLosesTopTable() returns (f: Ext2File)
    ensures IsDisk(f.disk, 1024) && |f.roots| == ROOTS
    ensures !TopKept(BlankDisk(), NoRoots(), f.disk, f.roots, 1024, 0)
  {
    DescriptorWords();
    hide *;
    f := EmptyFileLosesTopTable(1024, BlankDisk(), {0, 1, 2}, {0, 1, 2, 5}, TwoGrants(), 0, 0, 5);
  }
}
