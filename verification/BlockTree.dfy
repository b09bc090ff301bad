/** The block map of an ext2 file: fifteen roots in the inode, the last three of
    them heading one, two and three levels of index tables.

    A block of the tree is addressed by the indices that lead to it: [k] is root
    k, [12, i] the i-th block under the single-indirect table, and so on.  An
    address that can be extended names an index table, the others name data.
 */
module BlockTree {
  import opened Basics
  import opened LittleEndian
  import opened Rings

  type Block = seq<byte>
  type Addr = seq<nat>

  const DIRECT: nat := 12
  const ROOTS: nat := 15

  predicate SizeOk(bs: nat) {
    bs == 1024 || bs == 2048 || bs == 4096
  }

  ghost predicate IsDisk(disk: seq<Block>, bs: nat) {
    SizeOk(bs) && |disk| <= 0x1_0000_0000 && forall b :: 0 <= b < |disk| ==> |disk[b]| == bs
  }

  // Index tables.

  function Entry(b: Block, i: nat): u32
    requires 4 * i + 4 <= |b|
  {
    Rd32(b, 4 * i)
  }

  function WithEntry(b: Block, i: nat, v: u32): (r: Block)
    requires 4 * i + 4 <= |b|
    ensures |r| == |b|
  {
    Splice(b, 4 * i, Le32(v))
  }

  lemma EntrySet(b: Block, i: nat, v: u32, j: nat)
    requires 4 * i + 4 <= |b| && 4 * j + 4 <= |b|
    ensures Entry(WithEntry(b, i, v), j) == if j == i then v else Entry(b, j)
  {
    var r := WithEntry(b, i, v);
    Le32Round(v);
    SpliceAt(b, 4 * i, Le32(v));
    if i == j {
      var s := r[4 * i..4 * i + 4];
      assert s == Le32(v);
      assert s[0] == r[4 * i] && s[1] == r[4 * i + 1] && s[2] == r[4 * i + 2] && s[3] == r[4 * i + 3];
    }
  }

  function Zeros(bs: nat): (b: Block)
    ensures |b| == bs
  {
    seq(bs, _ => 0)
  }

  lemma ZeroEntry(bs: nat, i: nat)
    requires 4 * i + 4 <= bs
    ensures Entry(Zeros(bs), i) == 0
  {
  }

  // Addresses.

  function Depth(k: nat): nat {
    if k < DIRECT then 1 else k - 10
  }

  predicate ValidAddr(a: Addr, bs: nat) {
    1 <= |a| && a[0] < ROOTS && |a| <= Depth(a[0]) && forall i :: 1 <= i < |a| ==> a[i] < bs / 4
  }

  predicate IsTable(a: Addr)
    requires |a| >= 1
  {
    |a| < Depth(a[0])
  }

  function Parent(a: Addr): Addr
    requires |a| > 1
  {
    a[..|a| - 1]
  }

  function Last(a: Addr): nat
    requires |a| > 1
  {
    a[|a| - 1]
  }

  lemma ParentValid(a: Addr, bs: nat)
    requires ValidAddr(a, bs) && |a| > 1
    ensures ValidAddr(Parent(a), bs) && IsTable(Parent(a)) && Last(a) < bs / 4
    ensures Parent(a) + [Last(a)] == a
  {
  }

  lemma ChildValid(a: Addr, i: nat, bs: nat)
    requires ValidAddr(a, bs) && IsTable(a) && i < bs / 4
    ensures ValidAddr(a + [i], bs) && Parent(a + [i]) == a && Last(a + [i]) == i
  {
  }

  /** The block at an address, 0 if a table on the way is missing or unreadable. */
  function Num(disk: seq<Block>, bs: nat, roots: seq<u32>, a: Addr): u32
    requires IsDisk(disk, bs) && |roots| == ROOTS && ValidAddr(a, bs)
    decreases |a|
  {
    if |a| == 1 then roots[a[0]] else
      ParentValid(a, bs);
      var t := Num(disk, bs, roots, Parent(a));
      if t == 0 || t >= |disk| then 0 else Entry(disk[t], Last(a))
  }

  /** A file all of whose blocks are in `own`, each at one address only. */
  ghost predicate File(disk: seq<Block>, bs: nat, roots: seq<u32>, own: set<nat>) {
    && IsDisk(disk, bs) && |roots| == ROOTS
    && (forall a :: ValidAddr(a, bs) && Num(disk, bs, roots, a) != 0 ==>
          Num(disk, bs, roots, a) in own && Num(disk, bs, roots, a) < |disk|)
    && (forall a, b :: ValidAddr(a, bs) && ValidAddr(b, bs) && a != b && Num(disk, bs, roots, a) != 0 ==>
          Num(disk, bs, roots, a) != Num(disk, bs, roots, b))
  }

  // What is missing on the way to a block.

  /** The addresses on the way to a, its own included, where nothing hangs. */
  function Absent(disk: seq<Block>, bs: nat, roots: seq<u32>, a: Addr): set<Addr>
    requires IsDisk(disk, bs) && |roots| == ROOTS && ValidAddr(a, bs)
    decreases |a|
  {
    (if |a| == 1 then {} else ParentValid(a, bs); Absent(disk, bs, roots, Parent(a)))
    + if Num(disk, bs, roots, a) == 0 then {a} else {}
  }

  lemma {:induction false} AbsentIff(disk: seq<Block>, bs: nat, roots: seq<u32>, a: Addr, b: Addr)
    requires IsDisk(disk, bs) && |roots| == ROOTS && ValidAddr(a, bs) && ValidAddr(b, bs)
    ensures b in Absent(disk, bs, roots, a) <==> b <= a && Num(disk, bs, roots, b) == 0
    decreases |a|
  {
    if |a| > 1 {
      ParentValid(a, bs);
      AbsentIff(disk, bs, roots, Parent(a), b);
      assert b <= a <==> b == a || b <= Parent(a);
    } else {
      assert b <= a <==> b == a;
    }
  }

  lemma {:induction false} AbsentValid(disk: seq<Block>, bs: nat, roots: seq<u32>, a: Addr)
    requires IsDisk(disk, bs) && |roots| == ROOTS && ValidAddr(a, bs)
    ensures forall b :: b in Absent(disk, bs, roots, a) ==> ValidAddr(b, bs) && |b| <= |a|
    decreases |a|
  {
    if |a| > 1 {
      ParentValid(a, bs);
      AbsentValid(disk, bs, roots, Parent(a));
    }
  }

  /** A block that is there hangs below tables that are there. */
  lemma {:induction false} NoneAbsent(disk: seq<Block>, bs: nat, roots: seq<u32>, a: Addr)
    requires IsDisk(disk, bs) && |roots| == ROOTS && ValidAddr(a, bs) && Num(disk, bs, roots, a) != 0
    ensures Absent(disk, bs, roots, a) == {}
    decreases |a|
  {
    if |a| > 1 {
      ParentValid(a, bs);
      NoneAbsent(disk, bs, roots, Parent(a));
    }
  }

  /** What is missing at a missing block: itself, and what is missing on the way to its table. */
  lemma OneAbsent(disk: seq<Block>, bs: nat, roots: seq<u32>, a: Addr)
    requires IsDisk(disk, bs) && |roots| == ROOTS && ValidAddr(a, bs) && Num(disk, bs, roots, a) == 0
    ensures |Absent(disk, bs, roots, a)| == 1 + |Lacking(disk, bs, roots, a)|
  {
    if |a| > 1 {
      ParentValid(a, bs);
      AbsentValid(disk, bs, roots, Parent(a));
      assert a !in Absent(disk, bs, roots, Parent(a));
    }
  }

  /** The index tables that are missing on the way to a. */
  function Lacking(disk: seq<Block>, bs: nat, roots: seq<u32>, a: Addr): set<Addr>
    requires IsDisk(disk, bs) && |roots| == ROOTS && ValidAddr(a, bs)
  {
    if |a| == 1 then {} else ParentValid(a, bs); Absent(disk, bs, roots, Parent(a))
  }

  /** How many tables are missing, where those above the last one are there. */
  lemma LackingLast(disk: seq<Block>, bs: nat, roots: seq<u32>, a: Addr)
    requires IsDisk(disk, bs) && |roots| == ROOTS && ValidAddr(a, bs) && |a| > 1
    requires |a| > 2 ==> ValidAddr(a[..|a| - 2], bs) && Num(disk, bs, roots, a[..|a| - 2]) != 0
    ensures ValidAddr(Parent(a), bs)
    ensures |Lacking(disk, bs, roots, a)| == if Num(disk, bs, roots, Parent(a)) == 0 then 1 else 0
  {
    ParentValid(a, bs);
    var p := Parent(a);
    if |p| > 1 {
      ParentValid(p, bs);
      assert Parent(p) == a[..|a| - 2];
      NoneAbsent(disk, bs, roots, Parent(p));
    }
  }

  // A write outside the file does not move its blocks.

  lemma {:induction false} NumFrame(disk: seq<Block>, disk': seq<Block>, bs: nat, roots: seq<u32>, own: set<nat>,
                                    a: Addr)
    requires File(disk, bs, roots, own) && IsDisk(disk', bs) && |disk'| == |disk| && ValidAddr(a, bs)
    requires forall x :: x in own && x < |disk| ==> disk'[x] == disk[x]
    ensures Num(disk', bs, roots, a) == Num(disk, bs, roots, a)
    decreases |a|
  {
    if |a| > 1 {
      ParentValid(a, bs);
      NumFrame(disk, disk', bs, roots, own, Parent(a));
    }
  }

  lemma FileFrame(disk: seq<Block>, disk': seq<Block>, bs: nat, roots: seq<u32>, own: set<nat>)
    requires File(disk, bs, roots, own) && IsDisk(disk', bs) && |disk'| == |disk|
    requires forall x :: x in own && x < |disk| ==> disk'[x] == disk[x]
    ensures File(disk', bs, roots, own)
    ensures forall a :: ValidAddr(a, bs) ==> Num(disk', bs, roots, a) == Num(disk, bs, roots, a)
  {
    forall a | ValidAddr(a, bs)
      ensures Num(disk', bs, roots, a) == Num(disk, bs, roots, a)
    {
      NumFrame(disk, disk', bs, roots, own, a);
    }
  }

  // Hanging a block into the tree.

  /** v may hang at c: nothing hangs below c, or v is an empty table. */
  ghost predicate Hangs(disk: seq<Block>, bs: nat, roots: seq<u32>, own: set<nat>, c: Addr, v: u32)
    requires IsDisk(disk, bs) && |roots| == ROOTS && ValidAddr(c, bs)
  {
    && v != 0 && v !in own && v < |disk|
    && (IsTable(c) ==> Num(disk, bs, roots, c) == 0 && disk[v] == Zeros(bs))
  }

  ghost predicate Hung(disk: seq<Block>, roots: seq<u32>, disk': seq<Block>, roots': seq<u32>, bs: nat, c: Addr, v: u32)
    requires IsDisk(disk, bs) && |roots| == ROOTS && IsDisk(disk', bs) && |roots'| == ROOTS && ValidAddr(c, bs)
  {
    forall b :: ValidAddr(b, bs) ==> Num(disk', bs, roots', b) == if b == c then v else Num(disk, bs, roots, b)
  }

  lemma {:induction false} RootNum(disk: seq<Block>, bs: nat, roots: seq<u32>, own: set<nat>, k: nat, v: u32, b: Addr)
    requires File(disk, bs, roots, own) && k < ROOTS && ValidAddr([k], bs) && ValidAddr(b, bs)
    requires Hangs(disk, bs, roots, own, [k], v)
    ensures Num(disk, bs, roots[k := v], b) == if b == [k] then v else Num(disk, bs, roots, b)
    decreases |b|
  {
    if |b| > 1 {
      ParentValid(b, bs);
      RootNum(disk, bs, roots, own, k, v, Parent(b));
      if Parent(b) == [k] {
        ZeroEntry(bs, Last(b));
      }
    } else {
      assert b == [b[0]];
    }
  }

  lemma {:induction false} EntryNum(disk: seq<Block>, bs: nat, roots: seq<u32>, own: set<nat>, a: Addr, i: nat,
                                    v: u32, b: Addr)
    requires File(disk, bs, roots, own) && ValidAddr(a, bs) && IsTable(a) && i < bs / 4 && ValidAddr(b, bs)
    requires ValidAddr(a + [i], bs) && Hangs(disk, bs, roots, own, a + [i], v)
    requires Num(disk, bs, roots, a) != 0
    ensures var t := Num(disk, bs, roots, a);
            var disk' := disk[t := WithEntry(disk[t], i, v)];
            IsDisk(disk', bs) &&
            Num(disk', bs, roots, b) == if b == a + [i] then v else Num(disk, bs, roots, b)
    decreases |b|
  {
    var t := Num(disk, bs, roots, a);
    var disk' := disk[t := WithEntry(disk[t], i, v)];
    ChildValid(a, i, bs);
    if |b| > 1 {
      ParentValid(b, bs);
      var p, x := Parent(b), Last(b);
      EntryNum(disk, bs, roots, own, a, i, v, p);
      if p == a + [i] {
        ZeroEntry(bs, x);
      } else if p == a {
        EntrySet(disk[t], i, v, x);
      }
    }
  }

  lemma HungFile(disk: seq<Block>, roots: seq<u32>, disk': seq<Block>, roots': seq<u32>, bs: nat, own: set<nat>,
                 c: Addr, v: u32)
    requires File(disk, bs, roots, own) && IsDisk(disk', bs) && |disk'| == |disk| && |roots'| == ROOTS
    requires ValidAddr(c, bs) && Hangs(disk, bs, roots, own, c, v)
    requires Hung(disk, roots, disk', roots', bs, c, v)
    ensures File(disk', bs, roots', own + {v})
  {
  }

  /** Setting an empty root, or any data root. */
  lemma HangRoot(disk: seq<Block>, bs: nat, roots: seq<u32>, own: set<nat>, k: nat, v: u32)
    requires File(disk, bs, roots, own) && k < ROOTS && ValidAddr([k], bs)
    requires Hangs(disk, bs, roots, own, [k], v)
    ensures Hung(disk, roots, disk, roots[k := v], bs, [k], v)
    ensures File(disk, bs, roots[k := v], own + {v})
  {
    forall b | ValidAddr(b, bs)
      ensures Num(disk, bs, roots[k := v], b) == if b == [k] then v else Num(disk, bs, roots, b)
    {
      RootNum(disk, bs, roots, own, k, v, b);
    }
    HungFile(disk, roots, disk, roots[k := v], bs, own, [k], v);
  }

  /** Setting an entry of an existing table. */
  lemma HangEntry(disk: seq<Block>, bs: nat, roots: seq<u32>, own: set<nat>, a: Addr, i: nat, v: u32)
    requires File(disk, bs, roots, own) && ValidAddr(a, bs) && IsTable(a) && i < bs / 4
    requires ValidAddr(a + [i], bs) && Hangs(disk, bs, roots, own, a + [i], v)
    requires Num(disk, bs, roots, a) != 0
    ensures var t := Num(disk, bs, roots, a);
            var disk' := disk[t := WithEntry(disk[t], i, v)];
            && IsDisk(disk', bs)
            && Hung(disk, roots, disk', roots, bs, a + [i], v)
            && File(disk', bs, roots, own + {v})
  {
    var t := Num(disk, bs, roots, a);
    var disk' := disk[t := WithEntry(disk[t], i, v)];
    forall b | ValidAddr(b, bs)
      ensures IsDisk(disk', bs) && Num(disk', bs, roots, b) == if b == a + [i] then v else Num(disk, bs, roots, b)
    {
      EntryNum(disk, bs, roots, own, a, i, v, b);
    }
    assert ValidAddr([0], bs);
    HungFile(disk, roots, disk', roots, bs, own, a + [i], v);
  }

  // Logical blocks.

  function Reach(bs: nat): nat {
    var per := bs / 4;
    DIRECT + per + per * per + per * per * per
  }

  /** Where a logical block hangs. */
  function AddrOf(l: nat, bs: nat): (a: Addr)
    requires SizeOk(bs) && l < Reach(bs)
  {
    var per := bs / 4;
    if l < DIRECT then [l]
    else if l - DIRECT < per then [12, l - DIRECT]
    else if l - DIRECT - per < per * per then
      var m := l - DIRECT - per;
      [13, m / per, m % per]
    else
      var m := l - DIRECT - per - per * per;
      [14, m / (per * per), m / per % per, m % per]
  }

  lemma AddrValid(l: nat, bs: nat)
    requires SizeOk(bs) && l < Reach(bs)
    ensures ValidAddr(AddrOf(l, bs), bs) && !IsTable(AddrOf(l, bs))
  {
    var per := bs / 4;
    if l >= DIRECT + per {
      DigitsBelow(l - DIRECT - per, per);
    }
    if l >= DIRECT + per + per * per {
      DigitsBelow(l - DIRECT - per - per * per, per);
    }
  }

  /** The inverse of AddrOf on data addresses. */
  function LbnOf(a: Addr, bs: nat): nat
    requires 1 <= |a| <= 4
  {
    var per := bs / 4;
    if |a| == 1 then a[0]
    else if |a| == 2 then DIRECT + a[1]
    else if |a| == 3 then DIRECT + per + a[1] * per + a[2]
    else DIRECT + per + per * per + a[1] * (per * per) + a[2] * per + a[3]
  }

  lemma Regroup(a: nat, b: nat, n: nat, r: nat)
    ensures (a * n + b) * n + r == a * (n * n) + (b * n + r)
  {
    assert (a * n + b) * n == (a * n) * n + b * n;
    assert (a * n) * n == a * (n * n);
  }

  lemma TwoDigits(b: nat, r: nat, n: nat)
    requires b < n && r < n
    ensures 0 <= b * n + r < n * n
  {
    AtLeastOnce(n - b, n);
    assert (n - b) * n == n * n - b * n;
  }

  lemma Digits(m: nat, n: nat, q: nat, r: nat, a: nat, b: nat)
    requires m == q * n + r && q == a * n + b && r < n && b < n
    ensures m == a * (n * n) + b * n + r && n * n > 0 && m / (n * n) == a
  {
    Regroup(a, b, n, r);
    TwoDigits(b, r, n);
    DivModUnique(m, n * n, a, b * n + r);
  }

  lemma ThreeDigits(m: nat, n: nat)
    requires n > 0
    ensures n * n > 0 && m / (n * n) == m / n / n
    ensures m == m / (n * n) * (n * n) + m / n % n * n + m % n
  {
    Digits(m, n, m / n, m % n, m / n / n, m / n % n);
  }

  lemma DigitsBelow(m: nat, n: nat)
    requires n > 0
    ensures m < n * n ==> m / n < n
    ensures m < n * n * n ==> m / (n * n) < n
  {
    if m / n >= n {
      AtLeastOnce(m / n - n + 1, n);
      assert (m / n - n + 1) * n == m / n * n - n * n + n;
    }
    if m / (n * n) >= n {
      AtLeastOnce(m / (n * n) - n + 1, n * n);
      assert (m / (n * n) - n + 1) * (n * n) == m / (n * n) * (n * n) - n * (n * n) + n * n;
    }
  }

  lemma AddrRoundTrip(l: nat, bs: nat)
    requires SizeOk(bs) && l < Reach(bs)
    ensures 1 <= |AddrOf(l, bs)| <= 4 && LbnOf(AddrOf(l, bs), bs) == l
  {
    var per := bs / 4;
    var m := l - DIRECT - per;
    if m < 0 {
    } else if m < per * per {
      assert AddrOf(l, bs) == [13, m / per, m % per];
      hide Reach;
    } else {
      var n := m - per * per;
      assert AddrOf(l, bs) == [14, n / (per * per), n / per % per, n % per];
      hide Reach;
      ThreeDigits(n, per);
    }
  }

  /** map_block: the physical block of logical block l, 0 for a hole. */
  function Map(disk: seq<Block>, bs: nat, roots: seq<u32>, l: nat): u32
    requires IsDisk(disk, bs) && |roots| == ROOTS && l < Reach(bs)
  {
    AddrValid(l, bs);
    Num(disk, bs, roots, AddrOf(l, bs))
  }

  /** The blocks and tables that logical blocks [lo, hi) are short of. */
  function Missing(disk: seq<Block>, bs: nat, roots: seq<u32>, lo: nat, hi: nat): set<Addr>
    requires IsDisk(disk, bs) && |roots| == ROOTS && hi <= Reach(bs)
  {
    if lo >= hi then {} else
      AddrValid(hi - 1, bs);
      Missing(disk, bs, roots, lo, hi - 1) + Absent(disk, bs, roots, AddrOf(hi - 1, bs))
  }

  lemma {:induction false} MissingValid(disk: seq<Block>, bs: nat, roots: seq<u32>, lo: nat, hi: nat)
    requires IsDisk(disk, bs) && |roots| == ROOTS && hi <= Reach(bs)
    ensures forall b :: b in Missing(disk, bs, roots, lo, hi) ==> ValidAddr(b, bs)
  {
    hide Reach;
    hide AddrOf;
    hide Num;
    hide Absent;
    hide ValidAddr;
    if lo < hi {
      AddrValid(hi - 1, bs);
      MissingValid(disk, bs, roots, lo, hi - 1);
      AbsentValid(disk, bs, roots, AddrOf(hi - 1, bs));
    }
  }

  lemma {:induction false} MissingGrows(disk: seq<Block>, bs: nat, roots: seq<u32>, lo: nat, mid: nat, hi: nat)
    requires IsDisk(disk, bs) && |roots| == ROOTS && mid <= hi <= Reach(bs)
    ensures Missing(disk, bs, roots, lo, mid) <= Missing(disk, bs, roots, lo, hi)
  {
    hide Reach;
    hide AddrOf;
    hide Num;
    hide Absent;
    hide ValidAddr;
    if lo < hi && mid < hi {
      MissingGrows(disk, bs, roots, lo, mid, hi - 1);
    }
  }

  /** What logical block l reads as. */
  function Content(disk: seq<Block>, bs: nat, roots: seq<u32>, l: nat): (b: Block)
    requires IsDisk(disk, bs) && |roots| == ROOTS && l < Reach(bs)
    ensures |b| == bs
  {
    var m := Map(disk, bs, roots, l);
    if m == 0 || m >= |disk| then Zeros(bs) else disk[m]
  }

  /** The table below the root of a double- or triple-indirect block exists. */
  predicate Safe(disk: seq<Block>, bs: nat, roots: seq<u32>, l: nat)
    requires IsDisk(disk, bs) && |roots| == ROOTS && l < Reach(bs)
  {
    AddrValid(l, bs);
    var a := AddrOf(l, bs);
    |a| > 2 ==> Num(disk, bs, roots, a[..2]) != 0
  }
}
