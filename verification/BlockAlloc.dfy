/** The ext2 block allocator: one bitmap and one free count per group, a total
    in the superblock, and a hint that says where the next scan starts.
 */
module BlockAlloc {
  import opened Basics
  import opened Rings

  // Bits of a bitmap block, least significant first.

  function Weight(k: nat): (w: nat)
    ensures w >= 1
  {
    if k == 0 then 1 else 2 * Weight(k - 1)
  }

  predicate BitOf(x: nat, k: nat) {
    if k == 0 then x % 2 == 1 else BitOf(x / 2, k - 1)
  }

  /** Setting a clear bit adds its weight; nothing else changes. */
  lemma {:induction false} SetOne(x: nat, k: nat, j: nat)
    requires !BitOf(x, k)
    ensures BitOf(x + Weight(k), j) <==> j == k || BitOf(x, j)
    decreases k
  {
    if k > 0 {
      assert (x + Weight(k)) / 2 == x / 2 + Weight(k - 1) && (x + Weight(k)) % 2 == x % 2;
      if j > 0 {
        SetOne(x / 2, k - 1, j - 1);
      }
    } else if j > 0 {
      assert (x + 1) / 2 == x / 2;
    }
  }

  /** A set bit is worth its weight, and a byte with a clear bit below 8 has room for it. */
  lemma {:induction false} Fits(x: nat, k: nat, n: nat)
    requires x < Weight(n) && k < n
    ensures BitOf(x, k) ==> x >= Weight(k)
    ensures !BitOf(x, k) ==> x + Weight(k) < Weight(n)
    decreases k
  {
    if k > 0 {
      Fits(x / 2, k - 1, n - 1);
    }
  }

  lemma {:induction false} Lowered(x: nat, k: nat)
    requires BitOf(x, k) && x >= Weight(k)
    ensures !BitOf(x - Weight(k), k)
    decreases k
  {
    if k > 0 {
      assert (x - Weight(k)) / 2 == x / 2 - Weight(k - 1);
      Lowered(x / 2, k - 1);
    }
  }

  /** Clearing a set bit takes its weight away; nothing else changes. */
  lemma ClearOne(x: nat, k: nat, j: nat)
    requires BitOf(x, k) && x >= Weight(k)
    ensures BitOf(x - Weight(k), j) <==> j != k && BitOf(x, j)
  {
    Lowered(x, k);
    SetOne(x - Weight(k), k, j);
  }

  predicate Bit(b: seq<byte>, i: nat)
    requires i < 8 * |b|
  {
    BitOf(b[i / 8], i % 8)
  }

  lemma ByteRoom(x: byte, k: nat)
    requires k < 8
    ensures BitOf(x, k) ==> x >= Weight(k)
    ensures !BitOf(x, k) ==> x + Weight(k) < 256
  {
    assert Weight(8) == 256 by {
      assert Weight(4) == 16 && Weight(6) == 64;
    }
    Fits(x, k, 8);
  }

  function Marked(b: seq<byte>, i: nat): (r: seq<byte>)
    requires i < 8 * |b| && !Bit(b, i)
    ensures |r| == |b|
  {
    ByteRoom(b[i / 8], i % 8);
    b[i / 8 := b[i / 8] + Weight(i % 8)]
  }

  function Unmarked(b: seq<byte>, i: nat): (r: seq<byte>)
    requires i < 8 * |b| && Bit(b, i)
    ensures |r| == |b|
  {
    ByteRoom(b[i / 8], i % 8);
    b[i / 8 := b[i / 8] - Weight(i % 8)]
  }

  lemma MarkedBits(b: seq<byte>, i: nat, j: nat)
    requires i < 8 * |b| && !Bit(b, i) && j < 8 * |b|
    ensures Bit(Marked(b, i), j) <==> j == i || Bit(b, j)
  {
    if j / 8 == i / 8 {
      SetOne(b[i / 8], i % 8, j % 8);
      assert i % 8 == j % 8 ==> i == j;
    }
  }

  lemma UnmarkedBits(b: seq<byte>, i: nat, j: nat)
    requires i < 8 * |b| && Bit(b, i) && j < 8 * |b|
    ensures Bit(Unmarked(b, i), j) <==> j != i && Bit(b, j)
  {
    ByteRoom(b[i / 8], i % 8);
    if j / 8 == i / 8 {
      ClearOne(b[i / 8], i % 8, j % 8);
      assert i % 8 == j % 8 ==> i == j;
    }
  }

  /** The number of clear bits below n. */
  function Clear(b: seq<byte>, n: nat): (r: nat)
    requires n <= 8 * |b|
    ensures r <= n
  {
    if n == 0 then 0 else Clear(b, n - 1) + if Bit(b, n - 1) then 0 else 1
  }

  lemma {:induction false} ClearMarked(b: seq<byte>, i: nat, n: nat)
    requires n <= 8 * |b| && i < 8 * |b| && !Bit(b, i)
    ensures Clear(Marked(b, i), n) == Clear(b, n) - if i < n then 1 else 0
    decreases n
  {
    if n > 0 {
      ClearMarked(b, i, n - 1);
      MarkedBits(b, i, n - 1);
    }
  }

  lemma {:induction false} ClearUnmarked(b: seq<byte>, i: nat, n: nat)
    requires n <= 8 * |b| && i < 8 * |b| && Bit(b, i)
    ensures Clear(Unmarked(b, i), n) == Clear(b, n) + if i < n then 1 else 0
    decreases n
  {
    if n > 0 {
      ClearUnmarked(b, i, n - 1);
      UnmarkedBits(b, i, n - 1);
    }
  }

  /** The first clear bit at or after i, or n. */
  function FirstClear(b: seq<byte>, i: nat, n: nat): (r: nat)
    requires i <= n <= 8 * |b|
    ensures i <= r <= n && (r < n ==> !Bit(b, r))
    ensures forall k :: i <= k < r ==> Bit(b, k)
    decreases n - i
  {
    if i < n && Bit(b, i) then FirstClear(b, i + 1, n) else i
  }

  lemma {:induction false} ClearIsZeroIff(b: seq<byte>, n: nat)
    requires n <= 8 * |b|
    ensures Clear(b, n) == 0 <==> forall i :: 0 <= i < n ==> Bit(b, i)
  {
    if n > 0 {
      ClearIsZeroIff(b, n - 1);
    }
  }

  // Groups.

  datatype Geometry = Geometry(first: nat, perGroup: nat, count: nat, groups: nat)

  datatype State = State(bitmaps: seq<seq<byte>>, free: seq<nat>, total: nat, hint: nat)

  /** The superblock's fields, as mount derives the group count from them. */
  predicate Sane(g: Geometry) {
    && 0 < g.perGroup <= 0x8000 && g.first < g.count < 0x1_0000_0000
    && g.groups == (g.count - g.first + g.perGroup - 1) / g.perGroup
  }

  function GroupSize(g: Geometry, k: nat): (n: nat)
    ensures n <= g.perGroup
  {
    var start := g.first + k * g.perGroup;
    if g.count <= start then 0 else if g.count - start < g.perGroup then g.count - start else g.perGroup
  }

  function Number(g: Geometry, k: nat, i: nat): nat {
    g.first + k * g.perGroup + i
  }

  ghost predicate Shape(st: State, g: Geometry) {
    && Sane(g)
    && |st.bitmaps| == |st.free| == g.groups && st.hint < g.groups
    && forall k :: 0 <= k < g.groups ==> g.perGroup <= 8 * |st.bitmaps[k]|
  }

  function Sum(s: seq<nat>): nat {
    if s == [] then 0 else s[0] + Sum(s[1..])
  }

  ghost predicate GroupCounted(st: State, g: Geometry, k: nat)
    requires Shape(st, g) && k < g.groups
  {
    st.free[k] == Clear(st.bitmaps[k], GroupSize(g, k))
  }

  /** Each group's count is its number of clear bits, and the superblock's their sum. */
  ghost predicate Counted(st: State, g: Geometry) {
    && Shape(st, g)
    && (forall k :: 0 <= k < g.groups ==> GroupCounted(st, g, k))
    && st.total == Sum(st.free)
  }

  // Neither counter can wrap.

  /** The blocks of the first n groups. */
  function Span(g: Geometry, n: nat): (r: nat)
    requires g.first < g.count
    ensures r <= g.count - g.first
  {
    if n * g.perGroup < g.count - g.first then n * g.perGroup else g.count - g.first
  }

  lemma SpanStep(g: Geometry, n: nat)
    requires Sane(g)
    ensures Span(g, n + 1) == Span(g, n) + GroupSize(g, n)
  {
    assert (n + 1) * g.perGroup == n * g.perGroup + g.perGroup;
  }

  lemma {:induction false} SumAppend(s: seq<nat>, v: nat)
    ensures Sum(s + [v]) == Sum(s) + v
  {
    if s == [] {
      assert s + [v] == [v];
    } else {
      SumAppend(s[1..], v);
      assert (s + [v])[1..] == s[1..] + [v];
    }
  }

  lemma {:induction false} SumBound(st: State, g: Geometry, n: nat)
    requires Counted(st, g) && n <= g.groups
    ensures Sum(st.free[..n]) <= Span(g, n)
  {
    if n > 0 {
      SumBound(st, g, n - 1);
      SpanStep(g, n - 1);
      assert GroupCounted(st, g, n - 1);
      assert st.free[..n] == st.free[..n - 1] + [st.free[n - 1]];
      SumAppend(st.free[..n - 1], st.free[n - 1]);
    }
  }

  lemma NoWrap(st: State, g: Geometry, k: nat)
    requires Counted(st, g) && k < g.groups
    ensures st.free[k] <= GroupSize(g, k) && st.free[k] < 0x1_0000
    ensures st.total < 0x1_0000_0000
  {
    assert GroupCounted(st, g, k);
    SumBound(st, g, g.groups);
    assert st.free[..g.groups] == st.free;
  }

  lemma {:induction false} SumUpdate(s: seq<nat>, k: nat, v: nat)
    requires k < |s|
    ensures Sum(s[k := v]) == Sum(s) - s[k] + v
  {
    if k == 0 {
      assert s[0 := v][1..] == s[1..];
    } else {
      SumUpdate(s[1..], k - 1, v);
      assert s[k := v][1..] == s[1..][k - 1 := v];
    }
  }

  // Allocating.

  datatype Pick = Full | Pick(group: nat, index: nat)

  /** The scan from the s-th group after the hint. */
  function Scan(st: State, g: Geometry, s: nat): (p: Pick)
    requires Shape(st, g) && s <= g.groups
    ensures p.Pick? ==> p.group < g.groups && p.index < GroupSize(g, p.group) && !Bit(st.bitmaps[p.group], p.index)
    decreases g.groups - s
  {
    if s == g.groups then Full else
      var k := (st.hint + s) % g.groups;
      var i := FirstClear(st.bitmaps[k], 0, GroupSize(g, k));
      if st.free[k] != 0 && i < GroupSize(g, k) then Pick(k, i) else Scan(st, g, s + 1)
  }

  function Take(st: State, k: nat, i: nat): (r: State)
    requires k < |st.bitmaps| == |st.free| && i < 8 * |st.bitmaps[k]| && !Bit(st.bitmaps[k], i)
  {
    State(st.bitmaps[k := Marked(st.bitmaps[k], i)],
          st.free[k := (st.free[k] + 0xFFFF) % 0x1_0000],
          (st.total + 0xFFFF_FFFF) % 0x1_0000_0000,
          k)
  }

  /** alloc_block: the new state and the block, 0 when there is none. */
  function Alloc(st: State, g: Geometry): (r: (State, nat))
    requires Shape(st, g)
  {
    match Scan(st, g, 0)
    case Full => (st, 0)
    case Pick(k, i) => (Take(st, k, i), Number(g, k, i))
  }

  function Give(st: State, k: nat, i: nat): (r: State)
    requires k < |st.bitmaps| == |st.free| && i < 8 * |st.bitmaps[k]|
  {
    if !Bit(st.bitmaps[k], i) then st else
      st.(bitmaps := st.bitmaps[k := Unmarked(st.bitmaps[k], i)],
          free := st.free[k := (st.free[k] + 1) % 0x1_0000],
          total := (st.total + 1) % 0x1_0000_0000)
  }

  predicate Frees(g: Geometry, b: nat) {
    g.first <= b < g.count
  }

  lemma Locate(g: Geometry, b: nat)
    requires Sane(g) && Frees(g, b)
    ensures var k, i := (b - g.first) / g.perGroup, (b - g.first) % g.perGroup;
            0 <= k < g.groups && 0 <= i < GroupSize(g, k) && Number(g, k, i) == b
  {
    var rel, n := b - g.first, g.perGroup;
    GroupBelow(g, rel);
    var k, i := rel / n, rel % n;
    assert rel == k * n + i && g.first + k * n + i == b;
  }

  function Quotient(a: nat, n: nat): nat
    requires n > 0
  {
    a / n
  }

  lemma GroupBelow(g: Geometry, rel: nat)
    requires Sane(g) && rel < g.count - g.first
    ensures g.perGroup > 0 && Quotient(rel, g.perGroup) < g.groups
  {
    var n, last := g.perGroup, g.count - g.first - 1;
    DivModUnique(last + n, n, last / n + 1, last % n);
    Order(rel, last, n);
  }

  lemma Order(a: nat, b: nat, n: nat)
    requires a <= b && n > 0
    ensures a / n <= b / n
  {
    AtLeastOnce(a / n - b / n, n);
  }

  /** Where free_block looks for b, a block of the device or not. */
  function GroupOf(g: Geometry, b: nat): (k: nat)
    requires Sane(g) && g.first <= b
    ensures Frees(g, b) ==> k < g.groups
  {
    assert g.perGroup > 0;
    hide Sane;
    if Frees(g, b) then GroupBelow(g, b - g.first); Quotient(b - g.first, g.perGroup)
    else Quotient(b - g.first, g.perGroup)
  }

  function IndexOf(g: Geometry, b: nat): (i: nat)
    requires Sane(g) && g.first <= b
    ensures i < g.perGroup && Number(g, GroupOf(g, b), i) == b
    ensures Frees(g, b) ==> i < GroupSize(g, GroupOf(g, b))
  {
    assert b - g.first == (b - g.first) / g.perGroup * g.perGroup + (b - g.first) % g.perGroup;
    if Frees(g, b) then Locate(g, b); (b - g.first) % g.perGroup else (b - g.first) % g.perGroup
  }

  /** What becomes of the disk when the descriptor read for a group past the last is
      not one: nothing, or a bit somewhere is cleared and a word raised, in whatever
      block that may be. */
  datatype Beyond = Missed | Hit(bitmaps: seq<seq<byte>>, free: seq<nat>, total: nat, data: seq<seq<byte>>)

  predicate SameSizes(st: State, beyond: Beyond) {
    beyond.Hit? ==>
      && |beyond.bitmaps| == |st.bitmaps| && |beyond.free| == |st.free|
      && forall k :: 0 <= k < |st.bitmaps| ==> |beyond.bitmaps[k]| == |st.bitmaps[k]|
  }

  /** free_block, of any number; one below the first data block is ignored. */
  function Free(st: State, g: Geometry, b: nat, beyond: Beyond): (r: State)
    requires Shape(st, g) && SameSizes(st, beyond)
    ensures Shape(r, g) && forall k :: 0 <= k < g.groups ==> |r.bitmaps[k]| == |st.bitmaps[k]|
  {
    if b < g.first then st
    else if GroupOf(g, b) < g.groups then Give(st, GroupOf(g, b), IndexOf(g, b))
    else if beyond.Missed? then st
    else State(beyond.bitmaps, beyond.free, beyond.total, st.hint)
  }

  lemma Numbered(g: Geometry, k: nat, i: nat)
    requires Sane(g) && i < GroupSize(g, k)
    ensures Frees(g, Number(g, k, i))
    ensures GroupOf(g, Number(g, k, i)) == k && IndexOf(g, Number(g, k, i)) == i
  {
    DivModUnique(k * g.perGroup + i, g.perGroup, k, i);
  }

  /** Block b is marked in its bitmap. */
  predicate Used(st: State, g: Geometry, b: nat)
    requires Shape(st, g) && Frees(g, b)
  {
    Bit(st.bitmaps[GroupOf(g, b)], IndexOf(g, b))
  }

  lemma TakeCounted(st: State, g: Geometry, k: nat, i: nat)
    requires Counted(st, g) && k < g.groups && i < GroupSize(g, k) && !Bit(st.bitmaps[k], i)
    ensures Counted(Take(st, k, i), g)
  {
    hide Bit;
    hide Clear;
    hide GroupSize;
    hide Marked;
    hide Sum;
    NoWrap(st, g, k);
    var st' := Take(st, k, i);
    ClearMarked(st.bitmaps[k], i, GroupSize(g, k));
    assert GroupCounted(st, g, k);
    SumUpdate(st.free, k, st.free[k] - 1);
    forall j | 0 <= j < g.groups
      ensures GroupCounted(st', g, j)
    {
      assert GroupCounted(st, g, j);
    }
  }

  lemma GiveCounted(st: State, g: Geometry, k: nat, i: nat)
    requires Counted(st, g) && k < g.groups && i < GroupSize(g, k)
    ensures Counted(Give(st, k, i), g)
  {
    hide Bit;
    hide Clear;
    hide GroupSize;
    hide Unmarked;
    hide Sum;
    if Bit(st.bitmaps[k], i) {
      NoWrap(st, g, k);
      var st' := Give(st, k, i);
      ClearUnmarked(st.bitmaps[k], i, GroupSize(g, k));
      assert GroupCounted(st, g, k);
      SumUpdate(st.free, k, st.free[k] + 1);
      var exact := st'.(total := st.total + 1, free := st.free[k := st.free[k] + 1]);
      assert Counted(exact, g) by {
        forall j | 0 <= j < g.groups
          ensures GroupCounted(exact, g, j)
        {
          assert GroupCounted(st, g, j);
        }
      }
      NoWrap(exact, g, k);
      assert exact == st';
    }
  }

  lemma {:induction false} ScanFindsGroup(st: State, g: Geometry, s: nat, j: nat)
    requires Counted(st, g) && s <= j < g.groups && Scan(st, g, s) == Full
    ensures st.free[(st.hint + j) % g.groups] == 0
    decreases j - s
  {
    var k := (st.hint + s) % g.groups;
    if s < j {
      ScanFindsGroup(st, g, s + 1, j);
    } else {
      assert GroupCounted(st, g, k);
      ClearIsZeroIff(st.bitmaps[k], GroupSize(g, k));
    }
  }

  /** Every group is scanned, wherever the hint is. */
  lemma Reach(hint: nat, k: nat, n: nat) returns (j: nat)
    requires hint < n && k < n
    ensures j < n && (hint + j) % n == k
  {
    j := if k >= hint then k - hint else n - hint + k;
    SlotIsModulo(hint, j, n);
  }

  /** Allocation fails exactly when every block of the device is in use, whatever the hint. */
  lemma AllocFailsIff(st: State, g: Geometry)
    requires Counted(st, g)
    ensures Alloc(st, g).1 == 0 || Frees(g, Alloc(st, g).1)
    ensures Scan(st, g, 0) == Full <==> forall b: nat :: Frees(g, b) ==> Used(st, g, b)
  {
    if Scan(st, g, 0) == Full {
      forall b: nat | Frees(g, b)
        ensures Used(st, g, b)
      {
        var k, i := GroupOf(g, b), IndexOf(g, b);
        var j := Reach(st.hint, k, g.groups);
        ScanFindsGroup(st, g, 0, j);
        assert GroupCounted(st, g, k);
        ClearIsZeroIff(st.bitmaps[k], GroupSize(g, k));
      }
    } else {
      var p := Scan(st, g, 0);
      Numbered(g, p.group, p.index);
      assert !Used(st, g, Number(g, p.group, p.index));
    }
  }

  /** A block handed out was free, is in use afterwards, and no other block changes. */
  lemma AllocTakesFreeBlock(st: State, g: Geometry)
    requires Shape(st, g) && Scan(st, g, 0).Pick?
    ensures var (st', b) := Alloc(st, g);
            && Shape(st', g) && (Counted(st, g) ==> Counted(st', g)) && Frees(g, b) && !Used(st, g, b)
            && forall x: nat :: Frees(g, x) ==> (Used(st', g, x) <==> x == b || Used(st, g, x))
  {
    hide GroupOf;
    hide IndexOf;
    hide GroupSize;
    hide Number;
    hide Bit;
    hide Marked;
    hide Clear;
    var p := Scan(st, g, 0);
    var (st', b) := Alloc(st, g);
    hide Scan;
    if Counted(st, g) {
      TakeCounted(st, g, p.group, p.index);
    }
    Numbered(g, p.group, p.index);
    forall x: nat | Frees(g, x)
      ensures Used(st', g, x) <==> x == b || Used(st, g, x)
    {
      var k, i := GroupOf(g, x), IndexOf(g, x);
      if k == p.group {
        MarkedBits(st.bitmaps[k], p.index, i);
      }
    }
  }

  lemma FreeIsGive(st: State, g: Geometry, b: nat, beyond: Beyond)
    requires Shape(st, g) && Frees(g, b) && SameSizes(st, beyond)
    ensures Free(st, g, b, beyond) == Give(st, GroupOf(g, b), IndexOf(g, b))
  {
  }

  /** Freeing unmarks that block and no other; on a free block it is the identity. */
  lemma FreeReleases(st: State, g: Geometry, b: nat, beyond: Beyond)
    requires Shape(st, g) && Frees(g, b) && SameSizes(st, beyond)
    ensures var st' := Free(st, g, b, beyond);
            && (Counted(st, g) ==> Counted(st', g))
            && (!Used(st, g, b) ==> st' == st)
            && forall x: nat :: Frees(g, x) ==> (Used(st', g, x) <==> x != b && Used(st, g, x))
  {
    hide GroupOf;
    hide IndexOf;
    hide GroupSize;
    hide Number;
    hide Bit;
    hide Unmarked;
    hide Clear;
    FreeIsGive(st, g, b, beyond);
    var st' := Free(st, g, b, beyond);
    hide Free;
    var kb, ib := GroupOf(g, b), IndexOf(g, b);
    if Counted(st, g) {
      GiveCounted(st, g, kb, ib);
    }
    forall x: nat | Frees(g, x)
      ensures Used(st', g, x) <==> x != b && Used(st, g, x)
    {
      var k, i := GroupOf(g, x), IndexOf(g, x);
      if k == kb && Bit(st.bitmaps[k], ib) {
        UnmarkedBits(st.bitmaps[k], ib, i);
      }
    }
  }

  // Numbers that are not blocks of the device.

  /** free_block finds a real group's bitmap for b. */
  predicate InGroups(g: Geometry, b: nat)
    requires Sane(g)
  {
    g.first <= b && GroupOf(g, b) < g.groups
  }

  lemma Padding(g: Geometry, b: nat)
    requires Sane(g) && g.count <= b && InGroups(g, b)
    ensures GroupSize(g, GroupOf(g, b)) <= IndexOf(g, b)
  {
    hide GroupOf;
    hide IndexOf;
  }

  /** Freeing keeps the counts exact on the device, below it, and where it finds
      nothing set.  A set bit that pads the last bitmap, or one found past the last
      group, makes them wrong. */
  lemma FreeCountedIff(st: State, g: Geometry, b: nat, beyond: Beyond)
    requires Counted(st, g)
    requires beyond.Hit? ==>
               beyond.bitmaps == st.bitmaps && beyond.free == st.free && beyond.total == (st.total + 1) % 0x1_0000_0000
    ensures Counted(Free(st, g, b, beyond), g) <==>
            || b < g.count
            || (if InGroups(g, b) then !Bit(st.bitmaps[GroupOf(g, b)], IndexOf(g, b)) else beyond.Missed?)
  {
    hide GroupOf;
    hide IndexOf;
    hide Bit;
    if Frees(g, b) {
      FreeReleases(st, g, b, beyond);
    } else if b >= g.count {
      NoWrap(st, g, st.hint);
      hide Sum;
      if InGroups(g, b) && Bit(st.bitmaps[GroupOf(g, b)], IndexOf(g, b)) {
        Padding(g, b);
        PaddingCounted(st, g, GroupOf(g, b), IndexOf(g, b));
      }
    }
  }

  lemma PaddingCounted(st: State, g: Geometry, k: nat, i: nat)
    requires Counted(st, g) && k < g.groups && GroupSize(g, k) <= i < g.perGroup && Bit(st.bitmaps[k], i)
    ensures !Counted(Give(st, k, i), g)
  {
    NoWrap(st, g, k);
    assert GroupCounted(st, g, k);
    ClearUnmarked(st.bitmaps[k], i, GroupSize(g, k));
    hide GroupSize;
    hide Bit;
    hide Unmarked;
    hide Clear;
    hide Sum;
    var st' := Give(st, k, i);
    assert Shape(st', g) && !GroupCounted(st', g, k);
  }

  /** On a full device a block that is freed, by whomever, is the one handed out next. */
  lemma FreedComesBack(st: State, g: Geometry, b: nat, beyond: Beyond)
    requires Counted(st, g) && Frees(g, b) && SameSizes(st, beyond)
    requires forall x: nat :: Frees(g, x) ==> Used(st, g, x)
    ensures Alloc(Free(st, g, b, beyond), g).1 == b
  {
    FreeReleases(st, g, b, beyond);
    var st' := Free(st, g, b, beyond);
    hide Free;
    AllocFailsIff(st', g);
    assert !Used(st', g, b);
    AllocTakesFreeBlock(st', g);
    hide Used;
    hide Scan;
    hide Counted;
  }

  // Freeing the direct slots of an inode, whatever they hold.

  /** The first loop of free_inode_blocks, where no number past the last group finds anything. */
  function FreeAll(st: State, g: Geometry, slots: seq<nat>): (r: State)
    requires Shape(st, g)
    ensures Shape(r, g)
    decreases |slots|
  {
    hide Shape;
    hide Free;
    if slots == [] then st
    else FreeAll(if slots[0] == 0 then st else Free(st, g, slots[0], Missed), g, slots[1..])
  }

  /** free_block finds nothing to clear: an empty slot, a number below the first
      block or past the last group, or a clear bit. */
  predicate Idle(st: State, g: Geometry, b: nat)
    requires Shape(st, g)
  {
    b == 0 || !InGroups(g, b) || !Bit(st.bitmaps[GroupOf(g, b)], IndexOf(g, b))
  }

  lemma IdleFree(st: State, g: Geometry, b: nat)
    requires Shape(st, g) && b != 0
    ensures Free(st, g, b, Missed).total == if Idle(st, g, b) then st.total else (st.total + 1) % 0x1_0000_0000
    ensures Idle(st, g, b) ==> Free(st, g, b, Missed) == st
  {
    hide GroupOf;
    hide IndexOf;
    hide Bit;
    hide Unmarked;
  }

  /** How many bits the slots clear, one after the other. */
  function Clears(st: State, g: Geometry, slots: seq<nat>): (n: nat)
    requires Shape(st, g)
    ensures n <= |slots|
    decreases |slots|
  {
    hide Shape;
    hide Free;
    hide Idle;
    if slots == [] then 0
    else if Idle(st, g, slots[0]) then Clears(st, g, slots[1..])
    else 1 + Clears(Free(st, g, slots[0], Missed), g, slots[1..])
  }

  lemma {:induction false} ClearsCounted(st: State, g: Geometry, slots: seq<nat>)
    requires Shape(st, g) && st.total < 0x1_0000_0000
    ensures FreeAll(st, g, slots).total == (st.total + Clears(st, g, slots)) % 0x1_0000_0000
    ensures Clears(st, g, slots) == 0 ==> FreeAll(st, g, slots) == st
    ensures Clears(st, g, slots) == 0 <==> forall i :: 0 <= i < |slots| ==> Idle(st, g, slots[i])
    decreases |slots|
  {
    hide Shape;
    hide Idle;
    hide Free;
    if slots != [] {
      var rest := slots[1..];
      assert forall i :: 1 <= i < |slots| ==> slots[i] == rest[i - 1];
      if slots[0] == 0 {
        IdleZero(st, g);
        ClearsCounted(st, g, rest);
      } else {
        IdleFree(st, g, slots[0]);
        var st' := Free(st, g, slots[0], Missed);
        ClearsCounted(st', g, rest);
        Raised(st.total, Clears(st', g, rest));
      }
    }
  }

  lemma Raised(total: nat, n: nat)
    ensures ((total + 1) % 0x1_0000_0000 + n) % 0x1_0000_0000 == (total + (1 + n)) % 0x1_0000_0000
  {
  }

  lemma IdleZero(st: State, g: Geometry)
    requires Shape(st, g)
    ensures Idle(st, g, 0)
  {
  }

  /** Freeing the slots changes nothing exactly when every one of them is idle. */
  lemma FreeAllIdleIff(st: State, g: Geometry, slots: seq<nat>)
    requires Counted(st, g) && |slots| < 0x1_0000_0000
    ensures FreeAll(st, g, slots) == st <==> forall i :: 0 <= i < |slots| ==> Idle(st, g, slots[i])
  {
    NoWrap(st, g, st.hint);
    ClearsCounted(st, g, slots);
    hide Idle;
    hide Counted;
    hide Clears;
    hide FreeAll;
  }

  /** With one number in the slots, it is that number that is freed. */
  lemma {:induction false} FreeAllOne(st: State, g: Geometry, slots: seq<nat>, b: nat)
    requires Shape(st, g) && slots != [] && slots[0] == b != 0 && forall i :: 1 <= i < |slots| ==> slots[i] == 0
    ensures FreeAll(st, g, slots) == Free(st, g, b, Missed)
  {
    FreeAllNone(Free(st, g, b, Missed), g, slots[1..]);
  }

  lemma {:induction false} FreeAllNone(st: State, g: Geometry, slots: seq<nat>)
    requires Shape(st, g) && forall i :: 0 <= i < |slots| ==> slots[i] == 0
    ensures FreeAll(st, g, slots) == st
  {
    if slots != [] {
      FreeAllNone(st, g, slots[1..]);
    }
  }

  // Runs.

  datatype Event = DoAlloc | DoFree(b: nat, beyond: Beyond)

  function Step(st: State, g: Geometry, e: Event): (r: State)
    requires Shape(st, g)
    ensures Shape(r, g)
  {
    match e
    case DoAlloc =>
      (if Scan(st, g, 0).Pick? then AllocTakesFreeBlock(st, g); Alloc(st, g).0 else st)
    case DoFree(b, beyond) =>
      if SameSizes(st, beyond) then Free(st, g, b, beyond) else st
  }

  function Run(st: State, g: Geometry, events: seq<Event>): (r: State)
    requires Shape(st, g)
    ensures Shape(r, g)
  {
    if events == [] then st else Step(Run(st, g, events[..|events| - 1]), g, events[|events| - 1])
  }

  /** The blocks handed out and not freed since. */
  function Held(st: State, g: Geometry, events: seq<Event>): set<nat>
    requires Shape(st, g)
  {
    if events == [] then {} else
      var before := events[..|events| - 1];
      var held := Held(st, g, before);
      match events[|events| - 1]
      case DoAlloc =>
        var at := Run(st, g, before);
        if Scan(at, g, 0).Pick? then held + {Alloc(at, g).1} else held
      case DoFree(b, _) => held - {b}
  }

  /** No free past the last group clears a bit of a block bitmap. */
  ghost predicate Aimed(st: State, g: Geometry, events: seq<Event>)
    requires Shape(st, g)
  {
    events != [] ==>
      var before, e := events[..|events| - 1], events[|events| - 1];
      && Aimed(st, g, before)
      && (e.DoFree? && e.beyond.Hit? && g.first <= e.b && !InGroups(g, e.b) ==>
            e.beyond.bitmaps == Run(st, g, before).bitmaps)
  }

  /** A free inside the groups but past the last block touches no block's bit. */
  lemma PaddingFrees(st: State, g: Geometry, b: nat, x: nat)
    requires Shape(st, g) && g.count <= b && InGroups(g, b) && Frees(g, x)
    ensures var st' := Give(st, GroupOf(g, b), IndexOf(g, b));
            Shape(st', g) && (Used(st', g, x) <==> Used(st, g, x))
  {
    Padding(g, b);
    var k, i := GroupOf(g, b), IndexOf(g, b);
    var kx, ix := GroupOf(g, x), IndexOf(g, x);
    hide GroupOf;
    hide IndexOf;
    hide GroupSize;
    hide Bit;
    if kx == k && Bit(st.bitmaps[k], i) {
      UnmarkedBits(st.bitmaps[k], i, ix);
    }
    hide Unmarked;
  }

  lemma FreeKeepsOthers(st: State, g: Geometry, b: nat, beyond: Beyond, x: nat)
    requires Shape(st, g) && SameSizes(st, beyond) && Frees(g, x) && x != b
    requires beyond.Hit? && g.first <= b && !InGroups(g, b) ==> beyond.bitmaps == st.bitmaps
    ensures Used(Free(st, g, b, beyond), g, x) <==> Used(st, g, x)
  {
    if Frees(g, b) {
      FreeReleases(st, g, b, beyond);
    } else if g.first <= b && InGroups(g, b) {
      PaddingFrees(st, g, b, x);
    }
  }

  lemma {:induction false} HeldIsUsed(st: State, g: Geometry, events: seq<Event>)
    requires Shape(st, g) && Aimed(st, g, events)
    ensures forall b :: b in Held(st, g, events) ==> Frees(g, b) && Used(Run(st, g, events), g, b)
  {
    if events != [] {
      var before := events[..|events| - 1];
      HeldIsUsed(st, g, before);
      var at := Run(st, g, before);
      match events[|events| - 1]
      case DoAlloc => if Scan(at, g, 0).Pick? { AllocTakesFreeBlock(at, g); }
      case DoFree(b, beyond) =>
        if SameSizes(at, beyond) {
          forall x | x in Held(st, g, events)
            ensures Frees(g, x) && Used(Run(st, g, events), g, x)
          {
            FreeKeepsOthers(at, g, b, beyond, x);
          }
        }
    }
  }

  /** Over every run no block is handed out twice without a free of it in between,
      even when numbers past the device are freed, unless such a free lands in a bitmap. */
  lemma NoDoubleAllocation(st: State, g: Geometry, events: seq<Event>)
    requires Shape(st, g) && Aimed(st, g, events)
    ensures var at := Run(st, g, events);
            Scan(at, g, 0).Pick? ==> Alloc(at, g).1 !in Held(st, g, events)
  {
    HeldIsUsed(st, g, events);
    var at := Run(st, g, events);
    if Scan(at, g, 0).Pick? {
      AllocTakesFreeBlock(at, g);
    }
  }

  /** Over every run that frees only blocks of the device the counts stay exact. */
  lemma {:induction false} CountsStayExact(st: State, g: Geometry, events: seq<Event>)
    requires Counted(st, g) && forall e :: e in events && e.DoFree? ==> e.b < g.count
    ensures Counted(Run(st, g, events), g)
  {
    if events != [] {
      var before := events[..|events| - 1];
      CountsStayExact(st, g, before);
      var at := Run(st, g, before);
      assert events[|events| - 1] in events;
      match events[|events| - 1]
      case DoAlloc => if Scan(at, g, 0).Pick? { AllocTakesFreeBlock(at, g); }
      case DoFree(b, beyond) =>
        if SameSizes(at, beyond) && Frees(g, b) {
          FreeReleases(at, g, b, beyond);
        }
    }
  }

  // The allocator as the code runs it.

  class Allocator {
    const g: Geometry
    const scratch: array<byte>
    var bitmaps: seq<seq<byte>>
    var free: seq<nat>
    var total: nat
    var hint: nat
    /** The data blocks of the device, by number. */
    var data: seq<seq<byte>>

    ghost function View(): State
      reads this
    {
      State(bitmaps, free, total, hint)
    }

    ghost predicate Valid()
      reads this
    {
      && Shape(View(), g) && |data| == g.count
      && forall k :: 0 <= k < g.groups ==> |bitmaps[k]| == scratch.Length
    }

    method Load(k: nat)
      requires k < |bitmaps| && |bitmaps[k]| == scratch.Length
      modifies scratch
      ensures scratch[..] == bitmaps[k]
    {
      var i := 0;
      while i < scratch.Length
        invariant 0 <= i <= scratch.Length
        invariant scratch[..i] == bitmaps[k][..i]
      {
        scratch[i] := bitmaps[k][i];
        i := i + 1;
      }
    }

    /** The inner loop: the first clear bit of the bitmap in the scratch buffer. */
    method FindClear(k: nat) returns (i: nat)
      requires Sane(g) && g.perGroup <= 8 * scratch.Length
      ensures i == FirstClear(scratch[..], 0, GroupSize(g, k))
    {
      i := 0;
      while i < g.perGroup
        invariant 0 <= i <= GroupSize(g, k)
        invariant FirstClear(scratch[..], 0, GroupSize(g, k)) == FirstClear(scratch[..], i, GroupSize(g, k))
      {
        if g.first + k * g.perGroup + i >= g.count {
          return;
        }
        if !BitOf(scratch[i / 8], i % 8) {
          return;
        }
        i := i + 1;
      }
    }

    /** alloc_block. */
    method AllocBlock() returns (b: nat)
      requires Valid()
      modifies this`bitmaps, this`free, this`total, this`hint, this`data, scratch
      ensures Valid() && (View(), b) == Alloc(old(View()), g)
      ensures Scan(old(View()), g, 0) == Full ==> data == old(data)
      ensures Scan(old(View()), g, 0).Pick? ==> b < |data| && data == old(data)[b := seq(scratch.Length, _ => 0)]
    {
      hide Scan;
      hide FirstClear;
      hide GroupSize;
      ghost var st := View();
      var s := 0;
      while s < g.groups
        invariant 0 <= s <= g.groups
        invariant View() == st && data == old(data) && Valid()
        invariant Scan(st, g, 0) == Scan(st, g, s)
      {
        var k := (hint + s) % g.groups;
        ScanStep(st, g, s);
        if free[k] != 0 {
          Load(k);
          var i := FindClear(k);
          if i < GroupSize(g, k) {
            b := TakeBit(k, i);
            return;
          }
        }
        s := s + 1;
      }
      ScanEnd(st, g);
      b := 0;
    }

    /** Marking, both counters, and the zero fill. */
    method TakeBit(k: nat, i: nat) returns (b: nat)
      requires Valid() && k < g.groups && i < GroupSize(g, k)
      requires scratch[..] == bitmaps[k] && !Bit(bitmaps[k], i)
      modifies this`bitmaps, this`free, this`total, this`hint, this`data, scratch
      ensures Valid() && View() == Take(old(View()), k, i) && b == Number(g, k, i) < |data|
      ensures data == old(data)[b := seq(scratch.Length, _ => 0)]
    {
      Numbered(g, k, i);
      hide Clear;
      hide Sum;
      hide GroupSize;
      hide BitOf;
      hide Weight;
      ByteRoom(scratch[i / 8], i % 8);
      scratch[i / 8] := scratch[i / 8] + Weight(i % 8);
      assert scratch[..] == Marked(bitmaps[k], i);
      bitmaps := bitmaps[k := scratch[..]];
      free := free[k := (free[k] + 0xFFFF) % 0x1_0000];
      total := (total + 0xFFFF_FFFF) % 0x1_0000_0000;
      b := g.first + k * g.perGroup + i;
      hint := k;
      ghost var after := View();
      var z := 0;
      while z < scratch.Length
        invariant 0 <= z <= scratch.Length
        invariant forall j :: 0 <= j < z ==> scratch[j] == 0
        invariant View() == after && data == old(data)
      {
        scratch[z] := 0;
        z := z + 1;
      }
      assert scratch[..] == seq(scratch.Length, _ => 0);
      data := data[b := scratch[..]];
    }

    /** free_block; `beyond` is what a descriptor past the table would do. */
    method FreeBlock(b: nat, beyond: Beyond)
      requires Valid() && SameSizes(View(), beyond) && (beyond.Hit? ==> |beyond.data| == |data|)
      modifies this`bitmaps, this`free, this`total, this`data, scratch
      ensures Valid() && View() == Free(old(View()), g, b, beyond)
      ensures data == if g.first <= b && !InGroups(g, b) && beyond.Hit? then beyond.data else old(data)
    {
      if b < g.first {
        return;
      }
      var k, i := (b - g.first) / g.perGroup, (b - g.first) % g.perGroup;
      assert k == GroupOf(g, b) && i == IndexOf(g, b);
      hide GroupOf;
      hide IndexOf;
      hide Number;
      hide GroupSize;
      if k >= g.groups {
        if beyond.Hit? {
          bitmaps, free, total, data := beyond.bitmaps, beyond.free, beyond.total, beyond.data;
        }
        return;
      }
      hide BitOf;
      hide Weight;
      Load(k);
      if BitOf(scratch[i / 8], i % 8) {
        ByteRoom(scratch[i / 8], i % 8);
        scratch[i / 8] := scratch[i / 8] - Weight(i % 8);
        assert scratch[..] == Unmarked(bitmaps[k], i);
        bitmaps := bitmaps[k := scratch[..]];
        free := free[k := (free[k] + 1) % 0x1_0000];
        total := (total + 1) % 0x1_0000_0000;
      }
    }
  }

  lemma ScanStep(st: State, g: Geometry, s: nat)
    requires Shape(st, g) && s < g.groups
    ensures var k := (st.hint + s) % g.groups;
            var i := FirstClear(st.bitmaps[k], 0, GroupSize(g, k));
            Scan(st, g, s) == if st.free[k] != 0 && i < GroupSize(g, k) then Pick(k, i) else Scan(st, g, s + 1)
  {
  }

  lemma ScanEnd(st: State, g: Geometry)
    requires Shape(st, g)
    ensures Scan(st, g, g.groups) == Full
  {
  }
}

