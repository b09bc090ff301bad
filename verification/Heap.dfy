/** The kernel heap (DarkMatter): a first-fit allocator whose blocks, each a
    16-byte header and a payload, tile one arena; freeing merges neighbours.

    Memory is counted in granules of 16 bytes, the size of a header and the
    alignment of everything. An address is the byte address divided by 16.
 */
module Heap {
  import opened Basics

  const ARENA_BYTES: nat := 268435456
  const GRANULES: nat := ARENA_BYTES / 16
  const TWO64: nat := 0x1_0000_0000_0000_0000

  /** One block: payload bytes and whether it is free. */
  datatype Block = Block(size: nat, free: bool)

  /** Rounding up to a multiple of 16 in 64-bit arithmetic. */
  function AlignUp(size: nat): nat {
    (size + 15) % TWO64 / 16 * 16
  }

  /** Rounding covers the request exactly when it does not wrap around. */
  lemma AlignUpCoversIff(size: nat)
    requires size < TWO64
    ensures AlignUp(size) >= size <==> size <= TWO64 - 16
    ensures AlignUp(size) % 16 == 0
  {
  }

  function Span(b: Block): (n: nat) {
    1 + b.size / 16
  }

  function Length(bs: seq<Block>): nat {
    if bs == [] then 0 else Span(bs[0]) + Length(bs[1..])
  }

  ghost predicate Aligned(bs: seq<Block>) {
    forall i :: 0 <= i < |bs| ==> bs[i].size % 16 == 0
  }

  ghost predicate NoAdjacentFree(bs: seq<Block>) {
    forall i :: 0 <= i < |bs| - 1 ==> !(bs[i].free && bs[i + 1].free)
  }

  /** The allocated blocks of a run of blocks starting at granule `at`: header
      position to payload bytes. */
  function Used(bs: seq<Block>, at: nat): map<nat, nat> {
    if bs == [] then map[]
    else
      var rest := Used(bs[1..], at + Span(bs[0]));
      if bs[0].free then rest else rest[at := bs[0].size]
  }

  predicate FitsIn(b: Block, size: nat) {
    b.free && b.size >= size
  }

  /** A fitting block is split if a header and 16 bytes are left over. */
  function Carved(b: Block, size: nat): seq<Block>
    requires FitsIn(b, size)
  {
    if b.size >= size + 32 then [Block(size, false), Block(b.size - size - 16, true)] else [Block(b.size, false)]
  }

  /** First fit; the result is the header position of the block handed out. */
  function Alloc(bs: seq<Block>, size: nat, at: nat): (r: (seq<Block>, Option<nat>)) {
    if bs == [] then ([], None)
    else if FitsIn(bs[0], size) then (Carved(bs[0], size) + bs[1..], Some(at))
    else
      var (rest, p) := Alloc(bs[1..], size, at + Span(bs[0]));
      ([bs[0]] + rest, p)
  }

  function Mark(bs: seq<Block>, p: nat, at: nat): seq<Block> {
    if bs == [] then []
    else if at == p then [bs[0].(free := true)] + bs[1..]
    else [bs[0]] + Mark(bs[1..], p, at + Span(bs[0]))
  }

  function Merge(a: Block, b: Block): Block {
    Block(a.size + 16 + b.size, a.free)
  }

  /** Each free block absorbs the run of free blocks after it. */
  function Coalesce(bs: seq<Block>): seq<Block>
    decreases |bs|
  {
    if |bs| <= 1 then bs
    else if bs[0].free && bs[1].free then Coalesce([Merge(bs[0], bs[1])] + bs[2..])
    else [bs[0]] + Coalesce(bs[1..])
  }

  function Free(bs: seq<Block>, p: nat): seq<Block> {
    Coalesce(Mark(bs, p, 0))
  }

  // What allocation does.

  lemma {:induction false} LengthAppend(a: seq<Block>, b: seq<Block>)
    ensures Length(a + b) == Length(a) + Length(b)
  {
    if a == [] {
      assert a + b == b;
    } else {
      assert (a + b)[1..] == a[1..] + b;
      LengthAppend(a[1..], b);
    }
  }

  lemma {:induction false} UsedAppend(a: seq<Block>, b: seq<Block>, at: nat)
    ensures Used(a + b, at) == Used(a, at) + Used(b, at + Length(a))
  {
    if a == [] {
      assert a + b == b;
    } else {
      UsedBounds(b, at + Length(a));
      assert at !in Used(b, at + Length(a));
      assert (a + b)[1..] == a[1..] + b;
      UsedAppend(a[1..], b, at + Span(a[0]));
    }
  }

  /** Allocated blocks lie within the run, and their payloads do not overlap. */
  lemma {:induction false} UsedBounds(bs: seq<Block>, at: nat)
    ensures forall p :: p in Used(bs, at) ==> at <= p && p + 1 + Used(bs, at)[p] / 16 <= at + Length(bs)
    ensures forall p, q :: p in Used(bs, at) && q in Used(bs, at) && p < q ==> p + 1 + Used(bs, at)[p] / 16 <= q
  {
    if bs != [] {
      UsedBounds(bs[1..], at + Span(bs[0]));
    }
  }

  lemma CarvedFacts(b: Block, size: nat, at: nat)
    requires FitsIn(b, size) && b.size % 16 == 0 && size % 16 == 0
    ensures Length(Carved(b, size)) == Span(b) && Aligned(Carved(b, size))
    ensures Used(Carved(b, size), at).Keys == {at} && Used(Carved(b, size), at)[at] >= size
  {
    var c := Carved(b, size);
    if |c| == 2 {
      assert c[1..] == [c[1]] && c[1..][1..] == [];
      assert Length(c) == Span(c[0]) + Length(c[1..]);
      assert Length(c[1..]) == Span(c[1]);
      assert Used(c[1..], at + Span(c[0])) == map[];
    } else {
      assert c[1..] == [];
      assert Length(c) == Span(c[0]);
    }
  }

  ghost predicate Allocated(bs: seq<Block>, size: nat, at: nat, bs': seq<Block>, p: nat) {
    && p !in Used(bs, at) && p in Used(bs', at) && Used(bs', at)[p] >= size
    && Used(bs', at) == Used(bs, at)[p := Used(bs', at)[p]]
    && at <= p < at + Length(bs)
  }

  lemma AllocFirst(bs: seq<Block>, size: nat, at: nat)
    requires Aligned(bs) && size % 16 == 0 && bs != [] && FitsIn(bs[0], size)
    ensures var bs' := Carved(bs[0], size) + bs[1..];
            Length(bs') == Length(bs) && Aligned(bs') && Allocated(bs, size, at, bs', at)
  {
    var c := Carved(bs[0], size);
    UsedBounds(bs[1..], at + Span(bs[0]));
    CarvedFacts(bs[0], size, at);
    LengthAppend(c, bs[1..]);
    UsedAppend(c, bs[1..], at);
    hide Carved;
    assert Aligned(c + bs[1..]);
  }

  lemma AllocLater(bs: seq<Block>, size: nat, at: nat, rest: seq<Block>, p: nat)
    requires bs != [] && Allocated(bs[1..], size, at + Span(bs[0]), rest, p)
    ensures Allocated(bs, size, at, [bs[0]] + rest, p)
  {
    assert ([bs[0]] + rest)[1..] == rest;
    var was, now := Used(bs[1..], at + Span(bs[0])), Used(rest, at + Span(bs[0]));
    assert now == was[p := now[p]];
    assert p != at;
  }

  /** An allocation that succeeds adds one block of at least the requested size,
      away from every other allocated block, and disturbs none of them; it fails
      exactly when no free block is large enough. */
  lemma {:induction false} AllocEffect(bs: seq<Block>, size: nat, at: nat)
    requires Aligned(bs) && size % 16 == 0
    ensures var (bs', p) := Alloc(bs, size, at);
            && Length(bs') == Length(bs) && Aligned(bs')
            && (p == None <==> forall i :: 0 <= i < |bs| ==> !FitsIn(bs[i], size))
            && (p == None ==> bs' == bs)
            && (p.Some? ==> Allocated(bs, size, at, bs', p.value))
  {
    hide Used;
    if bs != [] {
      if FitsIn(bs[0], size) {
        AllocFirst(bs, size, at);
      } else {
        var (rest, p) := Alloc(bs[1..], size, at + Span(bs[0]));
        AllocEffect(bs[1..], size, at + Span(bs[0]));
        assert ([bs[0]] + rest)[1..] == rest;
        assert forall i :: 1 <= i < |bs| ==> bs[i] == bs[1..][i - 1];
        if p.Some? {
          AllocLater(bs, size, at, rest, p.value);
        }
      }
    }
  }

  lemma {:induction false} AllocKeepsSeparation(bs: seq<Block>, size: nat, at: nat)
    requires NoAdjacentFree(bs)
    ensures NoAdjacentFree(Alloc(bs, size, at).0)
    ensures bs != [] && !bs[0].free ==> Alloc(bs, size, at).0 != [] && !Alloc(bs, size, at).0[0].free
    ensures (bs == [] <==> Alloc(bs, size, at).0 == [])
  {
    if bs != [] {
      assert NoAdjacentFree(bs[1..]);
      if FitsIn(bs[0], size) {
        var c := Carved(bs[0], size);
        var cs := c + bs[1..];
        forall i | 0 <= i < |cs| - 1
          ensures !(cs[i].free && cs[i + 1].free)
        {
          if i >= |c| {
            assert cs[i] == bs[i - |c| + 1] && cs[i + 1] == bs[i - |c| + 2];
          }
        }
      } else {
        AllocKeepsSeparation(bs[1..], size, at + Span(bs[0]));
      }
    }
  }

  // What freeing does.

  lemma MergeFacts(a: Block, b: Block)
    requires a.size % 16 == 0 && b.size % 16 == 0
    ensures Span(Merge(a, b)) == Span(a) + Span(b) && Merge(a, b).size % 16 == 0
  {
  }

  /** Merging keeps the arena tiled and the allocated blocks in place, and leaves
      no two free neighbours. */
  lemma {:induction false} CoalesceEffect(bs: seq<Block>, at: nat)
    requires Aligned(bs)
    ensures var cs := Coalesce(bs);
            && Length(cs) == Length(bs) && Aligned(cs) && NoAdjacentFree(cs)
            && Used(cs, at) == Used(bs, at)
            && (bs != [] ==> cs != [] && cs[0].free == bs[0].free)
    decreases |bs|
  {
    if |bs| > 1 {
      if bs[0].free && bs[1].free {
        var ms := [Merge(bs[0], bs[1])] + bs[2..];
        MergeFacts(bs[0], bs[1]);
        assert bs[1..][1..] == bs[2..] && ms[1..] == bs[2..];
        CoalesceEffect(ms, at);
      } else {
        CoalesceEffect(bs[1..], at + Span(bs[0]));
        var cs := [bs[0]] + Coalesce(bs[1..]);
        assert cs[1..] == Coalesce(bs[1..]);
        assert forall i :: 1 <= i < |cs| ==> cs[i] == Coalesce(bs[1..])[i - 1];
      }
    }
  }

  lemma {:induction false} MarkKeepsShape(bs: seq<Block>, p: nat, at: nat)
    requires Aligned(bs)
    ensures Length(Mark(bs, p, at)) == Length(bs) && Aligned(Mark(bs, p, at))
  {
    if bs != [] {
      var ms := Mark(bs, p, at);
      if at == p {
        assert ms[1..] == bs[1..];
      } else {
        MarkKeepsShape(bs[1..], p, at + Span(bs[0]));
        assert ms[1..] == Mark(bs[1..], p, at + Span(bs[0]));
      }
    }
  }

  lemma {:induction false} MarkRemoves(bs: seq<Block>, p: nat, at: nat)
    requires p in Used(bs, at)
    ensures Used(Mark(bs, p, at), at) == Used(bs, at) - {p}
  {
    var ms := Mark(bs, p, at);
    if at == p {
      UsedBounds(bs[1..], at + Span(bs[0]));
      assert ms[1..] == bs[1..];
    } else {
      MarkRemoves(bs[1..], p, at + Span(bs[0]));
      assert ms[1..] == Mark(bs[1..], p, at + Span(bs[0]));
    }
  }

  /** Freeing an allocated block removes it and nothing else. */
  lemma FreeEffect(bs: seq<Block>, p: nat)
    requires Aligned(bs) && p in Used(bs, 0)
    ensures var cs := Free(bs, p);
            && Length(cs) == Length(bs) && Aligned(cs) && NoAdjacentFree(cs)
            && Used(cs, 0) == Used(bs, 0) - {p}
  {
    MarkKeepsShape(bs, p, 0);
    MarkRemoves(bs, p, 0);
    CoalesceEffect(Mark(bs, p, 0), 0);
  }

  lemma {:induction false} NothingIsCarved(bs: seq<Block>, at: nat)
    requires Aligned(bs) && Alloc(bs, 0, at).1.Some?
    ensures var (bs', p) := Alloc(bs, 0, at); p.value in Used(bs', at) && Used(bs', at)[p.value] <= 16
  {
    if FitsIn(bs[0], 0) {
      var bs' := Carved(bs[0], 0) + bs[1..];
      assert bs'[0] == Carved(bs[0], 0)[0];
    } else {
      var (rest, p) := Alloc(bs[1..], 0, at + Span(bs[0]));
      NothingIsCarved(bs[1..], at + Span(bs[0]));
      AllocEffect(bs[1..], 0, at + Span(bs[0]));
      assert ([bs[0]] + rest)[1..] == rest;
    }
  }

  /** A request that wraps when rounded up is taken for one of nothing: as long as
      anything is free it is given a block, with at most 16 bytes of room. */
  lemma WrappedRequestFits(bs: seq<Block>, bytes: nat)
    requires Aligned(bs) && TWO64 - 15 <= bytes < TWO64
    ensures var (bs', p) := Alloc(bs, AlignUp(bytes), 0);
            && (p == None <==> forall i :: 0 <= i < |bs| ==> !bs[i].free)
            && (p.Some? ==> p.value in Used(bs', 0) && Used(bs', 0)[p.value] <= 16 < bytes)
  {
    assert AlignUp(bytes) == 0;
    AllocEffect(bs, 0, 0);
    if Alloc(bs, 0, 0).1.Some? {
      NothingIsCarved(bs, 0);
    }
  }

  // Runs of allocations and frees.

  ghost predicate Inv(bs: seq<Block>) {
    && Length(bs) == GRANULES && Aligned(bs) && NoAdjacentFree(bs)
  }

  function Initial(): seq<Block> {
    [Block(ARENA_BYTES - 16, true)]
  }

  /** A request, or a free of the block whose header is at `p`. */
  datatype Op = Request(bytes: nat) | Return(p: nat)

  function Step(bs: seq<Block>, op: Op): seq<Block> {
    match op
    case Request(bytes) => if bytes == 0 then bs else Alloc(bs, AlignUp(bytes), 0).0
    case Return(p) => Free(bs, p)
  }

  /** A request is a 64-bit size, even one that wraps when rounded up; only allocated blocks are freed. */
  ghost predicate Proper(bs: seq<Block>, op: Op) {
    match op
    case Request(bytes) => bytes < TWO64
    case Return(p) => p in Used(bs, 0)
  }

  ghost function Run(ops: seq<Op>): seq<Block> {
    if ops == [] then Initial()
    else
      var bs, op := Run(ops[..|ops| - 1]), ops[|ops| - 1];
      if Proper(bs, op) then Step(bs, op) else bs
  }

  lemma InitialInv()
    ensures Inv(Initial())
  {
    assert Initial()[1..] == [];
    assert Length(Initial()) == Span(Initial()[0]) + Length([]);
  }

  lemma StepKeeps(bs: seq<Block>, op: Op)
    requires Inv(bs) && Proper(bs, op)
    ensures Inv(Step(bs, op))
  {
    match op
    case Request(bytes) =>
      AlignUpCoversIff(bytes);
      AllocEffect(bs, AlignUp(bytes), 0);
      AllocKeepsSeparation(bs, AlignUp(bytes), 0);
    case Return(p) => FreeEffect(bs, p);
  }

  /** After any sequence of allocations and frees of live blocks the blocks tile
      the arena, no two free blocks are neighbours, and live payloads are disjoint
      and inside the arena. */
  lemma {:induction false} ArenaStaysTiled(ops: seq<Op>)
    ensures var bs := Run(ops);
            && Inv(bs)
            && (forall p :: p in Used(bs, 0) ==> p + 1 + Used(bs, 0)[p] / 16 <= GRANULES)
            && (forall p, q :: p in Used(bs, 0) && q in Used(bs, 0) && p < q ==> p + 1 + Used(bs, 0)[p] / 16 <= q)
  {
    InitialInv();
    if ops != [] {
      var bs, op := Run(ops[..|ops| - 1]), ops[|ops| - 1];
      ArenaStaysTiled(ops[..|ops| - 1]);
      if Proper(bs, op) {
        StepKeeps(bs, op);
      }
    }
    UsedBounds(Run(ops), 0);
  }

  /** Freeing everything leaves the single block the arena started with. */
  lemma AllFreedIsInitial(bs: seq<Block>)
    requires Inv(bs) && Used(bs, 0) == map[]
    ensures bs == Initial()
  {
    assert |bs| >= 2 ==> !(bs[0].free && bs[1].free);
    AllFree(bs, 0);
    assert |bs| < 2;
    assert bs != [];
    assert bs[1..] == [] && bs == [bs[0]];
    assert Length(bs) == Span(bs[0]);
  }

  lemma {:induction false} AllFree(bs: seq<Block>, at: nat)
    requires Used(bs, at) == map[]
    ensures forall i :: 0 <= i < |bs| ==> bs[i].free
  {
    if bs != [] {
      assert !bs[0].free ==> at in Used(bs, at);
      AllFree(bs[1..], at + Span(bs[0]));
    }
  }

  // The arena itself: headers written among payloads in one array.

  /** Sixteen bytes of memory. Read as a header, `lo` is the payload size and
      `hi` the free flag. */
  datatype Granule = Granule(lo: nat, hi: nat)

  function Header(b: Block): Granule {
    Granule(b.size, if b.free then 1 else 0)
  }

  /** The blocks are laid out in memory from granule `at`. */
  ghost predicate Laid(mem: seq<Granule>, bs: seq<Block>, at: nat) {
    if bs == [] then at <= |mem|
    else at < |mem| && mem[at] == Header(bs[0]) && Laid(mem, bs[1..], at + Span(bs[0]))
  }

  lemma {:induction false} LaidAppend(mem: seq<Granule>, a: seq<Block>, b: seq<Block>, at: nat)
    ensures Laid(mem, a + b, at) <==> Laid(mem, a, at) && Laid(mem, b, at + Length(a))
  {
    if a == [] {
      assert a + b == b;
    } else {
      assert (a + b)[1..] == a[1..] + b;
      LaidAppend(mem, a[1..], b, at + Span(a[0]));
    }
  }

  lemma {:induction false} LaidInside(mem: seq<Granule>, bs: seq<Block>, at: nat)
    requires Laid(mem, bs, at)
    ensures at + Length(bs) <= |mem|
  {
    if bs != [] {
      LaidInside(mem, bs[1..], at + Span(bs[0]));
    }
  }

  /** A layout depends only on the granules it covers. */
  lemma {:induction false} LaidFrame(mem: seq<Granule>, mem': seq<Granule>, bs: seq<Block>, at: nat)
    requires Laid(mem, bs, at) && |mem'| == |mem|
    requires forall i :: at <= i < at + Length(bs) && i < |mem| ==> mem'[i] == mem[i]
    ensures Laid(mem', bs, at)
  {
    if bs != [] {
      LaidFrame(mem, mem', bs[1..], at + Span(bs[0]));
    }
  }

  /** Replacing the middle of a layout: the new blocks span what the old ones did,
      and memory changed only there. */
  lemma {:induction false} LaidReplace(mem: seq<Granule>, mem': seq<Granule>, a: seq<Block>, b: seq<Block>,
                                       b': seq<Block>, c: seq<Block>)
    requires Laid(mem, a + b + c, 0) && |mem'| == |mem| && Length(b') == Length(b)
    requires forall i :: 0 <= i < |mem| && !(Length(a) <= i < Length(a) + Length(b)) ==> mem'[i] == mem[i]
    requires Laid(mem', b', Length(a))
    ensures Laid(mem', a + b' + c, 0)
  {
    hide Laid;
    hide Length;
    LaidAppend(mem, a + b, c, 0);
    LaidAppend(mem, a, b, 0);
    LengthAppend(a, b);
    LengthAppend(a, b');
    LaidFrame(mem, mem', a, 0);
    LaidFrame(mem, mem', c, Length(a) + Length(b));
    LaidAppend(mem', a, b', 0);
    LaidAppend(mem', a + b', c, 0);
  }

  /** No granule of an allocated payload has changed. */
  ghost predicate PayloadsKept(mem: seq<Granule>, mem': seq<Granule>, used: map<nat, nat>) {
    && |mem'| == |mem|
    && forall p, i :: p in used && p < i < p + 1 + used[p] / 16 && i < |mem| ==> mem'[i] == mem[i]
  }

  /** Writing inside the span of a free block touches no allocated payload. */
  lemma {:induction false} WriteInFreeKeepsPayloads(mem: seq<Granule>, mem': seq<Granule>, a: seq<Block>, b: Block,
                                                    c: seq<Block>)
    requires b.free && |mem'| == |mem|
    requires forall i :: 0 <= i < |mem| && !(Length(a) <= i < Length(a) + Span(b)) ==> mem'[i] == mem[i]
    ensures PayloadsKept(mem, mem', Used(a + [b] + c, 0))
  {
    UsedAppend(a + [b], c, 0);
    UsedAppend(a, [b], 0);
    LengthAppend(a, [b]);
    assert [b][1..] == [];
    assert Used([b], Length(a)) == map[];
    assert Length([b]) == Span(b);
    UsedBounds(a, 0);
    UsedBounds(c, Length(a) + Span(b));
  }

  class DarkMatter {
    const mem: array<Granule>
    /** The blocks the headers describe. */
    ghost var blocks: seq<Block>

    ghost predicate Valid()
      reads this, mem
    {
      mem.Length == GRANULES && Inv(blocks) && Laid(mem[..], blocks, 0)
    }

    constructor ()
      ensures Valid() && fresh(mem) && blocks == Initial()
    {
      mem := new Granule[GRANULES](_ => Granule(0, 0));
      new;
      mem[0] := Granule(ARENA_BYTES - 16, 1);
      blocks := Initial();
      InitialInv();
      assert Initial()[1..] == [];
      assert Laid(mem[..], [], 0 + Span(Initial()[0]));
    }

    /** The header after `b`, or the end of the arena (the null of the code). */
    function NextOf(b: nat): nat
      requires b < mem.Length
      reads mem
    {
      b + 1 + mem[b].lo / 16
    }

    /** Allocate `bytes`; the result is the header position, its payload is next. */
    method Allocate(bytes: nat) returns (p: Option<nat>)
      requires Valid() && bytes < TWO64
      modifies this`blocks, mem
      ensures bytes == 0 ==> p == None && blocks == old(blocks) && Valid()
      ensures bytes > 0 ==> (blocks, p) == Alloc(old(blocks), AlignUp(bytes), 0)
      ensures PayloadsKept(old(mem[..]), mem[..], Used(old(blocks), 0))
      ensures Valid()
    {
      if bytes == 0 {
        return None;
      }
      var size := (bytes + 15) % TWO64 / 16 * 16;
      AlignUpCoversIff(bytes);
      ghost var done, rest := [], blocks;
      assert done + rest == blocks;
      var b := 0;
      while b < GRANULES
        invariant Valid() && blocks == old(blocks) && mem[..] == old(mem[..])
        invariant done + rest == blocks && b == Length(done)
        invariant Length(done) + Length(rest) == GRANULES && Laid(mem[..], rest, b)
        invariant forall i :: 0 <= i < |done| ==> !FitsIn(done[i], size)
        decreases |rest|
      {
        assert mem[..][b] == Header(rest[0]);
        StepOver(blocks, done, rest);
        if mem[b].hi == 0 || mem[b].lo < size {
          b := NextOf(b);
          done, rest := done + [rest[0]], rest[1..];
          continue;
        }
        FirstFitHere(done, rest, size);
        TakeBlock(b, size, done, rest);
        return Some(b);
      }
      assert rest == [] && done == blocks;
      AllocEffect(blocks, size, 0);
      return None;
    }

    /** Split the free block at `b` if worthwhile and mark it allocated. */
    method TakeBlock(b: nat, size: nat, ghost done: seq<Block>, ghost rest: seq<Block>)
      requires Valid() && size % 16 == 0
      requires done + rest == blocks && rest != [] && b == Length(done) < GRANULES
      requires mem[b] == Header(rest[0]) && FitsIn(rest[0], size)
      requires Inv(done + (Carved(rest[0], size) + rest[1..]))
      modifies this`blocks, mem
      ensures Valid() && blocks == done + (Carved(rest[0], size) + rest[1..])
      ensures PayloadsKept(old(mem[..]), mem[..], Used(old(blocks), 0))
    {
      ghost var was := mem[..];
      ghost var old_ := rest[0];
      ghost var c := Carved(rest[0], size);
      assert blocks == done + [old_] + rest[1..];
      assert blocks[|done|] == old_;
      CarvedFacts(old_, size, b);
      assert [old_][1..] == [] && Length([old_]) == Span(old_);
      FitsInArena(was, done, old_, rest[1..]);
      if mem[b].lo >= size + 32 {
        mem[b + 1 + size / 16] := Granule(mem[b].lo - size - 16, 1);
        mem[b] := Granule(size, mem[b].hi);
      }
      mem[b] := Granule(mem[b].lo, 0);
      CarvedLaid(mem[..], old_, size, b);
      LaidReplace(was, mem[..], done, [old_], c, rest[1..]);
      WriteInFreeKeepsPayloads(was, mem[..], done, old_, rest[1..]);
      assert done + c + rest[1..] == done + (c + rest[1..]);
      blocks := done + (c + rest[1..]);
    }

    /** A client writes into a payload it was given; the heap stays as it was. */
    method ClientWrite(p: nat, i: nat, g: Granule)
      requires Valid() && p in Used(blocks, 0) && p < i < p + 1 + Used(blocks, 0)[p] / 16
      modifies mem
      ensures Valid() && blocks == old(blocks)
    {
      UsedBounds(blocks, 0);
      ghost var was := mem[..];
      mem[i] := g;
      PayloadIsNotHeader(was, blocks, 0, p, i, g);
    }

    /** Free the block whose payload starts at granule `payload`; addresses outside
        the arena are ignored. */
    method Release(payload: int)
      requires Valid()
      requires 1 <= payload < GRANULES ==> payload - 1 in Used(blocks, 0)
      modifies this`blocks, mem
      ensures Valid()
      ensures 1 <= payload < GRANULES ==> blocks == Free(old(blocks), payload - 1)
      ensures !(1 <= payload < GRANULES) ==> blocks == old(blocks)
      ensures PayloadsKept(old(mem[..]), mem[..], Used(blocks, 0))
    {
      if payload < 1 || payload >= GRANULES {
        return;
      }
      var p := payload - 1;
      ghost var was, bs := mem[..], blocks;
      MarkLaid(was, bs, p, 0);
      mem[p] := Granule(mem[p].lo, 1);
      MarkKeepsShape(bs, p, 0);
      HeaderWriteKeepsPayloads(was, mem[..], bs, p);
      MarkRemoves(bs, p, 0);
      FreeEffect(bs, p);
      ghost var marked := Mark(bs, p, 0);
      MergeFree(marked);
      blocks := Coalesce(marked);
    }

    /** Merge every free block with the free blocks after it, in place. */
    method MergeFree(ghost bs: seq<Block>)
      requires mem.Length == GRANULES && Aligned(bs) && Length(bs) == GRANULES && Laid(mem[..], bs, 0)
      modifies mem
      ensures Laid(mem[..], Coalesce(bs), 0)
      ensures PayloadsKept(old(mem[..]), mem[..], Used(bs, 0))
    {
      hide Laid;
      hide Length;
      hide Used;
      hide Coalesce;
      ghost var done, rest := [], bs;
      assert done + rest == bs && done + Coalesce(rest) == Coalesce(bs);
      LengthEmpty();
      var b := 0;
      while b < GRANULES
        invariant Merging(mem[..], bs, done, rest) && b == Length(done)
        invariant PayloadsKept(old(mem[..]), mem[..], Used(bs, 0))
        decreases |rest|
      {
        HeadHere(mem[..], bs, done, rest);
        if mem[b].hi == 0 {
          MoveOn(mem[..], bs, done, rest);
          b := NextOf(b);
          done, rest := done + [rest[0]], rest[1..];
          continue;
        }
        var n := NextOf(b);
        while n < GRANULES && mem[n].hi != 0
          invariant Merging(mem[..], bs, done, rest) && b == Length(done) && rest != [] && rest[0].free
          invariant b < GRANULES && mem[b] == Header(rest[0]) && n == b + Span(rest[0])
          invariant PayloadsKept(old(mem[..]), mem[..], Used(bs, 0))
          decreases |rest|
        {
          ghost var was := mem[..];
          SecondHere(mem[..], bs, done, rest);
          mem[b] := Granule(mem[b].lo + 16 + mem[n].lo, mem[b].hi);
          assert mem[..] == was[b := Header(Merge(rest[0], rest[1]))];
          Absorb(was, bs, done, rest);
          rest := [Merge(rest[0], rest[1])] + rest[2..];
          n := NextOf(b);
        }
        NextIsNotFree(mem[..], bs, done, rest);
        MoveOn(mem[..], bs, done, rest);
        b := NextOf(b);
        done, rest := done + [rest[0]], rest[1..];
      }
      Merged(mem[..], bs, done, rest);
    }
  }

  lemma LengthEmpty()
    ensures Length([]) == 0
  {
  }

  /** The state of the merge loop: `done` is final, `rest` still to be merged. */
  ghost predicate Merging(mem: seq<Granule>, bs: seq<Block>, done: seq<Block>, rest: seq<Block>) {
    && |mem| == GRANULES
    && Laid(mem, done + rest, 0) && Length(done + rest) == GRANULES && Aligned(rest)
    && Used(done + rest, 0) == Used(bs, 0)
    && done + Coalesce(rest) == Coalesce(bs)
  }

  lemma HeadHere(mem: seq<Granule>, bs: seq<Block>, done: seq<Block>, rest: seq<Block>)
    requires Merging(mem, bs, done, rest) && Length(done) < GRANULES
    ensures rest != [] && mem[Length(done)] == Header(rest[0])
  {
    LengthAppend(done, rest);
    LaidAppend(mem, done, rest, 0);
  }

  lemma SecondHere(mem: seq<Granule>, bs: seq<Block>, done: seq<Block>, rest: seq<Block>)
    requires Merging(mem, bs, done, rest) && rest != [] && Length(done) + Span(rest[0]) < GRANULES
    ensures |rest| >= 2 && mem[Length(done) + Span(rest[0])] == Header(rest[1])
  {
    LengthAppend(done, rest);
    LaidAppend(mem, done, rest, 0);
    assert rest[1..] == [] || rest[1..][0] == rest[1];
    assert Length(rest) == Span(rest[0]) + Length(rest[1..]);
  }

  lemma NextIsNotFree(mem: seq<Granule>, bs: seq<Block>, done: seq<Block>, rest: seq<Block>)
    requires Merging(mem, bs, done, rest) && rest != []
    requires Length(done) + Span(rest[0]) < GRANULES ==> mem[Length(done) + Span(rest[0])].hi == 0
    ensures |rest| >= 2 ==> !rest[1].free
  {
    LengthAppend(done, rest);
    LaidAppend(mem, done, rest, 0);
    if |rest| >= 2 {
      assert rest[1..][0] == rest[1];
      LaidInside(mem, done + rest, 0);
      assert Length(rest) == Span(rest[0]) + Length(rest[1..]);
      assert Length(rest[1..]) == Span(rest[1]) + Length(rest[1..][1..]);
      SecondHere(mem, bs, done, rest);
    }
  }

  lemma MoveOn(mem: seq<Granule>, bs: seq<Block>, done: seq<Block>, rest: seq<Block>)
    requires Merging(mem, bs, done, rest) && rest != []
    requires |rest| >= 2 ==> !(rest[0].free && rest[1].free)
    ensures Merging(mem, bs, done + [rest[0]], rest[1..])
    ensures Length(done + [rest[0]]) == Length(done) + Span(rest[0])
  {
    StepOver(done + rest, done, rest);
    if |rest| == 1 {
      assert rest == [rest[0]] && rest[1..] == [];
    }
    assert Coalesce(rest) == [rest[0]] + Coalesce(rest[1..]);
    assert (done + [rest[0]]) + Coalesce(rest[1..]) == done + ([rest[0]] + Coalesce(rest[1..]));
  }

  lemma Absorb(mem: seq<Granule>, bs: seq<Block>, done: seq<Block>, rest: seq<Block>)
    requires Merging(mem, bs, done, rest) && |rest| >= 2 && rest[0].free && rest[1].free && Length(done) < GRANULES
    ensures var mem' := mem[Length(done) := Header(Merge(rest[0], rest[1]))];
            && Merging(mem', bs, done, [Merge(rest[0], rest[1])] + rest[2..])
            && PayloadsKept(mem, mem', Used(bs, 0))
  {
    var x, y, tail := rest[0], rest[1], rest[2..];
    var m := Merge(x, y);
    Regroup(done, rest, m);
    assert Coalesce(rest) == Coalesce([m] + tail);
    assert x.size % 16 == 0 && y.size % 16 == 0;
    AbsorbLaid(mem, done, x, y, tail);
    AbsorbKeepsUsed(done, x, y, tail);
    MergeFacts(x, y);
    hide Coalesce;
    hide Laid;
    hide Length;
    hide Used;
    assert Aligned([m] + tail);
  }

  lemma {:induction false} Regroup(done: seq<Block>, rest: seq<Block>, m: Block)
    requires |rest| >= 2
    ensures done + rest == done + [rest[0], rest[1]] + rest[2..]
    ensures done + ([m] + rest[2..]) == done + [m] + rest[2..]
  {
  }

  lemma {:induction false} AbsorbLaid(mem: seq<Granule>, done: seq<Block>, x: Block, y: Block, tail: seq<Block>)
    requires Laid(mem, done + [x, y] + tail, 0) && x.free && y.free && x.size % 16 == 0 && y.size % 16 == 0
    requires Length(done) < |mem|
    ensures var m := Merge(x, y);
            var mem' := mem[Length(done) := Header(m)];
            Laid(mem', done + [m] + tail, 0) && PayloadsKept(mem, mem', Used(done + [x, y] + tail, 0))
  {
    hide Laid;
    hide Length;
    hide Used;
    var m := Merge(x, y);
    var mem' := mem[Length(done) := Header(m)];
    MergeFacts(x, y);
    PairLength(x, y);
    FitsPair(mem, done, x, y, tail);
    OneLaid(mem', m, Length(done));
    LaidReplace(mem, mem', done, [x, y], [m], tail);
    assert done + [x, y] + tail == done + [x] + ([y] + tail);
    WriteInFreeKeepsPayloads(mem, mem', done, x, [y] + tail);
  }

  lemma {:induction false} AbsorbKeepsUsed(done: seq<Block>, x: Block, y: Block, tail: seq<Block>)
    requires x.free && y.free && x.size % 16 == 0 && y.size % 16 == 0
    ensures var m := Merge(x, y);
            && Used(done + [m] + tail, 0) == Used(done + [x, y] + tail, 0)
            && Length(done + [m] + tail) == Length(done + [x, y] + tail)
  {
    hide Length;
    hide Used;
    var m := Merge(x, y);
    MergeFacts(x, y);
    PairLength(x, y);
    PairUsed(x, y, Length(done));
    LengthAppend(done + [x, y], tail);
    LengthAppend(done, [x, y]);
    LengthAppend(done + [m], tail);
    LengthAppend(done, [m]);
    UsedAppend(done + [x, y], tail, 0);
    UsedAppend(done, [x, y], 0);
    UsedAppend(done + [m], tail, 0);
    UsedAppend(done, [m], 0);
  }

  lemma PairLength(x: Block, y: Block)
    ensures Length([x, y]) == Span(x) + Span(y)
    ensures Length([Merge(x, y)]) == Span(Merge(x, y))
  {
    assert [x, y][1..] == [y] && [y][1..] == [];
    assert Length([y]) == Span(y);
    assert [Merge(x, y)][1..] == [];
  }

  lemma PairUsed(x: Block, y: Block, at: nat)
    requires x.free && y.free
    ensures Used([x, y], at) == map[] && Used([Merge(x, y)], at) == map[]
  {
    assert [x, y][1..] == [y] && [y][1..] == [];
    assert Used([y], at + Span(x)) == map[];
    assert [Merge(x, y)][1..] == [];
  }

  lemma {:induction false} OneLaid(mem: seq<Granule>, b: Block, at: nat)
    requires at + Span(b) <= |mem| && mem[at] == Header(b)
    ensures Laid(mem, [b], at)
  {
    assert [b][1..] == [];
    assert Laid(mem, [], at + Span(b));
  }

  lemma FitsPair(mem: seq<Granule>, done: seq<Block>, x: Block, y: Block, tail: seq<Block>)
    requires Laid(mem, done + [x, y] + tail, 0)
    ensures Length(done) + Span(x) + Span(y) <= |mem|
  {
    LaidInside(mem, done + [x, y] + tail, 0);
    LengthAppend(done + [x, y], tail);
    LengthAppend(done, [x, y]);
    PairLength(x, y);
  }

  lemma Merged(mem: seq<Granule>, bs: seq<Block>, done: seq<Block>, rest: seq<Block>)
    requires Merging(mem, bs, done, rest) && Length(done) >= GRANULES
    ensures Laid(mem, Coalesce(bs), 0)
  {
    LengthAppend(done, rest);
    assert rest == [];
    assert done + rest == done + Coalesce(rest);
  }

  lemma {:induction false} MarkLaid(mem: seq<Granule>, bs: seq<Block>, p: nat, at: nat)
    requires Laid(mem, bs, at) && p in Used(bs, at)
    ensures p < |mem| && Laid(mem[p := Granule(mem[p].lo, 1)], Mark(bs, p, at), at)
  {
    var ms := Mark(bs, p, at);
    if at == p {
      assert ms[1..] == bs[1..];
      LaidFrame(mem, mem[p := Granule(mem[p].lo, 1)], bs[1..], at + Span(bs[0]));
    } else {
      MarkLaid(mem, bs[1..], p, at + Span(bs[0]));
      assert ms[1..] == Mark(bs[1..], p, at + Span(bs[0]));
    }
  }

  /** A write to an allocated block's header is outside every payload. */
  lemma HeaderWriteKeepsPayloads(mem: seq<Granule>, mem': seq<Granule>, bs: seq<Block>, p: nat)
    requires p in Used(bs, 0) && p < |mem| == |mem'|
    requires forall i :: 0 <= i < |mem| && i != p ==> mem'[i] == mem[i]
    ensures PayloadsKept(mem, mem', Used(bs, 0))
  {
    UsedBounds(bs, 0);
  }

  lemma {:induction false} PayloadIsNotHeader(mem: seq<Granule>, bs: seq<Block>, at: nat, p: nat, i: nat, g: Granule)
    requires Laid(mem, bs, at) && p in Used(bs, at) && p < i < p + 1 + Used(bs, at)[p] / 16 && i < |mem|
    ensures Laid(mem[i := g], bs, at)
  {
    if at == p {
      UsedBounds(bs[1..], at + Span(bs[0]));
      LaidFrame(mem, mem[i := g], bs[1..], at + Span(bs[0]));
    } else {
      UsedBounds(bs[1..], at + Span(bs[0]));
      PayloadIsNotHeader(mem, bs[1..], at + Span(bs[0]), p, i, g);
    }
  }

  /** First fit passes over blocks that do not fit. */
  lemma {:induction false} AllocSkips(a: seq<Block>, b: seq<Block>, size: nat, at: nat)
    requires forall i :: 0 <= i < |a| ==> !FitsIn(a[i], size)
    ensures Alloc(a + b, size, at) == (a + Alloc(b, size, at + Length(a)).0, Alloc(b, size, at + Length(a)).1)
  {
    if a == [] {
      assert a + b == b;
      assert a + Alloc(b, size, at).0 == Alloc(b, size, at).0;
    } else {
      assert (a + b)[1..] == a[1..] + b;
      AllocSkips(a[1..], b, size, at + Span(a[0]));
      var (r, p) := Alloc(b, size, at + Length(a));
      assert Alloc(a + b, size, at) == ([a[0]] + (a[1..] + r), p);
      hide Alloc;
      assert [a[0]] + (a[1..] + r) == a + r;
    }
  }

  lemma {:induction false} FirstFitHere(done: seq<Block>, rest: seq<Block>, size: nat)
    requires Inv(done + rest) && rest != [] && FitsIn(rest[0], size) && size % 16 == 0
    requires forall i :: 0 <= i < |done| ==> !FitsIn(done[i], size)
    ensures Alloc(done + rest, size, 0) == (done + (Carved(rest[0], size) + rest[1..]), Some(Length(done)))
    ensures Inv(done + (Carved(rest[0], size) + rest[1..]))
  {
    AllocSkips(done, rest, size, 0);
    assert Alloc(rest, size, Length(done)) == (Carved(rest[0], size) + rest[1..], Some(Length(done)));
    hide Alloc;
    hide Length;
    hide Used;
    hide Carved;
    AllocEffect(done + rest, size, 0);
    AllocKeepsSeparation(done + rest, size, 0);
  }

  lemma StepOver(bs: seq<Block>, done: seq<Block>, rest: seq<Block>)
    requires bs == done + rest && rest != []
    ensures bs == (done + [rest[0]]) + rest[1..]
    ensures Length(done + [rest[0]]) == Length(done) + Span(rest[0])
  {
    LengthAppend(done, [rest[0]]);
    assert [rest[0]][1..] == [];
    assert Length([rest[0]]) == Span(rest[0]);
  }

  lemma FitsInArena(mem: seq<Granule>, done: seq<Block>, b: Block, rest: seq<Block>)
    requires Laid(mem, done + [b] + rest, 0)
    ensures Length(done) + Span(b) <= |mem|
  {
    LaidInside(mem, done + [b] + rest, 0);
    LengthAppend(done + [b], rest);
    LengthAppend(done, [b]);
    assert [b][1..] == [];
    assert Length([b]) == Span(b);
  }

  lemma CarvedLaid(mem: seq<Granule>, b: Block, size: nat, at: nat)
    requires FitsIn(b, size) && b.size % 16 == 0 && size % 16 == 0
    requires at + Span(b) <= |mem|
    requires b.size >= size + 32 ==>
               mem[at] == Granule(size, 0) && mem[at + 1 + size / 16] == Granule(b.size - size - 16, 1)
    requires b.size < size + 32 ==> mem[at] == Granule(b.size, 0)
    ensures Laid(mem, Carved(b, size), at)
  {
    var c := Carved(b, size);
    if b.size >= size + 32 {
      assert c[1..] == [c[1]] && c[1..][1..] == [];
      assert Laid(mem, [], at + Span(b));
      assert Laid(mem, c[1..], at + Span(c[0]));
    } else {
      assert c[1..] == [];
      assert Laid(mem, [], at + Span(b));
    }
  }
}
