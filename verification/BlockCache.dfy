/** The ext2 block cache: direct-mapped, write-through, with a clamped
    read-ahead window on sequential misses.  Every transfer may fail.
 */
module BlockCache {
  import opened Basics

  type Sector = seq<byte>
  type Block = seq<Sector>
  /** The device, read as consecutive file-system blocks. */
  type Disk = seq<Block>

  const LINES: nat := 8192
  const READ_AHEAD: nat := 8
  const NEVER: u32 := 0xFFFF_FFFF

  /** spb: sectors per block (1, 2 and 4 KiB blocks); blocks: the superblock's block count. */
  datatype Geometry = Geometry(spb: nat, blocks: u32)

  datatype Line = Empty | Holds(block: u32, data: Block)

  datatype Cache = Cache(disk: Disk, lines: seq<Line>, last: u32)

  datatype Outcome = Failed | Data(block: Block)

  /** A device whose block numbers all fit the code's 32-bit block type. */
  predicate Device(disk: Disk, g: Geometry) {
    && g.spb in {2, 4, 8}
    && |disk| <= 0x1_0000_0000
    && forall b :: 0 <= b < |disk| ==> |disk[b]| == g.spb
  }

  predicate Shape(c: Cache, g: Geometry) {
    Device(c.disk, g) && |c.lines| == LINES
  }

  function Ahead(g: Geometry, b: u32): (n: nat)
    ensures n <= READ_AHEAD
  {
    if (b + READ_AHEAD) % 0x1_0000_0000 <= g.blocks then READ_AHEAD
    else if b < g.blocks then g.blocks - b else 1
  }

  // Reading: hit, sequential miss (window), plain miss.

  predicate Hit(c: Cache, b: u32)
    requires |c.lines| == LINES
  {
    var line := c.lines[b % LINES];
    line.Holds? && line.block == b
  }

  predicate Windowed(c: Cache, g: Geometry, b: u32, aheadUp: bool) {
    && b == (c.last + 1) % 0x1_0000_0000
    && Ahead(g, b) > 1 && aheadUp && b + Ahead(g, b) <= |c.disk|
  }

  /** Lines after the first n blocks of a window starting at b were copied in. */
  function Filled(disk: Disk, lines: seq<Line>, b: u32, n: nat): (r: seq<Line>)
    requires |lines| == LINES && b + n <= |disk| <= 0x1_0000_0000
    ensures |r| == LINES
  {
    if n == 0 then lines else
      var k: u32 := b + n - 1;
      Filled(disk, lines, b, n - 1)[k % LINES := Holds(k, disk[k])]
  }

  function Read(c: Cache, g: Geometry, b: u32, aheadUp: bool, up: bool): (r: (Cache, Outcome))
    requires Shape(c, g)
    ensures Shape(r.0, g) && r.0.disk == c.disk
  {
    if Hit(c, b) then (c.(last := b), Data(c.lines[b % LINES].data))
    else if Windowed(c, g, b, aheadUp) then
      (Cache(c.disk, Filled(c.disk, c.lines, b, Ahead(g, b)), b + Ahead(g, b) - 1), Data(c.disk[b]))
    else if up && b < |c.disk| then
      (Cache(c.disk, c.lines[b % LINES := Holds(b, c.disk[b])], b), Data(c.disk[b]))
    else (c.(last := b), Failed)
  }

  // Writing: sector by sector, stopping at the first failed transfer.

  /** The sectors that reach the device when only `sent` transfers can succeed. */
  function Reached(disk: Disk, g: Geometry, b: u32, sent: nat): (n: nat)
    ensures n <= g.spb
  {
    if b >= |disk| then 0 else if sent < g.spb then sent else g.spb
  }

  function Stored(disk: Disk, b: u32, src: Block, n: nat): (r: Disk)
    requires n <= |src| && (n > 0 ==> b < |disk| && |disk[b]| == |src|)
    ensures |r| == |disk|
  {
    if n == 0 then disk else disk[b := src[..n] + disk[b][n..]]
  }

  function Write(c: Cache, g: Geometry, b: u32, src: Block, sent: nat): (r: (Cache, bool))
    requires Shape(c, g) && |src| == g.spb
    ensures Shape(r.0, g)
  {
    var n := Reached(c.disk, g, b, sent);
    var disk := Stored(c.disk, b, src, n);
    if n < g.spb then (c.(disk := disk), false)
    else (c.(disk := disk, lines := c.lines[b % LINES := Holds(b, src)]), true)
  }

  // The superblock counters are rewritten in sectors 2 and 3, around the cache.

  function Super(g: Geometry): u32
    requires g.spb in {2, 4, 8}
  {
    2 / g.spb
  }

  function Adjusted(disk: Disk, g: Geometry, first: Sector, second: Sector, up2: bool, up3: bool): (r: Disk)
    requires Device(disk, g) && |disk| >= 2
    ensures Device(r, g) && |r| == |disk|
  {
    var b := Super(g);
    var at := 2 % g.spb;
    var s := if up2 then disk[b][at := first] else disk[b];
    disk[b := if up3 then s[at + 1 := second] else s]
  }

  // Coherence.

  ghost predicate LineFresh(disk: Disk, lines: seq<Line>, i: nat, dirty: set<u32>)
    requires i < |lines|
  {
    lines[i].Holds? ==>
      && lines[i].block % LINES == i
      && (lines[i].block !in dirty ==>
            lines[i].block < |disk| && lines[i].data == disk[lines[i].block])
  }

  /** Every line of a block outside `dirty` holds what the device holds. */
  ghost predicate Coherent(c: Cache, g: Geometry, dirty: set<u32>) {
    && Shape(c, g)
    && forall i :: 0 <= i < LINES ==> LineFresh(c.disk, c.lines, i, dirty)
  }

  lemma {:induction false} FilledFresh(c: Cache, g: Geometry, b: u32, n: nat, dirty: set<u32>)
    requires Coherent(c, g, dirty) && b + n <= |c.disk|
    ensures Coherent(c.(lines := Filled(c.disk, c.lines, b, n)), g, dirty)
  {
    if n > 0 {
      FilledFresh(c, g, b, n - 1, dirty);
      var lines, lines' := Filled(c.disk, c.lines, b, n - 1), Filled(c.disk, c.lines, b, n);
      forall i | 0 <= i < LINES
        ensures LineFresh(c.disk, lines', i, dirty)
      {
        assert LineFresh(c.disk, lines, i, dirty);
      }
    }
  }

  lemma ReadKeeps(c: Cache, g: Geometry, b: u32, aheadUp: bool, up: bool, dirty: set<u32>)
    requires Coherent(c, g, dirty)
    ensures Coherent(Read(c, g, b, aheadUp, up).0, g, dirty)
  {
    if Hit(c, b) {
    } else if Windowed(c, g, b, aheadUp) {
      FilledFresh(c, g, b, Ahead(g, b), dirty);
    } else if up && b < |c.disk| {
      FilledFresh(c, g, b, 1, dirty);
      assert Filled(c.disk, c.lines, b, 0) == c.lines;
      assert Filled(c.disk, c.lines, b, 1) == c.lines[b % LINES := Holds(b, c.disk[b])];
    }
  }

  /** A coherent read is the uncached read, and fails only when the uncached one would. */
  lemma ReadIsContent(c: Cache, g: Geometry, b: u32, aheadUp: bool, up: bool, dirty: set<u32>)
    requires Coherent(c, g, dirty) && b !in dirty
    ensures var r := Read(c, g, b, aheadUp, up).1;
            && (r.Data? ==> b < |c.disk| && r.block == c.disk[b])
            && (up && b < |c.disk| ==> r.Data?)
  {
    assert LineFresh(c.disk, c.lines, b % LINES, dirty);
  }

  /** The blocks a write leaves in doubt: its own when it stops part way. */
  function Doubt(disk: Disk, g: Geometry, b: u32, sent: nat, dirty: set<u32>): (r: set<u32>) {
    var n := Reached(disk, g, b, sent);
    if n == g.spb then dirty - {b} else if n == 0 then dirty else dirty + {b}
  }

  lemma WriteKeeps(c: Cache, g: Geometry, b: u32, src: Block, sent: nat, dirty: set<u32>)
    requires Coherent(c, g, dirty) && |src| == g.spb
    ensures Coherent(Write(c, g, b, src, sent).0, g, Doubt(c.disk, g, b, sent, dirty))
  {
    var c' := Write(c, g, b, src, sent).0;
    var dirty' := Doubt(c.disk, g, b, sent, dirty);
    assert src[..g.spb] == src;
    forall i | 0 <= i < LINES
      ensures LineFresh(c'.disk, c'.lines, i, dirty')
    {
      assert LineFresh(c.disk, c.lines, i, dirty);
    }
  }

  lemma AdjustKeeps(c: Cache, g: Geometry, first: Sector, second: Sector, up2: bool, up3: bool, dirty: set<u32>)
    requires Coherent(c, g, dirty) && |c.disk| >= 2
    ensures Coherent(c.(disk := Adjusted(c.disk, g, first, second, up2, up3)), g, dirty + {Super(g)})
  {
    forall i | 0 <= i < LINES
      ensures LineFresh(Adjusted(c.disk, g, first, second, up2, up3), c.lines, i, dirty + {Super(g)})
    {
      assert LineFresh(c.disk, c.lines, i, dirty);
    }
  }

  // Whole runs, against a disk without any cache.

  datatype Event =
    | ReadBlock(b: u32, aheadUp: bool, up: bool)
    | WriteBlock(b: u32, src: Block, sent: nat)
    | SbAdjust(first: Sector, second: Sector, up2: bool, up3: bool)

  function Boot(disk: Disk): (c: Cache)
    ensures |c.lines| == LINES
  {
    Cache(disk, seq(LINES, _ => Empty), NEVER)
  }

  function Step(c: Cache, g: Geometry, e: Event): (r: Cache)
    requires Shape(c, g)
    ensures Shape(r, g)
  {
    match e
    case ReadBlock(b, aheadUp, up) => Read(c, g, b, aheadUp, up).0
    case WriteBlock(b, src, sent) => if |src| == g.spb then Write(c, g, b, src, sent).0 else c
    case SbAdjust(first, second, up2, up3) =>
      if |c.disk| >= 2 then c.(disk := Adjusted(c.disk, g, first, second, up2, up3)) else c
  }

  function Run(disk: Disk, g: Geometry, events: seq<Event>): (r: Cache)
    requires Device(disk, g)
    ensures Shape(r, g)
  {
    if events == [] then Boot(disk)
    else Step(Run(disk, g, events[..|events| - 1]), g, events[|events| - 1])
  }

  /** The same run on the bare device. */
  function Plain(disk: Disk, g: Geometry, events: seq<Event>): (r: Disk)
    requires Device(disk, g)
    ensures Device(r, g) && |r| == |disk|
  {
    if events == [] then disk else
      var d := Plain(disk, g, events[..|events| - 1]);
      match events[|events| - 1]
      case ReadBlock(_, _, _) => d
      case WriteBlock(b, src, sent) =>
        if |src| == g.spb then Stored(d, b, src, Reached(d, g, b, sent)) else d
      case SbAdjust(first, second, up2, up3) =>
        if |d| >= 2 then Adjusted(d, g, first, second, up2, up3) else d
  }

  /** The superblock's block once adjusted, and every block whose last write stopped part way. */
  function Dirty(disk: Disk, g: Geometry, events: seq<Event>): (r: set<u32>)
    requires Device(disk, g)
  {
    if events == [] then {} else
      var dirty := Dirty(disk, g, events[..|events| - 1]);
      match events[|events| - 1]
      case ReadBlock(_, _, _) => dirty
      case WriteBlock(b, src, sent) => if |src| == g.spb then Doubt(disk, g, b, sent, dirty) else dirty
      case SbAdjust(_, _, _, _) => if |disk| >= 2 then dirty + {Super(g)} else dirty
  }

  lemma {:induction false} RunCoherent(disk: Disk, g: Geometry, events: seq<Event>)
    requires Device(disk, g)
    ensures Run(disk, g, events).disk == Plain(disk, g, events)
    ensures Coherent(Run(disk, g, events), g, Dirty(disk, g, events))
  {
    if events != [] {
      var before := events[..|events| - 1];
      RunCoherent(disk, g, before);
      var c, dirty := Run(disk, g, before), Dirty(disk, g, before);
      match events[|events| - 1]
      case ReadBlock(b, aheadUp, up) => ReadKeeps(c, g, b, aheadUp, up, dirty);
      case WriteBlock(b, src, sent) =>
        if |src| == g.spb { WriteKeeps(c, g, b, src, sent, dirty); }
      case SbAdjust(first, second, up2, up3) =>
        if |disk| >= 2 { AdjustKeeps(c, g, first, second, up2, up3, dirty); }
    }
  }

  /** After any run, with any transfers failing, a read of a block that is not in
      doubt returns exactly what the bare device holds, and fails only if the device does. */
  lemma ReadsAreTransparent(disk: Disk, g: Geometry, events: seq<Event>, b: u32, aheadUp: bool, up: bool)
    requires Device(disk, g) && b !in Dirty(disk, g, events)
    ensures var d := Plain(disk, g, events);
            var r := Read(Run(disk, g, events), g, b, aheadUp, up).1;
            && (r.Data? ==> b < |d| && r.block == d[b])
            && (up && b < |d| ==> r.Data?)
  {
    RunCoherent(disk, g, events);
    ReadIsContent(Run(disk, g, events), g, b, aheadUp, up, Dirty(disk, g, events));
  }

  predicate Whole(g: Geometry, e: Event) {
    e.WriteBlock? ==> e.sent >= g.spb
  }

  /** With transfers that succeed, only the superblock's block can be in doubt. */
  lemma {:induction false} OnlySuperInDoubt(disk: Disk, g: Geometry, events: seq<Event>)
    requires Device(disk, g)
    requires forall i :: 0 <= i < |events| ==> Whole(g, events[i])
    ensures Dirty(disk, g, events) <= {Super(g)}
  {
    if events != [] {
      OnlySuperInDoubt(disk, g, events[..|events| - 1]);
      assert Whole(g, events[|events| - 1]);
    }
  }

  /** A cached superblock reads stale after an adjustment exactly when a counter sector changed. */
  lemma SuperStaleIff(c: Cache, g: Geometry, first: Sector, second: Sector)
    requires Coherent(c, g, {}) && |c.disk| >= 2
    ensures var b := Super(g);
            var disk := Adjusted(c.disk, g, first, second, true, true);
            var r := Read(c.(disk := disk), g, b, true, true).1;
            && r.Data?
            && (r.block == disk[b] <==>
                !Hit(c, b) || (first == c.disk[b][2 % g.spb] && second == c.disk[b][2 % g.spb + 1]))
  {
    var b := Super(g);
    assert LineFresh(c.disk, c.lines, b % LINES, {});
    var was, now := c.disk[b], Adjusted(c.disk, g, first, second, true, true)[b];
    var at := 2 % g.spb;
    assert now[at] == first && now[at + 1] == second;
    if first == was[at] && second == was[at + 1] {
      assert now == was;
    }
  }

  lemma {:induction false} FilledHolds(disk: Disk, lines: seq<Line>, b: u32, n: nat)
    requires |lines| == LINES && 0 < n <= LINES && b + n <= |disk| <= 0x1_0000_0000
    ensures Filled(disk, lines, b, n)[b % LINES] == Holds(b, disk[b])
  {
    if n > 1 {
      FilledHolds(disk, lines, b, n - 1);
    }
  }

  /** A block that has just been read is in the cache, with what the device holds. */
  lemma ReadIsKept(c: Cache, g: Geometry, b: u32)
    requires Coherent(c, g, {}) && b < |c.disk|
    ensures var c' := Read(c, g, b, true, true).0;
            c'.disk == c.disk && c'.lines[b % LINES] == Holds(b, c.disk[b])
  {
    assert LineFresh(c.disk, c.lines, b % LINES, {});
    if !Hit(c, b) && Windowed(c, g, b, true) {
      FilledHolds(c.disk, c.lines, b, Ahead(g, b));
    }
  }

  /** Read the superblock's block, then adjust the counters: the next read of it,
      on any device, returns the counters from before. */
  lemma AdjustedSuperIsStale(disk: Disk, g: Geometry, first: Sector, second: Sector)
    requires Device(disk, g) && |disk| >= 2 && first != disk[Super(g)][2 % g.spb]
    ensures var events := [ReadBlock(Super(g), true, true), SbAdjust(first, second, true, true)];
            && Read(Run(disk, g, events), g, Super(g), true, true).1 == Data(disk[Super(g)])
            && Plain(disk, g, events)[Super(g)] != disk[Super(g)]
  {
    var b := Super(g);
    var e0, e1 := ReadBlock(b, true, true), SbAdjust(first, second, true, true);
    var c := Read(Boot(disk), g, b, true, true).0;
    assert Coherent(Boot(disk), g, {}) && b < |disk|;
    AdjustedDiffers(disk, g, first, second);
    hide Adjusted;
    hide Super;
    ReadIsKept(Boot(disk), g, b);
    hide Read;
    TwoSteps(disk, g, e0, e1);
    assert Step(Boot(disk), g, e0) == c;
    var c' := c.(disk := Adjusted(disk, g, first, second, true, true));
    assert Step(c, g, e1) == c';
    HitReads(c', g, b);
    hide Run;
    RunCoherent(disk, g, [e0, e1]);
    hide Plain;
  }

  lemma AdjustedDiffers(disk: Disk, g: Geometry, first: Sector, second: Sector)
    requires Device(disk, g) && |disk| >= 2 && first != disk[Super(g)][2 % g.spb]
    ensures Adjusted(disk, g, first, second, true, true)[Super(g)] != disk[Super(g)]
  {
    assert Adjusted(disk, g, first, second, true, true)[Super(g)][2 % g.spb] == first;
  }

  lemma TwoSteps(disk: Disk, g: Geometry, e0: Event, e1: Event)
    requires Device(disk, g)
    ensures Run(disk, g, [e0, e1]) == Step(Step(Boot(disk), g, e0), g, e1)
  {
    hide Step;
    assert [e0, e1][..1] == [e0] && [e0][..0] == [];
    assert Run(disk, g, [e0]) == Step(Run(disk, g, []), g, e0);
  }

  lemma HitReads(c: Cache, g: Geometry, b: u32)
    requires Shape(c, g) && c.lines[b % LINES].Holds? && c.lines[b % LINES].block == b
    ensures Read(c, g, b, true, true).1 == Data(c.lines[b % LINES].data)
  {
  }

  // The cache as the code updates it.

  class BlkCache {
    const g: Geometry
    const disk: array<Block>
    const lines: array<Line>
    var last: u32

    ghost predicate Valid()
      reads this, disk, lines
    {
      Shape(View(), g)
    }

    ghost function View(): (c: Cache)
      reads this, disk, lines
    {
      Cache(disk[..], lines[..], last)
    }

    constructor (geometry: Geometry, image: Disk)
      requires Device(image, geometry)
      ensures g == geometry && Valid() && View() == Boot(image)
      ensures fresh(disk) && fresh(lines)
    {
      g := geometry;
      disk := new Block[|image|](i requires 0 <= i < |image| => image[i]);
      lines := new Line[LINES](_ => Empty);
      last := NEVER;
      new;
      assert disk[..] == image;
      assert lines[..] == Boot(image).lines;
    }

    method ReadBlock(b: u32, aheadUp: bool, up: bool) returns (r: Outcome)
      requires Valid()
      modifies lines, this`last
      ensures Valid() && (View(), r) == Read(old(View()), g, b, aheadUp, up)
    {
      var idx := b % LINES;
      if lines[idx].Holds? && lines[idx].block == b {
        r := Data(lines[idx].data);
        last := b;
        return;
      }
      var sequential := b == (last + 1) % 0x1_0000_0000;
      last := b;
      if sequential {
        var n := READ_AHEAD;
        if (b + n) % 0x1_0000_0000 > g.blocks {
          n := if b < g.blocks then g.blocks - b else 1;
        }
        if n > 1 && aheadUp && b + n <= disk.Length {
          var first := FillWindow(b, n);
          last := b + n - 1;
          r := Data(first);
          return;
        }
      }
      if !up || b >= disk.Length {
        r := Failed;
        return;
      }
      lines[idx] := Holds(b, disk[b]);
      r := Data(disk[b]);
    }

    /** The window transfer and the loop that spreads it over the lines. */
    method FillWindow(b: u32, n: nat) returns (first: Block)
      requires Valid() && n > 0 && b + n <= disk.Length
      modifies lines
      ensures Valid() && first == disk[b]
      ensures lines[..] == Filled(disk[..], old(lines[..]), b, n)
    {
      var window := disk[b..b + n];
      first := window[0];
      var k := 0;
      while k < n
        invariant 0 <= k <= n && lines.Length == LINES
        invariant lines[..] == Filled(disk[..], old(lines[..]), b, k)
      {
        ghost var was := lines[..];
        var block: u32 := b + k;
        lines[block % LINES] := Holds(block, window[k]);
        assert lines[..] == was[block % LINES := Holds(block, disk[block])];
        k := k + 1;
      }
    }

    method WriteBlock(b: u32, src: Block, sent: nat) returns (ok: bool)
      requires Valid() && |src| == g.spb
      modifies disk, lines
      ensures Valid() && (View(), ok) == Write(old(View()), g, b, src, sent)
    {
      ghost var was := old(disk[..]);
      var s := 0;
      while s < g.spb
        invariant 0 <= s <= Reached(was, g, b, sent)
        invariant lines[..] == old(lines[..])
        invariant disk[..] == Stored(was, b, src, s)
      {
        if s >= sent || b >= disk.Length {
          return false;
        }
        disk[b] := disk[b][s := src[s]];
        assert disk[b] == src[..s + 1] + was[b][s + 1..];
        s := s + 1;
      }
      lines[b % LINES] := Holds(b, src);
      ok := true;
    }

    method AdjustSuper(first: Sector, second: Sector, up2: bool, up3: bool)
      requires Valid() && disk.Length >= 2
      modifies disk
      ensures Valid()
      ensures View() == old(View()).(disk := Adjusted(old(disk[..]), g, first, second, up2, up3))
    {
      var b, at := 2 / g.spb, 2 % g.spb;
      if up2 {
        disk[b] := disk[b][at := first];
      }
      if up3 {
        disk[b] := disk[b][at + 1 := second];
      }
    }
  }
}
