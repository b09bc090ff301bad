/** Little-endian fields inside a block of bytes.
 */
module LittleEndian {
  import opened Basics

  function Le16(v: nat): (s: seq<byte>)
    requires v < 0x1_0000
    ensures |s| == 2
  {
    [v % 256, v / 256]
  }

  function Le32(v: u32): (s: seq<byte>)
    ensures |s| == 4
  {
    Le16(v % 65536) + Le16(v / 65536)
  }

  function Join(lo: int, hi: int, radix: int): int {
    lo + radix * hi
  }

  function Rd16(s: seq<byte>, at: nat): (v: nat)
    requires at + 2 <= |s|
    ensures v < 0x1_0000
  {
    Join(s[at], s[at + 1], 256)
  }

  function Rd32(s: seq<byte>, at: nat): u32
    requires at + 4 <= |s|
  {
    Join(Rd16(s, at), Rd16(s, at + 2), 65536)
  }

  lemma Le32Round(v: u32)
    ensures Rd32(Le32(v), 0) == v
  {
    var s := Le32(v);
    assert Rd16(s, 0) == v % 65536 && Rd16(s, 2) == v / 65536;
  }

  // Overwriting a stretch of a block.

  function Splice(s: seq<byte>, at: nat, bytes: seq<byte>): (r: seq<byte>)
    requires at + |bytes| <= |s|
    ensures |r| == |s|
  {
    s[..at] + bytes + s[at + |bytes|..]
  }

  lemma SpliceAt(s: seq<byte>, at: nat, bytes: seq<byte>)
    requires at + |bytes| <= |s|
    ensures forall i :: 0 <= i < |s| && !(at <= i < at + |bytes|) ==> Splice(s, at, bytes)[i] == s[i]
    ensures Splice(s, at, bytes)[at..at + |bytes|] == bytes
  {
  }

  lemma SpliceOn(s: seq<byte>, at: nat, x: seq<byte>, y: seq<byte>)
    requires at + |x| + |y| <= |s|
    ensures Splice(Splice(s, at, x), at + |x|, y) == Splice(s, at, x + y)
  {
  }

  /** Writing inside a stretch is writing inside that slice. */
  lemma SpliceInside(s: seq<byte>, off: nat, n: nat, at: nat, bytes: seq<byte>)
    requires off + n <= |s| && at + |bytes| <= n
    ensures Splice(s, off + at, bytes)[off..off + n] == Splice(s[off..off + n], at, bytes)
  {
  }
}
