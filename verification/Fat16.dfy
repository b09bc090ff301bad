/** The FAT16 backend: mirrored allocation tables, cluster chains, and whole-file
    write, read and unlink over them.
 */
module Fat16 {
  import opened Basics
  import opened Rings
  import opened ShortNames

  const END: u16 := 0xFFFF
  const LAST: u16 := 0xFFF8
  const GUARD: nat := 100000
  const SECTOR: nat := 512

  /** One allocation table: entry c says which cluster follows c. */
  type Table = seq<u16>

  // Chains.

  predicate InTable(n: nat, s: seq<nat>) {
    forall i :: 0 <= i < |s| ==> 2 <= s[i] < n
  }

  ghost predicate Follows(fat: Table, s: seq<nat>, i: nat)
    requires InTable(|fat|, s) && i < |s|
  {
    if i + 1 < |s| then fat[s[i]] == s[i + 1] else fat[s[i]] >= LAST
  }

  /** s lists the clusters of a chain, first to last; an empty file has none. */
  ghost predicate IsChain(fat: Table, s: seq<nat>) {
    && InTable(|fat|, s)
    && (forall i :: 0 <= i < |s| ==> Follows(fat, s, i))
    && (forall i, j :: 0 <= i < j < |s| ==> s[i] != s[j])
  }

  function Head(s: seq<nat>): nat {
    if s == [] then 0 else s[0]
  }

  lemma ChainFrame(fat: Table, fat': Table, s: seq<nat>)
    requires IsChain(fat, s) && |fat'| == |fat|
    requires forall i :: 0 <= i < |s| ==> fat'[s[i]] == fat[s[i]]
    ensures IsChain(fat', s)
  {
    forall i | 0 <= i < |s|
      ensures Follows(fat', s, i)
    {
      assert Follows(fat, s, i);
    }
  }

  /** A free cluster is on no chain. */
  lemma FreeNotOnChain(fat: Table, s: seq<nat>, c: nat)
    requires IsChain(fat, s) && c < |fat| && fat[c] == 0
    ensures c !in s
  {
    forall i | 0 <= i < |s|
      ensures s[i] != c
    {
      assert Follows(fat, s, i);
    }
  }

  /** Linking a fresh end-of-chain cluster behind the last one. */
  lemma ChainGrows(fat: Table, s: seq<nat>, c: nat)
    requires IsChain(fat, s) && 2 <= c < |fat| < 0x1_0000 && c !in s && fat[c] >= LAST
    ensures IsChain(if s == [] then fat else fat[s[|s| - 1] := c], s + [c])
  {
    var fat' := if s == [] then fat else fat[s[|s| - 1] := c];
    var t := s + [c];
    forall i | 0 <= i < |t|
      ensures Follows(fat', t, i)
    {
      if i < |s| {
        assert Follows(fat, s, i);
      }
    }
  }

  /** The table after every cluster of s was set free. */
  ghost predicate Cleared(fat: Table, fat': Table, s: seq<nat>) {
    |fat'| == |fat| && forall c :: 0 <= c < |fat| ==> fat'[c] == if c in s then 0 else fat[c]
  }

  // Counting free clusters.

  /** The free clusters numbered below n. */
  function FreeBelow(fat: Table, n: nat): (r: nat)
    requires n <= |fat|
  {
    if n <= 2 then 0 else FreeBelow(fat, n - 1) + if fat[n - 1] == 0 then 1 else 0
  }

  function FreeCount(fat: Table): (r: nat) {
    FreeBelow(fat, |fat|)
  }

  function One(b: bool): nat {
    if b then 1 else 0
  }

  lemma {:induction false} FreeSet(fat: Table, c: nat, v: u16, n: nat)
    requires 2 <= c < |fat| && n <= |fat|
    ensures FreeBelow(fat[c := v], n) + One(c < n && fat[c] == 0) == FreeBelow(fat, n) + One(c < n && v == 0)
  {
    if n > 2 {
      FreeSet(fat, c, v, n - 1);
    }
  }

  lemma {:induction false} NoneFreeIff(fat: Table, n: nat)
    requires n <= |fat|
    ensures FreeBelow(fat, n) == 0 <==> forall k :: 2 <= k < n ==> fat[k] != 0
  {
    if n > 2 {
      NoneFreeIff(fat, n - 1);
    }
  }

  lemma {:induction false} AllFree(fat: Table, n: nat)
    requires 2 <= n <= |fat| && forall k :: 0 <= k < |fat| ==> fat[k] == 0
    ensures FreeBelow(fat, n) == n - 2
  {
    if n > 2 {
      AllFree(fat, n - 1);
    }
  }

  /** Freeing a chain gives back as many clusters as it has. */
  lemma {:induction false} FreeCleared(fat: Table, fat': Table, s: seq<nat>)
    requires Cleared(fat, fat', s) && InTable(|fat|, s)
    requires forall i :: 0 <= i < |s| ==> fat[s[i]] != 0
    requires forall i, j :: 0 <= i < j < |s| ==> s[i] != s[j]
    ensures FreeCount(fat') == FreeCount(fat) + |s|
    decreases |s|
  {
    if s == [] {
      assert fat' == fat;
    } else {
      var front, c := s[..|s| - 1], s[|s| - 1];
      var mid := fat'[c := fat[c]];
      assert s == front + [c];
      assert c !in front;
      forall x | 0 <= x < |fat|
        ensures mid[x] == if x in front then 0 else fat[x]
      {
        assert x in s <==> x in front || x == c;
      }
      FreeCleared(fat, mid, front);
      FreeSet(mid, c, 0, |fat|);
      assert mid[c := 0] == fat';
    }
  }

  lemma ChainCleared(fat: Table, fat': Table, s: seq<nat>)
    requires IsChain(fat, s) && Cleared(fat, fat', s)
    ensures FreeCount(fat') == FreeCount(fat) + |s|
  {
    forall i | 0 <= i < |s|
      ensures fat[s[i]] != 0
    {
      assert Follows(fat, s, i);
    }
    FreeCleared(fat, fat', s);
  }

  /** The clusters that n bytes take. */
  function Needed(n: nat, cs: nat): (m: nat)
    requires cs > 0
    ensures n == 0 <==> m == 0
  {
    if n == 0 then 0 else (n - 1) / cs + 1
  }

  lemma NeededIs(n: nat, cs: nat, m: nat)
    requires cs > 0 && n <= m * cs && (m > 0 ==> (m - 1) * cs < n)
    ensures Needed(n, cs) == m
  {
    if m > 0 {
      DivModUnique(n - 1, cs, m - 1, n - 1 - (m - 1) * cs);
    }
  }

  lemma NeededMore(n: nat, cs: nat, m: nat)
    requires cs > 0 && m * cs < n
    ensures Needed(n, cs) > m
  {
    if Needed(n, cs) <= m {
      Order(Needed(n, cs), m, cs);
    }
  }

  lemma Order(a: nat, b: nat, n: nat)
    requires a <= b
    ensures a * n <= b * n
  {
  }

  // Chains of a whole volume.

  /** A file's directory slot, or a subdirectory. */
  datatype Owner = OfFile(dir: nat, slot: nat) | OfDir(dir: nat)

  ghost predicate ChainsOk(fat: Table, chains: map<Owner, seq<nat>>) {
    && (forall o :: o in chains ==> IsChain(fat, chains[o]))
    && (forall o, p, c :: o in chains && p in chains && o != p && c in chains[o] ==> c !in chains[p])
  }

  lemma ChainsFrame(fat: Table, fat': Table, chains: map<Owner, seq<nat>>)
    requires ChainsOk(fat, chains) && |fat'| == |fat|
    requires forall o, c :: o in chains && c in chains[o] && c < |fat| ==> fat'[c] == fat[c]
    ensures ChainsOk(fat', chains)
  {
    forall o | o in chains
      ensures IsChain(fat', chains[o])
    {
      var s := chains[o];
      forall i | 0 <= i < |s|
        ensures fat'[s[i]] == fat[s[i]]
      {
        assert s[i] in chains[o];
      }
      ChainFrame(fat, fat', s);
    }
  }

  // File contents.

  /** The bytes of the clusters of s, in order. */
  function Concat(data: seq<seq<byte>>, s: seq<nat>): (r: seq<byte>)
    requires forall i :: 0 <= i < |s| ==> s[i] < |data|
  {
    if s == [] then [] else Concat(data, s[..|s| - 1]) + data[s[|s| - 1]]
  }

  lemma {:induction false} ConcatFrame(data: seq<seq<byte>>, data': seq<seq<byte>>, s: seq<nat>)
    requires |data'| == |data| && forall i :: 0 <= i < |s| ==> s[i] < |data| && data'[s[i]] == data[s[i]]
    ensures Concat(data', s) == Concat(data, s)
  {
    if s != [] {
      ConcatFrame(data, data', s[..|s| - 1]);
    }
  }

  lemma ConcatNone(data: seq<seq<byte>>)
    ensures Concat(data, []) == []
  {
  }

  lemma ConcatMore(data: seq<seq<byte>>, s: seq<nat>, c: nat)
    requires (forall i :: 0 <= i < |s| ==> s[i] < |data|) && c < |data|
    ensures Concat(data, s + [c]) == Concat(data, s) + data[c]
  {
    assert (s + [c])[..|s|] == s;
  }

  function Filled(chunk: seq<byte>, n: nat): (r: seq<byte>)
    requires |chunk| <= n
    ensures |r| == n
  {
    chunk + seq(n - |chunk|, _ => 0)
  }

  ghost predicate Mirrored(fats: seq<Table>) {
    |fats| >= 1 && forall f :: 0 <= f < |fats| ==> fats[f] == fats[0]
  }

  // The volume.

  class Volume {
    const spc: nat
    var fats: seq<Table>
    var data: seq<seq<byte>>

    /** All tables agree, and every cluster has its sectors. */
    ghost predicate Sound()
      reads this
    {
      && spc > 0 && Mirrored(fats)
      && 2 <= |fats[0]| <= LAST && |data| == |fats[0]|
      && forall c :: 0 <= c < |data| ==> |data[c]| == SECTOR * spc
    }

    /** A blank volume with two copies of its table. */
    constructor (sectors: nat, clusters: nat)
      requires sectors > 0 && 2 <= clusters <= LAST
      ensures Sound() && spc == sectors && |fats[0]| == clusters && FreeCount(fats[0]) == clusters - 2
    {
      spc := sectors;
      fats := [seq(clusters, _ => 0), seq(clusters, _ => 0)];
      data := seq(clusters, _ => Filled([], SECTOR * sectors));
      new;
      AllFree(fats[0], clusters);
    }

    /** fat_set: the same entry in every copy. */
    method FatSet(c: nat, v: u16)
      requires Sound() && c < |fats[0]|
      modifies this`fats
      ensures Sound() && |fats| == |old(fats)| && fats[0] == old(fats)[0][c := v]
    {
      ghost var was := fats[0];
      var f := 0;
      while f < |fats|
        invariant 0 <= f <= |fats| == |old(fats)|
        invariant forall g :: 0 <= g < f ==> fats[g] == was[c := v]
        invariant forall g :: f <= g < |fats| ==> fats[g] == was
      {
        var copy: Table := fats[f];
        copy := copy[c := v];
        fats := fats[f := copy];
        f := f + 1;
      }
    }

    /** alloc_cluster: the first free cluster, marked end-of-chain and zeroed; 0 when full. */
    method AllocCluster() returns (c: nat)
      requires Sound()
      modifies this`fats, this`data
      ensures Sound() && |fats| == |old(fats)| && |fats[0]| == |old(fats)[0]|
      ensures c == 0 <==> FreeCount(old(fats)[0]) == 0
      ensures c == 0 ==> fats == old(fats) && data == old(data)
      ensures c != 0 ==> FreeCount(fats[0]) == FreeCount(old(fats)[0]) - 1
      ensures c != 0 ==>
                && 2 <= c < |fats[0]| && old(fats)[0][c] == 0 && fats[0] == old(fats)[0][c := END]
                && data == old(data)[c := Filled([], SECTOR * spc)]
    {
      c := 2;
      while c < |fats[0]|
        invariant 2 <= c <= |fats[0]| && Sound()
        invariant fats == old(fats) && data == old(data)
        invariant forall k :: 2 <= k < c ==> fats[0][k] != 0
      {
        if fats[0][c] == 0 {
          FreeSet(fats[0], c, END, |fats[0]|);
          FatSet(c, END);
          data := data[c := Filled([], SECTOR * spc)];
          return;
        }
        c := c + 1;
      }
      NoneFreeIff(fats[0], |fats[0]|);
      c := 0;
    }

    /** free_chain, from the first cluster to the end mark. */
    method FreeChain(first: nat, ghost s: seq<nat>)
      requires Sound() && IsChain(fats[0], s) && first == Head(s)
      modifies this`fats
      ensures Sound() && |fats| == |old(fats)| && Cleared(old(fats)[0], fats[0], s)
      ensures FreeCount(fats[0]) == FreeCount(old(fats)[0]) + |s|
    {
      ghost var was := fats[0];
      ShortEnough(was, s);
      var cluster := first;
      var guard := 0;
      ghost var i := 0;
      while cluster >= 2 && cluster < LAST && guard < GUARD
        invariant 0 <= i == guard <= |s| && Sound() && |fats| == |old(fats)|
        invariant Cleared(was, fats[0], s[..i])
        invariant if i < |s| then cluster == s[i] else cluster == 0 || cluster >= LAST
        decreases GUARD - guard
      {
        assert s[i] !in s[..i];
        assert Follows(was, s, i);
        var next := fats[0][cluster];
        FatSet(cluster, 0);
        assert s[..i + 1] == s[..i] + [s[i]];
        cluster := next;
        guard := guard + 1;
        i := i + 1;
      }
      assert s[..|s|] == s;
      ChainCleared(was, fats[0], s);
    }

    /** The sector loop of write_file for one fresh cluster. */
    method FillCluster(c: nat, buf: seq<byte>, from: nat) returns (written: nat)
      requires Sound() && c < |data| && from <= |buf| && data[c] == Filled([], SECTOR * spc)
      modifies this`data
      ensures Sound() && written == Least(|buf|, from + SECTOR * spc) && from <= written
      ensures data == old(data)[c := Filled(buf[from..written], SECTOR * spc)]
    {
      written := from;
      var s := 0;
      while s < spc && written < |buf|
        invariant 0 <= s <= spc && Sound()
        invariant from <= written == Least(|buf|, from + SECTOR * s)
        invariant data == old(data)[c := Filled(buf[from..written], SECTOR * spc)]
      {
        var n := Least(|buf| - written, SECTOR);
        var sector := Filled(buf[written..written + n], SECTOR);
        NextSector(buf, from, written, n, s, spc);
        data := data[c := data[c][..SECTOR * s] + sector + data[c][SECTOR * (s + 1)..]];
        written := written + n;
        s := s + 1;
      }
    }

    /** The allocation loop of write_file: a chain holding buf, or nothing kept
        exactly when there are not clusters enough. */
    method BuildChain(buf: seq<byte>) returns (ok: bool, first: nat, ghost s: seq<nat>)
      requires Sound()
      modifies this`fats, this`data
      ensures Sound() && |fats| == |old(fats)| && |fats[0]| == |old(fats)[0]|
      ensures ok ==> Added(old(fats)[0], old(data), fats[0], data, s) && first == Head(s)
      ensures ok ==> InTable(|data|, s) && buf <= Concat(data, s)
      ensures ok <==> Needed(|buf|, SECTOR * spc) <= FreeCount(old(fats)[0])
      ensures ok ==> |s| == Needed(|buf|, SECTOR * spc)
      ensures ok ==> FreeCount(fats[0]) == FreeCount(old(fats)[0]) - Needed(|buf|, SECTOR * spc)
      ensures !ok ==> fats[0] == old(fats)[0]
      ensures forall x :: 0 <= x < |data| && old(fats)[0][x] != 0 ==> data[x] == old(data)[x]
    {
      hide Filled;
      hide Concat;
      hide IsChain;
      ConcatNone(data);
      NothingAdded(fats[0], data);
      ghost var fat0, data0 := fats[0], data;
      first, s := 0, [];
      var prev, written := 0, 0;
      while written < |buf|
        invariant 0 <= written <= |buf| && Sound()
        invariant |fats| == |old(fats)| && |fats[0]| == |fat0|
        invariant Added(fat0, data0, fats[0], data, s)
        invariant first == Head(s) && prev == if s == [] then 0 else s[|s| - 1]
        invariant InTable(|data|, s) && |Concat(data, s)| >= written && Concat(data, s)[..written] == buf[..written]
        invariant written < |buf| ==> |Concat(data, s)| == written
        invariant FreeCount(fats[0]) + |s| == FreeCount(fat0)
        invariant Packed(|buf|, written, |s|, SECTOR * spc)
        decreases |buf| - written
      {
        ghost var fat1, data1 := fats[0], data;
        var c := AllocCluster();
        if c == 0 {
          if first != 0 {
            FreeChain(first, s);
          }
          Undone(fat0, data0, fat1, data1, fats[0], s);
          NeededMore(|buf|, SECTOR * spc, |s|);
          return false, 0, s;
        }
        NotYet(fat0, data0, fat1, data1, s, c);
        if first == 0 {
          first := c;
        } else {
          assert fats[0][prev] != 0 by {
            OnChain(fat1, s);
          }
          FreeSet(fats[0], prev, c, |fats[0]|);
          FatSet(prev, c);
        }
        ghost var was := written;
        ghost var data2 := data;
        written := FillCluster(c, buf, written);
        Longer(fat0, data0, fat1, data1, fats[0], data, s, c);
        Appended(data1, data, s, c, buf, was, written, SECTOR * spc);
        PackedMore(|buf|, was, |s|, SECTOR * spc);
        prev := c;
        s := s + [c];
      }
      NeededIs(|buf|, SECTOR * spc, |s|);
      assert buf[..|buf|] == buf;
      ok := true;
    }

    /** The loop of read_file. */
    method ReadChain(first: nat, size: nat, cap: nat, ghost s: seq<nat>) returns (out: seq<byte>)
      requires Sound() && IsChain(fats[0], s) && first == Head(s)
      requires InTable(|data|, s) && size <= |Concat(data, s)|
      ensures out == Concat(data, s)[..Least(size, cap)]
    {
      hide Concat;
      ghost var full := Concat(data, s);
      ShortEnough(fats[0], s);
      ConcatNone(data);
      var remaining := Least(size, cap);
      ghost var want := remaining;
      out := [];
      var cluster, guard := first, 0;
      ghost var i := 0;
      assert s[..0] == [];
      while cluster >= 2 && cluster < LAST && remaining > 0 && guard < GUARD
        invariant 0 <= i == guard <= |s| && 0 <= remaining && |out| + remaining == want <= |full|
        invariant out <= full && (remaining > 0 ==> out == Concat(data, s[..i]))
        invariant if i < |s| then cluster == s[i] else cluster == 0 || cluster >= LAST
        decreases GUARD - guard
      {
        assert Follows(fats[0], s, i);
        assert s[..i + 1] == s[..i] + [s[i]];
        ConcatMore(data, s[..i], s[i]);
        ConcatPrefix(data, s, i + 1);
        out, remaining := ReadCluster(cluster, out, remaining);
        cluster := fats[0][cluster];
        guard := guard + 1;
        i := i + 1;
      }
      assert i < |s| ==> 2 <= s[i] < LAST;
      assert i == |s| ==> s[..i] == s;
      assert remaining == 0;
      assert out == full[..|out|];
    }

    /** The sector loop of read_file. */
    method ReadCluster(c: nat, out: seq<byte>, remaining: nat) returns (out': seq<byte>, left: nat)
      requires Sound() && c < |data|
      ensures left == if remaining > SECTOR * spc then remaining - SECTOR * spc else 0
      ensures out' == out + data[c][..remaining - left]
    {
      out', left := out, remaining;
      var s := 0;
      while s < spc && left > 0
        invariant 0 <= s <= spc && left <= remaining
        invariant remaining - left == Least(remaining, SECTOR * s)
        invariant out' == out + data[c][..remaining - left]
      {
        var n := Least(left, SECTOR);
        var at := SECTOR * s;
        assert data[c][..at] + data[c][at..at + n] == data[c][..at + n];
        out' := out' + data[c][at..at + n];
        left := left - n;
        s := s + 1;
      }
    }
  }

  /** `written` of n bytes fill m clusters, the last one perhaps in part. */
  predicate Packed(n: nat, written: nat, m: nat, cs: nat) {
    if written < n then written == m * cs else n <= m * cs && (m > 0 ==> (m - 1) * cs < n)
  }

  lemma PackedMore(n: nat, written: nat, m: nat, cs: nat)
    requires Packed(n, written, m, cs) && written < n && cs > 0
    ensures Packed(n, Least(n, written + cs), m + 1, cs)
  {
    assert (m + 1) * cs == m * cs + cs;
  }

  lemma OnChain(fat: Table, s: seq<nat>)
    requires IsChain(fat, s) && s != []
    ensures 2 <= s[|s| - 1] < |fat| && fat[s[|s| - 1]] != 0
  {
    assert Follows(fat, s, |s| - 1);
  }

  lemma {:induction false} ConcatPrefix(data: seq<seq<byte>>, s: seq<nat>, i: nat)
    requires InTable(|data|, s) && i <= |s|
    ensures Concat(data, s[..i]) <= Concat(data, s)
    decreases |s|
  {
    if i < |s| {
      var front := s[..|s| - 1];
      ConcatPrefix(data, front, i);
      assert front[..i] == s[..i];
    } else {
      assert s[..i] == s;
    }
  }

  /** s is a new chain made of clusters that were free; nothing else changed. */
  ghost predicate Added(fat0: Table, data0: seq<seq<byte>>, fat: Table, data: seq<seq<byte>>, s: seq<nat>) {
    && |fat| == |fat0| == |data0| == |data| && IsChain(fat, s)
    && (forall x :: x in s && x < |fat0| ==> fat0[x] == 0)
    && (forall x :: 0 <= x < |fat| && x !in s ==> fat[x] == fat0[x] && data[x] == data0[x])
  }

  lemma NothingAdded(fat: Table, data: seq<seq<byte>>)
    requires |fat| == |data|
    ensures Added(fat, data, fat, data, [])
  {
  }

  lemma NotYet(fat0: Table, data0: seq<seq<byte>>, fat: Table, data: seq<seq<byte>>, s: seq<nat>, c: nat)
    requires Added(fat0, data0, fat, data, s) && c < |fat| && fat[c] == 0
    ensures c !in s && fat0[c] == 0
  {
    FreeNotOnChain(fat, s, c);
  }

  /** Rolling back frees exactly the clusters taken. */
  lemma Undone(fat0: Table, data0: seq<seq<byte>>, fat: Table, data: seq<seq<byte>>, fat': Table, s: seq<nat>)
    requires Added(fat0, data0, fat, data, s)
    requires if s == [] then fat' == fat else Cleared(fat, fat', s)
    ensures fat' == fat0
    ensures forall x :: 0 <= x < |data| && fat0[x] != 0 ==> data[x] == data0[x]
  {
  }

  lemma Longer(fat0: Table, data0: seq<seq<byte>>, fat1: Table, data1: seq<seq<byte>>, fat: Table,
               data: seq<seq<byte>>, s: seq<nat>, c: nat)
    requires Added(fat0, data0, fat1, data1, s) && 2 <= c < |fat1| < 0x1_0000 && c !in s && fat0[c] == 0
    requires |data| == |data1| && forall x :: 0 <= x < |data| && x != c ==> data[x] == data1[x]
    requires fat == if s == [] then fat1[c := END] else fat1[c := END][s[|s| - 1] := c]
    ensures Added(fat0, data0, fat, data, s + [c])
  {
    ChainFrame(fat1, fat1[c := END], s);
    ChainGrows(fat1[c := END], s, c);
  }

  lemma Appended(data1: seq<seq<byte>>, data: seq<seq<byte>>, s: seq<nat>, c: nat, buf: seq<byte>,
                 was: nat, written: nat, cs: nat)
    requires InTable(|data1|, s) && |data| == |data1| && 2 <= c < |data| && c !in s
    requires was <= written <= |buf| && written - was <= cs
    requires Concat(data1, s) == buf[..was] && data == data1[c := Filled(buf[was..written], cs)]
    ensures InTable(|data|, s + [c])
    ensures var full := Concat(data, s + [c]);
            && |full| == was + cs && full[..written] == buf[..written]
  {
    ConcatFrame(data1, data, s);
    ConcatMore(data, s, c);
    assert buf[..written] == buf[..was] + buf[was..written];
  }

  lemma ShortEnough(fat: Table, s: seq<nat>)
    requires IsChain(fat, s) && |fat| <= LAST
    ensures |s| < GUARD
  {
    Crowded(s, |fat|);
  }

  /** Writing the next padded sector behind those already written. */
  lemma NextSector(buf: seq<byte>, from: nat, written: nat, n: nat, s: nat, spc: nat)
    requires s < spc && from <= written == from + SECTOR * s < |buf|
    requires n == Least(|buf| - written, SECTOR)
    ensures var was := Filled(buf[from..written], SECTOR * spc);
            was[..SECTOR * s] + Filled(buf[written..written + n], SECTOR) + was[SECTOR * (s + 1)..] ==
            Filled(buf[from..written + n], SECTOR * spc)
  {
  }
}
