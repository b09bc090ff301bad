/** The channel code as it runs: the receive ring and the descriptor arrays of
    one slot, and the scans and field updates over the table.
 */
module ChannelTable {
  import opened Basics
  import opened Rings
  import opened Channels

  /** The receiving half of one slot, buffers and all. */
  class Receiver {
    const buf: array<byte>
    var head: nat
    var tail: nat
    var avail: nat
    var total: nat
    const fds: array<Fd>
    const positions: array<nat>
    var count: nat

    ghost predicate Valid()
      reads this
    {
      && buf.Length == RX_BYTES && fds.Length == positions.Length == SCM_MAX && fds != positions
      && head < RX_BYTES && avail <= RX_BYTES && tail == Slot(head, avail, RX_BYTES)
      && avail <= total && count <= SCM_MAX
    }

    ghost function Rx(): (s: seq<byte>)
      requires Valid()
      reads this, buf
      ensures |s| == avail
    {
      Window(buf[..], head, avail)
    }

    ghost function Scm(): (s: seq<Rider>)
      requires Valid()
      reads this, fds, positions
      ensures |s| == count
    {
      Zip(fds[..], positions[..], count)
    }

    constructor ()
      ensures Valid() && Rx() == [] && Scm() == [] && total == 0 && fresh(buf) && fresh(fds) && fresh(positions)
    {
      buf := new byte[RX_BYTES](_ => 0);
      fds := new Fd[SCM_MAX](_ => 0);
      positions := new nat[SCM_MAX](_ => 0);
      head, tail, avail, total, count := 0, 0, 0, 0, 0;
    }

    /** The copy loop of inc_send, one rx_put per byte. */
    method Push(src: seq<byte>) returns (n: nat)
      requires Valid()
      modifies buf, this`tail, this`avail, this`total
      ensures Valid() && n == if |src| > RX_BYTES - old(avail) then RX_BYTES - old(avail) else |src|
      ensures Rx() == old(Rx()) + src[..n] && total == old(total) + n
    {
      hide Slot;
      hide Window;
      n := if |src| > RX_BYTES - avail then RX_BYTES - avail else |src|;
      var i := 0;
      while i < n
        invariant 0 <= i <= n && avail == old(avail) + i && total == old(total) + i && Valid()
        invariant Window(buf[..], head, avail) == old(Rx()) + src[..i]
      {
        Fill(buf[..], head, avail, src[i]);
        ghost var was := buf[..];
        buf[tail] := src[i];
        assert buf[..] == was[tail := src[i]];
        assert src[..i + 1] == src[..i] + [src[i]];
        tail := (tail + 1) % RX_BYTES;
        total := total + 1;
        avail := avail + 1;
        i := i + 1;
      }
    }

    /** The copy loop of inc_try_recv, one rx_get per byte. */
    method Pull(cap: nat) returns (out: seq<byte>)
      requires Valid()
      modifies this`head, this`avail
      ensures Valid() && |out| == if cap > old(avail) then old(avail) else cap
      ensures out + Rx() == old(Rx())
    {
      hide Slot;
      hide Window;
      var n := if cap > avail then avail else cap;
      out := [];
      while |out| < n
        invariant |out| <= n && avail == old(avail) - |out| && Valid()
        invariant out + Window(buf[..], head, avail) == old(Rx())
        decreases n - |out|
      {
        Drain(buf[..], head, avail, out);
        out := out + [buf[head]];
        head := (head + 1) % RX_BYTES;
        avail := avail - 1;
      }
    }

    /** inc_attach_fds: each descriptor is tied to the current write position. */
    method Attach(given: seq<Fd>) returns (moved: nat)
      requires Valid()
      modifies fds, positions, this`count
      ensures Valid() && moved == if |given| > SCM_MAX - old(count) then SCM_MAX - old(count) else |given|
      ensures Scm() == old(Scm()) + Riders(given[..moved], total)
    {
      ghost var was := Scm();
      moved := 0;
      while moved < |given| && count < SCM_MAX
        invariant 0 <= moved <= |given| && count == old(count) + moved && Valid()
        invariant Scm() == was + Riders(given[..moved], total)
      {
        ZipMore(fds[..], positions[..], count, given[moved], total);
        ghost var f, p := fds[..], positions[..];
        positions[count] := total;
        fds[count] := given[moved];
        assert fds[..] == f[count := given[moved]] && positions[..] == p[count := total];
        count := count + 1;
        assert Riders(given[..moved + 1], total) == Riders(given[..moved], total) + [Rider(given[moved], total)];
        moved := moved + 1;
      }
    }

    /** The scan half of inc_take_fds. */
    method CountRipe(most: nat) returns (take: nat)
      requires Valid()
      ensures take == Ripe(Scm(), total - avail, most, 0)
    {
      var consumed := total - avail;
      take := 0;
      while take < count && take < most && positions[take] < consumed
        invariant 0 <= take <= count
        invariant Ripe(Scm(), consumed, most, 0) == Ripe(Scm(), consumed, most, take)
      {
        take := take + 1;
      }
    }

    /** inc_take_fds: the ripe prefix leaves, the rest is shifted down in place. */
    method TakeRipe(most: nat) returns (out: seq<Fd>)
      requires Valid()
      modifies fds, positions, this`count
      ensures Valid()
      ensures var n := Ripe(old(Scm()), total - avail, most, 0);
              && Scm() == old(Scm())[n..]
              && |out| == n && forall k :: 0 <= k < n ==> out[k] == old(Scm())[k].fd
    {
      var take := CountRipe(most);
      out := fds[..take];
      Shift(take);
    }

    /** The riders after the first `take` move down; the vacated tail is cleared. */
    method Shift(take: nat)
      requires Valid() && take <= count
      modifies fds, positions, this`count
      ensures Valid() && Scm() == old(Scm())[take..]
    {
      ghost var f, p := fds[..], positions[..];
      var remain := count - take;
      var i := 0;
      while i < remain
        invariant 0 <= i <= remain && count == old(count)
        invariant forall k :: 0 <= k < i ==> fds[k] == f[k + take] && positions[k] == p[k + take]
        invariant forall k :: i <= k < SCM_MAX ==> fds[k] == f[k] && positions[k] == p[k]
      {
        fds[i] := fds[i + take];
        positions[i] := positions[i + take];
        i := i + 1;
      }
      while i < count
        invariant remain <= i <= count && count == old(count)
        invariant forall k :: 0 <= k < remain ==> fds[k] == f[k + take] && positions[k] == p[k + take]
      {
        fds[i] := 0;
        positions[i] := 0;
        i := i + 1;
      }
      ZipDrop(f, p, fds[..], positions[..], take, count);
      count := remain;
    }
  }

  function Zip(fds: seq<Fd>, positions: seq<nat>, n: nat): (r: seq<Rider>)
    requires n <= |fds| && n <= |positions|
    ensures |r| == n
  {
    seq(n, k requires 0 <= k < n => Rider(fds[k], positions[k]))
  }

  lemma ZipMore(fds: seq<Fd>, positions: seq<nat>, n: nat, fd: Fd, pos: nat)
    requires n < |fds| && n < |positions|
    ensures Zip(fds[n := fd], positions[n := pos], n + 1) == Zip(fds, positions, n) + [Rider(fd, pos)]
  {
  }

  lemma ZipDrop(f: seq<Fd>, p: seq<nat>, f': seq<Fd>, p': seq<nat>, take: nat, n: nat)
    requires take <= n <= |f| && n <= |p| && n <= |f'| && n <= |p'|
    requires forall k :: 0 <= k < n - take ==> f'[k] == f[k + take] && p'[k] == p[k + take]
    ensures Zip(f', p', n - take) == Zip(f, p, n)[take..]
  {
  }

  /** The table of channels. */
  class ChannelSlots {
    const slots: array<Channel>
    ghost var logs: seq<Log>
    ghost var past: seq<Life>

    ghost function View(): State
      reads this, slots
    {
      State(slots[..], logs, past)
    }

    ghost predicate Valid()
      reads this, slots
    {
      Inv(View())
    }

    constructor ()
      ensures Valid() && View() == Boot() && fresh(slots)
    {
      slots := new Channel[SLOTS](_ => EMPTY);
      logs := Boot().logs;
      past := [];
      new;
      assert slots[..] == Boot().table;
      RunInv([]);
    }

    method FindFree(from: nat) returns (k: nat)
      requires from <= slots.Length
      ensures k == FirstFree(slots[..], from)
    {
      k := from;
      while k < slots.Length && slots[k].kind != Free
        invariant from <= k <= slots.Length
        invariant FirstFree(slots[..], from) == FirstFree(slots[..], k)
      {
        k := k + 1;
      }
    }

    method FindListener(path: seq<char>) returns (k: nat)
      ensures k == FirstListener(slots[..], path, 0)
    {
      k := 0;
      while k < slots.Length && !(slots[k].kind == Stream && slots[k].path == path && slots[k].phase == Listening)
        invariant 0 <= k <= slots.Length
        invariant FirstListener(slots[..], path, 0) == FirstListener(slots[..], path, k)
      {
        k := k + 1;
      }
    }

    /** inc_connect. */
    method ConnectTo(i: int, path: seq<char>) returns (ok: bool)
      requires Valid()
      modifies slots, this`logs
      ensures Valid() && (View(), ok) == Connect(old(View()), i, path)
    {
      ConnectKeeps(View(), i, path);
      hide Inv;
      if i < 0 || i >= SLOTS || slots[i].kind == Free {
        return false;
      }
      if slots[i].kind != Stream || slots[i].phase == Connected || path == [] {
        return false;
      }
      var s := FindListener(path);
      if s == SLOTS || |slots[s].queue| >= slots[s].backlog {
        return false;
      }
      var k := FindFree(0);
      if k == SLOTS {
        return false;
      }
      var name := slots[s].path;
      PairUp(i, k, name);
      slots[s] := slots[s].(queue := slots[s].queue + [k]);
      ok := true;
    }

    /** The far end is built in slot k, then both ends point at each other. */
    method PairUp(i: nat, k: nat, path: seq<char>)
      requires Shape(View()) && i < SLOTS && k < SLOTS
      modifies slots, this`logs
      ensures Shape(View()) && View() == Paired(old(View()), i, k, path)
    {
      slots[k] := EMPTY.(kind := Stream, phase := Connected, refs := 1);
      logs := logs[k := Log([], [], [], [])];
      slots[k] := slots[k].(peer := i, path := Capped(path));
      slots[i] := slots[i].(phase := Connected, peer := k);
    }

    /** inc_socketpair. */
    method NewPair() returns (ok: bool)
      requires Valid()
      modifies slots, this`logs
      ensures Valid() && (View(), ok) == SocketPair(old(View()))
    {
      SocketPairKeeps(View());
      hide Inv;
      var a := FindFree(0);
      if a == SLOTS {
        return false;
      }
      var b := FindFree(a + 1);
      if b == SLOTS {
        return false;
      }
      slots[a] := EMPTY.(kind := Stream, refs := 1);
      logs := logs[a := Log([], [], [], [])];
      PairUp(a, b, []);
      ok := true;
    }

    /** inc_close. */
    method CloseOne(i: int)
      requires Valid()
      modifies slots, this`past
      ensures Valid() && View() == Close(old(View()), i)
    {
      CloseKeeps(View(), i);
      hide Inv;
      if i < 0 || i >= SLOTS || slots[i].kind == Free {
        return;
      }
      if slots[i].refs > 1 {
        slots[i] := slots[i].(refs := slots[i].refs - 1);
        return;
      }
      var p := slots[i].peer;
      if slots[i].kind == Stream && 0 <= p < SLOTS && slots[p].kind != Free {
        slots[p] := slots[p].(phase := PeerGone, peer := -1);
      }
      past := past + [Life(logs[i], slots[i].scm)];
      slots[i] := EMPTY;
    }
  }
}
