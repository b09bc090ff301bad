/** Circular buffers: the index arithmetic shared by the waiter queues, the
    mailbox, the pipe, the socket ring and the channel ring.

    Every one of them keeps a fixed array, a head, a tail and an element count,
    and advances an index with `(i + 1) % capacity`.
 */
module Rings {

  /** The array slot of the i-th element counted from `head`. */
  function Slot(head: nat, i: nat, n: nat): (k: nat)
    requires head < n && i <= n
    ensures k < n
  {
    if head + i < n then head + i else head + i - n
  }

  /** The arithmetic of the code, `(head + i) % n`, is the slot above. */
  lemma SlotIsModulo(head: nat, i: nat, n: nat)
    requires head < n && i <= n
    ensures (head + i) % n == Slot(head, i, n)
  {
    if head + i >= n {
      DivModUnique(head + i, n, 1, head + i - n);
    }
  }

  /** Quotient and remainder are determined by the equation that defines them. */
  lemma DivModUnique(a: int, n: int, q: int, r: int)
    requires 0 <= r < n && a == q * n + r
    ensures a / n == q && a % n == r
  {
    var p, s := a / n, a % n;
    assert a == p * n + s && 0 <= s < n;
    Multiple(p - q, n, r - s);
  }

  lemma Multiple(k: int, n: int, d: int)
    requires n > 0 && -n < d < n && k * n == d
    ensures k == 0 && d == 0
  {
    AtLeastOnce(k, n);
    AtLeastOnce(-k, n);
  }

  lemma AtLeastOnce(k: int, n: int)
    requires n > 0
    ensures k >= 1 ==> k * n >= n
  {
  }

  /** One more step round the ring. */
  lemma SlotSucc(head: nat, i: nat, n: nat)
    requires head < n && i < n
    ensures (Slot(head, i, n) + 1) % n == Slot(head, i + 1, n)
    ensures Slot((head + 1) % n, i, n) == Slot(head, i + 1, n)
  {
    SlotIsModulo(head, 1, n);
    SlotIsModulo(Slot(head, i, n), 1, n);
  }

  /** The `len` elements of the ring, oldest first. */
  function Window<T>(buf: seq<T>, head: nat, len: nat): (w: seq<T>)
    requires head < |buf| && len <= |buf|
    ensures |w| == len
  {
    seq(len, i requires 0 <= i < len => buf[Slot(head, i, |buf|)])
  }

  /** Storing at the tail of a ring that has room appends to its contents. */
  lemma Push<T>(buf: seq<T>, head: nat, len: nat, x: T)
    requires head < |buf| && len < |buf|
    ensures Window(buf[Slot(head, len, |buf|) := x], head, len + 1) == Window(buf, head, len) + [x]
  {
    var buf' := buf[Slot(head, len, |buf|) := x];
    var w, v := Window(buf', head, len + 1), Window(buf, head, len) + [x];
    assert forall i | 0 <= i < len :: w[i] == v[i];
    assert w[len] == v[len];
  }

  /** Advancing the head of a non-empty ring drops its oldest element. */
  lemma Pop<T>(buf: seq<T>, head: nat, len: nat)
    requires head < |buf| && 0 < len <= |buf|
    ensures buf[head] == Window(buf, head, len)[0]
    ensures Window(buf, (head + 1) % |buf|, len - 1) == Window(buf, head, len)[1..]
  {
    SlotIsModulo(head, 1, |buf|);
    var w, v := Window(buf, (head + 1) % |buf|, len - 1), Window(buf, head, len)[1..];
    forall i | 0 <= i < len - 1
      ensures w[i] == v[i]
    {
      SlotSucc(head, i, |buf|);
    }
    assert w == v;
  }

  /** One step of draining a ring: the head element moves to the end of `out`. */
  lemma Drain<T>(buf: seq<T>, head: nat, len: nat, out: seq<T>)
    requires head < |buf| && 0 < len <= |buf|
    ensures (head + 1) % |buf| < |buf|
    ensures out + Window(buf, head, len) == (out + [buf[head]]) + Window(buf, (head + 1) % |buf|, len - 1)
    ensures Slot((head + 1) % |buf|, len - 1, |buf|) == Slot(head, len, |buf|)
  {
    Pop(buf, head, len);
    SlotSucc(head, len - 1, |buf|);
    var w := Window(buf, head, len);
    assert w == [w[0]] + w[1..];
  }

  /** One step of filling a ring: `x` goes in at the tail. */
  lemma Fill<T>(buf: seq<T>, head: nat, len: nat, x: T)
    requires head < |buf| && len < |buf|
    ensures Window(buf[Slot(head, len, |buf|) := x], head, len + 1) == Window(buf, head, len) + [x]
    ensures (Slot(head, len, |buf|) + 1) % |buf| == Slot(head, len + 1, |buf|)
  {
    Push(buf, head, len, x);
    SlotSucc(head, len, |buf|);
  }
}
