/** The 1024-entry ring buffers of cphidgetrfid.c, seen as the queue between two pointers. */
module Ring {

  const SIZE: nat := 1024

  /** Entries between a read pointer and a write pointer. */
  function Queued(start: nat, end: nat): (n: nat)
    requires start < SIZE && end < SIZE
    ensures n < SIZE
    ensures (start + n) % SIZE == end
    ensures n == 0 <==> start == end
  {
    if start > end then end - start + SIZE else end - start
  }

  /** The entry i places after a pointer. */
  function Peek<T>(data: seq<T>, p: nat, i: nat): T
    requires |data| == SIZE
  {
    data[(p + i) % SIZE]
  }

  /** The n entries from a pointer on. */
  function Held<T>(data: seq<T>, start: nat, n: nat): (q: seq<T>)
    requires |data| == SIZE
    ensures |q| == n
  {
    seq(n, i requires 0 <= i < n => Peek(data, start, i))
  }

  lemma AdvancePointer<T>(data: seq<T>, start: nat, off: nat, i: nat)
    requires |data| == SIZE
    ensures Peek(data, (start + off) % SIZE, i) == Peek(data, start, off + i)
    ensures ((start + off) % SIZE + 1) % SIZE == (start + (off + 1)) % SIZE
  {
    ModTwice(start + off, i);
    ModTwice(start + off, 1);
  }

  lemma ModTwice(a: nat, i: nat)
    ensures (a % SIZE + i) % SIZE == (a + i) % SIZE
  {
    var k := a / SIZE;
    assert a == k * SIZE + a % SIZE;
  }

  /** The same entries, read from a later pointer. */
  lemma HeldFrom<T>(data: seq<T>, start: nat, n: nat, off: nat)
    requires |data| == SIZE && start < SIZE && off <= n
    ensures Held(data, (start + off) % SIZE, n - off) == Held(data, start, n)[off..]
  {
    forall i | 0 <= i < n - off
      ensures Held(data, (start + off) % SIZE, n - off)[i] == Held(data, start, n)[off..][i]
    {
      AdvancePointer(data, start, off, i);
    }
  }

  lemma QueuedAfter(start: nat, end: nat, off: nat)
    requires start < SIZE && end < SIZE && off <= Queued(start, end)
    ensures Queued((start + off) % SIZE, end) == Queued(start, end) - off
  {
  }

  /** Entries in reach of a decoder: the queue, or the whole ring when the pointers meet. */
  function Reach(startPtr: nat, endPtr: nat): (n: nat)
    requires startPtr < SIZE && endPtr < SIZE
    ensures 0 < n <= SIZE
  {
    if startPtr == endPtr then SIZE else Queued(startPtr, endPtr)
  }

  /** The len entries from a later pointer are a stretch of the entries from an earlier one. */
  lemma StretchHeld<T>(data: seq<T>, start: nat, n: nat, off: nat, p: nat, len: nat)
    requires |data| == SIZE && off + len <= n && p == (start + off) % SIZE
    ensures Held(data, p, len) == Held(data, start, n)[off..off + len]
  {
    forall i | 0 <= i < len ensures Held(data, p, len)[i] == Held(data, start, n)[off..off + len][i] {
      AdvancePointer(data, start, off, i);
    }
  }

  // Inside the queue the read pointer has not yet reached the write pointer.
  lemma PointersApart(start: nat, off: nat, from: nat, off0: nat, endPtr: nat, n: nat)
    requires start < SIZE && from < SIZE && endPtr < SIZE && off0 <= off && off + 1 < n <= SIZE
    requires from == (start + off0) % SIZE && from != endPtr && Queued(from, endPtr) == n - off0
    ensures (start + (off + 1)) % SIZE != endPtr
  {
    QueuedAfter(from, endPtr, off + 1 - off0);
    ModTwice(start + off0, off + 1 - off0);
  }

  // A pointer that moves less than what is in reach stays within reach.
  lemma StillWithinReach(start: nat, endPtr: nat, off: nat, p: nat, move: nat)
    requires start < SIZE && endPtr < SIZE && 0 < move && off + move < Reach(start, endPtr)
    requires p == (start + off) % SIZE
    ensures (p + move) % SIZE == (start + (off + move)) % SIZE != endPtr
    ensures Queued((p + move) % SIZE, endPtr) == Reach(start, endPtr) - (off + move)
  {
    ModTwice(start + off, move);
    if start != endPtr {
      QueuedAfter(start, endPtr, off + move);
    }
  }

  // ---- writing --------------------------------------------------------------------

  /** A ring with its two pointers. */
  datatype RingOf<T> = RingOf(data: seq<T>, readPtr: nat, writePtr: nat)

  predicate InRange<T>(b: RingOf<T>) { |b.data| == SIZE && b.readPtr < SIZE && b.writePtr < SIZE }

  function Contents<T>(b: RingOf<T>): (q: seq<T>)
    requires InRange(b)
    ensures |q| == Queued(b.readPtr, b.writePtr)
  {
    Held(b.data, b.readPtr, Queued(b.readPtr, b.writePtr))
  }

  /** Data that has not been read is overwritten: the read pointer makes room. */
  function Push<T>(b: RingOf<T>, x: T): (r: RingOf<T>)
    requires InRange(b)
    ensures InRange(r)
  {
    var w := (b.writePtr + 1) % SIZE;
    RingOf(b.data[b.writePtr := x], if w == b.readPtr then (b.readPtr + 1) % SIZE else b.readPtr, w)
  }

  /** What a ring of SIZE - 1 usable entries keeps of a queue. */
  function Newest<T>(q: seq<T>): (r: seq<T>)
    ensures |r| < SIZE
  {
    if |q| < SIZE then q else q[|q| - (SIZE - 1)..]
  }

  /** A ring is a queue of at most 1023 entries that drops the oldest. */
  lemma PushKeepsNewest<T>(b: RingOf<T>, x: T)
    requires InRange(b)
    ensures Contents(Push(b, x)) == Newest(Contents(b) + [x])
  {
    var n, r := Queued(b.readPtr, b.writePtr), Push(b, x);
    var all := Held(r.data, b.readPtr, n + 1);
    forall i | 0 <= i < n + 1 ensures all[i] == (Contents(b) + [x])[i] {
    }
    assert all == Contents(b) + [x];
    if n == SIZE - 1 {
      HeldFrom(r.data, b.readPtr, n + 1, 1);
    }
  }

  lemma NewestOfNewest<T>(a: seq<T>, b: seq<T>)
    ensures Newest(Newest(a) + b) == Newest(a + b)
  {
  }

  /** Moving the read pointer forward drops entries from the front. */
  lemma SkipDrops<T>(b: RingOf<T>, n: nat)
    requires InRange(b) && n <= Queued(b.readPtr, b.writePtr)
    ensures Contents(b.(readPtr := (b.readPtr + n) % SIZE)) == Contents(b)[n..]
  {
    QueuedAfter(b.readPtr, b.writePtr, n);
    HeldFrom(b.data, b.readPtr, Queued(b.readPtr, b.writePtr), n);
  }
}
