/** An endless Manchester stream, heard from anywhere: how a decoder in any state falls in step with it, what
    its ring of bits holds from then on, and that the pulses may come in any parts. */
module Stream {
  import opened Ring
  import opened Pulses
  import opened LineDecoders

  /** Bit 0 is the one before the stream starts. */
  type Bits = nat -> bool

  /** n bits are complete, and mid says that the first of the two pulses of the next one has been sent. */
  datatype Pos = Pos(n: nat, mid: bool)

  ghost predicate IsPos(f: Bits, p: Pos) { p.mid ==> f(p.n + 1) == f(p.n) }

  function NextPulse(f: Bits, half: nat, p: Pos): (r: Pulse)
    requires IsRate(half)
  {
    if p.mid then Edge(f(p.n + 1), half)
    else if f(p.n + 1) != f(p.n) then Edge(f(p.n + 1), 2 * half)
    else Edge(!f(p.n + 1), half)
  }

  function NextPos(f: Bits, p: Pos): (r: Pos)
    ensures IsPos(f, r)
  {
    if p.mid || f(p.n + 1) != f(p.n) then Pos(p.n + 1, false) else Pos(p.n, true)
  }

  function PosAfter(f: Bits, p: Pos, k: nat): (r: Pos)
    requires IsPos(f, p)
    ensures IsPos(f, r)
  {
    if k == 0 then p else NextPos(f, PosAfter(f, p, k - 1))
  }

  /** The k pulses from a position on. */
  function Played(f: Bits, half: nat, p: Pos, k: nat): (r: seq<Pulse>)
    requires IsRate(half) && IsPos(f, p)
    ensures |r| == k
  {
    if k == 0 then [] else Played(f, half, p, k - 1) + [NextPulse(f, half, PosAfter(f, p, k - 1))]
  }

  lemma {:induction false} PlayedInParts(f: Bits, half: nat, p: Pos, j: nat, k: nat)
    requires IsRate(half) && IsPos(f, p)
    ensures PosAfter(f, p, j + k) == PosAfter(f, PosAfter(f, p, j), k)
    ensures Played(f, half, p, j + k) == Played(f, half, p, j) + Played(f, half, PosAfter(f, p, j), k)
  {
    if k > 0 { PlayedInParts(f, half, p, j, k - 1); }
  }

  function Some(f: Bits, n: nat): (b: seq<bool>)
    ensures |b| == n
  {
    seq(n, i requires 0 <= i < n => f(i + 1))
  }

  /** Between whole bits the stream is what ManchesterPulses encodes. */
  lemma {:induction false} PlayedIsManchester(f: Bits, half: nat, k: nat)
    requires IsRate(half)
    ensures var p := PosAfter(f, Pos(0, false), k);
      Played(f, half, Pos(0, false), k)
        == ManchesterPulses(f(0), Some(f, p.n), half) + if p.mid then [Edge(!f(p.n + 1), half)] else []
  {
    hide IsRate, ManchesterPulses, Some;
    if k > 0 {
      PlayedIsManchester(f, half, k - 1);
      var p := PosAfter(f, Pos(0, false), k - 1);
      var done, next := ManchesterPulses(f(0), Some(f, p.n), half), NextPulse(f, half, p);
      OneMoreBit(f, half, p.n);
      if p.mid {
        assert done + [Edge(!f(p.n + 1), half)] + [next] == done + ManchesterBit(f(p.n), f(p.n + 1), half);
      } else if f(p.n + 1) != f(p.n) {
        assert done + [] + [next] == done + ManchesterBit(f(p.n), f(p.n + 1), half);
      } else {
        assert done + [] + [next] == done + [Edge(!f(p.n + 1), half)];
      }
    } else {
      NoBits(f, half);
    }
  }

  lemma NoBits(f: Bits, half: nat)
    requires IsRate(half)
    ensures ManchesterPulses(f(0), Some(f, 0), half) == []
  {
  }

  lemma OneMoreBit(f: Bits, half: nat, n: nat)
    requires IsRate(half)
    ensures ManchesterPulses(f(0), Some(f, n + 1), half)
         == ManchesterPulses(f(0), Some(f, n), half) + ManchesterBit(f(n), f(n + 1), half)
  {
    assert Some(f, n + 1)[..n] == Some(f, n);
    assert Before(f(0), Some(f, n + 1), n) == f(n);
  }

  // ---- the decoder on the stream --------------------------------------------------

  /** q holds the last bits of the first n. */
  ghost predicate Latest(q: seq<bool>, f: Bits, n: nat) {
    |q| <= n && forall i :: 0 <= i < |q| ==> q[i] == f(n - |q| + 1 + i)
  }

  lemma LatestNext(q: seq<bool>, f: Bits, n: nat)
    requires Latest(q, f, n)
    ensures Latest(Newest(q + [f(n + 1)]), f, n + 1)
  {
  }

  /** In step with the stream: everything in the ring was sent, and the phase is right. */
  ghost predicate InStep(l: Line, f: Bits, p: Pos) {
    l.lockedIn && l.shortChange == p.mid && Latest(Queue(l), f, p.n)
  }

  lemma StaysInStep(l: Line, f: Bits, half: nat, p: Pos)
    requires IsRate(half) && IsPos(f, p) && InStep(l, f, p)
    ensures var m, p' := ManchesterStep(l, NextPulse(f, half, p), 2 * half), NextPos(f, p);
      && InStep(m, f, p')
      && Queue(m) == if p'.n == p.n then Queue(l) else Newest(Queue(l) + [f(p.n + 1)])
  {
    hide Queue, Newest;
    EmitQueue(l, f(p.n + 1));
    LatestNext(Queue(l), f, p.n);
    assert Queue(l.(shortChange := true)) == Queue(l) by { SameQueue(l); }
  }

  lemma SameQueue(l: Line)
    ensures Queue(l.(shortChange := true)) == Queue(l)
    ensures Queue(l.(shortChange := true, lockedIn := true)) == Queue(l)
  {
  }

  // No long pulse so far: all bits are the same. The decoder waits for a high pulse, or is in step (the
  // repeated bit is 0), or is half a bit off (it is 1), which the next long pulse repairs.
  ghost predicate BeforeLong(l: Line, f: Bits, p: Pos) {
    && f(p.n) == f(0)
    && if !l.lockedIn then Fresh(l)
       else if f(0) then l.shortChange != p.mid
       else InStep(l, f, p)
  }

  lemma StillShort(l: Line, f: Bits, half: nat, p: Pos)
    requires IsRate(half) && IsPos(f, p) && BeforeLong(l, f, p) && f(p.n + 1) == f(p.n)
    ensures BeforeLong(ManchesterStep(l, NextPulse(f, half, p), 2 * half), f, NextPos(f, p))
  {
    hide Queue;
    SameQueue(l);
    if l.lockedIn && !f(0) { StaysInStep(l, f, half, p); }
    EmitQueue(l, f(p.n + 1));
  }

  /** The first long pulse puts the decoder in step, whatever it took the short ones before for. */
  lemma FirstLong(l: Line, f: Bits, half: nat, p: Pos)
    requires IsRate(half) && IsPos(f, p) && BeforeLong(l, f, p) && f(p.n + 1) != f(p.n)
    ensures var m := ManchesterStep(l, NextPulse(f, half, p), 2 * half);
      InStep(m, f, NextPos(f, p)) && 0 < |Queue(m)| <= p.n + 1 && (f(0) ==> |Queue(m)| == 1)
  {
    hide Queue;
    EmitQueue(l, f(p.n + 1));
    EmitQueue(Drop(l), f(p.n + 1));
    if l.lockedIn && !f(0) {
      StaysInStep(l, f, half, p);
    }
  }

  ghost predicate Changed(f: Bits, n: nat) { exists j :: 0 < j <= n && f(j) != f(0) }

  /** All bits from the first change on that fit are there. */
  ghost predicate AllCaught(q: seq<bool>, f: Bits, n: nat) {
    |q| == SIZE - 1 || forall j :: 0 < j <= n && f(j) != f(0) ==> |q| + j > n
  }

  lemma AllCaughtNext(q: seq<bool>, b: bool, f: Bits, n: nat)
    requires AllCaught(q, f, n) && |q| < SIZE
    ensures AllCaught(Newest(q + [b]), f, n + 1)
  {
  }

  /** Ones are queued from the first change on only. (Zeros before it may be queued, when they begin the stream.) */
  ghost predicate NoneBefore(q: seq<bool>, f: Bits, n: nat) { f(0) ==> |q| <= n && Changed(f, n - |q| + 1) }

  lemma NoneBeforeNext(q: seq<bool>, r: seq<bool>, f: Bits, n: nat, n': nat)
    requires NoneBefore(q, f, n) && n <= n' && |r| <= |q| + n' - n
    ensures NoneBefore(r, f, n')
  {
  }

  /** Before the first change anything harmless, after it in step with everything caught. */
  ghost predicate Listening(l: Line, f: Bits, p: Pos) {
    if Changed(f, p.n) then InStep(l, f, p) && AllCaught(Queue(l), f, p.n) && |Queue(l)| > 0 && NoneBefore(Queue(l), f, p.n)
    else BeforeLong(l, f, p)
  }

  /** A fresh decoder that starts listening anywhere in a Manchester stream, even between the two pulses
      of a bit, holds nothing but bits of the stream once there was a change: all from the change on. */
  lemma {:induction false} LockIn(l: Line, f: Bits, half: nat, mid: bool, k: nat)
    requires IsRate(half) && Fresh(l) && IsPos(f, Pos(0, mid))
    ensures Listening(ManchesterRun(l, Played(f, half, Pos(0, mid), k), 2 * half), f, PosAfter(f, Pos(0, mid), k))
  {
    if k > 0 {
      LockIn(l, f, half, mid, k - 1);
      LockInNext(l, f, half, mid, k - 1);
    }
  }

  lemma LockInNext(l: Line, f: Bits, half: nat, mid: bool, k: nat)
    requires IsRate(half) && IsPos(f, Pos(0, mid))
    requires Listening(ManchesterRun(l, Played(f, half, Pos(0, mid), k), 2 * half), f, PosAfter(f, Pos(0, mid), k))
    ensures Listening(ManchesterRun(l, Played(f, half, Pos(0, mid), k + 1), 2 * half), f, PosAfter(f, Pos(0, mid), k + 1))
  {
    hide Queue, Newest, ManchesterStep, IsRate, NextPulse, Latest, NoneBefore, AllCaught;
    var p, q := PosAfter(f, Pos(0, mid), k), PosAfter(f, Pos(0, mid), k + 1);
    var pulses := Played(f, half, Pos(0, mid), k);
    var m := ManchesterRun(l, pulses, 2 * half);
    assert Played(f, half, Pos(0, mid), k + 1) == pulses + [NextPulse(f, half, p)];
    assert (pulses + [NextPulse(f, half, p)])[..k] == pulses;
    assert ManchesterRun(l, pulses + [NextPulse(f, half, p)], 2 * half)
        == ManchesterStep(m, NextPulse(f, half, p), 2 * half);
    if Changed(f, p.n) {
      StaysInStep(m, f, half, p);
      AllCaughtNext(Queue(m), f(p.n + 1), f, p.n);
      NewestNotEmpty(Queue(m), f(p.n + 1));
      NoneBeforeNext(Queue(m), Queue(ManchesterStep(m, NextPulse(f, half, p), 2 * half)), f, p.n, q.n);
      assert Changed(f, q.n);
    } else if f(p.n + 1) == f(p.n) {
      StillShort(m, f, half, p);
      assert !Changed(f, q.n);
    } else {
      FirstLong(m, f, half, p);
      OneCaught(Queue(ManchesterStep(m, NextPulse(f, half, p), 2 * half)), f, q.n);
      assert q.n == p.n + 1 && f(p.n) == f(0) && f(q.n) != f(0);
      assert Changed(f, q.n);
    }
  }

  lemma OneCaught(q: seq<bool>, f: Bits, n: nat)
    requires n > 0 && !Changed(f, n - 1) && f(n) != f(0) && 0 < |q| <= n && (f(0) ==> |q| == 1)
    ensures AllCaught(q, f, n) && NoneBefore(q, f, n)
  {
  }

  lemma NewestNotEmpty(q: seq<bool>, b: bool)
    ensures 0 < |Newest(q + [b])| <= |q| + 1
  {
  }
}
