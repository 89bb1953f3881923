/** A run in which the FDX-B decoder reads a frame that was read and removed before. */
module StaleFrames {
  // 128 ones and the frame of a tag, twice, pulse by pulse. Each frame is read from behind the bits that came before
  // it, which takes as many bits from the queue, so after the second one the queue is used up, with both frames
  // still in the ring.

  import opened Ring
  import opened Pulses
  import opened LineDecoders
  import opened Stream
  import opened BiphaseStream
  import opened Analysis
  import opened Feeding
  import FdxB
  import PhidgetsTag
  import Crc
  import Search
  import StaleTags

  ghost predicate SentAt(s: string, i: nat)
    requires FdxB.TagDigits(s) && i > 0
  {
    if i <= 128 then true else if i <= 384 then FdxB.FrameBit(FdxB.TagData(s), (i - 129) % 128) else false
  }

  /** The levels whose biphase bits these are. */
  ghost predicate Twice(f: Bits, s: string) {
    FdxB.TagDigits(s) && forall i: nat :: i > 0 ==> Toggles(f)(i) == SentAt(s, i)
  }

  // ---- the ring of a reset reader -------------------------------------------------

  /** Everything that was sent is in the ring, from its first entry on, and nothing else ever was. */
  ghost predicate Kept(l: Line, f: Bits, p: Pos, r: nat) {
    && l.ring.writePtr == p.n <= 400 && l.ring.readPtr == r <= p.n
    && (forall i :: 0 <= i < SIZE ==> l.ring.data[i] == (i < p.n && Toggles(f)(i + 1)))
    && l.shortChange == p.mid && l.lockedIn == (p.n > 0)
  }

  lemma KeptStep(l: Line, f: Bits, half: nat, p: Pos, r: nat)
    requires IsRate(half) && IsPos(f, p) && Kept(l, f, p, r) && p.n < 400 && (p.n == 0 ==> !p.mid && Toggles(f)(1))
    ensures var o, p' := BiphaseStep(l, NextPulse(f, half, p), half, 2 * half), NextPos(f, p);
      o.ok && Kept(o.line, f, p', r) && 0 < p'.n <= p.n + 1
  {
    assert Toggles(f)(p.n + 1) == (f(p.n + 1) != f(p.n));
  }

  lemma {:induction false} KeptRun(l: Line, f: Bits, half: nat, p: Pos, r: nat, m: nat)
    requires IsRate(half) && IsPos(f, p) && Kept(l, f, p, r) && (p.n == 0 ==> !p.mid && Toggles(f)(1))
    requires PosAfter(f, p, m).n < 400
    ensures var o, p' := BiphaseRun(l, Played(f, half, p, m), half, 2 * half), PosAfter(f, p, m);
      o.ok && Kept(o.line, f, p', r) && (m > 0 ==> p'.n > 0)
  {
    hide Kept, BiphaseStep, NextPulse, Toggles, IsRate;
    if m > 0 {
      assert PosAfter(f, p, m - 1).n <= PosAfter(f, p, m).n;
      KeptRun(l, f, half, p, r, m - 1);
      BiphaseRunNext(l, f, half, p, m - 1);
      if m == 1 { assert PosAfter(f, p, 0) == p; }
      KeptStep(BiphaseRun(l, Played(f, half, p, m - 1), half, 2 * half).line, f, half, PosAfter(f, p, m - 1), r);
    }
  }

  lemma KeptQueue(l: Line, f: Bits, p: Pos, r: nat)
    requires Kept(l, f, p, r)
    ensures |Queue(l)| == p.n - r && forall i :: 0 <= i < p.n - r ==> Queue(l)[i] == Toggles(f)(r + 1 + i)
    ensures p.n > r ==> Seen(l) == Queue(l)
    ensures r + 128 <= p.n ==> Kept(Consumed(l, 128), f, p, r + 128)
  {
  }

  // ---- what is read on the way ----------------------------------------------------

  lemma TwiceBits(f: Bits, s: string, i: nat)
    requires Twice(f, s) && 0 < i
    ensures FdxB.TagDigits(s)
    ensures i <= 128 ==> Toggles(f)(i)
    ensures 128 < i <= 256 ==> Toggles(f)(i) == FdxB.Frame(FdxB.TagData(s))[i - 129]
    ensures 256 < i <= 384 ==> Toggles(f)(i) == FdxB.Frame(FdxB.TagData(s))[i - 257]
    ensures i == 385 ==> !Toggles(f)(i)
  {
    hide FdxB.FrameBit, FdxB.TagData, Toggles;
    assert Toggles(f)(i) == SentAt(s, i);
  }

  lemma ShortQueue(q: seq<bool>)
    ensures |q| < 224 ==> PhidgetsTag.Scan(q, 0, Crc.Zero()) == PhidgetsTag.NotFound
    ensures |q| < 128 ==> FdxB.Scan(q, 0) == FdxB.NotFound
  {
  }

  lemma NoPhidgetsBehindOnes(q: seq<bool>)
    requires |q| <= 256 && forall i :: 0 <= i < |q| && i < 128 ==> q[i]
    ensures PhidgetsTag.Scan(q, 0, Crc.Zero()) == PhidgetsTag.NotFound
  {
    hide PhidgetsTag.Scan, PhidgetsTag.Passes, PhidgetsTag.RegisterAt, Search.Reaches;
    PhidgetsTag.ScanFinds(q, 0, Crc.Zero());
    forall k: nat ensures !PhidgetsTag.Headers(q)(k) {
      if k + 224 <= |q| { assert PhidgetsTag.Window(q, k)[0] == q[k]; }
    }
    assert forall k :: !PhidgetsTag.Accepted(q, 0, Crc.Zero(), k);
  }

  lemma OnlyHeaderBehindOnes(q: seq<bool>, k: nat)
    requires |q| <= 256 && (forall i :: 0 <= i < |q| && i < 128 ==> q[i]) && FdxB.Headers(q)(k)
    ensures k == 128 && |q| == 256
  {
    assert FdxB.Window(q, k)[0] == q[k];
  }

  // Ones, and less than a frame or a whole one behind them.
  lemma FdxBehindOnes(q: seq<bool>, s: string)
    requires FdxB.TagDigits(s) && |q| <= 256 && forall i :: 0 <= i < |q| && i < 128 ==> q[i]
    requires |q| == 256 ==> q[128..] == FdxB.Frame(FdxB.TagData(s))
    ensures FdxB.Scan(q, 0) == if |q| == 256 then FdxB.Tag(s) else FdxB.NotFound
  {
    hide FdxB.Scan, FdxB.Passes, FdxB.TagOf, FdxB.DataOf, FdxB.TagData, FdxB.Frame, Search.Reaches;
    FdxB.ScanFinds(q, 0);
    if FdxB.Scan(q, 0).Tag? {
      var k :| 0 <= k && FdxB.Valid(q, k) && FdxB.Scan(q, 0) == FdxB.Tag(FdxB.TagOf(FdxB.DataOf(FdxB.Window(q, k))));
      OnlyHeaderBehindOnes(q, k);
    }
    if |q| == 256 {
      assert FdxB.Window(q, 128) == q[128..];
      FdxB.FrameValid(FdxB.TagData(s));
      FdxB.TagOfData(s);
      if FdxB.Headers(q)(117) { OnlyHeaderBehindOnes(q, 117); }
      FdxB.MissedIffHidden(q, 128);
    }
  }

  lemma JustTheFrame(q: seq<bool>, s: string)
    requires FdxB.TagDigits(s) && q == FdxB.Frame(FdxB.TagData(s))
    ensures PhidgetsTag.Scan(q, 0, Crc.Zero()) == PhidgetsTag.NotFound && FdxB.Scan(q, 0) == FdxB.Tag(s)
  {
    hide FdxB.Frame, FdxB.Passes, FdxB.Header, FdxB.TagOf, FdxB.DataOf, FdxB.TagData;
    ShortQueue(q);
    FdxB.FrameValid(FdxB.TagData(s));
    FdxB.TagOfData(s);
    assert FdxB.Window(q, 0) == q;
  }

  // How far the read pointer is once the tag decoders ran.
  function ReadTo(p: Pos): nat {
    if p.n < 256 then 0 else if p == Pos(256, false) then 128 else if p.n < 384 then 256 else 384
  }

  function Before(p: Pos): nat {
    if p.n <= 255 || p == Pos(256, false) then 0 else if p == Pos(256, true) then 128 else 256
  }

  lemma TakeOnTheWay(l: Line, f: Bits, p: Pos, s: string)
    requires Twice(f, s) && 0 < p.n && (p.n < 384 || p == Pos(384, false)) && Kept(l, f, p, Before(p))
    ensures Kept(TakeBiphase(Outcome(true, l)).0, f, p, ReadTo(p))
  {
    hide FdxB.Scan, PhidgetsTag.Scan, FdxB.Frame, FdxB.TagData, Toggles, Kept, Consumed;
    var q, r := Queue(l), Before(p);
    KeptQueue(l, f, p, r);
    assert p.n > r;
    QueueSeen(l);
    forall i: nat | 0 < i
      ensures FdxB.TagDigits(s) && (i <= 128 ==> Toggles(f)(i))
      ensures 128 < i <= 256 ==> Toggles(f)(i) == FdxB.Frame(FdxB.TagData(s))[i - 129]
      ensures 256 < i <= 384 ==> Toggles(f)(i) == FdxB.Frame(FdxB.TagData(s))[i - 257]
    {
      TwiceBits(f, s, i);
    }
    if r == 0 {
      NoPhidgetsBehindOnes(q);
      FdxBehindOnes(q, s);
    } else if p == Pos(256, true) || p == Pos(384, false) {
      assert q == FdxB.Frame(FdxB.TagData(s));
      JustTheFrame(q, s);
    } else {
      ShortQueue(q);
    }
  }

  lemma OneMore(f: Bits, s: string, p: Pos)
    requires Twice(f, s) && IsPos(f, p) && p.n < 384
    ensures var p' := NextPos(f, p); Before(p') == ReadTo(p) && (p'.n < 384 || p' == Pos(384, false))
  {
    if p.n == 256 && !p.mid {
      TwiceBits(f, s, 257);
      assert Toggles(f)(257) == (f(257) != f(256));
      assert !FdxB.FrameBit(FdxB.TagData(s), 0);
    }
  }

  // Every packet after the first one is a single pulse.
  lemma {:induction false} KeptAll(l: Line, f: Bits, half: nat, ms: seq<nat>, s: string)
    requires IsRate(half) && IsPos(f, Pos(0, false)) && Twice(f, s) && Kept(l, f, Pos(0, false), 0)
    requires |ms| > 0 && 0 < ms[0] && PosAfter(f, Pos(0, false), ms[0]).n < 256 && Sized(ms[1..], 1, 1)
    requires var p := PosAfter(f, Pos(0, false), Total(ms)); p.n < 384 || p == Pos(384, false)
    ensures var p := PosAfter(f, Pos(0, false), Total(ms));
      p.n > 0 && Kept(BiphaseAll(l, f, half, Pos(0, false), ms).0, f, p, ReadTo(p))
  {
    hide IsRate, TakeBiphase, BiphaseRun, Played, PosAfter, BiphaseAll, ManchesterAll, Kept, Toggles, ReadTo, Before, NextPos;
    var p, k := Pos(0, false), |ms| - 1;
    var init, m := ms[..k], ms[k];
    assert init + [m] == ms;
    AllNext(l, f, half, p, init, m);
    TwiceBits(f, s, 1);
    if k == 0 {
      OneMerged(l, f, half, p, m);
      KeptRun(l, f, half, p, 0, m);
      FirstStop(PosAfter(f, p, m));
      TakeOnTheWay(BiphaseRun(l, Played(f, half, p, m), half, 2 * half).line, f, PosAfter(f, p, m), s);
    } else {
      assert ms[1..][..k - 1] == init[1..] && m == ms[1..][k - 1];
      TotalNext(init, m);
      var p0 := PosAfter(f, p, Total(init));
      OnePulseOn(f, p, Total(init));
      StillBelow(f, p0, s);
      KeptAll(l, f, half, init, s);
      var n := BiphaseAll(l, f, half, p, init).0;
      OneMore(f, s, p0);
      OnePulseOn(f, p0, 0);
      KeptRun(n, f, half, p0, ReadTo(p0), 1);
      TakeOnTheWay(BiphaseRun(n, Played(f, half, p0, 1), half, 2 * half).line, f, NextPos(f, p0), s);
    }
  }

  lemma FirstStop(p: Pos)
    requires p.n < 256
    ensures Before(p) == 0
  {
  }

  lemma OnePulseOn(f: Bits, p: Pos, m: nat)
    requires IsPos(f, p)
    ensures PosAfter(f, p, m + 1) == NextPos(f, PosAfter(f, p, m)) && PosAfter(f, p, 0) == p
  {
  }

  lemma StillBelow(f: Bits, p: Pos, s: string)
    requires Twice(f, s) && IsPos(f, p)
    ensures var p' := NextPos(f, p); p'.n < 384 || p' == Pos(384, false) ==> p.n < 384
  {
    if p == Pos(383, true) || p.n < 383 {
    }
  }

  // ---- the pulse after the second frame -------------------------------------------

  lemma OldBit(l: Line, f: Bits, j: nat)
    requires Kept(l, f, Pos(384, true), 384) && j < SIZE
    ensures |Queue(l)| == 0 && |Seen(l)| == SIZE && Seen(l)[j] == (640 <= j && Toggles(f)(j - 639))
  {
    hide Toggles;
    assert Seen(l)[j] == l.ring.data[(384 + j) % SIZE];
    assert (384 + j) % SIZE == if j < 640 then 384 + j else j - 640;
  }

  // What the ring holds from the pointer on: zeros, the ones, the frame and the frame again.
  lemma OldBits(l: Line, f: Bits, s: string)
    requires Twice(f, s) && Kept(l, f, Pos(384, true), 384)
    ensures |Queue(l)| == 0 && |Seen(l)| == SIZE
    ensures forall j :: 0 <= j < 640 ==> !Seen(l)[j]
    ensures forall j :: 640 <= j < 768 ==> Seen(l)[j]
    ensures Seen(l)[768..896] == FdxB.Frame(FdxB.TagData(s))
  {
    hide FdxB.Frame, FdxB.TagData, Toggles, Kept, Seen, Queue, Twice;
    TwiceBits(f, s, 1);
    OldBit(l, f, 0);
    forall j: nat | j < 896
      ensures Seen(l)[j] == if j < 640 then false else if j < 768 then true else FdxB.Frame(FdxB.TagData(s))[j - 768]
    {
      OldBit(l, f, j);
      if j >= 640 { TwiceBits(f, s, j - 639); }
    }
  }

  lemma {:induction false} ReachedFrom(h: nat -> bool, p: nat, k: nat, n: nat)
    requires n <= p <= k && (forall i: nat :: i < p ==> !h(i)) && Search.Reaches(h, 11, p - n, k)
    ensures Search.Reaches(h, 11, p, k)
    decreases n
  {
    if n > 0 { ReachedFrom(h, p, k, n - 1); }
  }

  lemma FrameInOldBits(q: seq<bool>, s: string)
    requires FdxB.TagDigits(s) && |q| == SIZE && (forall j :: 0 <= j < 640 ==> !q[j]) && (forall j :: 640 <= j < 768 ==> q[j])
    requires q[768..896] == FdxB.Frame(FdxB.TagData(s))
    ensures FdxB.Valid(q, 768) && Search.Reaches(FdxB.Headers(q), 11, 12, 768)
  {
    hide FdxB.Passes, FdxB.TagData, Search.Reaches;
    assert FdxB.Window(q, 768) == q[768..896];
    FdxB.FrameValid(FdxB.TagData(s));
    assert !FdxB.Headers(q)(757) by { assert FdxB.Window(q, 757)[0] == q[757]; }
    FdxB.MissedIffHidden(q, 768);
    forall i: nat | i < 12 ensures !FdxB.Headers(q)(i) { assert FdxB.Window(q, i)[10] == q[i + 10]; }
    ReachedFrom(FdxB.Headers(q), 12, 768, 12);
  }

  /** Half a bit more, and a tag is read although the queue is used up. */
  lemma UsedUpReadsAgain(l: Line, f: Bits, s: string)
    requires Twice(f, s) && Kept(l, f, Pos(384, true), 384)
    ensures TakeBiphase(Outcome(true, l)).1 != []
  {
    hide Kept, Twice, FdxB.Valid, FdxB.Passes, FdxB.Headers, Search.Reaches, TakeFdxB, TakePhidgets, Queue, Consumed;
    StaleTags.PhidgetsReadsQueueOrOldBits(l);
    StaleTags.FdxBReadsQueueOrOldBits(l);
    if TakePhidgets(l).1 == [] {
      TwiceBits(f, s, 1);
      OldBits(l, f, s);
      FrameInOldBits(Seen(l), s);
      assert TakePhidgets(l).0 == l;
    }
  }

  // ---- the run --------------------------------------------------------------------

  ghost predicate SentLevel(s: string, n: nat)
    requires FdxB.TagDigits(s)
  {
    n > 0 && SentLevel(s, n - 1) != SentAt(s, n)
  }

  lemma OneThenZero(f: Bits, s: string)
    requires Twice(f, s)
    ensures f(1) != f(0) && f(129) == f(128)
  {
    hide FdxB.TagData, Crc.MessageCrc;
    TwiceBits(f, s, 1);
    TwiceBits(f, s, 129);
    assert Toggles(f)(129) == (f(129) != f(128)) && Toggles(f)(1) == (f(1) != f(0));
    assert !FdxB.Frame(FdxB.TagData(s))[0];
  }

  lemma BothByThen(f: Bits, half: nat, k: nat, a: nat, s: string)
    requires IsRate(half) && Twice(f, s) && SameLength(Played(f, half, Pos(0, false), k), a)
    ensures PosAfter(f, Pos(0, false), k).n < 129
  {
    hide IsRate, PosAfter, Played, Twice;
    OneThenZero(f, s);
    if PosAfter(f, Pos(0, false), k).n >= 129 {
      var i := PulseOfBit(f, half, false, k, 1);
      var j := PulseOfBit(f, half, false, k, 129);
    }
  }

  lemma TwiceLively(f: Bits, half: nat, s: string)
    requires IsRate(half) && Twice(f, s)
    ensures Lively(f, half, false)
  {
    hide IsRate, Twice, SameLength, Played, PosAfter;
    forall k: nat, a: nat | SameLength(Played(f, half, Pos(0, false), k), a) ensures k <= 450 {
      BothByThen(f, half, k, a, s);
      PulsesPerBit(f, Pos(0, false), k);
    }
  }

  lemma FirstPacketEnds(f: Bits, half: nat, m: nat, s: string)
    requires IsRate(half) && Twice(f, s) && FirstDecoded(f, half, false, m, 1)
    ensures 0 < m && PosAfter(f, Pos(0, false), m).n < 256
  {
    hide IsRate, PosAfter, Played, Twice, SameLength;
    var k: nat, a: nat :| k < m <= k + 1 && SameLength(Played(f, half, Pos(0, false), k), a);
    BothByThen(f, half, k, a, s);
    PlayedInParts(f, half, Pos(0, false), k, m - k);
    PulsesPerBit(f, PosAfter(f, Pos(0, false), k), m - k);
  }

  // Up to the end of the second frame.
  lemma FramesRead(st: State, f: Bits, half: nat, ms: seq<nat>, s: string) returns (merged: seq<nat>)
    requires IsRate(half) && Twice(f, s) && Sized(ms, 1, 1) && PosAfter(f, Pos(0, false), Total(ms)) == Pos(384, false)
    requires st.pulses == [] && st.shortClocks == 0 && st.longClocks == 0 && Kept(st.biphase, f, Pos(0, false), 0)
    ensures merged != [] && Split(st, f, half, false, ms, merged, 1, 1)
    ensures Kept(FeedAll(st, f, half, Pos(0, false), ms).0.biphase, f, Pos(384, false), 384)
  {
    hide IsRate, PosAfter, Played, Twice, SameLength, FeedAll, Kept, FirstDecoded, Lively, BiphaseAll, ManchesterAll, Only, Known, Total;
    TwiceLively(f, half, s);
    merged := RunSplits(st, f, half, false, ms, 1, 1);
    if merged == [] {
      BothByThen(f, half, Total(ms), FeedAll(st, f, half, Pos(0, false), ms).0.shortClocks, s);
    } else {
      FirstPacketEnds(f, half, merged[0], s);
      KeptAll(st.biphase, f, half, merged, s);
    }
  }

  /** The next pulse, the first half of a zero, brings no bit, but another tag. */
  lemma FrameReadAgain(st: State, f: Bits, half: nat, ms: seq<nat>, s: string)
    requires IsRate(half) && Twice(f, s) && Sized(ms, 1, 1) && PosAfter(f, Pos(0, false), Total(ms)) == Pos(384, false)
    requires st.pulses == [] && st.shortClocks == 0 && st.longClocks == 0 && Kept(st.biphase, f, Pos(0, false), 0)
    ensures var (t, before) := FeedAll(st, f, half, Pos(0, false), ms);
      var (u, after) := FeedAll(st, f, half, Pos(0, false), ms + [1]);
      && PosAfter(f, Pos(0, false), Total(ms + [1])) == Pos(384, true) && Queue(t.biphase) == []
      && |Only(after, false)| > |Only(before, false)|
  {
    hide IsRate, PosAfter, Played, Twice, FeedAll, Kept, BiphaseRun, ManchesterRun, TakeEM4100, TakeBiphase, Feed, Only, Total, Queue, NextPos;
    var merged := FramesRead(st, f, half, ms, s);
    var p := Pos(384, false);
    var (t, before) := FeedAll(st, f, half, Pos(0, false), ms);
    ZeroFollows(f, s);
    FeedAllNext(st, f, half, Pos(0, false), ms, 1);
    FeedKnowing(t, f, half, p, 1);
    var a, b := ManchesterRun(t.man, Played(f, half, p, 1), 2 * half), BiphaseRun(t.biphase, Played(f, half, p, 1), half, 2 * half);
    TakesApart(a, b);
    OnlyAppend(before, Feed(t, Played(f, half, p, 1)).1, false);
    OnePulseOn(f, p, 0);
    OnePulseOn(f, Pos(0, false), Total(ms));
    KeptRun(t.biphase, f, half, p, 384, 1);
    KeptQueue(t.biphase, f, p, 384);
    UsedUpReadsAgain(b.line, f, s);
    assert b == Outcome(true, b.line);
  }

  lemma ZeroFollows(f: Bits, s: string)
    requires Twice(f, s)
    ensures IsPos(f, Pos(384, false)) && NextPos(f, Pos(384, false)) == Pos(384, true)
  {
    TwiceBits(f, s, 385);
    assert Toggles(f)(385) == (f(385) != f(384));
  }

  /** There is such a run from the reset reader for every tag and every rate. */
  lemma FrameReadAgainIsReached(s: string, half: nat) returns (st: State, f: Bits, ms: seq<nat>)
    requires FdxB.TagDigits(s) && IsRate(half)
    ensures st.pulses == [] && st.shortClocks == 0 && st.longClocks == 0 && Fresh(st.man) && Fresh(st.biphase)
    ensures Twice(f, s) && Packets(ms) && ms != []
    ensures var last := ms[..|ms| - 1];
      var (t, before) := FeedAll(st, f, half, Pos(0, false), last);
      && PosAfter(f, Pos(0, false), Total(ms)).n == PosAfter(f, Pos(0, false), Total(last)).n && Queue(t.biphase) == []
      && |Only(FeedAll(st, f, half, Pos(0, false), ms).1, false)| > |Only(before, false)|
  {
    hide IsRate, FeedAll, Only, Twice;
    f := (n: nat) => SentLevel(s, n);
    SentTwice(f, s);
    var l: Line := LineState(false, false, RingOf(seq(SIZE, i => false), 0, 0));
    st := State([], 0, 0, l, l);
    var k := StaleTags.PulsesOfBits(f, 384);
    var ones := seq(k, i => 1);
    StaleTags.TotalOfOnes(k);
    FrameReadAgain(st, f, half, ones, s);
    ms := ones + [1];
    assert ms[..|ms| - 1] == ones;
  }

  lemma SentTwice(f: Bits, s: string)
    requires FdxB.TagDigits(s) && f == ((n: nat) => SentLevel(s, n))
    ensures Twice(f, s)
  {
    hide SentAt;
  }
}
