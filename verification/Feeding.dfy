/** A reader that is fed an endless stream of pulses in packets. */
module Feeding {
  // Until both pulse lengths were seen the pulses stay queued; from then on each of the two line decoders goes its
  // own way, packet by packet, and hands its bits to its tag decoders.

  import opened Ring
  import opened Pulses
  import opened LineDecoders
  import opened Stream
  import opened BiphaseStream
  import opened Analysis

  // ---- one analysis ---------------------------------------------------------------

  ghost predicate InRate(pulses: seq<Pulse>, half: nat) {
    forall i :: 0 <= i < |pulses| ==> pulses[i].Edge? && pulses[i].clocks in {half, 2 * half}
  }

  ghost predicate SameLength(pulses: seq<Pulse>, a: nat) {
    forall i :: 0 <= i < |pulses| ==> pulses[i].Edge? && pulses[i].clocks == a
  }

  ghost predicate SomeLong(pulses: seq<Pulse>, half: nat) {
    exists i :: 0 <= i < |pulses| && pulses[i].Edge? && pulses[i].clocks == 2 * half
  }

  // What is measured of a stream: nothing, one length, or both.
  ghost predicate Known(a: nat, b: nat, half: nat) {
    (a == 0 && b == 0) || (a in {half, 2 * half} && (b == 0 || a + b == 3 * half))
  }

  lemma {:induction false} MeasureStream(pulses: seq<Pulse>, i: nat, a: nat, b: nat, half: nat)
    requires IsRate(half) && InRate(pulses, half) && i <= |pulses| && Known(a, b, half)
    requires b == 0 ==> (a == 0 <==> i == 0)
    requires b == 0 ==> SameLength(pulses[..i], a)
    ensures var m := MeasureFrom(pulses, i, a, b);
      && m.fits && m.n == |pulses| && Known(m.shortClocks, m.longClocks, half)
      && (m.longClocks == 0 ==> SameLength(pulses, m.shortClocks))
      && (b > 0 ==> m.shortClocks == a && m.longClocks == b)
      && (|pulses| > 0 ==> m.shortClocks > 0)
      && (b == 0 < m.longClocks ==> SomeLong(pulses, half))
    decreases |pulses| - i
  {
    if i == |pulses| {
      assert pulses[..i] == pulses;
    } else {
      var clocks := pulses[i].clocks;
      assert pulses[..i + 1] == pulses[..i] + [pulses[i]];
      if a == 0 {
        MeasureStream(pulses, i + 1, clocks, 0, half);
      } else if clocks == a || b > 0 {
        MeasureStream(pulses, i + 1, a, b, half);
      } else {
        MeasureStream(pulses, i + 1, a, clocks, half);
        assert pulses[i - 1] == pulses[..i][i - 1];
      }
    }
  }

  /** Analysis of pulses of one rate without pauses is a single round. */
  lemma AnalyzeRate(st: State, half: nat)
    requires IsRate(half) && InRate(st.pulses, half)
    ensures var m := MeasureFrom(st.pulses, 0, st.shortClocks, st.longClocks);
      var t := st.(shortClocks := m.shortClocks, longClocks := m.longClocks);
      m.fits && m.n == |st.pulses| ==>
        Analyze(st) == if m.shortClocks == 0 || m.longClocks == 0 then (t, []) else Decode(Ordered(t), |st.pulses|)
  {
    hide Decode, MeasureFrom;
  }

  /** A packet while both lengths are known already. */
  lemma FeedMeasured(st: State, pulses: seq<Pulse>, half: nat)
    requires IsRate(half) && InRate(pulses, half) && 0 < |pulses| < SIZE
    requires st.pulses == [] && st.shortClocks == half && st.longClocks == 2 * half
    ensures Feed(st, pulses) == Decode(st.(pulses := pulses), |pulses|)
  {
    hide IsRate, Decode, MeasureFrom, Analyze;
    var st' := st.(pulses := pulses);
    assert Newest(st.pulses + pulses) == pulses by { assert st.pulses + pulses == pulses; }
    assert pulses[..0] == [];
    MeasureStream(pulses, 0, half, 2 * half, half);
    AnalyzeRate(st', half);
    assert Ordered(st') == st';
  }

  /** A packet while the pulses so far were all of one length: they stay queued, or are decoded with it. */
  lemma FeedFirst(st: State, packet: seq<Pulse>, half: nat)
    requires IsRate(half) && |packet| > 0 && InRate(st.pulses + packet, half) && |st.pulses| + |packet| < SIZE
    requires SameLength(st.pulses, st.shortClocks) && Known(st.shortClocks, 0, half) && st.longClocks == 0
    requires |st.pulses| == 0 <==> st.shortClocks == 0
    ensures var pulses := st.pulses + packet;
      (exists a :: Known(a, 0, half) && a > 0 && SameLength(pulses, a)
                   && Feed(st, packet) == (st.(pulses := pulses, shortClocks := a), []))
      || (SomeLong(pulses, half)
          && Feed(st, packet) == Decode(st.(pulses := pulses, shortClocks := half, longClocks := 2 * half), |pulses|))
  {
    hide IsRate, Decode, MeasureFrom, Analyze, Known;
    var pulses := st.pulses + packet;
    var st' := st.(pulses := pulses);
    assert Newest(pulses) == pulses;
    MeasureFirst(st, packet, half);
    AnalyzeRate(st', half);
    var q := MeasureFrom(pulses, 0, st.shortClocks, 0);
    if q.longClocks > 0 {
      var t := Ordered(st'.(shortClocks := q.shortClocks, longClocks := q.longClocks));
      assert t.shortClocks == half && t.longClocks == 2 * half by { OrderedRate(q.shortClocks, q.longClocks, half); }
      assert t == st.(pulses := pulses, shortClocks := half, longClocks := 2 * half);
    } else {
      assert Known(q.shortClocks, 0, half);
    }
  }

  lemma OrderedRate(a: nat, b: nat, half: nat)
    requires Known(a, b, half) && b > 0
    ensures (if b < a then b else a) == half && (if b < a then a else b) == 2 * half
  {
  }

  lemma MeasureFirst(st: State, packet: seq<Pulse>, half: nat)
    requires IsRate(half) && |packet| > 0 && InRate(st.pulses + packet, half)
    requires SameLength(st.pulses, st.shortClocks) && Known(st.shortClocks, 0, half)
    requires |st.pulses| == 0 <==> st.shortClocks == 0
    ensures var pulses := st.pulses + packet;
      var q := MeasureFrom(pulses, 0, st.shortClocks, 0);
      && q.fits && q.n == |pulses| && Known(q.shortClocks, q.longClocks, half) && q.shortClocks > 0
      && (q.longClocks == 0 ==> SameLength(pulses, q.shortClocks))
      && (q.longClocks > 0 ==> SomeLong(pulses, half))
  {
    hide MeasureFrom;
    var pulses, k := st.pulses + packet, |st.pulses|;
    assert pulses[..k] == st.pulses;
    if k == 0 {
      MeasureStream(pulses, 0, 0, 0, half);
    } else {
      MeasureSkips(pulses, 0, k, st.shortClocks);
      MeasureStream(pulses, k, st.shortClocks, 0, half);
    }
  }

  lemma {:induction false} MeasureSkips(pulses: seq<Pulse>, i: nat, k: nat, a: nat)
    requires i <= k <= |pulses| && a > 0 && SameLength(pulses[..k], a)
    ensures MeasureFrom(pulses, i, a, 0) == MeasureFrom(pulses, k, a, 0)
    decreases k - i
  {
    if i < k {
      assert pulses[i] == pulses[..k][i];
      MeasureSkips(pulses, i + 1, k, a);
    }
  }

  // ---- the pulses of a stream -----------------------------------------------------

  lemma {:induction false} PlayedInRate(f: Bits, half: nat, p: Pos, k: nat)
    requires IsRate(half) && IsPos(f, p)
    ensures InRate(Played(f, half, p, k), half)
  {
    if k > 0 { PlayedInRate(f, half, p, k - 1); }
  }

  /** A long pulse is a change. */
  lemma {:induction false} LongIsChange(f: Bits, half: nat, mid: bool, k: nat, i: nat)
    requires IsRate(half) && IsPos(f, Pos(0, mid)) && i < k
    requires Played(f, half, Pos(0, mid), k)[i] == Edge(Polarity(Played(f, half, Pos(0, mid), k)[i]), 2 * half)
    ensures Changed(f, PosAfter(f, Pos(0, mid), k).n)
  {
    var p := PosAfter(f, Pos(0, mid), k - 1);
    if i < k - 1 {
      assert Played(f, half, Pos(0, mid), k)[i] == Played(f, half, Pos(0, mid), k - 1)[i];
      LongIsChange(f, half, mid, k - 1, i);
    } else {
      assert f(p.n + 1) != f(p.n);
      assert f(p.n + 1) != f(0) || (p.n > 0 && f(p.n) != f(0));
    }
  }

  /** Every complete bit has a pulse whose length says whether it differs from the one before. */
  lemma {:induction false} PulseOfBit(f: Bits, half: nat, mid: bool, k: nat, j: nat) returns (i: nat)
    requires IsRate(half) && IsPos(f, Pos(0, mid)) && 0 < j <= PosAfter(f, Pos(0, mid), k).n
    ensures i < k && Played(f, half, Pos(0, mid), k)[i].Edge?
    ensures Played(f, half, Pos(0, mid), k)[i].clocks == if f(j) != f(j - 1) then 2 * half else half
    decreases k
  {
    if j <= PosAfter(f, Pos(0, mid), k - 1).n {
      i := PulseOfBit(f, half, mid, k - 1, j);
      assert Played(f, half, Pos(0, mid), k)[i] == Played(f, half, Pos(0, mid), k - 1)[i];
    } else {
      i := k - 1;
    }
  }

  lemma {:induction false} PulsesPerBit(f: Bits, p: Pos, k: nat)
    requires IsPos(f, p)
    ensures k <= 2 * (PosAfter(f, p, k).n - p.n) + 1
    ensures k + (if p.mid then 1 else 0) <= 2 * (PosAfter(f, p, k).n - p.n) + if PosAfter(f, p, k).mid then 1 else 0
    ensures p.n <= PosAfter(f, p, k).n <= p.n + k
  {
    if k > 0 { PulsesPerBit(f, p, k - 1); }
  }

  // ---- the Manchester decoder -----------------------------------------------------

  // An empty queue is no danger when the next pulse of the stream is a long one: it brings a bit.
  ghost predicate BitAhead(q: seq<bool>, f: Bits, p: Pos) { |q| == 0 ==> f(p.n + 1) != f(p.n) }

  // After m more pulses the decoder is in step, has lost nothing, and has a bit or is about to get one.
  ghost predicate KeepsUp(l: Line, f: Bits, half: nat, p: Pos, m: nat)
    requires IsRate(half) && IsPos(f, p)
  {
    var e, p' := ManchesterRun(l, Played(f, half, p, m), 2 * half), PosAfter(f, p, m);
    && InStep(e, f, p') && BitAhead(Queue(e), f, p') && (m > 0 ==> |Queue(e)| > 0)
    && p.n <= p'.n <= p.n + m && |Queue(e)| <= |Queue(l)| + p'.n - p.n
    && (AllCaught(Queue(l), f, p.n) ==> AllCaught(Queue(e), f, p'.n))
  }

  /** A decoder in step stays in step, and after a pulse its queue is not empty. */
  lemma {:induction false} RunInStep(l: Line, f: Bits, half: nat, p: Pos, m: nat)
    requires IsRate(half) && IsPos(f, p) && InStep(l, f, p) && BitAhead(Queue(l), f, p)
    ensures KeepsUp(l, f, half, p, m)
  {
    hide KeepsUp, IsRate, InStep, BitAhead, Queue;
    if m == 0 {
      NoPulses(l, f, half, p);
    } else {
      RunInStep(l, f, half, p, m - 1);
      RunInStepNext(l, f, half, p, m - 1);
    }
  }

  lemma NoPulses(l: Line, f: Bits, half: nat, p: Pos)
    requires IsRate(half) && IsPos(f, p) && InStep(l, f, p) && BitAhead(Queue(l), f, p)
    ensures KeepsUp(l, f, half, p, 0)
  {
    hide IsRate, InStep, BitAhead, Queue, AllCaught;
  }

  lemma RunInStepNext(l: Line, f: Bits, half: nat, p: Pos, m: nat)
    requires IsRate(half) && IsPos(f, p) && KeepsUp(l, f, half, p, m)
    ensures KeepsUp(l, f, half, p, m + 1)
  {
    hide Queue, Newest, ManchesterStep, IsRate, NextPulse, Latest, InStep, AllCaught;
    var pulses, p' := Played(f, half, p, m), PosAfter(f, p, m);
    var e := ManchesterRun(l, pulses, 2 * half);
    assert (pulses + [NextPulse(f, half, p')])[..m] == pulses;
    StaysInStep(e, f, half, p');
    if AllCaught(Queue(e), f, p'.n) { AllCaughtNext(Queue(e), f(p'.n + 1), f, p'.n); }
    NewestNotEmpty(Queue(e), f(p'.n + 1));
  }

  /** Once there was a long pulse, a decoder that was fresh at the start is in step. */
  lemma CaughtFromStart(l: Line, f: Bits, half: nat, mid: bool, k: nat)
    requires IsRate(half) && Fresh(l) && IsPos(f, Pos(0, mid)) && SomeLong(Played(f, half, Pos(0, mid), k), half)
    ensures var m, p := ManchesterRun(l, Played(f, half, Pos(0, mid), k), 2 * half), PosAfter(f, Pos(0, mid), k);
      InStep(m, f, p) && AllCaught(Queue(m), f, p.n) && |Queue(m)| > 0 && NoneBefore(Queue(m), f, p.n)
  {
    hide IsRate, InStep, AllCaught, Queue, ManchesterRun, Listening, Played, PosAfter;
    var pulses := Played(f, half, Pos(0, mid), k);
    LockIn(l, f, half, mid, k);
    var i :| 0 <= i < |pulses| && pulses[i].Edge? && pulses[i].clocks == 2 * half;
    LongIsChange(f, half, mid, k, i);
    LockedIn(ManchesterRun(l, pulses, 2 * half), f, PosAfter(f, Pos(0, mid), k));
  }

  lemma LockedIn(l: Line, f: Bits, p: Pos)
    requires Listening(l, f, p) && Changed(f, p.n)
    ensures InStep(l, f, p) && AllCaught(Queue(l), f, p.n) && |Queue(l)| > 0 && NoneBefore(Queue(l), f, p.n)
  {
  }

  lemma QueueSeen(l: Line)
    requires |Queue(l)| > 0
    ensures Seen(l) == Queue(l) && !Empty(l)
  {
  }

  lemma ConsumedQueue(l: Line, n: nat)
    requires n <= |Queue(l)|
    ensures var m := Consumed(l, n);
      Queue(m) == Queue(l)[n..] && m.lockedIn == l.lockedIn && m.shortChange == l.shortChange
  {
    SkipDrops(l.ring, n);
  }

  lemma LatestFits(q: seq<bool>, f: Bits, n: nat)
    requires Latest(q, f, n)
    ensures |q| <= n
  {
  }

  lemma LatestTail(q: seq<bool>, f: Bits, n: nat, k: nat)
    requires Latest(q, f, n) && k <= |q|
    ensures Latest(q[k..], f, n)
  {
  }

  // ---- packet after packet --------------------------------------------------------

  function Total(ms: seq<nat>): nat { if |ms| == 0 then 0 else Total(ms[..|ms| - 1]) + ms[|ms| - 1] }

  ghost predicate Sized(ms: seq<nat>, least: nat, most: nat) { forall i :: 0 <= i < |ms| ==> least <= ms[i] <= most }

  /** All the sizes a packet can have. */
  ghost predicate Packets(ms: seq<nat>) { Sized(ms, 1, 0x3F) }

  /** All packets, each with so many pulses. */
  ghost function FeedAll(st: State, f: Bits, half: nat, p: Pos, ms: seq<nat>): (r: (State, seq<Read>))
    requires IsRate(half) && IsPos(f, p)
  {
    if |ms| == 0 then (st, [])
    else
      var (t, tags) := FeedAll(st, f, half, p, ms[..|ms| - 1]);
      var (u, more) := Feed(t, Played(f, half, PosAfter(f, p, Total(ms[..|ms| - 1])), ms[|ms| - 1]));
      (u, tags + more)
  }

  // All pulses so far are queued, and they are of one length.
  ghost predicate Waits(st: State, f: Bits, half: nat, mid: bool, k: nat)
    requires IsRate(half) && IsPos(f, Pos(0, mid))
  {
    && st.pulses == Played(f, half, Pos(0, mid), k) && SameLength(st.pulses, st.shortClocks)
    && Known(st.shortClocks, 0, half) && st.longClocks == 0 && (k == 0 <==> st.shortClocks == 0)
  }

  // Both lengths are known, and no pulse is left.
  ghost predicate Knows(st: State, half: nat) {
    st.pulses == [] && st.shortClocks == half && st.longClocks == 2 * half
  }

  // What one decode makes of the lines m and r.
  ghost predicate Decoded(t: State, tags: seq<Read>, half: nat, m: Line, r: Outcome) {
    && Knows(t, half) && t.man == TakeEM4100(m).0 && t.biphase == TakeBiphase(r).0
    && tags == TakeEM4100(m).1 + TakeBiphase(r).1
  }

  lemma DecodeAll(st: State, half: nat)
    requires st.shortClocks == half && st.longClocks == 2 * half
    ensures var (t, tags) := Decode(st, |st.pulses|);
      Decoded(t, tags, half, ManchesterRun(st.man, st.pulses, 2 * half), BiphaseRun(st.biphase, st.pulses, half, 2 * half))
  {
    hide ManchesterRun, BiphaseRun, TakeEM4100, TakeBiphase;
    assert st.pulses[..|st.pulses|] == st.pulses && st.pulses[|st.pulses|..] == [];
  }

  lemma FeedWaiting(st: State, f: Bits, half: nat, mid: bool, k: nat, m: nat)
    requires IsRate(half) && IsPos(f, Pos(0, mid)) && Waits(st, f, half, mid, k) && 0 < m && k + m < SIZE
    ensures var (t, tags) := Feed(st, Played(f, half, PosAfter(f, Pos(0, mid), k), m));
      var all := Played(f, half, Pos(0, mid), k + m);
      || (Waits(t, f, half, mid, k + m) && tags == [] && t.man == st.man && t.biphase == st.biphase)
      || (SomeLong(all, half)
          && Decoded(t, tags, half, ManchesterRun(st.man, all, 2 * half), BiphaseRun(st.biphase, all, half, 2 * half)))
  {
    hide IsRate, Decode, ManchesterRun, BiphaseRun, TakeEM4100, TakeBiphase, Feed, Played, PosAfter, Known;
    PlayedInParts(f, half, Pos(0, mid), k, m);
    var all, packet := Played(f, half, Pos(0, mid), k + m), Played(f, half, PosAfter(f, Pos(0, mid), k), m);
    PlayedInRate(f, half, Pos(0, mid), k + m);
    FeedFirst(st, packet, half);
    var t := st.(pulses := all, shortClocks := half, longClocks := 2 * half);
    DecodeAll(t, half);
  }

  lemma FeedKnowing(st: State, f: Bits, half: nat, p: Pos, m: nat)
    requires IsRate(half) && IsPos(f, p) && Knows(st, half) && 0 < m < SIZE
    ensures var (t, tags) := Feed(st, Played(f, half, p, m));
      var packet := Played(f, half, p, m);
      Decoded(t, tags, half, ManchesterRun(st.man, packet, 2 * half), BiphaseRun(st.biphase, packet, half, 2 * half))
  {
    hide IsRate, Decode, ManchesterRun, BiphaseRun, TakeEM4100, TakeBiphase, Feed, Played;
    PlayedInRate(f, half, p, m);
    FeedMeasured(st, Played(f, half, p, m), half);
    DecodeAll(st.(pulses := Played(f, half, p, m)), half);
  }

  // ---- the two decoders apart -----------------------------------------------------

  /** What the Manchester decoder and its tag decoder make of packets of so many pulses. */
  ghost function ManchesterAll(l: Line, f: Bits, half: nat, p: Pos, ms: seq<nat>): (r: (Line, seq<Read>))
    requires IsRate(half) && IsPos(f, p)
  {
    if |ms| == 0 then (l, [])
    else
      var init := ms[..|ms| - 1];
      var (m, tags) := ManchesterAll(l, f, half, p, init);
      var (n, more) := TakeEM4100(ManchesterRun(m, Played(f, half, PosAfter(f, p, Total(init)), ms[|ms| - 1]), 2 * half));
      (n, tags + more)
  }

  /** The same for the biphase decoder and its two tag decoders. */
  ghost function BiphaseAll(l: Line, f: Bits, half: nat, p: Pos, ms: seq<nat>): (r: (Line, seq<Read>))
    requires IsRate(half) && IsPos(f, p)
  {
    if |ms| == 0 then (l, [])
    else
      var init := ms[..|ms| - 1];
      var (m, tags) := BiphaseAll(l, f, half, p, init);
      var (n, more) := TakeBiphase(BiphaseRun(m, Played(f, half, PosAfter(f, p, Total(init)), ms[|ms| - 1]), half, 2 * half));
      (n, tags + more)
  }

  /** The EM4100 tags among what was read, or the others. */
  function Only(tags: seq<Read>, em4100: bool): (r: seq<Read>) {
    if |tags| == 0 then []
    else
      var last := tags[|tags| - 1];
      Only(tags[..|tags| - 1], em4100) + if (last.protocol == EM4100) == em4100 then [last] else []
  }

  lemma {:induction false} OnlyMeans(tags: seq<Read>, em4100: bool)
    ensures forall x :: x in Only(tags, em4100) <==> x in tags && (x.protocol == EM4100) == em4100
  {
    if |tags| > 0 {
      OnlyMeans(tags[..|tags| - 1], em4100);
      assert tags == tags[..|tags| - 1] + [tags[|tags| - 1]];
    }
  }

  lemma {:induction false} OnlyAppend(a: seq<Read>, b: seq<Read>, em4100: bool)
    ensures Only(a + b, em4100) == Only(a, em4100) + Only(b, em4100)
  {
    if |b| == 0 {
      assert a + b == a;
    } else {
      OnlyAppend(a, b[..|b| - 1], em4100);
      assert (a + b)[..|a + b| - 1] == a + b[..|b| - 1];
    }
  }

  lemma {:induction false} OnlyAll(tags: seq<Read>, em4100: bool)
    requires AllEM4100(tags, em4100)
    ensures Only(tags, em4100) == tags && Only(tags, !em4100) == []
  {
    if |tags| > 0 {
      OnlyAll(tags[..|tags| - 1], em4100);
      assert tags == tags[..|tags| - 1] + [tags[|tags| - 1]];
    }
  }

  ghost predicate AllEM4100(tags: seq<Read>, em4100: bool) {
    forall i :: 0 <= i < |tags| ==> (tags[i].protocol == EM4100) == em4100
  }

  lemma OnlyOfTwo(a: seq<Read>, b: seq<Read>)
    requires AllEM4100(a, true) && AllEM4100(b, false)
    ensures Only(a + b, true) == a && Only(a + b, false) == b
  {
    hide Only;
    OnlyAll(a, true);
    OnlyAll(b, false);
    OnlyAppend(a, b, true);
    OnlyAppend(a, b, false);
    assert a + [] == a && [] + b == b;
  }

  lemma ProtocolsRead(m: Line, r: Outcome)
    ensures AllEM4100(TakeEM4100(m).1, true) && AllEM4100(TakeBiphase(r).1, false)
  {
  }

  lemma TakesApart(m: Line, r: Outcome)
    ensures var tags := TakeEM4100(m).1 + TakeBiphase(r).1;
      Only(tags, true) == TakeEM4100(m).1 && Only(tags, false) == TakeBiphase(r).1
  {
    hide TakeEM4100, TakeBiphase, Only, AllEM4100;
    ProtocolsRead(m, r);
    OnlyOfTwo(TakeEM4100(m).1, TakeBiphase(r).1);
  }

  // The first packet that is decoded: pulses of one length, and then at most one packet more, with a long one.
  ghost predicate FirstDecoded(f: Bits, half: nat, mid: bool, m: nat, most: nat)
    requires IsRate(half) && IsPos(f, Pos(0, mid))
  {
    && SomeLong(Played(f, half, Pos(0, mid), m), half)
    && exists k: nat, a: nat :: k < m <= k + most && SameLength(Played(f, half, Pos(0, mid), k), a)
  }

  // The packets as the decoders see them: the first ones, up to the one that brings the second length, in one.
  ghost predicate Merged(f: Bits, half: nat, mid: bool, ms: seq<nat>, merged: seq<nat>, least: nat, most: nat)
    requires IsRate(half) && IsPos(f, Pos(0, mid))
  {
    && |merged| > 0 && Total(merged) == Total(ms) && FirstDecoded(f, half, mid, merged[0], most)
    && Sized(merged[1..], least, most)
  }

  ghost predicate Split(st: State, f: Bits, half: nat, mid: bool, ms: seq<nat>, merged: seq<nat>, least: nat, most: nat)
    requires IsRate(half) && IsPos(f, Pos(0, mid))
  {
    var (t, tags) := FeedAll(st, f, half, Pos(0, mid), ms);
    if merged == [] then
      Waits(t, f, half, mid, Total(ms)) && tags == [] && t.man == st.man && t.biphase == st.biphase
    else
      && Merged(f, half, mid, ms, merged, least, most) && Knows(t, half)
      && (t.man, Only(tags, true)) == ManchesterAll(st.man, f, half, Pos(0, mid), merged)
      && (t.biphase, Only(tags, false)) == BiphaseAll(st.biphase, f, half, Pos(0, mid), merged)
  }

  /** Pulses of one length only do not go on for long. */
  ghost predicate Lively(f: Bits, half: nat, mid: bool)
    requires IsRate(half) && IsPos(f, Pos(0, mid))
  {
    forall k: nat, a: nat :: SameLength(Played(f, half, Pos(0, mid), k), a) ==> k <= 450
  }

  /** Feeding a reset reader is feeding the two decoders apart. */
  lemma {:induction false} RunSplits(st: State, f: Bits, half: nat, mid: bool, ms: seq<nat>, least: nat, most: nat)
    returns (merged: seq<nat>)
    requires IsRate(half) && IsPos(f, Pos(0, mid)) && Lively(f, half, mid)
    requires 1 <= least <= most <= 0x3F && Sized(ms, least, most)
    requires st.pulses == [] && st.shortClocks == 0 && st.longClocks == 0
    ensures Split(st, f, half, mid, ms, merged, least, most)
  {
    hide IsRate, Feed, TakeEM4100, TakeBiphase, ManchesterRun, BiphaseRun, Played, PosAfter;
    if |ms| == 0 {
      NothingSplit(st, f, half, mid, least, most);
      merged := [];
    } else {
      var init, m := ms[..|ms| - 1], ms[|ms| - 1];
      assert init + [m] == ms && Sized(init, least, most);
      var before := RunSplits(st, f, half, mid, init, least, most);
      if before == [] {
        merged := SplitWaiting(st, f, half, mid, init, m, least, most);
      } else {
        SplitKnowing(st, f, half, mid, init, m, before, least, most);
        merged := before + [m];
      }
    }
  }

  lemma NothingSplit(st: State, f: Bits, half: nat, mid: bool, least: nat, most: nat)
    requires IsRate(half) && IsPos(f, Pos(0, mid)) && st.pulses == [] && st.shortClocks == 0 && st.longClocks == 0
    ensures Split(st, f, half, mid, [], [], least, most)
  {
  }

  lemma FeedAllNext(st: State, f: Bits, half: nat, p: Pos, ms: seq<nat>, m: nat)
    requires IsRate(half) && IsPos(f, p)
    ensures var (t, tags) := FeedAll(st, f, half, p, ms);
      var (u, more) := Feed(t, Played(f, half, PosAfter(f, p, Total(ms)), m));
      FeedAll(st, f, half, p, ms + [m]) == (u, tags + more)
    ensures Total(ms + [m]) == Total(ms) + m
  {
    hide Feed, Played, PosAfter;
    assert (ms + [m])[..|ms|] == ms;
  }

  lemma AllNext(l: Line, f: Bits, half: nat, p: Pos, ms: seq<nat>, m: nat)
    requires IsRate(half) && IsPos(f, p)
    ensures var packet := Played(f, half, PosAfter(f, p, Total(ms)), m);
      && (var (n, tags) := ManchesterAll(l, f, half, p, ms);
          var (r, more) := TakeEM4100(ManchesterRun(n, packet, 2 * half));
          ManchesterAll(l, f, half, p, ms + [m]) == (r, tags + more))
      && (var (n, tags) := BiphaseAll(l, f, half, p, ms);
          var (r, more) := TakeBiphase(BiphaseRun(n, packet, half, 2 * half));
          BiphaseAll(l, f, half, p, ms + [m]) == (r, tags + more))
  {
    hide TakeEM4100, TakeBiphase, ManchesterRun, BiphaseRun, Played, PosAfter, Total;
    assert (ms + [m])[..|ms|] == ms;
  }

  lemma SplitWaiting(st: State, f: Bits, half: nat, mid: bool, init: seq<nat>, m: nat, least: nat, most: nat)
    returns (merged: seq<nat>)
    requires IsRate(half) && IsPos(f, Pos(0, mid)) && Lively(f, half, mid) && 0 < least <= m <= most <= 0x3F
    requires Split(st, f, half, mid, init, [], least, most)
    ensures Split(st, f, half, mid, init + [m], merged, least, most)
  {
    hide IsRate, Feed, TakeEM4100, TakeBiphase, ManchesterRun, BiphaseRun, Played, PosAfter, FeedAll, ManchesterAll, BiphaseAll, Only;
    var p, k := Pos(0, mid), Total(init);
    var (t, tags) := FeedAll(st, f, half, p, init);
    FeedAllNext(st, f, half, p, init, m);
    FeedWaiting(t, f, half, mid, k, m);
    var all := Played(f, half, p, k + m);
    var (u, more) := Feed(t, Played(f, half, PosAfter(f, p, k), m));
    assert tags + more == more;
    if Waits(u, f, half, mid, k + m) && more == [] && u.man == t.man && u.biphase == t.biphase {
      merged := [];
    } else {
      merged := [k + m];
      OneMerged(st.man, f, half, p, k + m);
      OneMerged(st.biphase, f, half, p, k + m);
      assert Sized([k + m][1..], least, most);
      TakesApart(ManchesterRun(st.man, all, 2 * half), BiphaseRun(st.biphase, all, half, 2 * half));
    }
  }

  lemma SplitKnowing(st: State, f: Bits, half: nat, mid: bool, init: seq<nat>, m: nat, before: seq<nat>, least: nat, most: nat)
    requires IsRate(half) && IsPos(f, Pos(0, mid)) && 0 < least <= m <= most <= 0x3F && before != []
    requires Split(st, f, half, mid, init, before, least, most)
    ensures Split(st, f, half, mid, init + [m], before + [m], least, most)
  {
    hide IsRate, Feed, TakeEM4100, TakeBiphase, ManchesterRun, BiphaseRun, Played, PosAfter, FeedAll, ManchesterAll, BiphaseAll,
      Only, FirstDecoded;
    var p, k := Pos(0, mid), Total(init);
    var (t, tags) := FeedAll(st, f, half, p, init);
    FeedAllNext(st, f, half, p, init, m);
    FeedAllNext(st, f, half, p, before, m);
    var packet := Played(f, half, PosAfter(f, p, k), m);
    FeedKnowing(t, f, half, PosAfter(f, p, k), m);
    AllNext(st.man, f, half, p, before, m);
    AllNext(st.biphase, f, half, p, before, m);
    var a, b := ManchesterRun(t.man, packet, 2 * half), BiphaseRun(t.biphase, packet, half, 2 * half);
    TakesApart(a, b);
    var more := Feed(t, packet).1;
    OnlyAppend(tags, more, true);
    OnlyAppend(tags, more, false);
    assert (before + [m])[1..] == before[1..] + [m];
  }

  lemma TotalNext(ms: seq<nat>, m: nat)
    ensures Total(ms + [m]) == Total(ms) + m
  {
    assert (ms + [m])[..|ms|] == ms;
  }

  // A list of one packet, from the start of the stream.
  lemma OneMerged(l: Line, f: Bits, half: nat, p: Pos, m: nat)
    requires IsRate(half) && IsPos(f, p)
    ensures Total([m]) == m && PosAfter(f, p, 0) == p
    ensures ManchesterAll(l, f, half, p, [m]) == TakeEM4100(ManchesterRun(l, Played(f, half, p, m), 2 * half))
    ensures BiphaseAll(l, f, half, p, [m]) == TakeBiphase(BiphaseRun(l, Played(f, half, p, m), half, 2 * half))
  {
    hide TakeEM4100, TakeBiphase, ManchesterRun, BiphaseRun, Played;
    AllNext(l, f, half, p, [], m);
    assert [] + [m] == [m];
    var a, b := TakeEM4100(ManchesterRun(l, Played(f, half, p, m), 2 * half)), TakeBiphase(BiphaseRun(l, Played(f, half, p, m), half, 2 * half));
    assert [] + a.1 == a.1 && [] + b.1 == b.1;
  }

  /** When no other tags were read, all of them are EM4100 tags. */
  lemma NoneLeft(tags: seq<Read>)
    ensures Only(tags, false) == [] ==> Only(tags, true) == tags
    ensures Only(tags, true) == [] ==> Only(tags, false) == tags
  {
    AllWhenNoneLeft(tags, true);
    AllWhenNoneLeft(tags, false);
  }

  lemma AllWhenNoneLeft(tags: seq<Read>, em4100: bool)
    ensures Only(tags, !em4100) == [] ==> Only(tags, em4100) == tags
  {
    hide Only;
    OnlyMeans(tags, !em4100);
    if Only(tags, !em4100) == [] {
      forall i | 0 <= i < |tags| ensures (tags[i].protocol == EM4100) == em4100 {
        assert tags[i] in tags && tags[i] !in Only(tags, !em4100);
      }
      OnlyAll(tags, em4100);
    }
  }

  // ---- the biphase decoder --------------------------------------------------------

  /** Once there was a long pulse, a biphase decoder that was fresh at the start is on the beat. */
  lemma BeatFromStart(l: Line, f: Bits, half: nat, mid: bool, m: nat)
    requires IsRate(half) && IsPos(f, Pos(0, mid)) && Fresh(l) && SomeLong(Played(f, half, Pos(0, mid), m), half)
    ensures var o, p := BiphaseRun(l, Played(f, half, Pos(0, mid), m), half, 2 * half), PosAfter(f, Pos(0, mid), m);
      && o == Outcome(true, o.line) && OnTheBeat(o.line, f, p) && AllCaught(Queue(o.line), f, p.n)
      && |Queue(o.line)| > 0 && (|Queue(o.line)| < SIZE - 1 ==> Queue(o.line)[0])
  {
    hide IsRate, OnTheBeat, AllCaught, Queue, BiphaseRun, Played, PosAfter;
    var pulses := Played(f, half, Pos(0, mid), m);
    HeardFromFirstOne(l, f, half, mid, m);
    var i :| 0 <= i < |pulses| && pulses[i].Edge? && pulses[i].clocks == 2 * half;
    LongIsChange(f, half, mid, m, i);
  }

  lemma GrownNotEmpty(q: seq<bool>, r: seq<bool>, n: nat)
    requires Grown(q, r, n) && |q| > 0
    ensures |r| > 0
  {
  }

  lemma BeatGoesOn(l: Line, f: Bits, half: nat, p: Pos, m: nat)
    requires IsRate(half) && IsPos(f, p) && OnTheBeat(l, f, p)
    ensures var o, p' := BiphaseRun(l, Played(f, half, p, m), half, 2 * half), PosAfter(f, p, m);
      && o == Outcome(true, o.line) && OnTheBeat(o.line, f, p') && p.n <= p'.n <= p.n + m
      && Grown(Queue(l), Queue(o.line), p'.n - p.n)
      && (AllCaught(Queue(l), f, p.n) ==> AllCaught(Queue(o.line), f, p'.n))
  {
    hide IsRate, OnTheBeat, AllCaught, Queue, BiphaseRun, Played, PosAfter, Grown;
    StaysOnTheBeat(l, f, half, p, m);
  }
}
