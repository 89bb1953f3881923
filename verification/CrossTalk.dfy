/** What the EM4100 decoder reads in the pulses of any stream. */
module CrossTalk {
  // The Manchester decoder takes the pulses of every tag for Manchester code. Of a biphase code it queues the level
  // after each bit, and an EM4100 tag is reported as soon as 64 levels in a row happen to be a frame.

  import opened Pulses
  import opened LineDecoders
  import opened Stream
  import opened Analysis
  import opened Em4100
  import opened Feeding

  /** The 64 levels after level k. */
  function Levels(f: Bits, k: nat): (w: seq<bool>)
    ensures |w| == 64
  {
    seq(64, i requires 0 <= i < 64 => f(k + 1 + i))
  }

  ghost predicate FrameAt(f: Bits, k: nat) { Header(Levels(f, k)) && Checks(Levels(f, k)) }

  /** A frame behind the first change. */
  ghost predicate Heard(f: Bits, k: nat) { Changed(f, k + 1) && FrameAt(f, k) }

  /** Among the first n levels, from the first change on, there is a frame. */
  ghost predicate FrameHeard(f: Bits, n: nat) { exists k: nat :: k + 64 <= n && Heard(f, k) }

  ghost predicate FirstFrame(f: Bits, k: nat) { Heard(f, k) && forall j: nat :: j < k ==> !Heard(f, j) }

  /** The tag that the first frame of all says. */
  ghost predicate SaidFirst(f: Bits, r: Read) { exists k: nat :: FirstFrame(f, k) && r == Read(EM4100, TagOf(Levels(f, k))) }

  lemma WindowOfLatest(q: seq<bool>, f: Bits, n: nat, i: nat)
    requires Latest(q, f, n) && i + 64 <= |q|
    ensures Window(q, i) == Levels(f, n - |q| + i)
  {
  }

  lemma ValidIsFrame(q: seq<bool>, f: Bits, n: nat, i: nat)
    requires Latest(q, f, n) && i + 64 <= |q|
    ensures Valid(q, i) <==> FrameAt(f, n - |q| + i)
  {
    hide Header, Checks, Latest;
    LatestFits(q, f, n);
    WindowOfLatest(q, f, n, i);
  }

  lemma FrameBeginsWithOnes(f: Bits, k: nat)
    requires FrameAt(f, k)
    ensures f(k + 1) && f(k + 2)
  {
    assert Levels(f, k)[0] && Levels(f, k)[1];
  }

  lemma ChangedLater(f: Bits, n: nat, n': nat)
    requires Changed(f, n) && n <= n'
    ensures Changed(f, n')
  {
  }

  // A decoder that holds all levels from the first change on and has found nothing among them.
  ghost predicate Quiet(l: Line, f: Bits, p: Pos) {
    InStep(l, f, p) && |Queue(l)| > 0 && AllCaught(Queue(l), f, p.n) && NoneBefore(Queue(l), f, p.n)
  }

  lemma FoundIsHeard(q: seq<bool>, f: Bits, n: nat, i: nat)
    requires Latest(q, f, n) && NoneBefore(q, f, n) && Valid(q, i)
    ensures |q| <= n && i + 64 <= |q| && Heard(f, n - |q| + i)
  {
    hide Header, Checks, Latest;
    LatestFits(q, f, n);
    ValidIsFrame(q, f, n, i);
    var k := n - |q| + i;
    FrameBeginsWithOnes(f, k);
    if f(0) { ChangedLater(f, n - |q| + 1, k + 1); }
    assert Changed(f, k + 1);
  }

  lemma HeardIsFound(q: seq<bool>, f: Bits, before: nat, n: nat, k: nat)
    requires Latest(q, f, n) && AllCaught(q, f, n) && !FrameHeard(f, before) && before <= n <= before + 900
    requires k + 64 <= n && Heard(f, k)
    ensures |q| <= n && k >= n - |q| && Valid(q, k - (n - |q|))
  {
    hide Header, Checks, FrameAt;
    LatestFits(q, f, n);
    assert k + 64 > before;
    assert |q| >= n - k;
    ValidIsFrame(q, f, n, k - (n - |q|));
  }

  lemma FoundIsFirst(q: seq<bool>, f: Bits, before: nat, n: nat, i: nat)
    requires Latest(q, f, n) && AllCaught(q, f, n) && NoneBefore(q, f, n) && !FrameHeard(f, before) && before <= n <= before + 900
    requires Valid(q, i) && forall j :: 0 <= j < i ==> !Valid(q, j)
    ensures SaidFirst(f, Read(EM4100, TagOf(Window(q, i))))
  {
    hide Valid, FrameHeard, Latest, AllCaught, NoneBefore, Heard, Header, Checks, TagOf;
    FoundIsHeard(q, f, n, i);
    WindowOfLatest(q, f, n, i);
    var k := n - |q| + i;
    forall j: nat | j < k ensures !Heard(f, j) {
      if Heard(f, j) { HeardIsFound(q, f, before, n, j); }
    }
    assert FirstFrame(f, k);
  }

  lemma FirstAt(q: seq<bool>) returns (i: nat)
    requires FirstTag(q, 0).Tag?
    ensures i + 64 <= |q| && Valid(q, i) && (forall j :: 0 <= j < i ==> !Valid(q, j))
    ensures FirstTag(q, 0) == Tag(TagOf(Window(q, i)))
  {
    hide Header, Checks, TagOf;
    FirstTagIsFirst(q, 0);
    i :| 0 <= i && Valid(q, i) && (forall j :: 0 <= j < i ==> !Valid(q, j)) && FirstTag(q, 0) == Tag(TagOf(Window(q, i)));
  }

  /** A decoder that has found no tag so far finds one now if and only if a frame was completed, and then it is
      the tag of the first frame. */
  lemma TakeIffHeard(l: Line, f: Bits, p: Pos, before: nat)
    requires Quiet(l, f, p) && !FrameHeard(f, before) && before <= p.n <= before + 900
    ensures TakeEM4100(l).1 != [] <==> FrameHeard(f, p.n)
    ensures TakeEM4100(l).1 == [] ==> TakeEM4100(l).0 == l
    ensures TakeEM4100(l).1 != [] ==> SaidFirst(f, TakeEM4100(l).1[0])
  {
    hide Valid, Latest, AllCaught, NoneBefore, Queue, FirstTag, Heard, SaidFirst, TagOf;
    var q := Queue(l);
    QueueSeen(l);
    FirstTagIsFirst(q, 0);
    if FirstTag(q, 0).Tag? {
      var i := FirstAt(q);
      FoundIsHeard(q, f, p.n, i);
      FoundIsFirst(q, f, before, p.n, i);
    }
    if FrameHeard(f, p.n) {
      var k: nat :| k + 64 <= p.n && Heard(f, k);
      HeardIsFound(q, f, before, p.n, k);
    }
  }

  lemma HeardLater(f: Bits, n: nat, n': nat)
    requires FrameHeard(f, n) && n <= n'
    ensures FrameHeard(f, n')
  {
    hide Heard;
  }

  // ---- packet after packet --------------------------------------------------------

  lemma FirstQuiet(l: Line, f: Bits, half: nat, mid: bool, m: nat)
    requires IsRate(half) && IsPos(f, Pos(0, mid)) && Fresh(l) && FirstDecoded(f, half, mid, m, 0x3F)
    ensures Quiet(ManchesterRun(l, Played(f, half, Pos(0, mid), m), 2 * half), f, PosAfter(f, Pos(0, mid), m))
  {
    hide IsRate, InStep, AllCaught, NoneBefore, Queue, ManchesterRun, Played, PosAfter;
    CaughtFromStart(l, f, half, mid, m);
  }

  lemma StillQuiet(l: Line, f: Bits, half: nat, p: Pos, m: nat)
    requires IsRate(half) && IsPos(f, p) && Quiet(l, f, p) && m > 0
    ensures var p' := PosAfter(f, p, m);
      Quiet(ManchesterRun(l, Played(f, half, p, m), 2 * half), f, p') && p.n <= p'.n <= p.n + m
  {
    hide IsRate, InStep, AllCaught, NoneBefore, Queue, ManchesterRun, Played, PosAfter;
    RunInStep(l, f, half, p, m);
    var e, p' := ManchesterRun(l, Played(f, half, p, m), 2 * half), PosAfter(f, p, m);
    NoneBeforeNext(Queue(l), Queue(e), f, p.n, p'.n);
  }

  // What was read so far, against what was heard.
  ghost predicate ReadsHeard(l: Line, tags: seq<Read>, f: Bits, p: Pos) {
    (tags != [] <==> FrameHeard(f, p.n)) && if tags == [] then Quiet(l, f, p) else SaidFirst(f, tags[0])
  }

  lemma {:induction false} ManchesterReadsHeard(l: Line, f: Bits, half: nat, mid: bool, ms: seq<nat>)
    requires IsRate(half) && IsPos(f, Pos(0, mid)) && Fresh(l)
    requires |ms| > 0 && FirstDecoded(f, half, mid, ms[0], 0x3F) && ms[0] <= 513 && Packets(ms[1..])
    ensures var (n, tags) := ManchesterAll(l, f, half, Pos(0, mid), ms);
      ReadsHeard(n, tags, f, PosAfter(f, Pos(0, mid), Total(ms)))
  {
    hide IsRate, TakeEM4100, ManchesterRun, Played, PosAfter, FirstDecoded, ManchesterAll, BiphaseAll, Quiet, FrameHeard, SaidFirst;
    var p, k := Pos(0, mid), |ms| - 1;
    var init, m := ms[..k], ms[k];
    assert init + [m] == ms;
    AllNext(l, f, half, p, init, m);
    PulsesPerBit(f, p, m);
    if k == 0 {
      FirstQuiet(l, f, half, mid, m);
      OneMerged(l, f, half, p, m);
      NothingHeardYet(f);
      TakeIffHeard(ManchesterRun(l, Played(f, half, p, m), 2 * half), f, PosAfter(f, p, m), 0);
    } else {
      assert ms[1..][..k - 1] == init[1..] && m == ms[1..][k - 1];
      ManchesterReadsHeard(l, f, half, mid, init);
      TotalNext(init, m);
      PlayedInParts(f, half, p, Total(init), m);
      var (n, tags) := ManchesterAll(l, f, half, p, init);
      NextReadsHeard(n, tags, f, half, PosAfter(f, p, Total(init)), m);
    }
  }

  lemma NothingHeardYet(f: Bits)
    ensures !FrameHeard(f, 0)
  {
  }

  lemma NextReadsHeard(l: Line, tags: seq<Read>, f: Bits, half: nat, p: Pos, m: nat)
    requires IsRate(half) && IsPos(f, p) && 0 < m <= 0x3F && ReadsHeard(l, tags, f, p)
    ensures var (n, more) := TakeEM4100(ManchesterRun(l, Played(f, half, p, m), 2 * half));
      ReadsHeard(n, tags + more, f, PosAfter(f, p, m))
  {
    hide IsRate, TakeEM4100, ManchesterRun, Played, PosAfter, Quiet, FrameHeard, SaidFirst;
    PulsesPerBit(f, p, m);
    if tags == [] {
      StillQuiet(l, f, half, p, m);
      var e := ManchesterRun(l, Played(f, half, p, m), 2 * half);
      TakeIffHeard(e, f, PosAfter(f, p, m), p.n);
      assert tags + TakeEM4100(e).1 == TakeEM4100(e).1;
    } else {
      HeardLater(f, p.n, PosAfter(f, p, m).n);
    }
  }

  // ---- pulses of one length only --------------------------------------------------

  lemma {:induction false} ChangeBefore(f: Bits, n: nat) returns (j: nat)
    requires Changed(f, n)
    ensures 0 < j <= n && f(j) != f(j - 1)
  {
    if f(n) != f(n - 1) {
      j := n;
    } else {
      assert Changed(f, n - 1) by {
        var i :| 0 < i <= n && f(i) != f(0);
        assert i == n ==> n > 1 && f(n - 1) != f(0);
      }
      j := ChangeBefore(f, n - 1);
    }
  }

  lemma NoFrameOfOneLength(f: Bits, half: nat, mid: bool, k: nat, a: nat)
    requires IsRate(half) && IsPos(f, Pos(0, mid)) && SameLength(Played(f, half, Pos(0, mid), k), a)
    ensures !FrameHeard(f, PosAfter(f, Pos(0, mid), k).n)
  {
    hide IsRate, Played, PosAfter, FrameAt, Changed;
    if FrameHeard(f, PosAfter(f, Pos(0, mid), k).n) {
      var t: nat :| t + 64 <= PosAfter(f, Pos(0, mid), k).n && Heard(f, t);
      FrameBeginsWithOnes(f, t);
      var j := ChangeBefore(f, t + 1);
      var i := PulseOfBit(f, half, mid, k, j);
      var i' := PulseOfBit(f, half, mid, k, t + 2);
    }
  }

  // ---- the reader -----------------------------------------------------------------

  ghost predicate SomeEM4100(tags: seq<Read>) { exists i :: 0 <= i < |tags| && tags[i].protocol == EM4100 }

  lemma SomeInOnly(tags: seq<Read>)
    ensures SomeEM4100(tags) <==> Only(tags, true) != []
  {
    hide Only;
    OnlyMeans(tags, true);
    if SomeEM4100(tags) {
      var i :| 0 <= i < |tags| && tags[i].protocol == EM4100;
      assert tags[i] in Only(tags, true);
    }
    if Only(tags, true) != [] {
      assert Only(tags, true)[0] in tags;
    }
  }

  /** A reset reader that is fed any stream in packets of any size reports an EM4100 tag if and only if the levels
      heard since the first change hold a frame, whatever code the pulses are meant to be. The first EM4100 tag
      that it reports is the one of the first frame. */
  lemma ReadsEM4100IffHeard(st: State, f: Bits, half: nat, mid: bool, ms: seq<nat>)
    requires IsRate(half) && IsPos(f, Pos(0, mid)) && Lively(f, half, mid) && Packets(ms)
    requires st.pulses == [] && st.shortClocks == 0 && st.longClocks == 0 && Fresh(st.man)
    ensures var tags := FeedAll(st, f, half, Pos(0, mid), ms).1;
      && (SomeEM4100(tags) <==> FrameHeard(f, PosAfter(f, Pos(0, mid), Total(ms)).n))
      && (SomeEM4100(tags) ==> Only(tags, true) != [] && SaidFirst(f, Only(tags, true)[0]))
  {
    hide IsRate, ManchesterAll, BiphaseAll, Played, FeedAll, Only, FrameHeard, SaidFirst, PosAfter, Quiet;
    var merged := RunSplits(st, f, half, mid, ms, 1, 0x3F);
    var (t, tags) := FeedAll(st, f, half, Pos(0, mid), ms);
    SomeInOnly(tags);
    if merged == [] {
      NoFrameOfOneLength(f, half, mid, Total(ms), t.shortClocks);
    } else {
      ManchesterReadsHeard(st.man, f, half, mid, merged);
    }
  }
}

