/** What an empty queue does to the tag decoders: they read old bits of the ring. */
module StaleTags {
  import opened Words
  import opened Ring
  import opened Pulses
  import opened LineDecoders
  import opened Stream
  import opened Analysis
  import opened Em4100
  import opened Feeding
  import opened Tracking
  import FdxB
  import PhidgetsTag
  import Crc
  import Search

  /** What is read from a ring: from a non-empty queue the first tag of the queue and nothing else, and from
      an empty one a tag if and only if the 64 old bits at the pointer pass the checks without a header, or a
      valid frame stands further on in the old bits. */
  lemma ReadsQueueOrOldBits(l: Line)
    ensures var (m, tags) := TakeEM4100(l);
      var found := |tags| == 1 && tags[0].protocol == EM4100 && m == Consumed(l, 64);
      && (found || (tags == [] && m == l))
      && (|Queue(l)| > 0 ==>
            (found <==> exists k :: Valid(Queue(l), k))
            && (found ==> Tag(tags[0].tagString) == FirstTag(Queue(l), 0)))
      && (|Queue(l)| == 0 ==>
            (found <==> Checks(Window(Seen(l), 0)) || exists k :: k > 0 && Valid(Seen(l), k)))
  {
    hide Valid, Checks;
    FirstTagIsFirst(Queue(l), 0);
    FirstTagIsFirst(Seen(l), 1);
    if |Queue(l)| > 0 {
      assert Seen(l) == Queue(l);
    }
  }

  /** The same for the FDX-B decoder: from a non-empty queue the first valid frame that its search comes by, and
      from an empty one a tag if and only if the 128 old bits at the pointer pass without a header, or the search
      comes by a valid frame further on in the old bits. */
  lemma FdxBReadsQueueOrOldBits(l: Line)
    ensures var (m, tags) := TakeFdxB(l);
      var found := |tags| == 1 && tags[0].protocol == ISO11785_FDX_B && m == Consumed(l, 128);
      && (found || (tags == [] && m == l))
      && (|Queue(l)| > 0 ==>
            (found <==> exists k :: 0 <= k && FdxB.Valid(Queue(l), k) && Search.Reaches(FdxB.Headers(Queue(l)), 11, 0, k)))
      && (|Queue(l)| == 0 ==>
            (found <==> FdxB.Passes(FdxB.Window(Seen(l), 0))
                        || exists k :: 12 <= k && FdxB.Valid(Seen(l), k) && Search.Reaches(FdxB.Headers(Seen(l)), 11, 12, k)))
  {
    hide FdxB.Valid, FdxB.Passes, FdxB.Headers, Search.Reaches, FdxB.TagOf, FdxB.DataOf, FdxB.Scan;
    FdxB.ScanFinds(Queue(l), 0);
    FdxB.ScanFinds(Seen(l), 12);
    if |Queue(l)| > 0 {
      assert Seen(l) == Queue(l);
    }
  }

  /** And for the PhidgetsTAG decoder, whose search goes on with what the checksum register got from the old bits. */
  lemma PhidgetsReadsQueueOrOldBits(l: Line)
    ensures var (m, tags) := TakePhidgets(l);
      var found := |tags| == 1 && tags[0].protocol == PHIDGETS && m == Consumed(l, 224);
      && (found || (tags == [] && m == l))
      && (|Queue(l)| > 0 ==> (found <==> exists k: nat :: PhidgetsTag.Accepted(Queue(l), 0, Crc.Zero(), k)))
      && (|Queue(l)| == 0 ==>
            var w := PhidgetsTag.Window(Seen(l), 0);
            (found <==> PhidgetsTag.Passes(w, Crc.Zero())
                        || exists k: nat :: PhidgetsTag.Accepted(Seen(l), 15, PhidgetsTag.Collected(w, Crc.Zero()), k)))
  {
    hide PhidgetsTag.Accepted, PhidgetsTag.Passes, PhidgetsTag.Collected, PhidgetsTag.TextOf, PhidgetsTag.CString, PhidgetsTag.Scan;
    PhidgetsTag.ScanFinds(Queue(l), 0, Crc.Zero());
    if |Queue(l)| > 0 {
      assert Seen(l) == Queue(l);
    } else {
      PhidgetsTag.ScanFinds(Seen(l), 15, PhidgetsTag.Collected(PhidgetsTag.Window(Seen(l), 0), Crc.Zero()));
    }
  }

  // ---- a false tag ----------------------------------------------------------------

  /** Nothing was ever written from the write pointer to the end of the ring. */
  ghost predicate CleanAhead(l: Line) { forall i :: l.ring.writePtr <= i < SIZE ==> !l.ring.data[i] }

  lemma StepCleanAhead(l: Line, p: Pulse, longClocks: nat)
    requires CleanAhead(l) && l.ring.writePtr + 1 < SIZE
    ensures CleanAhead(ManchesterStep(l, p, longClocks))
    ensures ManchesterStep(l, p, longClocks).ring.writePtr <= l.ring.writePtr + 1
  {
  }

  lemma {:induction false} RunCleanAhead(l: Line, pulses: seq<Pulse>, longClocks: nat)
    requires CleanAhead(l) && l.ring.writePtr + |pulses| < SIZE
    ensures var m := ManchesterRun(l, pulses, longClocks);
      CleanAhead(m) && m.ring.writePtr <= l.ring.writePtr + |pulses|
  {
    hide ManchesterStep, CleanAhead;
    if |pulses| > 0 {
      var init := pulses[..|pulses| - 1];
      RunCleanAhead(l, init, longClocks);
      StepCleanAhead(ManchesterRun(l, init, longClocks), pulses[|pulses| - 1], longClocks);
    }
  }

  lemma {:induction false} ParityOfZeros(b: seq<bool>)
    requires forall i :: 0 <= i < |b| ==> !b[i]
    ensures !Parity(b)
  {
    if |b| > 0 { ParityOfZeros(b[..|b| - 1]); }
  }

  lemma ZerosPass(w: seq<bool>)
    requires |w| == 64 && forall i :: 0 <= i < 64 ==> !w[i]
    ensures Checks(w) && TagOf(w) == "0000000000"
  {
    hide Parity;
    forall i | 0 <= i < 10 ensures RowOk(w, i) {
      ParityOfZeros(RowOf(w, i, 4));
    }
    forall i | 0 <= i < 4 ensures ColumnOk(w, i) {
      ParityOfZeros(ColumnOf(w, i, 10));
    }
    forall i | 0 <= i < 10 ensures TagOf(w)[i] == "0000000000"[i] {
      assert DigitOf(w, i) == 0;
    }
  }

  /** With the queue used up, one short pulse completes no bit, and bits that were never written pass for a tag
      of zeros: they are even, and nobody looks for the nine ones. */
  lemma ShortPulseReadsZeros(l: Line, b: bool, half: nat)
    requires IsRate(half) && Synced(l) && |Queue(l)| == 0
    requires CleanAhead(l) && l.ring.writePtr + 64 <= SIZE
    ensures TakeEM4100(ManchesterStep(l, Edge(b, half), 2 * half)).1 == [Read(EM4100, "0000000000")]
  {
    hide Checks, TagOf;
    var m := ManchesterStep(l, Edge(b, half), 2 * half);
    assert m == l.(shortChange := true);
    var w := Window(Seen(m), 0);
    forall i | 0 <= i < 64 ensures !w[i] {
      assert w[i] == l.ring.data[l.ring.writePtr + i];
    }
    ZerosPass(w);
  }

  // ---- and how a reader gets there ------------------------------------------------

  /** The frame of s once, and zeros around it. */
  ghost function OneFrame(s: string): (f: Bits)
    requires TagDigits(s)
  {
    i => TagDigits(s) && 1 <= i <= 64 && FrameBit(s, i - 1)
  }

  // All bits so far are queued.
  ghost predicate Whole(l: Line, f: Bits, p: Pos) {
    InStep(l, f, p) && AllCaught(Queue(l), f, p.n) && |Queue(l)| > 0
  }

  // The pulses are still queued, or both lengths are known and the decoder holds all bits so far.
  ghost predicate Gathering(st: State, f: Bits, half: nat, k: nat)
    requires IsRate(half)
  {
    && ((Waits(st, f, half, false, k) && Fresh(st.man))
        || (Knows(st, half) && Whole(st.man, f, PosAfter(f, Pos(0, false), k))))
    && CleanAhead(st.man) && st.man.ring.writePtr <= if st.pulses == [] then k else 0
  }

  // The same after a packet, with the tag decoder still to come.
  lemma FeedGathering(st: State, f: Bits, half: nat, k: nat, m: nat) returns (l: Line)
    requires IsRate(half) && Gathering(st, f, half, k) && 0 < m && k + m < SIZE
    ensures var (t, tags) := Feed(st, Played(f, half, PosAfter(f, Pos(0, false), k), m));
      && CleanAhead(l) && l.ring.writePtr <= (if t.pulses == [] then k + m else 0)
      && if t.pulses != [] then Waits(t, f, half, false, k + m) && Fresh(t.man) && tags == [] && t.man == l
         else Knows(t, half) && Whole(l, f, PosAfter(f, Pos(0, false), k + m))
              && t.man == TakeEM4100(l).0 && Only(tags, true) == TakeEM4100(l).1
  {
    hide IsRate, InStep, AllCaught, Queue, ManchesterRun, BiphaseRun, Feed, PosAfter, Known, CleanAhead, TakeEM4100, TakeBiphase;
    var p := PosAfter(f, Pos(0, false), k);
    if Waits(st, f, half, false, k) && Fresh(st.man) {
      FeedWaiting(st, f, half, false, k, m);
      var t := Feed(st, Played(f, half, p, m)).0;
      var all := Played(f, half, Pos(0, false), k + m);
      if t.pulses == [] {
        CaughtFromStart(st.man, f, half, false, k + m);
        RunCleanAhead(st.man, all, 2 * half);
        l := ManchesterRun(st.man, all, 2 * half);
        TakesApart(l, BiphaseRun(st.biphase, all, half, 2 * half));
      } else {
        l := st.man;
      }
    } else {
      var packet := Played(f, half, p, m);
      FeedKnowing(st, f, half, p, m);
      RunInStep(st.man, f, half, p, m);
      PlayedInParts(f, half, Pos(0, false), k, m);
      RunCleanAhead(st.man, packet, 2 * half);
      l := ManchesterRun(st.man, packet, 2 * half);
      TakesApart(l, BiphaseRun(st.biphase, packet, half, 2 * half));
    }
  }

  lemma WholeQueue(l: Line, s: string, p: Pos)
    requires TagDigits(s) && p.n <= 64 && Whole(l, OneFrame(s), p)
    ensures p.n > 0 && Queue(l) == Some(OneFrame(s), p.n)
  {
    hide Queue;
    var f, q := OneFrame(s), Queue(l);
    assert f(1) && !f(0);
  }

  lemma TooShort(l: Line, s: string, p: Pos)
    requires TagDigits(s) && p.n < 64 && Whole(l, OneFrame(s), p)
    ensures TakeEM4100(l) == (l, [])
  {
    hide Valid;
    WholeQueue(l, s, p);
    ReadsQueueOrOldBits(l);
    assert FirstTag(Queue(l), 0) == NotFound;
  }

  /** The tag as it is read from its frame. */
  ghost function LowerTag(s: string): (t: string)
    requires TagDigits(s)
    ensures Spells(t, s)
  {
    FrameValid(s);
    TagOf(Frame(s))
  }

  lemma JustTheFrame(l: Line, s: string)
    requires TagDigits(s) && Whole(l, OneFrame(s), Pos(64, false))
    ensures var (m, tags) := TakeEM4100(l);
      && tags == [Read(EM4100, LowerTag(s))] && Synced(m) && Queue(m) == []
      && (CleanAhead(l) ==> CleanAhead(m)) && m.ring.writePtr == l.ring.writePtr
  {
    hide FrameBit, Checks, Header, TagOf;
    WholeQueue(l, s, Pos(64, false));
    assert Seen(l) == Queue(l);
    assert Queue(l) == Frame(s);
    assert Window(Queue(l), 0) == Frame(s);
    FrameValid(s);
    assert TakeEM4100(l) == (Consumed(l, 64), [Read(EM4100, TagOf(Frame(s)))]);
    SkipDrops(l.ring, 64);
  }

  // Positions on the way: every pulse counts.
  lemma PulsesSoFar(f: Bits, k: nat, m: nat)
    requires PosAfter(f, Pos(0, false), k + m).n <= 64
    ensures k + m <= 129 && PosAfter(f, Pos(0, false), k).n <= PosAfter(f, Pos(0, false), k + m).n
    ensures PosAfter(f, Pos(0, false), k + m) == Pos(64, false) && m > 0 ==> k + m <= 128 && PosAfter(f, Pos(0, false), k).n < 64
  {
    hide NextPos;
    PlayedInParts(f, 16, Pos(0, false), k, m);
    PulsesPerBit(f, Pos(0, false), k + m);
    PulsesPerBit(f, PosAfter(f, Pos(0, false), k), m);
  }

  lemma GatherNext(st: State, s: string, half: nat, k: nat, m: nat)
    requires IsRate(half) && TagDigits(s) && Gathering(st, OneFrame(s), half, k) && 0 < m
    requires PosAfter(OneFrame(s), Pos(0, false), k + m).n < 64
    ensures var (t, tags) := Feed(st, Played(OneFrame(s), half, PosAfter(OneFrame(s), Pos(0, false), k), m));
      Gathering(t, OneFrame(s), half, k + m) && Only(tags, true) == []
  {
    hide IsRate, Feed, TakeEM4100, Whole, CleanAhead, Waits, Played, PosAfter;
    PulsesSoFar(OneFrame(s), k, m);
    var l := FeedGathering(st, OneFrame(s), half, k, m);
    if Feed(st, Played(OneFrame(s), half, PosAfter(OneFrame(s), Pos(0, false), k), m)).0.pulses == [] {
      TooShort(l, s, PosAfter(OneFrame(s), Pos(0, false), k + m));
    }
  }

  lemma {:induction false} GatherAll(st: State, s: string, half: nat, ms: seq<nat>)
    requires IsRate(half) && TagDigits(s) && Packets(ms)
    requires PosAfter(OneFrame(s), Pos(0, false), Total(ms)).n < 64
    requires Gathering(st, OneFrame(s), half, 0)
    ensures var (t, tags) := FeedAll(st, OneFrame(s), half, Pos(0, false), ms);
      Gathering(t, OneFrame(s), half, Total(ms)) && Only(tags, true) == []
  {
    hide IsRate, Feed, Gathering, Played, PosAfter, FeedAll;
    if |ms| == 0 {
      NothingFed(st, OneFrame(s), half);
    } else {
      var init, m := ms[..|ms| - 1], ms[|ms| - 1];
      assert init + [m] == ms;
      FeedAllNext(st, OneFrame(s), half, Pos(0, false), init, m);
      PulsesSoFar(OneFrame(s), Total(init), m);
      GatherAll(st, s, half, init);
      var (t, tags) := FeedAll(st, OneFrame(s), half, Pos(0, false), init);
      GatherNext(t, s, half, Total(init), m);
      OnlyAppend(tags, Feed(t, Played(OneFrame(s), half, PosAfter(OneFrame(s), Pos(0, false), Total(init)), m)).1, true);
    }
  }

  lemma NothingFed(st: State, f: Bits, half: nat)
    requires IsRate(half)
    ensures FeedAll(st, f, half, Pos(0, false), []) == (st, [])
  {
  }

  // The packet that ends with the frame: its tag is read, and the queue is used up.
  lemma FeedLast(st: State, s: string, half: nat, k: nat, m: nat)
    requires IsRate(half) && TagDigits(s) && Gathering(st, OneFrame(s), half, k)
    requires 0 < m && PosAfter(OneFrame(s), Pos(0, false), k + m) == Pos(64, false)
    ensures var (t, tags) := Feed(st, Played(OneFrame(s), half, PosAfter(OneFrame(s), Pos(0, false), k), m));
      && Only(tags, true) == [Read(EM4100, LowerTag(s))] && t.pulses == [] && t.shortClocks == half && t.longClocks == 2 * half
      && Synced(t.man) && Queue(t.man) == [] && CleanAhead(t.man) && t.man.ring.writePtr + 64 <= SIZE
  {
    hide IsRate, Feed, TakeEM4100, Whole, CleanAhead, Played, PosAfter, LowerTag, Queue, Synced;
    var f := OneFrame(s);
    PulsesSoFar(f, k, m);
    var l := FeedGathering(st, f, half, k, m);
    var t := Feed(st, Played(f, half, PosAfter(f, Pos(0, false), k), m)).0;
    if t.pulses != [] {
      BothByThen(f, half, k + m, t.shortClocks, s);
    }
    JustTheFrame(l, s);
  }

  lemma BothByThen(f: Bits, half: nat, k: nat, a: nat, s: string)
    requires IsRate(half) && TagDigits(s) && f == OneFrame(s) && PosAfter(f, Pos(0, false), k).n >= 2
    ensures !SameLength(Played(f, half, Pos(0, false), k), a)
  {
    hide IsRate, PosAfter, Played;
    var i := PulseOfBit(f, half, false, k, 1);
    var j := PulseOfBit(f, half, false, k, 2);
    assert f(2) && f(1) && !f(0);
  }

  lemma FrameRead(st: State, s: string, half: nat, ms: seq<nat>)
    requires IsRate(half) && TagDigits(s) && Packets(ms) && |ms| > 0
    requires PosAfter(OneFrame(s), Pos(0, false), Total(ms)) == Pos(64, false)
    requires Gathering(st, OneFrame(s), half, 0)
    ensures var (t, tags) := FeedAll(st, OneFrame(s), half, Pos(0, false), ms);
      && Only(tags, true) == [Read(EM4100, LowerTag(s))] && t.pulses == [] && t.shortClocks == half && t.longClocks == 2 * half
      && Synced(t.man) && Queue(t.man) == [] && CleanAhead(t.man) && t.man.ring.writePtr + 64 <= SIZE
  {
    hide IsRate, Feed, CleanAhead, LowerTag, Played, FeedAll, Gathering, Only, Queue, Synced, PosAfter;
    var f := OneFrame(s);
    var init, m := ms[..|ms| - 1], ms[|ms| - 1];
    assert init + [m] == ms && Total(ms) == Total(init) + m && m > 0;
    assert forall i :: 0 <= i < |init| ==> init[i] == ms[i];
    FeedAllNext(st, f, half, Pos(0, false), init, m);
    PulsesSoFar(f, Total(init), m);
    GatherAll(st, s, half, init);
    var (t, tags) := FeedAll(st, f, half, Pos(0, false), init);
    FeedLast(t, s, half, Total(init), m);
    OnlyAppend(tags, Feed(t, Played(f, half, PosAfter(f, Pos(0, false), Total(init)), m)).1, true);
  }

  /** A reset reader with a clean ring hears one frame, its packets ending where the frame ends, and then one
      pulse of a zero: it reports the tag, and then the tag 0000000000, which nobody sent. */
  lemma FalseTag(st: State, s: string, half: nat, ms: seq<nat>)
    requires IsRate(half) && TagDigits(s) && Packets(ms)
    requires PosAfter(OneFrame(s), Pos(0, false), Total(ms)) == Pos(64, false)
    requires st.pulses == [] && st.shortClocks == 0 && st.longClocks == 0 && Fresh(st.man)
    requires st.man.ring.writePtr == 0 && CleanAhead(st.man)
    ensures Only(FeedAll(st, OneFrame(s), half, Pos(0, false), ms + [1]).1, true) == [Read(EM4100, LowerTag(s)), Read(EM4100, "0000000000")]
  {
    var f := OneFrame(s);
    assert |ms| > 0;
    hide IsRate, Feed, CleanAhead, LowerTag, Played, FeedAll, Gathering, Fresh, Only, Queue, Synced, PosAfter;
    StartGathering(st, f, half);
    FrameRead(st, s, half, ms);
    FeedAllNext(st, f, half, Pos(0, false), ms, 1);
    var (t, tags) := FeedAll(st, f, half, Pos(0, false), ms);
    OnePulseMore(t, s, half);
    OnlyAppend(tags, Feed(t, Played(f, half, Pos(64, false), 1)).1, true);
  }

  lemma StartGathering(st: State, f: Bits, half: nat)
    requires IsRate(half) && st.pulses == [] && st.shortClocks == 0 && st.longClocks == 0 && Fresh(st.man)
    requires st.man.ring.writePtr == 0 && CleanAhead(st.man)
    ensures Gathering(st, f, half, 0)
  {
  }

  lemma OnePulseMore(u: State, s: string, half: nat)
    requires IsRate(half) && TagDigits(s) && u.pulses == [] && u.shortClocks == half && u.longClocks == 2 * half
    requires Synced(u.man) && Queue(u.man) == [] && CleanAhead(u.man) && u.man.ring.writePtr + 64 <= SIZE
    ensures Only(Feed(u, Played(OneFrame(s), half, Pos(64, false), 1)).1, true) == [Read(EM4100, "0000000000")]
  {
    hide TakeEM4100, TakeBiphase, BiphaseRun, Queue, CleanAhead, ManchesterStep, Feed;
    var f := OneFrame(s);
    var pulses := Played(f, half, Pos(64, false), 1);
    assert pulses == [Edge(true, half)] by {
      assert PosAfter(f, Pos(64, false), 0) == Pos(64, false);
    }
    FeedKnowing(u, f, half, Pos(64, false), 1);
    TakesApart(ManchesterRun(u.man, pulses, 2 * half), BiphaseRun(u.biphase, pulses, half, 2 * half));
    assert pulses[..0] == [];
    assert ManchesterRun(u.man, pulses, 2 * half) == ManchesterStep(u.man, Edge(true, half), 2 * half);
    ShortPulseReadsZeros(u.man, true, half);
  }

  /** There is such a run for every tag, for instance with every pulse in a packet of its own. */
  lemma FalseTagIsReached(s: string, half: nat) returns (st: State, ms: seq<nat>)
    requires IsRate(half) && TagDigits(s)
    ensures st.pulses == [] && st.shortClocks == 0 && st.longClocks == 0 && Fresh(st.man) && Packets(ms)
    ensures Only(FeedAll(st, OneFrame(s), half, Pos(0, false), ms).1, true) == [Read(EM4100, LowerTag(s)), Read(EM4100, "0000000000")]
  {
    hide IsRate, Only, FeedAll;
    var f := OneFrame(s);
    var l: Line := LineState(false, false, RingOf(seq(SIZE, i => false), 0, 0));
    st := State([], 0, 0, l, l);
    var k := PulsesOfBits(f, 64);
    var ones := seq(k, i => 1);
    TotalOfOnes(k);
    FalseTag(st, s, half, ones);
    ms := ones + [1];
  }

  lemma {:induction false} PulsesOfBits(f: Bits, n: nat) returns (k: nat)
    ensures PosAfter(f, Pos(0, false), k) == Pos(n, false)
  {
    if n == 0 {
      k := 0;
    } else {
      k := PulsesOfBits(f, n - 1);
      if f(n) != f(n - 1) {
        k := k + 1;
      } else {
        assert PosAfter(f, Pos(0, false), k + 1) == Pos(n - 1, true);
        k := k + 2;
      }
    }
  }

  lemma {:induction false} TotalOfOnes(k: nat)
    ensures Total(seq(k, i => 1)) == k
  {
    if k > 0 {
      TotalOfOnes(k - 1);
      assert seq(k, i => 1)[..k - 1] == seq(k - 1, i => 1);
    }
  }
}
