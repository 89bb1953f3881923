/** From pulses to tags: a reader that is fed a repeated EM4100 frame in packets reports that tag and no
    other, wherever in the frame it starts listening and however the pulses are packed. */
module Tracking {
  import opened Words
  import opened Pulses
  import opened LineDecoders
  import opened Stream
  import opened BiphaseStream
  import opened Analysis
  import opened Em4100
  import opened Feeding
  import FdxB
  import PhidgetsTag
  import Crc

  /** The frame of s over and over, heard from bit rot of a frame on. */
  ghost predicate TagStream(f: Bits, s: string, rot: nat) {
    TagDigits(s) && forall i: nat :: f(i) == FrameBit(s, (i + rot) % 64)
  }

  ghost predicate Spells(t: string, s: string) { |t| == |s| && forall i :: 0 <= i < |s| ==> t[i] == LowerCase(s[i]) }

  /** All tags that were read are the EM4100 tag s. */
  ghost predicate OnlyTag(tags: seq<Read>, s: string) {
    forall i :: 0 <= i < |tags| ==> tags[i].protocol == EM4100 && Spells(tags[i].tagString, s)
  }

  // ---- one decode -----------------------------------------------------------------

  /** On any stretch of a repeated frame the decoder finds the tag or nothing, and 127 bits are enough. */
  lemma TagOrNothing(s: string, q: seq<bool>, rot: nat)
    requires TagDigits(s) && Repeated(q, s, rot)
    ensures match FirstTag(q, 0)
      case NotFound => |q| < 127
      case Tag(t) => |q| >= 64 && Spells(t, s) && (|q| == 64 ==> rot % 64 == 0)
  {
    hide Valid, Repeated, TagOf;
    if |q| >= 127 { SelfSynchronising(s, q, rot, 0); }
    if FirstTag(q, 0).Tag? {
      var k := FoundAt(q);
      ValidIffAligned(s, q, rot, k);
      FrameValid(s);
    }
  }

  lemma FoundAt(q: seq<bool>) returns (k: nat)
    requires FirstTag(q, 0).Tag?
    ensures k + 64 <= |q| && Valid(q, k) && FirstTag(q, 0) == Tag(TagOf(Window(q, k)))
  {
    hide Header, Checks, TagOf;
    FirstTagIsFirst(q, 0);
    k :| 0 <= k && Valid(q, k) && FirstTag(q, 0) == Tag(TagOf(Window(q, k)));
  }

  lemma LatestRepeats(q: seq<bool>, f: Bits, n: nat, s: string, rot: nat)
    requires TagStream(f, s, rot) && Latest(q, f, n)
    ensures TagDigits(s) && Repeated(q, s, n - |q| + 1 + rot)
  {
    var from := n - |q| + 1 + rot;
    forall i | 0 <= i < |q| ensures q[i] == FrameBit(s, (i + from) % 64) {
      assert q[i] == f(n - |q| + 1 + i);
      assert n - |q| + 1 + i + rot == i + from;
    }
  }

  lemma TakeInStep(l: Line, f: Bits, p: Pos, s: string, rot: nat)
    requires TagStream(f, s, rot) && InStep(l, f, p) && |Queue(l)| > 0
    ensures var (m, tags) := TakeEM4100(l);
      && InStep(m, f, p) && OnlyTag(tags, s) && BitAhead(Queue(m), f, p)
      && (tags == [] ==> m == l && |Queue(l)| < 127)
  {
    hide FirstTag, TagStream, Spells, Latest, Queue, Consumed;
    var q := Queue(l);
    LatestFits(q, f, p.n);
    LatestRepeats(q, f, p.n, s, rot);
    TagOrNothing(s, q, p.n - |q| + 1 + rot);
    QueueSeen(l);
    if FirstTag(q, 0).Tag? {
      ConsumedQueue(l, 64);
      LatestTail(q, f, p.n, 64);
      if |q| == 64 {
        FrameEnds(f, p, s, rot);
      }
    }
  }

  // Behind a whole frame the next one begins: its first bit is a one after a zero, sent as one long pulse.
  lemma FrameEnds(f: Bits, p: Pos, s: string, rot: nat)
    requires TagStream(f, s, rot) && p.n >= 64 && (p.n - 64 + 1 + rot) % 64 == 0
    ensures f(p.n + 1) && !f(p.n)
  {
    hide FrameBit;
    FrameStarts(s);
    assert (p.n + 1 + rot) % 64 == 0 && (p.n + rot) % 64 == 63;
  }

  // ---- both lengths occur soon ----------------------------------------------------

  lemma FrameStarts(s: string)
    requires TagDigits(s)
    ensures !FrameBit(s, 63) && FrameBit(s, 0) && FrameBit(s, 1)
  {
  }

  lemma WhereIs(rot: nat, r: nat) returns (j: nat)
    requires r < 64
    ensures 0 < j <= 64 && (j + rot) % 64 == r && (j - 1 + rot) % 64 == if r == 0 then 63 else r - 1
  {
    var c := rot % 64;
    j := if c < r then r - c else r + 64 - c;
    AddMod64(rot, j);
    AddMod64(rot, j - 1);
  }

  lemma AddMod64(a: nat, i: nat)
    requires i <= 64
    ensures (i + a) % 64 == if a % 64 + i < 64 then a % 64 + i else if a % 64 + i < 128 then a % 64 + i - 64 else 0
  {
  }

  lemma ChangeAndPair(f: Bits, s: string, rot: nat) returns (j: nat, k: nat)
    requires TagStream(f, s, rot)
    ensures 0 < j <= 64 && f(j) != f(j - 1)
    ensures 0 < k <= 64 && f(k) == f(k - 1)
  {
    hide FrameBit;
    FrameStarts(s);
    j := WhereIs(rot, 0);
    assert f(j) == FrameBit(s, 0) && f(j - 1) == FrameBit(s, 63);
    k := WhereIs(rot, 1);
    assert f(k) == FrameBit(s, 1) && f(k - 1) == FrameBit(s, 0);
  }

  /** Within 64 bits of the stream there are pulses of both lengths. */
  lemma BothLengthsSoon(f: Bits, half: nat, mid: bool, k: nat, a: nat, s: string, rot: nat)
    requires IsRate(half) && IsPos(f, Pos(0, mid)) && TagStream(f, s, rot)
    requires SameLength(Played(f, half, Pos(0, mid), k), a)
    ensures PosAfter(f, Pos(0, mid), k).n < 64 && k < 128
  {
    hide TagStream, PosAfter, Played;
    PulsesPerBit(f, Pos(0, mid), k);
    if PosAfter(f, Pos(0, mid), k).n >= 64 {
      var j, j' := ChangeAndPair(f, s, rot);
      var i := PulseOfBit(f, half, mid, k, j);
      var i' := PulseOfBit(f, half, mid, k, j');
    }
  }

  lemma ChangeSoon(f: Bits, s: string, rot: nat) returns (j: nat)
    requires TagStream(f, s, rot)
    ensures 0 < j <= 64 && f(j) != f(0)
  {
    hide TagStream;
    var a, b := ChangeAndPair(f, s, rot);
    j := if f(a) != f(0) then a else a - 1;
  }

  lemma TagStreamLively(f: Bits, half: nat, mid: bool, s: string, rot: nat)
    requires IsRate(half) && IsPos(f, Pos(0, mid)) && TagStream(f, s, rot)
    ensures Lively(f, half, mid)
  {
    hide IsRate, TagStream, SameLength, Played;
    forall k: nat, a: nat | SameLength(Played(f, half, Pos(0, mid), k), a) ensures k <= 450 {
      BothLengthsSoon(f, half, mid, k, a, s, rot);
    }
  }

  // ---- the Manchester decoder -----------------------------------------------------

  // In step with the stream; without a tag yet all bits from the first change on are there.
  ghost predicate Locked(l: Line, f: Bits, p: Pos, tags: seq<Read>) {
    InStep(l, f, p) && BitAhead(Queue(l), f, p) && (tags != [] || (|Queue(l)| < 127 && AllCaught(Queue(l), f, p.n)))
  }

  /** The packet that brings the second pulse length puts the decoder in step. */
  lemma FirstLocked(l: Line, f: Bits, half: nat, mid: bool, m: nat, s: string, rot: nat)
    requires IsRate(half) && IsPos(f, Pos(0, mid)) && TagStream(f, s, rot) && Fresh(l) && FirstDecoded(f, half, mid, m, 0x3F)
    ensures var (n, tags) := TakeEM4100(ManchesterRun(l, Played(f, half, Pos(0, mid), m), 2 * half));
      OnlyTag(tags, s) && Locked(n, f, PosAfter(f, Pos(0, mid), m), tags)
  {
    hide IsRate, TagStream, OnlyTag, InStep, AllCaught, Queue, ManchesterRun, TakeEM4100, Played, PosAfter, BitAhead;
    CaughtFromStart(l, f, half, mid, m);
    TakeInStep(ManchesterRun(l, Played(f, half, Pos(0, mid), m), 2 * half), f, PosAfter(f, Pos(0, mid), m), s, rot);
  }

  /** Every later packet keeps it in step, and its queue is not empty when the tag decoder runs. */
  lemma NextLocked(l: Line, f: Bits, half: nat, p: Pos, m: nat, s: string, rot: nat, before: seq<Read>)
    requires IsRate(half) && IsPos(f, p) && TagStream(f, s, rot) && Locked(l, f, p, before) && 0 < m
    ensures var (n, tags) := TakeEM4100(ManchesterRun(l, Played(f, half, p, m), 2 * half));
      OnlyTag(tags, s) && Locked(n, f, PosAfter(f, p, m), before + tags)
  {
    hide IsRate, TagStream, OnlyTag, InStep, AllCaught, Queue, ManchesterRun, TakeEM4100, Played, PosAfter, BitAhead;
    RunInStep(l, f, half, p, m);
    TakeInStep(ManchesterRun(l, Played(f, half, p, m), 2 * half), f, PosAfter(f, p, m), s, rot);
  }

  lemma {:induction false} FollowsAll(l: Line, f: Bits, half: nat, mid: bool, ms: seq<nat>, s: string, rot: nat)
    requires IsRate(half) && IsPos(f, Pos(0, mid)) && TagStream(f, s, rot) && Fresh(l)
    requires |ms| > 0 && FirstDecoded(f, half, mid, ms[0], 0x3F) && Packets(ms[1..])
    ensures var (n, tags) := ManchesterAll(l, f, half, Pos(0, mid), ms);
      OnlyTag(tags, s) && Locked(n, f, PosAfter(f, Pos(0, mid), Total(ms)), tags)
  {
    hide IsRate, TagStream, TakeEM4100, ManchesterRun, Played, PosAfter, Locked, FirstDecoded, ManchesterAll, BiphaseAll;
    var p, k := Pos(0, mid), |ms| - 1;
    var init, m := ms[..k], ms[k];
    assert init + [m] == ms;
    AllNext(l, f, half, p, init, m);
    if k == 0 {
      FirstLocked(l, f, half, mid, m, s, rot);
      OneMerged(l, f, half, p, m);
    } else {
      assert ms[1..][..k - 1] == init[1..] && m == ms[1..][k - 1];
      FollowsAll(l, f, half, mid, init, s, rot);
      TotalNext(init, m);
      PlayedInParts(f, half, p, Total(init), m);
      var (n, tags) := ManchesterAll(l, f, half, p, init);
      NextLocked(n, f, half, PosAfter(f, p, Total(init)), m, s, rot, tags);
    }
  }

  // ---- the biphase decoder on Manchester pulses -----------------------------------

  /** Bits that repeat after 64 hold no header of either biphase type with its control bits behind it: one of
      these would have to be both the zero in the header and a one. */
  lemma NothingInPeriod64(q: seq<bool>)
    requires forall i :: 0 <= i < |q| - 64 ==> q[i + 64] == q[i]
    ensures FdxB.Scan(q, 0) == FdxB.NotFound && PhidgetsTag.Scan(q, 0, Crc.Zero()) == PhidgetsTag.NotFound
  {
    hide FdxB.Scan, PhidgetsTag.Scan, PhidgetsTag.RegisterAt;
    forall k: nat ensures !FdxB.Valid(q, k) {
      if k + 128 <= |q| {
        var w := FdxB.Window(q, k);
        assert w[19 + 9 * 5] == q[k + 64] == q[k] == w[0];
      }
    }
    FdxB.ScanFinds(q, 0);
    forall k: nat ensures !PhidgetsTag.Accepted(q, 0, Crc.Zero(), k) {
      if k + 224 <= |q| {
        var w := PhidgetsTag.Window(q, k);
        assert w[39 + 8 * 4] == q[k + 7 + 64] == q[k + 7] == w[7];
      }
    }
    PhidgetsTag.ScanFinds(q, 0, Crc.Zero());
  }

  lemma StreamRepeats(f: Bits, s: string, rot: nat, j: nat)
    requires TagStream(f, s, rot)
    ensures f(j + 64) == f(j)
  {
    hide FrameBit;
    AddMod64(j + rot, 64);
    assert j + 64 + rot == 64 + (j + rot);
  }

  lemma StreamTogglesAgain(f: Bits, s: string, rot: nat, j: nat)
    requires TagStream(f, s, rot) && j > 0
    ensures Toggles(f)(j + 64) == Toggles(f)(j)
  {
    hide TagStream;
    StreamRepeats(f, s, rot, j);
    StreamRepeats(f, s, rot, j - 1);
    assert j - 1 + 64 == j + 64 - 1;
  }

  lemma TogglesRepeat(q: seq<bool>, f: Bits, n: nat, s: string, rot: nat)
    requires TagStream(f, s, rot) && Latest(q, Toggles(f), n)
    ensures forall i :: 0 <= i < |q| - 64 ==> q[i + 64] == q[i]
  {
    hide TagStream, Toggles;
    forall i | 0 <= i < |q| - 64 ensures q[i + 64] == q[i] {
      var j: nat := n - |q| + 1 + i;
      StreamTogglesAgain(f, s, rot, j);
      assert q[i] == Toggles(f)(j) && q[i + 64] == Toggles(f)(j + 64);
    }
  }

  lemma BiphaseTakesNothing(l: Line, f: Bits, p: Pos, s: string, rot: nat)
    requires TagStream(f, s, rot) && OnTheBeat(l, f, p) && |Queue(l)| > 0
    ensures TakeBiphase(Outcome(true, l)) == (l, [])
  {
    hide TagStream, FdxB.Scan, PhidgetsTag.Scan;
    TogglesRepeat(Queue(l), f, p.n, s, rot);
    NothingInPeriod64(Queue(l));
    QueueSeen(l);
    var none: seq<Read> := [];
    assert TakePhidgets(l) == (l, none) && TakeFdxB(l) == (l, none);
    assert none + none == none;
  }

  lemma {:induction false} BiphaseReadsNothing(l: Line, f: Bits, half: nat, mid: bool, ms: seq<nat>, s: string, rot: nat)
    requires IsRate(half) && IsPos(f, Pos(0, mid)) && TagStream(f, s, rot) && Fresh(l)
    requires |ms| > 0 && FirstDecoded(f, half, mid, ms[0], 0x3F) && Packets(ms[1..])
    ensures var (n, tags) := BiphaseAll(l, f, half, Pos(0, mid), ms);
      tags == [] && OnTheBeat(n, f, PosAfter(f, Pos(0, mid), Total(ms))) && |Queue(n)| > 0
  {
    hide IsRate, TagStream, TakeBiphase, BiphaseRun, Played, PosAfter, OnTheBeat, Queue, ManchesterAll, BiphaseAll, AllCaught, Grown;
    var p, k := Pos(0, mid), |ms| - 1;
    var init, m := ms[..k], ms[k];
    assert init + [m] == ms;
    AllNext(l, f, half, p, init, m);
    if k == 0 {
      BeatFromStart(l, f, half, mid, m);
      OneMerged(l, f, half, p, m);
      BiphaseTakesNothing(BiphaseRun(l, Played(f, half, p, m), half, 2 * half).line, f, PosAfter(f, p, m), s, rot);
    } else {
      assert ms[1..][..k - 1] == init[1..] && m == ms[1..][k - 1];
      BiphaseReadsNothing(l, f, half, mid, init, s, rot);
      TotalNext(init, m);
      PlayedInParts(f, half, p, Total(init), m);
      var n, p' := BiphaseAll(l, f, half, p, init).0, PosAfter(f, p, Total(init));
      BeatGoesOn(n, f, half, p', m);
      GrownNotEmpty(Queue(n), Queue(BiphaseRun(n, Played(f, half, p', m), half, 2 * half).line), PosAfter(f, p', m).n - p'.n);
      BiphaseTakesNothing(BiphaseRun(n, Played(f, half, p', m), half, 2 * half).line, f, PosAfter(f, p', m), s, rot);
    }
  }

  // ---- the reader -----------------------------------------------------------------

  /** A reset reader that is fed the Manchester pulses of a tag's repeated frame, from any point of any bit
      on and in packets of any size, reports that EM4100 tag and nothing else, and reports it once 191 bits have
      passed. */
  lemma ReadsExactlyTheTag(st: State, f: Bits, half: nat, mid: bool, ms: seq<nat>, s: string, rot: nat)
    requires IsRate(half) && IsPos(f, Pos(0, mid)) && TagStream(f, s, rot) && Packets(ms)
    requires st.pulses == [] && st.shortClocks == 0 && st.longClocks == 0 && Fresh(st.man) && Fresh(st.biphase)
    ensures var (t, tags) := FeedAll(st, f, half, Pos(0, mid), ms);
      && OnlyTag(tags, s)
      && (PosAfter(f, Pos(0, mid), Total(ms)).n >= 191 ==> tags != [])
  {
    hide TagStream, OnlyTag, ManchesterAll, BiphaseAll, Lively, FirstDecoded, FeedAll, Only;
    TagStreamLively(f, half, mid, s, rot);
    var merged := RunSplits(st, f, half, mid, ms, 1, 0x3F);
    var (t, tags) := FeedAll(st, f, half, Pos(0, mid), ms);
    var j := ChangeSoon(f, s, rot);
    if merged == [] {
      BothLengthsSoon(f, half, mid, Total(ms), t.shortClocks, s, rot);
      NoTags(s);
    } else {
      FollowsAll(st.man, f, half, mid, merged, s, rot);
      BiphaseReadsNothing(st.biphase, f, half, mid, merged, s, rot);
      NoneLeft(tags);
    }
  }

  lemma NoTags(s: string)
    ensures OnlyTag([], s)
  {
  }
}
