/** PhidgetsTAGs whose frame is an FDX-B frame as well. */
module DoubleTags {
  // The header of an FDX-B tag is the end of the header of a PhidgetsTAG, and an FDX-B frame is shorter. So the FDX-B
  // tag is read first, and reading it takes 128 bits from the queue, most of the time the beginning of the longer
  // frame among them.

  import opened Pulses
  import opened LineDecoders
  import opened Stream
  import opened BiphaseStream
  import opened Analysis
  import opened Feeding
  import opened BiphaseTracking
  import FdxB
  import PhidgetsTag
  import Crc

  ghost predicate Double(s: string) { PhidgetsTag.TagText(s) && LooksLikeFdx(PhidgetsTag.TextData(s)) }

  /** The FDX-B tag in the frame of a PhidgetsTAG. */
  ghost function HiddenTag(s: string): (t: string)
    requires PhidgetsTag.TagText(s)
  {
    FdxB.TagOf(FdxB.DataOf(PhidgetsTag.Frame(PhidgetsTag.TextData(s))[3..131]))
  }

  // The place in the frame of the first bit of a queue of n bits heard so far.
  function Front(q: seq<bool>, n: nat, rot: nat): nat
    requires |q| <= n
  {
    n - |q| + 1 + rot
  }

  // ---- one decode -----------------------------------------------------------------

  /** With too few bits for the longer frame, the FDX-B tag is read as soon as it is complete. */
  lemma TakeDouble(l: Line, f: Bits, p: Pos, s: string, rot: nat)
    requires TagBits(f, Phidgets(s), rot) && Double(s) && OnTheBeat(l, f, p) && 0 < |Queue(l)| <= p.n
    requires PhidgetsTag.Scan(Queue(l), 0, Crc.Zero()) == PhidgetsTag.NotFound
    ensures TakeBiphase(Outcome(true, l))
         == if FirstFdx(Front(Queue(l), p.n, rot)) + 128 <= |Queue(l)| then
              (Consumed(l, 128), [Read(ISO11785_FDX_B, HiddenTag(s))])
            else (l, [])
  {
    hide FdxB.Scan, PhidgetsTag.Scan, PhidgetsTag.TextData, PhidgetsTag.TagText, PhidgetsTag.Frame, Queue, LooksLikeFdx, TagBits,
      Toggles, Latest, FirstFdx, Consumed, FdxB.TagOf, FdxB.DataOf;
    var q, from := Queue(l), Front(Queue(l), p.n, rot);
    PhidgetsBits(q, f, s, rot, p.n);
    QueueSeen(l);
    FdxReadIff(PhidgetsTag.TextData(s), q, from);
    HiddenTagRead(s, q, from);
    var none: seq<Read> := [];
    assert TakePhidgets(l) == (l, none);
    assert none + none == none && none + [Read(ISO11785_FDX_B, HiddenTag(s))] == [Read(ISO11785_FDX_B, HiddenTag(s))];
  }

  lemma HiddenTagRead(s: string, q: seq<bool>, from: nat)
    requires PhidgetsTag.TagText(s) && PhidgetsTag.Repeated(q, PhidgetsTag.TextData(s), from)
    ensures FdxB.Scan(q, 0).Tag? ==> FdxB.Scan(q, 0) == FdxB.Tag(HiddenTag(s))
  {
    hide FdxB.Scan, PhidgetsTag.TextData, PhidgetsTag.Frame, PhidgetsTag.Repeated, FdxB.TagOf, FdxB.DataOf, FdxB.Header, FdxB.Passes;
    FdxB.ScanFinds(q, 0);
    if FdxB.Scan(q, 0).Tag? {
      var k: nat :| FdxB.Valid(q, k) && FdxB.Scan(q, 0) == FdxB.Tag(FdxB.TagOf(FdxB.DataOf(FdxB.Window(q, k))));
      FdxHeaderInPhidgets(PhidgetsTag.TextData(s), q, from, k);
    }
  }

  // ---- pulses of one length only --------------------------------------------------

  lemma SameBits(f: Bits, half: nat, mid: bool, k: nat, a: nat, i: nat, j: nat)
    requires IsRate(half) && IsPos(f, Pos(0, mid)) && SameLength(Played(f, half, Pos(0, mid), k), a)
    requires 0 < i <= PosAfter(f, Pos(0, mid), k).n && 0 < j <= PosAfter(f, Pos(0, mid), k).n
    ensures Toggles(f)(i) == Toggles(f)(j)
  {
    hide IsRate, Played, PosAfter;
    var t := PulseOfBit(f, half, mid, k, i);
    var t' := PulseOfBit(f, half, mid, k, j);
  }

  // All bits but those of one packet are the same when the decoders run for the first time.
  lemma SameButLast(f: Bits, half: nat, mid: bool, m: nat, bound: nat) returns (same: nat)
    requires IsRate(half) && IsPos(f, Pos(0, mid)) && FirstDecoded(f, half, mid, m, bound)
    ensures same <= PosAfter(f, Pos(0, mid), m).n <= same + bound
    ensures forall i: nat, j: nat :: 0 < i <= same && 0 < j <= same ==> Toggles(f)(i) == Toggles(f)(j)
  {
    hide IsRate, Played, PosAfter, SameLength, Toggles;
    var k: nat, a: nat :| k < m <= k + bound && SameLength(Played(f, half, Pos(0, mid), k), a);
    same := PosAfter(f, Pos(0, mid), k).n;
    PlayedInParts(f, half, Pos(0, mid), k, m - k);
    PulsesPerBit(f, PosAfter(f, Pos(0, mid), k), m - k);
    forall i: nat, j: nat | 0 < i <= same && 0 < j <= same ensures Toggles(f)(i) == Toggles(f)(j) {
      SameBits(f, half, mid, k, a, i, j);
    }
  }

  // ---- the FDX-B tag comes first --------------------------------------------------

  // Nothing was read, everything from the first one on is queued, and the FDX-B frame is not complete.
  ghost predicate Unread(l: Line, f: Bits, p: Pos, rot: nat) {
    && OnTheBeat(l, f, p) && 0 < |Queue(l)| <= p.n && AllCaught(Queue(l), f, p.n)
    && |Queue(l)| < FirstFdx(Front(Queue(l), p.n, rot)) + 128
  }

  ghost predicate HiddenFirst(l: Line, f: Bits, p: Pos, s: string, rot: nat, tags: seq<Read>)
    requires PhidgetsTag.TagText(s)
  {
    if tags == [] then Unread(l, f, p, rot) else tags[0] == Read(ISO11785_FDX_B, HiddenTag(s))
  }

  lemma NotWholeYet(q: seq<bool>, f: Bits, n: nat, s: string, rot: nat, same: nat)
    requires TagBits(f, Phidgets(s), rot) && Latest(q, Toggles(f), n) && n <= same + 0x3F
    requires forall i: nat, j: nat :: 0 < i <= same && 0 < j <= same ==> Toggles(f)(i) == Toggles(f)(j)
    ensures PhidgetsTag.Scan(q, 0, Crc.Zero()) == PhidgetsTag.NotFound
  {
    hide PhidgetsTag.Scan, PhidgetsTag.TextData, PhidgetsTag.TagText, Toggles, TagBits, Latest, PhidgetsTag.Headers;
    PhidgetsBits(q, f, s, rot, n);
    PhidgetsReadNeeds(s, q, n - |q| + 1 + rot);
    if PhidgetsTag.Scan(q, 0, Crc.Zero()).Tag? {
      var k: nat :| k + 224 <= |q| && PhidgetsTag.Headers(q)(k) && (k + (n - |q| + 1 + rot)) % 224 == 0;
      HeaderToggles(q, f, n, k);
    }
  }

  lemma HeaderToggles(q: seq<bool>, f: Bits, n: nat, k: nat)
    requires Latest(q, Toggles(f), n) && PhidgetsTag.Headers(q)(k)
    ensures var i := n - |q| + 1 + k; 0 < i <= n - 223 && !Toggles(f)(i) && Toggles(f)(i + 13)
  {
    hide Toggles;
    var w := PhidgetsTag.Window(q, k);
    assert w[0] == q[k] && w[13] == q[k + 13];
  }

  lemma FirstHidden(l: Line, f: Bits, half: nat, mid: bool, m: nat, s: string, rot: nat)
    requires IsRate(half) && IsPos(f, Pos(0, mid)) && Fresh(l) && FirstDecoded(f, half, mid, m, 0x3F)
    requires TagBits(f, Phidgets(s), rot) && Double(s)
    ensures var (n, tags) := TakeBiphase(BiphaseRun(l, Played(f, half, Pos(0, mid), m), half, 2 * half));
      HiddenFirst(n, f, PosAfter(f, Pos(0, mid), m), s, rot, tags)
  {
    var same := SameButLast(f, half, mid, m, 0x3F);
    hide IsRate, TagBits, Queue, BiphaseRun, Played, PosAfter, AllCaught, TakeBiphase, Toggles, SameLength, Double, FirstFdx, Latest;
    BeatFromStart(l, f, half, mid, m);
    var o, p := BiphaseRun(l, Played(f, half, Pos(0, mid), m), half, 2 * half).line, PosAfter(f, Pos(0, mid), m);
    LatestFits(Queue(o), Toggles(f), p.n);
    NotWholeYet(Queue(o), f, p.n, s, rot, same);
    TakeDouble(o, f, p, s, rot);
  }

  lemma NextHidden(l: Line, f: Bits, half: nat, p: Pos, m: nat, s: string, rot: nat, before: seq<Read>)
    requires IsRate(half) && IsPos(f, p) && 0 < m <= 0x3F && TagBits(f, Phidgets(s), rot) && Double(s)
    requires HiddenFirst(l, f, p, s, rot, before)
    ensures var (n, tags) := TakeBiphase(BiphaseRun(l, Played(f, half, p, m), half, 2 * half));
      HiddenFirst(n, f, PosAfter(f, p, m), s, rot, before + tags)
  {
    hide IsRate, TagBits, BiphaseRun, Played, PosAfter, TakeBiphase, Unread, HiddenTag;
    if before == [] {
      NextUnread(l, f, half, p, m, s, rot);
      var tags := TakeBiphase(BiphaseRun(l, Played(f, half, p, m), half, 2 * half)).1;
      assert before + tags == tags;
    }
  }

  lemma NextUnread(l: Line, f: Bits, half: nat, p: Pos, m: nat, s: string, rot: nat)
    requires IsRate(half) && IsPos(f, p) && 0 < m <= 0x3F && TagBits(f, Phidgets(s), rot) && Double(s) && Unread(l, f, p, rot)
    ensures var (n, tags) := TakeBiphase(BiphaseRun(l, Played(f, half, p, m), half, 2 * half));
      HiddenFirst(n, f, PosAfter(f, p, m), s, rot, tags)
  {
    hide IsRate, TagBits, Queue, BiphaseRun, Played, PosAfter, AllCaught, TakeBiphase, Toggles, OnTheBeat, FirstFdx,
      PhidgetsTag.TagText, PhidgetsTag.TextData, LooksLikeFdx, HiddenTag, Consumed, Latest, HiddenFirst;
    BeatGoesOn(l, f, half, p, m);
    var o, p' := BiphaseRun(l, Played(f, half, p, m), half, 2 * half).line, PosAfter(f, p, m);
    assert |Queue(o)| == |Queue(l)| + p'.n - p.n;
    assert Front(Queue(o), p'.n, rot) == Front(Queue(l), p.n, rot);
    DecodeUnread(o, f, p', s, rot);
  }

  lemma DecodeUnread(l: Line, f: Bits, p: Pos, s: string, rot: nat)
    requires TagBits(f, Phidgets(s), rot) && Double(s) && OnTheBeat(l, f, p) && 0 < |Queue(l)| <= p.n && AllCaught(Queue(l), f, p.n)
    requires |Queue(l)| < FirstFdx(Front(Queue(l), p.n, rot)) + 191
    ensures var (n, tags) := TakeBiphase(Outcome(true, l)); HiddenFirst(n, f, p, s, rot, tags)
  {
    hide TagBits, Queue, TakeBiphase, Toggles, OnTheBeat, FirstFdx, PhidgetsTag.TagText, PhidgetsTag.TextData, LooksLikeFdx,
      HiddenTag, Consumed, AllCaught;
    BeatPhidgets(l, f, p, s, rot);
    PhidgetsReadNeeds(s, Queue(l), Front(Queue(l), p.n, rot));
    TakeDouble(l, f, p, s, rot);
  }

  lemma BeatPhidgets(l: Line, f: Bits, p: Pos, s: string, rot: nat)
    requires TagBits(f, Phidgets(s), rot) && OnTheBeat(l, f, p)
    ensures PhidgetsTag.TagText(s) && |Queue(l)| <= p.n
    ensures PhidgetsTag.Repeated(Queue(l), PhidgetsTag.TextData(s), Front(Queue(l), p.n, rot))
  {
    hide Queue, TagBits, Toggles;
    PhidgetsBits(Queue(l), f, s, rot, p.n);
  }

  lemma {:induction false} HiddenAll(l: Line, f: Bits, half: nat, mid: bool, ms: seq<nat>, s: string, rot: nat)
    requires IsRate(half) && IsPos(f, Pos(0, mid)) && Fresh(l) && TagBits(f, Phidgets(s), rot) && Double(s)
    requires |ms| > 0 && FirstDecoded(f, half, mid, ms[0], 0x3F) && Packets(ms[1..])
    ensures var (n, tags) := BiphaseAll(l, f, half, Pos(0, mid), ms);
      HiddenFirst(n, f, PosAfter(f, Pos(0, mid), Total(ms)), s, rot, tags)
  {
    hide IsRate, TagBits, TakeBiphase, BiphaseRun, Played, PosAfter, FirstDecoded, ManchesterAll, BiphaseAll, HiddenFirst;
    var p, k := Pos(0, mid), |ms| - 1;
    var init, m := ms[..k], ms[k];
    assert init + [m] == ms;
    AllNext(l, f, half, p, init, m);
    if k == 0 {
      FirstHidden(l, f, half, mid, m, s, rot);
      OneMerged(l, f, half, p, m);
    } else {
      assert ms[1..][..k - 1] == init[1..] && m == ms[1..][k - 1];
      HiddenAll(l, f, half, mid, init, s, rot);
      TotalNext(init, m);
      PlayedInParts(f, half, p, Total(init), m);
      var (n, tags) := BiphaseAll(l, f, half, p, init);
      NextHidden(n, f, half, PosAfter(f, p, Total(init)), m, s, rot, tags);
    }
  }

  // ---- and the PhidgetsTAG never does ---------------------------------------------

  // The largest packets for which this is so: two of them bring fewer bits than the longer frame has more.
  const SMALL: nat := 46

  // The FDX-B frame is not complete, or it is the one that was just read and will be read once more.
  ghost predicate Behind(l: Line, f: Bits, p: Pos, rot: nat) {
    && OnTheBeat(l, f, p) && |Queue(l)| <= p.n
    && var k, n := FirstFdx(Front(Queue(l), p.n, rot)), |Queue(l)|;
       n < k + 128 || (k < 128 && n < k + 128 + SMALL)
  }

  lemma FirstFdxMoves(rot: nat)
    ensures FirstFdx(rot + 128) == if FirstFdx(rot) >= 128 then FirstFdx(rot) - 128 else FirstFdx(rot) + 96
  {
    var d, o := rot / 224, rot % 224;
    assert rot == 224 * d + o;
    assert (rot + 128) % 224 == if o < 96 then o + 128 else o - 96;
  }

  ghost predicate AllFdx(tags: seq<Read>) { forall i :: 0 <= i < |tags| ==> tags[i].protocol == ISO11785_FDX_B }

  lemma TakeBehind(l: Line, f: Bits, p: Pos, s: string, rot: nat)
    requires TagBits(f, Phidgets(s), rot) && Double(s) && OnTheBeat(l, f, p) && 0 < |Queue(l)| <= p.n
    requires var k, n := FirstFdx(Front(Queue(l), p.n, rot)), |Queue(l)|;
      n < k + 128 + SMALL || (k < 128 && n < k + 128 + 2 * SMALL)
    requires PhidgetsTag.Scan(Queue(l), 0, Crc.Zero()) == PhidgetsTag.NotFound
    ensures var (m, tags) := TakeBiphase(Outcome(true, l)); AllFdx(tags) && Behind(m, f, p, rot)
  {
    hide TagBits, Queue, TakeBiphase, Toggles, FirstFdx, Double, Consumed, Latest;
    var q, from := Queue(l), Front(Queue(l), p.n, rot);
    TakeDouble(l, f, p, s, rot);
    if FirstFdx(from) + 128 <= |q| {
      ConsumedQueue(l, 128);
      LatestTail(q, Toggles(f), p.n, 128);
      FirstFdxMoves(from);
      assert Front(q[128..], p.n, rot) == from + 128;
    }
  }

  lemma NextBehind(l: Line, f: Bits, half: nat, p: Pos, m: nat, s: string, rot: nat)
    requires IsRate(half) && IsPos(f, p) && 2 <= m <= SMALL && TagBits(f, Phidgets(s), rot) && Double(s) && Behind(l, f, p, rot)
    ensures var (n, tags) := TakeBiphase(BiphaseRun(l, Played(f, half, p, m), half, 2 * half));
      AllFdx(tags) && Behind(n, f, PosAfter(f, p, m), rot)
  {
    hide IsRate, TagBits, Queue, BiphaseRun, Played, PosAfter, AllCaught, TakeBiphase, Toggles, OnTheBeat, FirstFdx,
      PhidgetsTag.TagText, PhidgetsTag.TextData, LooksLikeFdx, AllFdx;
    BeatGoesOn(l, f, half, p, m);
    PulsesPerBit(f, p, m);
    var o, p' := BiphaseRun(l, Played(f, half, p, m), half, 2 * half).line, PosAfter(f, p, m);
    BeatPhidgets(o, f, p', s, rot);
    PhidgetsReadNeeds(s, Queue(o), Front(Queue(o), p'.n, rot));
    TakeBehind(o, f, p', s, rot);
  }

  // When the decoders run for the first time, the queue ends less than a packet behind the first zero in it.
  lemma FirstBehind(l: Line, f: Bits, half: nat, mid: bool, m: nat, s: string, rot: nat)
    requires IsRate(half) && IsPos(f, Pos(0, mid)) && Fresh(l) && FirstDecoded(f, half, mid, m, SMALL)
    requires TagBits(f, Phidgets(s), rot) && Double(s)
    ensures var (n, tags) := TakeBiphase(BiphaseRun(l, Played(f, half, Pos(0, mid), m), half, 2 * half));
      AllFdx(tags) && Behind(n, f, PosAfter(f, Pos(0, mid), m), rot)
  {
    var same := SameButLast(f, half, mid, m, SMALL);
    FirstBits(f, half, mid, m, SMALL, Phidgets(s), rot);
    hide IsRate, TagBits, Queue, BiphaseRun, Played, PosAfter, AllCaught, TakeBiphase, Toggles, SameLength, Double, FirstFdx, Latest;
    BeatFromStart(l, f, half, mid, m);
    var o, p := BiphaseRun(l, Played(f, half, Pos(0, mid), m), half, 2 * half).line, PosAfter(f, Pos(0, mid), m);
    LatestFits(Queue(o), Toggles(f), p.n);
    NotWholeYet(Queue(o), f, p.n, s, rot, same);
    ZeroOfHeader(Queue(o), f, p.n, s, rot);
    TakeBehind(o, f, p, s, rot);
  }

  lemma ZeroOfHeader(q: seq<bool>, f: Bits, n: nat, s: string, rot: nat)
    requires TagBits(f, Phidgets(s), rot) && Latest(q, Toggles(f), n) && 0 < |q| <= n && q[0]
    ensures var k := FirstFdx(Front(q, n, rot));
      !Toggles(f)(n - |q| + 1 + k) && Toggles(f)(n - |q| + 1)
  {
    hide PhidgetsTag.TagText, PhidgetsTag.TextData, Toggles, FirstFdx;
    var from := Front(q, n, rot);
    FirstFdxFits(from);
    var j := n - |q| + 1 + FirstFdx(from);
    assert j + rot == FirstFdx(from) + from;
    assert Toggles(f)(j) == SentBit(Phidgets(s), 3);
    EarlyBits(PhidgetsTag.TextData(s), 3);
  }

  lemma {:induction false} BehindAll(l: Line, f: Bits, half: nat, mid: bool, ms: seq<nat>, s: string, rot: nat)
    requires IsRate(half) && IsPos(f, Pos(0, mid)) && Fresh(l) && TagBits(f, Phidgets(s), rot) && Double(s)
    requires |ms| > 0 && FirstDecoded(f, half, mid, ms[0], SMALL) && Sized(ms[1..], 2, SMALL)
    ensures var (n, tags) := BiphaseAll(l, f, half, Pos(0, mid), ms);
      AllFdx(tags) && Behind(n, f, PosAfter(f, Pos(0, mid), Total(ms)), rot)
  {
    hide IsRate, TagBits, TakeBiphase, BiphaseRun, Played, PosAfter, FirstDecoded, ManchesterAll, BiphaseAll, Behind;
    var p, k := Pos(0, mid), |ms| - 1;
    var init, m := ms[..k], ms[k];
    assert init + [m] == ms;
    AllNext(l, f, half, p, init, m);
    if k == 0 {
      FirstBehind(l, f, half, mid, m, s, rot);
      OneMerged(l, f, half, p, m);
    } else {
      assert ms[1..][..k - 1] == init[1..] && m == ms[1..][k - 1];
      BehindAll(l, f, half, mid, init, s, rot);
      TotalNext(init, m);
      PlayedInParts(f, half, p, Total(init), m);
      NextBehind(BiphaseAll(l, f, half, p, init).0, f, half, PosAfter(f, p, Total(init)), m, s, rot);
    }
  }
}
