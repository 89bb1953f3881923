/** From biphase pulses to tags, for the two tag types that are sent that way. */
module BiphaseTracking {
  // What the two biphase tag decoders report when a reader is fed the repeated frame of an FDX-B tag or of a
  // PhidgetsTAG. The frame of a PhidgetsTAG may be an FDX-B frame as well, and then that is what is read.

  import opened Pulses
  import opened LineDecoders
  import opened Stream
  import opened BiphaseStream
  import opened Analysis
  import opened Feeding
  import FdxB
  import PhidgetsTag
  import Crc
  import Search

  /** What is held in front of the reader. */
  datatype Sender = Fdx(s: string) | Phidgets(s: string)

  function Period(x: Sender): (n: nat)
    ensures n == 128 || n == 224
  {
    if x.Fdx? then 128 else 224
  }

  /** So many bits of the repeated frame are enough to find the tag. */
  function Enough(x: Sender): nat { 2 * Period(x) - 1 }

  function ReadOf(x: Sender): Read { Read(if x.Fdx? then ISO11785_FDX_B else PHIDGETS, x.s) }

  ghost predicate Sendable(x: Sender) {
    match x
    case Fdx(s) => FdxB.TagDigits(s)
    case Phidgets(s) => PhidgetsTag.TagText(s)
  }

  /** The frame passes for an FDX-B frame from its fourth bit on. */
  predicate LooksLikeFdx(d: PhidgetsTag.Text) { FdxB.Passes(PhidgetsTag.Frame(d)[3..131]) }

  ghost predicate Ordinary(x: Sender)
    requires Sendable(x)
  {
    x.Phidgets? ==> !LooksLikeFdx(PhidgetsTag.TextData(x.s))
  }

  /** The place in its frame of a bit of the repeated frame. */
  function Place(x: Sender, i: nat): (p: nat)
    ensures p < Period(x)
  {
    if x.Fdx? then i % 128 else i % 224
  }

  ghost predicate SentBit(x: Sender, i: nat)
    requires Sendable(x) && i < Period(x)
  {
    match x
    case Fdx(s) => FdxB.FrameBit(FdxB.TagData(s), i)
    case Phidgets(s) => PhidgetsTag.FrameBit(PhidgetsTag.TextData(s), i)
  }

  /** f are levels whose biphase bits are the frame over and over, heard from bit rot of a frame on. */
  ghost predicate TagBits(f: Bits, x: Sender, rot: nat) {
    Sendable(x) && forall i: nat :: i > 0 ==> Toggles(f)(i) == SentBit(x, Place(x, i + rot))
  }

  ghost predicate RepeatedBits(q: seq<bool>, x: Sender, rot: nat)
    requires Sendable(x)
  {
    forall i :: 0 <= i < |q| ==> q[i] == SentBit(x, Place(x, i + rot))
  }

  // ---- what the decoders find in a repeated frame ---------------------------------

  /** No PhidgetsTAG header occurs in a repeated FDX-B frame: it has no thirteen zeros in a row. */
  lemma NoPhidgetsInFdx(d: FdxB.Data, q: seq<bool>, rot: nat)
    requires FdxB.Repeated(q, d, rot)
    ensures PhidgetsTag.Scan(q, 0, Crc.Zero()) == PhidgetsTag.NotFound
  {
    hide PhidgetsTag.Passes, PhidgetsTag.RegisterAt, PhidgetsTag.Scan, FdxB.FrameBit;
    forall k: nat ensures !PhidgetsTag.Accepted(q, 0, Crc.Zero(), k) {
      if k + 224 <= |q| {
        var w, o := PhidgetsTag.Window(q, k), (k + rot) % 128;
        var i := 10;
        if o > 0 {
          i := FdxB.OneWithinTen(d, o);
        } else {
          assert FdxB.SeenBit(d, 0, 10) by { assert FdxB.FrameBit(d, 10) by { TenthBit(d); } }
        }
        FdxB.WindowBit(d, q, rot, k, i);
        assert w[i] == FdxB.Window(q, k)[i];
      }
    }
    PhidgetsTag.ScanFinds(q, 0, Crc.Zero());
  }

  lemma TenthBit(d: FdxB.Data)
    ensures FdxB.FrameBit(d, 10) && !FdxB.FrameBit(d, 0)
  {
  }

  lemma FdxFound(s: string, q: seq<bool>, rot: nat)
    requires FdxB.TagDigits(s) && FdxB.Repeated(q, FdxB.TagData(s), rot)
    ensures match FdxB.Scan(q, 0)
      case NotFound => |q| < 255
      case Tag(t) => t == s && |q| >= 128 && (|q| == 128 ==> rot % 128 == 0)
  {
    hide FdxB.Scan, FdxB.Repeated, FdxB.Passes, FdxB.Header, FdxB.TagOf, FdxB.DataOf, FdxB.TagData;
    if |q| >= 255 { FdxB.SelfSynchronising(s, q, rot, 0); }
    FdxB.ScanFinds(q, 0);
    if FdxB.Scan(q, 0).Tag? {
      var k :| 0 <= k && FdxB.Valid(q, k) && FdxB.Scan(q, 0) == FdxB.Tag(FdxB.TagOf(FdxB.DataOf(FdxB.Window(q, k))));
      FdxB.HeaderIffAligned(FdxB.TagData(s), q, rot, k);
      FdxB.FrameValid(FdxB.TagData(s));
      FdxB.TagOfData(s);
    }
  }

  lemma PhidgetsFound(s: string, q: seq<bool>, rot: nat)
    requires PhidgetsTag.TagText(s) && PhidgetsTag.Repeated(q, PhidgetsTag.TextData(s), rot)
    ensures match PhidgetsTag.Scan(q, 0, Crc.Zero())
      case NotFound => |q| < 447
      case Tag(t) => t == s && |q| >= 224 && (|q| == 224 ==> rot % 224 == 0)
  {
    hide PhidgetsTag.Scan, PhidgetsTag.Repeated, PhidgetsTag.Passes, PhidgetsTag.Header, PhidgetsTag.CString,
      PhidgetsTag.TextOf, PhidgetsTag.TextData, PhidgetsTag.RegisterAt;
    if |q| >= 447 { PhidgetsTag.SelfSynchronising(s, q, rot); }
    PhidgetsTag.ScanFinds(q, 0, Crc.Zero());
    if PhidgetsTag.Scan(q, 0, Crc.Zero()).Tag? {
      var k :| PhidgetsTag.Accepted(q, 0, Crc.Zero(), k) && PhidgetsTag.Scan(q, 0, Crc.Zero())
        == PhidgetsTag.Tag(PhidgetsTag.CString(PhidgetsTag.TextOf(PhidgetsTag.Window(q, k))));
      PhidgetsTag.HeaderIffAligned(PhidgetsTag.TextData(s), q, rot, k);
      PhidgetsTag.FrameGood(PhidgetsTag.TextData(s));
      PhidgetsTag.TextRoundTrip(s);
    }
  }

  /** The FDX-B header occurs in a repeated PhidgetsTAG frame at its fourth bit and nowhere else. */
  lemma FdxHeaderInPhidgets(d: PhidgetsTag.Text, q: seq<bool>, rot: nat, k: nat)
    requires PhidgetsTag.Repeated(q, d, rot) && k + 128 <= |q| && FdxB.Header(FdxB.Window(q, k))
    ensures (k + rot) % 224 == 3 && FdxB.Window(q, k) == PhidgetsTag.Frame(d)[3..131]
  {
    hide PhidgetsTag.FrameBit;
    var w, o := FdxB.Window(q, k), (k + rot) % 224;
    forall i: nat | i < 128 ensures w[i] == PhidgetsTag.SeenBit(d, o, i) {
      PhidgetsTag.AddMod(k + rot, i);
      assert w[i] == q[k + i] == PhidgetsTag.FrameBit(d, (k + i + rot) % 224);
    }
    if o < 3 {
      EarlyBits(d, o + 10);
    } else if o > 3 {
      OneWithinTen(d, o);
    }
  }

  lemma EarlyBits(d: PhidgetsTag.Text, p: nat)
    requires p < 14
    ensures PhidgetsTag.FrameBit(d, p) == (p == 13)
  {
  }

  lemma OneWithinTen(d: PhidgetsTag.Text, o: nat)
    requires 3 < o < 224
    ensures exists i: nat :: i < 10 && PhidgetsTag.SeenBit(d, o, i)
  {
    hide PhidgetsTag.FrameBit;
    var i: nat;
    if o <= 13 {
      EarlyBits(d, 13);
      i := 13 - o;
    } else if o <= 22 {
      PhidgetsTag.FrameChecksumBit(d, 0, 8);
      i := 22 - o;
    } else if o <= 31 {
      PhidgetsTag.FrameChecksumBit(d, 1, 8);
      i := 31 - o;
    } else {
      var g := (o - 32) / 8;
      PhidgetsTag.FrameDataBit(d, g, 7);
      i := 39 + 8 * g - o;
    }
    assert PhidgetsTag.SeenBit(d, o, i);
  }

  lemma NoFdxInPhidgets(d: PhidgetsTag.Text, q: seq<bool>, rot: nat)
    requires PhidgetsTag.Repeated(q, d, rot) && !LooksLikeFdx(d)
    ensures FdxB.Scan(q, 0) == FdxB.NotFound
  {
    hide FdxB.Scan, PhidgetsTag.Repeated, FdxB.Passes, FdxB.Header;
    forall k | 0 <= k && FdxB.Valid(q, k) ensures false {
      FdxHeaderInPhidgets(d, q, rot, k);
    }
    FdxB.ScanFinds(q, 0);
  }

  // Where the first FDX-B header of a queue begins whose first bit is bit rot of a repeated PhidgetsTAG frame.
  function FirstFdx(rot: nat): (k: nat)
    ensures k < 224
  {
    (227 - rot % 224) % 224
  }

  lemma FirstFdxFits(rot: nat)
    ensures (FirstFdx(rot) + rot) % 224 == 3
  {
    var d, o := rot / 224, rot % 224;
    assert rot == 224 * d + o;
    assert FirstFdx(rot) == if o <= 3 then 3 - o else 227 - o;
  }

  lemma FirstFdxIsFirst(rot: nat, j: nat)
    requires (j + rot) % 224 == 3
    ensures FirstFdx(rot) <= j
  {
    var d, o := rot / 224, rot % 224;
    assert rot == 224 * d + o;
    assert FirstFdx(rot) == if o <= 3 then 3 - o else 227 - o;
    var e := (j + rot) / 224;
    assert j + o == 224 * (e - d) + 3;
  }

  /** When a PhidgetsTAG frame passes for an FDX-B frame, that is read as soon as it is complete. */
  lemma FdxReadIff(d: PhidgetsTag.Text, q: seq<bool>, rot: nat)
    requires PhidgetsTag.Repeated(q, d, rot) && LooksLikeFdx(d)
    ensures FdxB.Scan(q, 0).Tag? <==> FirstFdx(rot) + 128 <= |q|
  {
    hide FdxB.Scan, PhidgetsTag.Repeated, FdxB.Passes, FdxB.Header, PhidgetsTag.FrameBit, PhidgetsTag.Frame, FirstFdx;
    FdxB.ScanFinds(q, 0);
    var k := FirstFdx(rot);
    forall j: nat | FdxB.Headers(q)(j) ensures k <= j && FdxB.Window(q, j) == PhidgetsTag.Frame(d)[3..131] {
      FdxHeaderInPhidgets(d, q, rot, j);
      FirstFdxIsFirst(rot, j);
    }
    if k + 128 <= |q| {
      FirstFdxFits(rot);
      FdxHeaderAt(d, q, rot, k);
      FdxB.HeadersSpaced(q);
      Search.ReachesIffEven(FdxB.Headers(q), 11, k);
      assert !(11 <= k && FdxB.Headers(q)(k - 11));
      assert FdxB.Valid(q, k);
    }
  }

  lemma FdxHeaderAt(d: PhidgetsTag.Text, q: seq<bool>, rot: nat, k: nat)
    requires PhidgetsTag.Repeated(q, d, rot) && k + 128 <= |q| && (k + rot) % 224 == 3
    ensures FdxB.Header(FdxB.Window(q, k))
  {
    hide PhidgetsTag.FrameBit;
    forall i: nat | i < 11 ensures FdxB.Window(q, k)[i] == (i == 10) {
      PhidgetsTag.AddMod(k + rot, i);
      EarlyBits(d, 3 + i);
      assert FdxB.Window(q, k)[i] == q[k + i] == PhidgetsTag.FrameBit(d, (k + i + rot) % 224);
    }
  }

  /** A PhidgetsTAG frame that is read is complete behind its header, which begins three bits before an FDX-B one. */
  lemma PhidgetsReadNeeds(s: string, q: seq<bool>, rot: nat)
    requires PhidgetsTag.TagText(s) && PhidgetsTag.Repeated(q, PhidgetsTag.TextData(s), rot)
    ensures PhidgetsTag.Scan(q, 0, Crc.Zero()).Tag? ==> FirstFdx(rot) + 221 <= |q|
    ensures PhidgetsTag.Scan(q, 0, Crc.Zero()).Tag? ==> exists k: nat :: k + 224 <= |q| && PhidgetsTag.Headers(q)(k) && (k + rot) % 224 == 0
  {
    hide PhidgetsTag.Scan, PhidgetsTag.Repeated, PhidgetsTag.Passes, PhidgetsTag.Header, PhidgetsTag.RegisterAt, PhidgetsTag.TextData, FirstFdx;
    PhidgetsTag.ScanFinds(q, 0, Crc.Zero());
    if PhidgetsTag.Scan(q, 0, Crc.Zero()).Tag? {
      var k: nat :| PhidgetsTag.Accepted(q, 0, Crc.Zero(), k);
      PhidgetsTag.HeaderIffAligned(PhidgetsTag.TextData(s), q, rot, k);
      PhidgetsTag.AddMod(k + rot, 3);
      assert k + rot + 3 == k + 3 + rot;
      FirstFdxIsFirst(rot, k + 3);
    }
  }

  // ---- the queue of a decoder on the beat -----------------------------------------

  lemma LatestBits(q: seq<bool>, f: Bits, x: Sender, rot: nat, n: nat)
    requires TagBits(f, x, rot) && Latest(q, Toggles(f), n)
    ensures |q| <= n && RepeatedBits(q, x, n - |q| + 1 + rot)
  {
    hide Place, SentBit, Toggles;
    var from := n - |q| + 1 + rot;
    forall i | 0 <= i < |q| ensures q[i] == SentBit(x, Place(x, i + from)) {
      assert q[i] == Toggles(f)(n - |q| + 1 + i);
      assert n - |q| + 1 + i + rot == i + from;
    }
  }

  lemma PhidgetsBits(q: seq<bool>, f: Bits, s: string, rot: nat, n: nat)
    requires TagBits(f, Phidgets(s), rot) && Latest(q, Toggles(f), n)
    ensures PhidgetsTag.TagText(s) && |q| <= n && PhidgetsTag.Repeated(q, PhidgetsTag.TextData(s), n - |q| + 1 + rot)
  {
    hide PhidgetsTag.TagText, PhidgetsTag.TextData, PhidgetsTag.FrameBit, Toggles;
    LatestBits(q, f, Phidgets(s), rot, n);
    var from := n - |q| + 1 + rot;
    forall i | 0 <= i < |q| ensures q[i] == PhidgetsTag.FrameBit(PhidgetsTag.TextData(s), (i + from) % 224) {
      assert q[i] == SentBit(Phidgets(s), Place(Phidgets(s), i + from));
    }
  }

  lemma FdxBits(q: seq<bool>, f: Bits, s: string, rot: nat, n: nat)
    requires TagBits(f, Fdx(s), rot) && Latest(q, Toggles(f), n)
    ensures FdxB.TagDigits(s) && |q| <= n && FdxB.Repeated(q, FdxB.TagData(s), n - |q| + 1 + rot)
  {
    hide FdxB.TagDigits, FdxB.TagData, FdxB.FrameBit, Toggles;
    LatestBits(q, f, Fdx(s), rot, n);
    var from := n - |q| + 1 + rot;
    forall i | 0 <= i < |q| ensures q[i] == FdxB.FrameBit(FdxB.TagData(s), (i + from) % 128) {
      assert q[i] == SentBit(Fdx(s), Place(Fdx(s), i + from));
    }
  }

  // A queue with a one in front.
  ghost predicate Good(l: Line, f: Bits, p: Pos) { OnTheBeat(l, f, p) && 0 < |Queue(l)| && Queue(l)[0] }

  lemma SameAfterPeriod(q: seq<bool>, x: Sender, rot: nat)
    requires Sendable(x) && RepeatedBits(q, x, rot) && |q| > Period(x)
    ensures q[Period(x)] == q[0]
  {
    hide SentBit, Place;
    OnePeriodOn(x, rot);
  }

  lemma OnePeriodOn(x: Sender, a: nat)
    ensures Place(x, Period(x) + a) == Place(x, 0 + a)
  {
    if x.Fdx? { Again128(a); } else { Again224(a); }
  }

  lemma Again128(a: nat)
    ensures (128 + a) % 128 == a % 128
  {
    var d, m := a / 128, a % 128;
    assert 128 + a == 128 * (d + 1) + m;
  }

  lemma Again224(a: nat)
    ensures (224 + a) % 224 == a % 224
  {
    var d, m := a / 224, a % 224;
    assert 224 + a == 224 * (d + 1) + m;
  }

  lemma LongerThanFrame(q: seq<bool>, x: Sender, rot: nat)
    requires Sendable(x) && RepeatedBits(q, x, rot) && |q| > 0 && q[0] && (|q| == Period(x) ==> Place(x, rot) == 0)
    ensures |q| != Period(x)
  {
    HeaderBits(x);
  }

  lemma HeaderBits(x: Sender)
    requires Sendable(x)
    ensures !SentBit(x, 0) && SentBit(x, if x.Fdx? then 10 else 13)
  {
  }

  // The part of the decoders that is the same for both types, once the search has its answer.
  lemma FoundOrNot(l: Line, f: Bits, p: Pos, x: Sender, rot: nat, found: bool)
    requires TagBits(f, x, rot) && Good(l, f, p)
    requires var q := Queue(l);
      if found then |q| >= Period(x) && (|q| == Period(x) ==> Place(x, p.n - |q| + 1 + rot) == 0) else |q| < Enough(x)
    ensures var m := if found then Consumed(l, Period(x)) else l;
      Good(m, f, p) && (found ==> |Queue(m)| == |Queue(l)| - Period(x))
  {
    assert Sendable(x);
    hide Queue, TagBits, Consumed, Place, RepeatedBits, SentBit, Sendable, Toggles, Latest;
    var q := Queue(l);
    if found {
      LatestBits(q, f, x, rot, p.n);
      LongerThanFrame(q, x, p.n - |q| + 1 + rot);
      SameAfterPeriod(q, x, p.n - |q| + 1 + rot);
      ConsumedQueue(l, Period(x));
      LatestTail(q, Toggles(f), p.n, Period(x));
    }
  }

  lemma TakeFdxOnTheBeat(l: Line, f: Bits, p: Pos, s: string, rot: nat)
    requires TagBits(f, Fdx(s), rot) && Good(l, f, p)
    ensures var (m, tags) := TakeBiphase(Outcome(true, l));
      && Good(m, f, p)
      && if tags == [Read(ISO11785_FDX_B, s)] then |Queue(m)| == |Queue(l)| - 128
         else tags == [] && m == l && |Queue(l)| < 255
  {
    hide FdxB.Scan, PhidgetsTag.Scan, FdxB.TagDigits, FdxB.TagData, FdxB.FrameBit, Queue, TagBits, Latest, Toggles;
    var q, from := Queue(l), p.n - |Queue(l)| + 1 + rot;
    FdxBits(q, f, s, rot, p.n);
    QueueSeen(l);
    NoPhidgetsInFdx(FdxB.TagData(s), q, from);
    FdxFound(s, q, from);
    FoundOrNot(l, f, p, Fdx(s), rot, FdxB.Scan(q, 0).Tag?);
  }

  lemma TakePhidgetsOnTheBeat(l: Line, f: Bits, p: Pos, s: string, rot: nat)
    requires TagBits(f, Phidgets(s), rot) && Good(l, f, p) && Ordinary(Phidgets(s))
    ensures var (m, tags) := TakeBiphase(Outcome(true, l));
      && Good(m, f, p)
      && if tags == [Read(PHIDGETS, s)] then |Queue(m)| == |Queue(l)| - 224
         else tags == [] && m == l && |Queue(l)| < 447
  {
    hide FdxB.Scan, PhidgetsTag.Scan, PhidgetsTag.TagText, PhidgetsTag.TextData, PhidgetsTag.FrameBit, Queue, LooksLikeFdx,
      TagBits, Latest, Toggles;
    var q, from := Queue(l), p.n - |Queue(l)| + 1 + rot;
    PhidgetsBits(q, f, s, rot, p.n);
    QueueSeen(l);
    PhidgetsFound(s, q, from);
    var found := PhidgetsTag.Scan(q, 0, Crc.Zero()).Tag?;
    FoundOrNot(l, f, p, Phidgets(s), rot, found);
    var m := TakePhidgets(l).0;
    PhidgetsBits(Queue(m), f, s, rot, p.n);
    QueueSeen(m);
    NoFdxInPhidgets(PhidgetsTag.TextData(s), Queue(m), p.n - |Queue(m)| + 1 + rot);
  }

  /** The tag decoders on the queue of a repeated frame: the tag, or nothing yet. */
  lemma TakeOnTheBeat(l: Line, f: Bits, p: Pos, x: Sender, rot: nat)
    requires TagBits(f, x, rot) && Ordinary(x) && Good(l, f, p)
    ensures var (m, tags) := TakeBiphase(Outcome(true, l));
      && Good(m, f, p)
      && if tags == [ReadOf(x)] then |Queue(m)| == |Queue(l)| - Period(x)
         else tags == [] && m == l && |Queue(l)| < Enough(x)
  {
    hide TagBits, Good, TakeBiphase, Queue, Ordinary;
    match x
    case Fdx(s) => TakeFdxOnTheBeat(l, f, p, s, rot);
    case Phidgets(s) => TakePhidgetsOnTheBeat(l, f, p, s, rot);
  }

  // ---- both lengths occur soon ----------------------------------------------------

  lemma PlaceOfSum(x: Sender, rot: nat, r: nat) returns (j: nat)
    requires r < Period(x)
    ensures 0 < j <= Period(x) && Place(x, j + rot) == r
  {
    var c := Place(x, rot);
    j := if c < r then r - c else r + Period(x) - c;
    assert Place(x, j + rot) == r by { if x.Fdx? { Sum128(rot, j, r); } else { Sum224(rot, j, r); } }
  }

  lemma Sum128(a: nat, j: nat, r: nat)
    requires r < 128 && j == if a % 128 < r then r - a % 128 else r + 128 - a % 128
    ensures (j + a) % 128 == r
  {
    var d := a / 128;
    assert a == 128 * d + a % 128;
  }

  lemma Sum224(a: nat, j: nat, r: nat)
    requires r < 224 && j == if a % 224 < r then r - a % 224 else r + 224 - a % 224
    ensures (j + a) % 224 == r
  {
    var d := a / 224;
    assert a == 224 * d + a % 224;
  }

  lemma ZeroAndOne(f: Bits, x: Sender, rot: nat) returns (z: nat, o: nat)
    requires TagBits(f, x, rot)
    ensures 0 < z <= Period(x) && !Toggles(f)(z)
    ensures 0 < o <= Period(x) && Toggles(f)(o)
  {
    z := PlaceOfSum(x, rot, 0);
    o := PlaceOfSum(x, rot, if x.Fdx? then 10 else 13);
    HeaderBits(x);
    hide Place, SentBit, Toggles;
    assert Toggles(f)(z) == SentBit(x, 0) && Toggles(f)(o) == SentBit(x, if x.Fdx? then 10 else 13);
  }

  lemma BothSoon(f: Bits, half: nat, mid: bool, k: nat, a: nat, x: Sender, rot: nat)
    requires IsRate(half) && IsPos(f, Pos(0, mid)) && TagBits(f, x, rot) && SameLength(Played(f, half, Pos(0, mid), k), a)
    ensures PosAfter(f, Pos(0, mid), k).n < Period(x) && k <= 2 * Period(x)
  {
    hide TagBits, PosAfter, Played;
    PulsesPerBit(f, Pos(0, mid), k);
    if PosAfter(f, Pos(0, mid), k).n >= Period(x) {
      var z, o := ZeroAndOne(f, x, rot);
      var i := PulseOfBit(f, half, mid, k, z);
      var j := PulseOfBit(f, half, mid, k, o);
    }
  }

  lemma BiphaseLively(f: Bits, half: nat, mid: bool, x: Sender, rot: nat)
    requires IsRate(half) && IsPos(f, Pos(0, mid)) && TagBits(f, x, rot)
    ensures Lively(f, half, mid)
  {
    hide IsRate, TagBits, SameLength, Played;
    forall k: nat, a: nat | SameLength(Played(f, half, Pos(0, mid), k), a) ensures k <= 450 {
      BothSoon(f, half, mid, k, a, x, rot);
    }
  }

  // ---- an ordinary tag ------------------------------------------------------------

  ghost predicate AllOf(tags: seq<Read>, x: Sender) { forall i :: 0 <= i < |tags| ==> tags[i] == ReadOf(x) }

  // On the beat; without a tag yet all bits from the first one on are there.
  ghost predicate Listened(l: Line, f: Bits, p: Pos, x: Sender, tags: seq<Read>) {
    && AllOf(tags, x) && Good(l, f, p) && |Queue(l)| < Enough(x)
    && (tags == [] ==> AllCaught(Queue(l), f, p.n))
  }

  lemma FirstListened(l: Line, f: Bits, half: nat, mid: bool, m: nat, x: Sender, rot: nat)
    requires IsRate(half) && IsPos(f, Pos(0, mid)) && Fresh(l) && FirstDecoded(f, half, mid, m, 0x3F)
    requires TagBits(f, x, rot) && Ordinary(x)
    ensures var (n, tags) := TakeBiphase(BiphaseRun(l, Played(f, half, Pos(0, mid), m), half, 2 * half));
      Listened(n, f, PosAfter(f, Pos(0, mid), m), x, tags)
  {
    hide IsRate, TagBits, Queue, BiphaseRun, Played, PosAfter, AllCaught, Ordinary, TakeBiphase, Toggles, SameLength;
    BeatFromStart(l, f, half, mid, m);
    var o, p := BiphaseRun(l, Played(f, half, Pos(0, mid), m), half, 2 * half).line, PosAfter(f, Pos(0, mid), m);
    FirstBits(f, half, mid, m, 0x3F, x, rot);
    LatestFits(Queue(o), Toggles(f), p.n);
    TakeOnTheBeat(o, f, p, x, rot);
  }

  // At most one packet behind the first frame when the decoders run for the first time.
  lemma FirstBits(f: Bits, half: nat, mid: bool, m: nat, most: nat, x: Sender, rot: nat)
    requires IsRate(half) && IsPos(f, Pos(0, mid)) && FirstDecoded(f, half, mid, m, most) && TagBits(f, x, rot)
    ensures PosAfter(f, Pos(0, mid), m).n < Period(x) + most
  {
    hide IsRate, TagBits, Played, PosAfter, SameLength;
    var k: nat, a: nat :| k < m <= k + most && SameLength(Played(f, half, Pos(0, mid), k), a);
    BothSoon(f, half, mid, k, a, x, rot);
    PlayedInParts(f, half, Pos(0, mid), k, m - k);
    PulsesPerBit(f, PosAfter(f, Pos(0, mid), k), m - k);
  }

  lemma NextListened(l: Line, f: Bits, half: nat, p: Pos, m: nat, x: Sender, rot: nat, before: seq<Read>)
    requires IsRate(half) && IsPos(f, p) && 0 < m <= 0x3F && Listened(l, f, p, x, before)
    requires TagBits(f, x, rot) && Ordinary(x)
    ensures var (n, tags) := TakeBiphase(BiphaseRun(l, Played(f, half, p, m), half, 2 * half));
      Listened(n, f, PosAfter(f, p, m), x, before + tags)
  {
    hide IsRate, TagBits, Queue, BiphaseRun, Played, PosAfter, AllCaught, Ordinary, TakeBiphase, Toggles, OnTheBeat;
    BeatGoesOn(l, f, half, p, m);
    var o, p' := BiphaseRun(l, Played(f, half, p, m), half, 2 * half).line, PosAfter(f, p, m);
    assert Queue(o)[0] == Queue(o)[..|Queue(l)|][0];
    TakeOnTheBeat(o, f, p', x, rot);
    assert before + [] == before;
  }

  lemma {:induction false} TracksAll(l: Line, f: Bits, half: nat, mid: bool, ms: seq<nat>, x: Sender, rot: nat)
    requires IsRate(half) && IsPos(f, Pos(0, mid)) && Fresh(l) && TagBits(f, x, rot) && Ordinary(x)
    requires |ms| > 0 && FirstDecoded(f, half, mid, ms[0], 0x3F) && Packets(ms[1..])
    ensures var (n, tags) := BiphaseAll(l, f, half, Pos(0, mid), ms);
      Listened(n, f, PosAfter(f, Pos(0, mid), Total(ms)), x, tags)
  {
    hide IsRate, TagBits, TakeBiphase, BiphaseRun, Played, PosAfter, FirstDecoded, ManchesterAll, BiphaseAll, Listened, Ordinary;
    var p, k := Pos(0, mid), |ms| - 1;
    var init, m := ms[..k], ms[k];
    assert init + [m] == ms;
    AllNext(l, f, half, p, init, m);
    if k == 0 {
      FirstListened(l, f, half, mid, m, x, rot);
      OneMerged(l, f, half, p, m);
    } else {
      assert ms[1..][..k - 1] == init[1..] && m == ms[1..][k - 1];
      TracksAll(l, f, half, mid, init, x, rot);
      TotalNext(init, m);
      PlayedInParts(f, half, p, Total(init), m);
      var (n, tags) := BiphaseAll(l, f, half, p, init);
      NextListened(n, f, half, PosAfter(f, p, Total(init)), m, x, rot, tags);
    }
  }
}
