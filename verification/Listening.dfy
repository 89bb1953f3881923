/** From the bytes of the device to tags. */
module Listening {
  // The device times every pulse and sends its level in the top bit of a byte and half its length in clocks in the
  // other seven. Lengths are not exact: those within a tolerance of a nominal length count as that one.

  import opened Pulses
  import opened Stream
  import opened Analysis
  import opened Feeding
  import opened Reader
  import Tracking
  import opened BiphaseTracking
  import opened CrossTalk
  import opened TagReads
  import PhidgetsTag

  // ---- one byte -------------------------------------------------------------------

  /** The measured lengths that count as a nominal one. */
  predicate Within(nominal: nat, clocks: nat) {
    || (nominal == 16 && 16 - 6 <= clocks <= 16 + 6)
    || (nominal == 32 && 32 - 6 <= clocks <= 32 + 8)
    || (nominal == 48 && 48 - 6 <= clocks <= 48 + 6)
    || (nominal == 64 && 64 - 8 <= clocks <= 64 + 8)
    || (nominal == 128 && 128 - 8 <= clocks <= 128 + 8)
  }

  /** What the device sends for a pulse of so many clocks, an even number. */
  function Sent(level: bool, clocks: nat): (b: nat) { (if level then 0x80 else 0) + clocks / 2 }

  ghost predicate SentFor(b: nat, level: bool, nominal: nat) {
    exists clocks: nat :: Within(nominal, clocks) && clocks % 2 == 0 && b == Sent(level, clocks)
  }

  /** A byte is taken for a pulse exactly when the device sends it for one of that level and nominal length; all other
      bytes are pauses. */
  lemma ByteIsPulseIff(b: nat, level: bool, nominal: nat)
    requires b < 256
    ensures Classify(b) == Edge(level, nominal) <==> SentFor(b, level, nominal)
    ensures Classify(b) == Space <==> forall l, n :: !SentFor(b, l, n)
  {
    var l, c := b >= 128, 2 * (b % 128);
    assert b == Sent(l, c) && c % 2 == 0;
    forall k, n | SentFor(b, k, n) ensures Classify(b) == Edge(k, n) {
      var clocks: nat :| Within(n, clocks) && clocks % 2 == 0 && b == Sent(k, clocks);
      assert k == l && clocks == c;
    }
    if Classify(b).Edge? {
      assert Within(Classify(b).clocks, c);
      assert SentFor(b, l, Classify(b).clocks);
    }
  }

  // ---- packets --------------------------------------------------------------------

  /** The bytes for a list of pulses, every length anywhere in its tolerance. */
  ghost predicate Transmits(bytes: seq<nat>, pulses: seq<Pulse>) {
    |bytes| == |pulses| && forall i :: 0 <= i < |bytes| ==>
      bytes[i] < 256 && pulses[i].Edge? && SentFor(bytes[i], pulses[i].polarity, pulses[i].clocks)
  }

  lemma TransmitsClassified(bytes: seq<nat>, pulses: seq<Pulse>)
    requires Transmits(bytes, pulses)
    ensures (forall i :: 0 <= i < |bytes| ==> bytes[i] < 256) && Classified(bytes) == pulses
  {
    hide Classify, SentFor;
    forall i | 0 <= i < |bytes| ensures Classified(bytes)[i] == pulses[i] {
      ByteIsPulseIff(bytes[i], pulses[i].polarity, pulses[i].clocks);
    }
  }

  function Count(packets: seq<seq<nat>>): (n: nat) {
    if |packets| == 0 then 0 else Count(packets[..|packets| - 1]) + |packets[|packets| - 1]|
  }

  /** Packets of at most 63 bytes that carry the pulses of a stream. */
  ghost predicate Carries(packets: seq<seq<nat>>, f: Bits, half: nat, p: Pos)
    requires IsRate(half) && IsPos(f, p)
  {
    |packets| > 0 ==>
      var init, last := packets[..|packets| - 1], packets[|packets| - 1];
      && Carries(init, f, half, p) && |last| <= 0x3F
      && Transmits(last, Played(f, half, PosAfter(f, p, Count(init)), |last|))
  }

  ghost predicate Bytes(packets: seq<seq<nat>>) {
    forall k :: 0 <= k < |packets| ==> |packets[k]| <= 0x3F && forall i :: 0 <= i < |packets[k]| ==> packets[k][i] < 256
  }

  /** What comes of packets that are handed to dataInput one after the other. */
  ghost function Fed(st: State, packets: seq<seq<nat>>): (r: (State, seq<Read>))
    requires Bytes(packets)
  {
    if |packets| == 0 then (st, [])
    else
      var (t, tags) := Fed(st, packets[..|packets| - 1]);
      var last := packets[|packets| - 1];
      if |last| == 0 then (t, tags)
      else
        var (u, more) := Feed(t, Classified(last));
        (u, tags + more)
  }

  method Listen(reader: RfidReader, packets: seq<seq<nat>>) returns (tags: seq<Read>)
    requires reader.Valid() && Bytes(packets)
    modifies reader, reader.dataBuffer, reader.manBuffer, reader.biphaseBuffer
    ensures reader.Valid() && (reader.Holds(), tags) == Fed(old(reader.Holds()), packets)
  {
    hide Feed, RfidReader.Holds;
    ghost var st := reader.Holds();
    tags := [];
    for k := 0 to |packets|
      invariant reader.Valid() && (reader.Holds(), tags) == Fed(st, packets[..k])
    {
      assert packets[..k + 1][..k] == packets[..k];
      ghost var before := tags;
      var more := reader.DataInput(packets[k]);
      tags := tags + more;
      assert before + [] == before;
    }
    assert packets[..|packets|] == packets;
  }

  // ---- the same in pulses ---------------------------------------------------------

  /** The sizes of the packets that are not empty. */
  function Sizes(packets: seq<seq<nat>>): (ms: seq<nat>) {
    if |packets| == 0 then []
    else Sizes(packets[..|packets| - 1]) + if packets[|packets| - 1] == [] then [] else [|packets[|packets| - 1]|]
  }

  lemma {:induction false} FedIsFeedAll(st: State, packets: seq<seq<nat>>, f: Bits, half: nat, p: Pos)
    requires IsRate(half) && IsPos(f, p) && Carries(packets, f, half, p)
    ensures Bytes(packets) && Packets(Sizes(packets)) && Total(Sizes(packets)) == Count(packets)
    ensures Fed(st, packets) == FeedAll(st, f, half, p, Sizes(packets))
  {
    hide Feed, Played, PosAfter, FeedAll, Transmits;
    if |packets| == 0 {
      NothingFed(st, f, half, p);
    } else {
      var init, last := packets[..|packets| - 1], packets[|packets| - 1];
      FedIsFeedAll(st, init, f, half, p);
      TransmitsClassified(last, Played(f, half, PosAfter(f, p, Count(init)), |last|));
      FeedAllNext(st, f, half, p, Sizes(init), |last|);
      if last == [] { assert Sizes(init) + [] == Sizes(init); }
    }
  }

  lemma NothingFed(st: State, f: Bits, half: nat, p: Pos)
    requires IsRate(half) && IsPos(f, p)
    ensures FeedAll(st, f, half, p, []) == (st, [])
  {
  }

  // ---- the three tag types --------------------------------------------------------

  /** How many bits of the stream the packets bring. */
  ghost function Brought(packets: seq<seq<nat>>, f: Bits, mid: bool): (n: nat)
    requires IsPos(f, Pos(0, mid))
  {
    PosAfter(f, Pos(0, mid), Count(packets)).n
  }

  /** Of the bytes of a repeated EM4100 frame, the reader reports that tag and nothing else. */
  lemma HearsEM4100(st: State, packets: seq<seq<nat>>, f: Bits, half: nat, mid: bool, s: string, rot: nat)
    requires IsRate(half) && IsPos(f, Pos(0, mid)) && Tracking.TagStream(f, s, rot) && Carries(packets, f, half, Pos(0, mid)) && Start(st)
    ensures Bytes(packets)
    ensures var tags := Fed(st, packets).1;
      Tracking.OnlyTag(tags, s) && (Brought(packets, f, mid) >= 191 ==> tags != [])
  {
    hide IsRate, Tracking.TagStream, Tracking.OnlyTag, FeedAll, Fed, Carries, PosAfter;
    FedIsFeedAll(st, packets, f, half, Pos(0, mid));
    Tracking.ReadsExactlyTheTag(st, f, half, mid, Sizes(packets), s, rot);
  }

  /** Of the bytes of a repeated FDX-B or PhidgetsTAG frame it reports that tag and no other exactly when the frame is
      not an FDX-B frame besides and its levels hold no EM4100 frame. */
  lemma HearsBiphaseTag(st: State, packets: seq<seq<nat>>, f: Bits, half: nat, mid: bool, x: Sender, rot: nat)
    requires IsRate(half) && IsPos(f, Pos(0, mid)) && TagBits(f, x, rot) && Carries(packets, f, half, Pos(0, mid)) && Start(st)
    ensures Bytes(packets)
    ensures var tags := Fed(st, packets).1;
      && (Ordinary(x) && !FrameInside(f, x) ==> AllOf(tags, x))
      && (Brought(packets, f, mid) >= 5 * Period(x) ==>
            tags != [] && (AllOf(tags, x) <==> Ordinary(x) && !FrameInside(f, x)))
  {
    assert Sendable(x);
    hide IsRate, TagBits, Sendable, FeedAll, Fed, Carries, FrameInside, PosAfter, AllOf, LooksLikeFdx, PhidgetsTag.TextData,
      PhidgetsTag.TagText;
    FedIsFeedAll(st, packets, f, half, Pos(0, mid));
    ReadsOnlyTheTagIff(st, f, half, mid, Sizes(packets), x, rot);
  }

  /** Of the bytes of any stream it reports an EM4100 tag exactly when the levels hold an EM4100 frame, and first the tag
      of the first one. */
  lemma HearsFrames(st: State, packets: seq<seq<nat>>, f: Bits, half: nat, mid: bool)
    requires IsRate(half) && IsPos(f, Pos(0, mid)) && Lively(f, half, mid) && Carries(packets, f, half, Pos(0, mid)) && Start(st)
    ensures Bytes(packets)
    ensures var tags := Fed(st, packets).1;
      && (SomeEM4100(tags) <==> FrameHeard(f, Brought(packets, f, mid)))
      && (SomeEM4100(tags) ==> Only(tags, true) != [] && SaidFirst(f, Only(tags, true)[0]))
  {
    hide IsRate, FeedAll, Fed, Carries, SomeEM4100, FrameHeard, SaidFirst, Only, PosAfter, Lively;
    FedIsFeedAll(st, packets, f, half, Pos(0, mid));
    ReadsEM4100IffHeard(st, f, half, mid, Sizes(packets));
  }

  /** Such bytes exist for every stream and every split into packets. */
  lemma {:induction false} CanBeSent(f: Bits, half: nat, p: Pos, ms: seq<nat>) returns (packets: seq<seq<nat>>)
    requires IsRate(half) && IsPos(f, p) && Sized(ms, 0, 0x3F)
    ensures Carries(packets, f, half, p) && |packets| == |ms| && forall k :: 0 <= k < |ms| ==> |packets[k]| == ms[k]
  {
    hide Played, PosAfter, Transmits, IsRate;
    if |ms| == 0 {
      packets := [];
    } else {
      var init, m := ms[..|ms| - 1], ms[|ms| - 1];
      var before := CanBeSent(f, half, p, init);
      var last := Exactly(f, half, PosAfter(f, p, Count(before)), m);
      packets := before + [last];
      assert packets[..|packets| - 1] == before;
    }
  }

  lemma {:induction false} Exactly(f: Bits, half: nat, p: Pos, m: nat) returns (bytes: seq<nat>)
    requires IsRate(half) && IsPos(f, p)
    ensures Transmits(bytes, Played(f, half, p, m))
  {
    if m == 0 {
      bytes := [];
    } else {
      var init := Exactly(f, half, p, m - 1);
      var pulse := NextPulse(f, half, PosAfter(f, p, m - 1));
      assert Within(pulse.clocks, pulse.clocks) && SentFor(Sent(pulse.polarity, pulse.clocks), pulse.polarity, pulse.clocks);
      bytes := init + [Sent(pulse.polarity, pulse.clocks)];
    }
  }

  // ---- a reader that was just attached --------------------------------------------

  method ReadEM4100(packets: seq<seq<nat>>, ghost f: Bits, ghost half: nat, ghost mid: bool, ghost s: string, ghost rot: nat)
    returns (tags: seq<Read>)
    requires IsRate(half) && IsPos(f, Pos(0, mid)) && Tracking.TagStream(f, s, rot) && Carries(packets, f, half, Pos(0, mid))
    ensures Tracking.OnlyTag(tags, s) && (Brought(packets, f, mid) >= 191 ==> tags != [])
  {
    hide IsRate, Tracking.TagStream, Tracking.OnlyTag, Fed, Carries, PosAfter, RfidReader.Holds;
    var reader := new RfidReader();
    ghost var st := reader.Holds();
    assert Start(st) by { HoldsWhat(reader); }
    HearsEM4100(st, packets, f, half, mid, s, rot);
    tags := Listen(reader, packets);
  }

  method ReadBiphaseTag(packets: seq<seq<nat>>, ghost f: Bits, ghost half: nat, ghost mid: bool, ghost x: Sender, ghost rot: nat)
    returns (tags: seq<Read>)
    requires IsRate(half) && IsPos(f, Pos(0, mid)) && TagBits(f, x, rot) && Carries(packets, f, half, Pos(0, mid))
    ensures Sendable(x) && (Ordinary(x) && !FrameInside(f, x) ==> AllOf(tags, x))
    ensures Brought(packets, f, mid) >= 5 * Period(x) ==> tags != [] && (AllOf(tags, x) <==> Ordinary(x) && !FrameInside(f, x))
  {
    assert Sendable(x);
    hide IsRate, TagBits, Sendable, Fed, Carries, FrameInside, PosAfter, AllOf, Ordinary, RfidReader.Holds;
    var reader := new RfidReader();
    ghost var st := reader.Holds();
    assert Start(st) by { HoldsWhat(reader); }
    HearsBiphaseTag(st, packets, f, half, mid, x, rot);
    tags := Listen(reader, packets);
  }

  lemma HoldsWhat(reader: RfidReader)
    requires reader.Valid()
    ensures var s := reader.Holds();
      && s.shortClocks == reader.shortClocks && s.longClocks == reader.longClocks
      && s.man == reader.Man() && s.biphase == reader.Biphase()
  {
  }
}
