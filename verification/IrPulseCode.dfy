/** Pulse coded codes, whose ones have the longer pulses, survive sending and decoding. */
module IrPulseCode {
  // The half-bit loop sees the same as in a space code, with pulses and spaces exchanged, so what is proved about
  // it there is used here.

  import opened IrCode
  import opened IrDecoder
  import IrSpaceCode

  /** One space width throughout, and a one has the longer pulse. */
  ghost predicate PulseTimings(info: CodeInfo) {
    && info.encoding == Pulse && info.header0 == 0
    && info.one1 == info.zero1 > 0 && info.one0 > info.zero0 > 0
  }

  /** What is sent: the marks without the last space. */
  function PulseTimes(info: CodeInfo, bits: seq<bool>): (t: seq<nat>)
    requires |bits| > 0
    ensures |t| == 2 * |bits| - 1
  {
    Marks(info, bits)[..2 * |bits| - 1]
  }

  /** The space code with pulses and spaces exchanged. */
  function Exchanged(info: CodeInfo): CodeInfo {
    info.(encoding := Space, header0 := 0, one0 := info.one1, zero0 := info.one1, trail := info.one1,
          one1 := info.one0, zero1 := info.zero0)
  }

  lemma ExchangedTimings(info: CodeInfo)
    requires PulseTimings(info)
    ensures IrSpaceCode.SpaceTimings(Exchanged(info))
  {
  }

  function PulseOf(info: CodeInfo, b: bool): nat { if b then info.one0 else info.zero0 }

  lemma {:induction false} PulsesAt(info: CodeInfo, bits: seq<bool>, i: nat)
    requires PulseTimings(info) && i < |bits|
    ensures Marks(info, bits)[2 * i] == PulseOf(info, bits[i]) && Marks(info, bits)[2 * i + 1] == info.one1
  {
    if i < |bits| - 1 { PulsesAt(info, bits[..|bits| - 1], i); }
  }

  lemma {:induction false} MarksExchanged(info: CodeInfo, bits: seq<bool>)
    requires PulseTimings(info)
    ensures Marks(info, bits) == IrSpaceCode.Behind(Exchanged(info), bits)
  {
    if |bits| > 0 { MarksExchanged(info, bits[..|bits| - 1]); }
  }

  // ---- the lengths ----------------------------------------------------------------

  ghost predicate Lengthy(t: Tally, info: CodeInfo, bits: seq<bool>) {
    && t.Tally? && IrSpaceCode.Spaces(t.highs, Exchanged(info), bits)
    && t.lows == IrSpaceCode.Pulses(Exchanged(info), |bits| > 0)
  }

  lemma {:induction false} TallyPulses(info: CodeInfo, bits: seq<bool>)
    requires PulseTimings(info)
    ensures Lengthy(TallyOf(Marks(info, bits)), info, bits)
  {
    hide Noted, SlotFor, IrSpaceCode.Spaces, TallyOf, Marks;
    ExchangedTimings(info);
    if |bits| == 0 {
      NothingTallied(info, bits);
    } else {
      var k := |bits| - 1;
      var init, b, m := bits[..k], bits[k], Marks(info, bits[..k]);
      TallyPulses(info, init);
      var t := TallyOf(m);
      IrSpaceCode.NotedSpace(t.highs, Exchanged(info), init, b);
      IrSpaceCode.NotedPulse(Exchanged(info));
      assert init + [b] == bits;
      LastMark(info, bits);
      IrSpaceCode.TallyPair(m, PulseOf(info, b), info.one1);
    }
  }

  lemma LastMark(info: CodeInfo, bits: seq<bool>)
    requires PulseTimings(info) && |bits| > 0
    ensures Marks(info, bits) == Marks(info, bits[..|bits| - 1]) + [PulseOf(info, bits[|bits| - 1]), info.one1]
  {
  }

  lemma NothingTallied(info: CodeInfo, bits: seq<bool>)
    requires |bits| == 0
    ensures Lengthy(TallyOf(Marks(info, bits)), info, bits)
  {
  }

  function PulseLengths(info: CodeInfo): (l: Lengths)
    ensures Slots(l)
  {
    Lengths([info.zero0, info.one0, 0, 0, 0], 2)
  }

  function SpaceLengths(info: CodeInfo): (l: Lengths)
    ensures Slots(l)
  {
    Lengths([info.one1, 0, 0, 0, 0], 1)
  }

  // Without the last space, for any code.
  lemma TallySent(info: CodeInfo, bits: seq<bool>)
    requires PulseTimings(info) && |bits| > 0
    ensures var t := TallyOf(PulseTimes(info, bits));
      && t.Tally? && IrSpaceCode.Spaces(t.highs, Exchanged(info), bits)
      && t.lows == IrSpaceCode.Pulses(Exchanged(info), |bits| > 1)
  {
    hide Noted, SlotFor, IrSpaceCode.Spaces, TallyOf, Marks;
    var init, b := bits[..|bits| - 1], bits[|bits| - 1];
    ExchangedTimings(info);
    TallyPulses(info, init);
    LastMark(info, bits);
    var m := Marks(info, init);
    IrSpaceCode.NotedSpace(TallyOf(m).highs, Exchanged(info), init, b);
    assert init + [b] == bits;
    IrSpaceCode.TallyPulse(m, PulseOf(info, b));
    assert PulseTimes(info, bits) == m + [PulseOf(info, b)];
  }

  lemma PulseCodeSorted(info: CodeInfo, bits: seq<bool>, rx: CodeInfo)
    requires PulseTimings(info) && true in bits && false in bits
    ensures Decode(PulseTimes(info, bits), 16, rx)
         == DecodeSorted(PulseTimes(info, bits), PulseLengths(info), SpaceLengths(info), 16, rx)
  {
    hide TallyOf, Passes, PulseTimes, DecodeSorted;
    TallySent(info, bits);
    IrSpaceCode.BothOccur(bits);
    PassesOrder(info.one1, 0, PASSES);
    PassesOrder(PulseOf(info, bits[0]), PulseOf(info, !bits[0]), PASSES);
    SentLength(info, bits);
  }

  lemma SentLength(info: CodeInfo, bits: seq<bool>)
    requires |bits| > 0
    ensures |PulseTimes(info, bits)| == 2 * |bits| - 1
  {
  }

  // ---- taken for a pulse code -----------------------------------------------------

  function PulseInfo(info: CodeInfo, rx: CodeInfo): CodeInfo {
    rx.(one0 := info.one0, one1 := info.one1, zero0 := info.zero0, zero1 := info.zero1, encoding := Pulse)
  }

  lemma PulsesMatch(info: CodeInfo, bits: seq<bool>)
    requires PulseTimings(info) && |bits| > 0
    ensures Matches(PulseTimes(info, bits), 0, |bits|, info.one0) == bits
  {
    hide Marks;
    var data := PulseTimes(info, bits);
    forall i | 0 <= i < |bits| ensures data[2 * i] == PulseOf(info, bits[i]) {
      PulsesAt(info, bits, i);
      assert data[2 * i] == Marks(info, bits)[2 * i];
    }
  }

  lemma TakenAsPulse(info: CodeInfo, bits: seq<bool>, timed: CodeInfo, rx: CodeInfo)
    requires PulseTimings(info) && PulseInfo(info, timed) == PulseInfo(info, rx) && |bits| > 0
    ensures NotBiphaseData(PulseTimes(info, bits), PulseLengths(info), SpaceLengths(info), 16, timed)
         == FromBits(bits, 16, PulseInfo(info, rx))
  {
    hide PulseTimes, Matches, FromBits;
    SentLength(info, bits);
    PulsesMatch(info, bits);
  }

  /** With lengths unlike biphase, a code with both kinds of bits comes back bit for bit, with its timings, when it
      has 4 to 128 bits. A shorter one is refused; a longer one is refused too, unless a one lies behind the end of
      the buffer. */
  lemma PulseRoundTrip(info: CodeInfo, bits: seq<bool>, rx: CodeInfo)
    requires PulseTimings(info) && !IrSpaceCode.LikeBiphase(Exchanged(info)) && true in bits && false in bits
    ensures Decode(PulseTimes(info, bits), 16, rx)
         == if 4 <= |bits| <= MAX_BITS then
              Decoded.Decoded(CodeBytes(bits), PulseInfo(info, rx).(bitCount := |bits|))
            else if exists i :: MAX_BITS <= i < |bits| && bits[i] then OutOfBounds
            else Failed
  {
    PulseCodeSorted(info, bits, rx);
    assert !BiphaseShape(PulseLengths(info), SpaceLengths(info)) by { NearBothWays(info.zero0, info.one1); }
    hide PulseTimes, CodeBytes, FromBits, NotBiphaseData, BiphaseShape, Decode, PulseTimings, IrSpaceCode.LikeBiphase;
    TakenAsPulse(info, bits, rx, rx);
    IrSpaceCode.BitsComeBack(bits, PulseInfo(info, rx));
  }

  lemma NearBothWays(a: nat, b: nat)
    ensures Near(a, b, 3) == Near(b, a, 3)
  {
  }

  // ---- lengths like those of a biphase code ---------------------------------------

  // A one is too long for the first half of a bit.
  lemma LongIsFar(info: CodeInfo)
    requires IrSpaceCode.SpaceTimings(info) && IrSpaceCode.LikeBiphase(info)
    ensures Far(info.one1, IrSpaceCode.ShortTime(info), 3)
  {
  }

  // The first double time is a pulse.
  lemma {:induction false} FirstDoubleIsPulse(info: CodeInfo, bits: seq<bool>, i: nat)
    requires PulseTimings(info) && |bits| > 0 && i <= 2 * |bits| - 1
    requires IrSpaceCode.LikeBiphase(Exchanged(info))
    ensures StartSpace(PulseTimes(info, bits), IrSpaceCode.ShortTime(Exchanged(info)), i)
    decreases 2 * |bits| - 1 - i
  {
    hide Marks, Near, IrSpaceCode.ShortTime;
    ExchangedTimings(info);
    IrSpaceCode.LengthsLikeBiphase(Exchanged(info));
    var data := PulseTimes(info, bits);
    if i < |data| {
      PulsesAt(info, bits, i / 2);
      assert data[i] == Marks(info, bits)[i];
      FirstDoubleIsPulse(info, bits, i + 1);
    }
  }

  // The last space, which is not sent, would not make the machine give up.
  lemma WithoutLastSpace(info: CodeInfo, bits: seq<bool>)
    requires PulseTimings(info) && |bits| > 0 && IrSpaceCode.LikeBiphase(Exchanged(info))
    ensures var p := IrSpaceCode.ShortTime(Exchanged(info));
      Drive(Start(), PulseTimes(info, bits), p).NotBiphase? <==> Drive(Start(), Marks(info, bits), p).NotBiphase?
  {
    hide Near, IrSpaceCode.ShortTime, Marks;
    ExchangedTimings(info);
    IrSpaceCode.LengthsLikeBiphase(Exchanged(info));
    PulsesAt(info, bits, |bits| - 1);
    assert Marks(info, bits)[..|Marks(info, bits)| - 1] == PulseTimes(info, bits);
  }

  lemma MachineDecides(info: CodeInfo, bits: seq<bool>)
    requires PulseTimings(info) && |bits| > 0 && IrSpaceCode.LikeBiphase(Exchanged(info))
    ensures BiphaseData(PulseTimes(info, bits), IrSpaceCode.ShortTime(Exchanged(info))).NotBiphase?
       <==> IrSpaceCode.NotReadAsBiphase(Exchanged(info), bits)
  {
    hide Near, IrSpaceCode.ShortTime, IrSpaceCode.Driven, Drive, StartSpace, IrSpaceCode.LikeBiphase, IrSpaceCode.SpaceTimings,
      PulseTimings, Marks, PulseTimes, Exchanged, IrSpaceCode.LongOne;
    var e := Exchanged(info);
    ExchangedTimings(info);
    FirstDoubleIsPulse(info, bits, 0);
    MarksExchanged(info, bits);
    WithoutLastSpace(info, bits);
    var m := Drive(Start(), IrSpaceCode.Behind(e, bits), IrSpaceCode.ShortTime(e));
    if IrSpaceCode.LongOne(e, false) {
      OneKindOfLong(e);
      IrSpaceCode.DrivenAll(e, bits, false);
      IrSpaceCode.DrivenMeans(m, bits, false);
    } else if IrSpaceCode.LongOne(e, true) {
      IrSpaceCode.DrivenAll(e, bits, true);
      IrSpaceCode.DrivenMeans(m, bits, true);
    } else {
      IrSpaceCode.NeverGivesUp(e, bits);
    }
  }

  lemma OneKindOfLong(info: CodeInfo)
    ensures !(IrSpaceCode.LongOne(info, false) && IrSpaceCode.LongOne(info, true))
  {
  }

  // ---- exactly which codes come back ----------------------------------------------

  ghost predicate ComesBack(info: CodeInfo, bits: seq<bool>, rx: CodeInfo)
    requires |bits| > 0
  {
    Decode(PulseTimes(info, bits), 16, rx) == Decoded.Decoded(CodeBytes(bits), PulseInfo(info, rx).(bitCount := |bits|))
  }

  lemma OneLength(data: seq<nat>, h: Lengths, l: Lengths, info: CodeInfo)
    requires Slots(h) && Slots(l) && |data| > 0 && h.count == 1 && l.count == 1
    ensures var r := DecodeSorted(data, h, l, 16, info); r.Decoded? ==> r.info.encoding != Pulse
  {
    hide BiphaseShape, Rc6Shape, Near, Far, BiphaseData, CodeBytes;
  }

  lemma OneKind(info: CodeInfo, bits: seq<bool>, rx: CodeInfo)
    requires PulseTimings(info) && |bits| > 0 && !(true in bits && false in bits)
    ensures !ComesBack(info, bits, rx)
  {
    hide TallyOf, CodeBytes, DecodeSorted, Passes, PulseTimes;
    TallySent(info, bits);
    SentLength(info, bits);
    var t := TallyOf(PulseTimes(info, bits));
    forall i | 0 <= i < |bits| ensures bits[i] == bits[0] { assert bits[i] in bits && bits[0] in bits; }
    assert bits == seq(|bits|, i => bits[0]);
    if |bits| > 1 { OneLength(PulseTimes(info, bits), Sorted(t.highs), Sorted(t.lows), rx); }
  }

  /** Whatever the lengths, exactly these codes come back: both kinds of bits, 4 to 128 of them, and a one in front or
      not read as biphase. */
  lemma ComesBackIff(info: CodeInfo, bits: seq<bool>, rx: CodeInfo)
    requires PulseTimings(info) && |bits| > 0
    ensures ComesBack(info, bits, rx)
       <==> true in bits && false in bits && 4 <= |bits| <= MAX_BITS
            && (bits[0] || IrSpaceCode.NotReadAsBiphase(Exchanged(info), bits))
  {
    hide PulseTimes, CodeBytes, Decode, PulseTimings, IrSpaceCode.LikeBiphase, IrSpaceCode.LongOne, IrSpaceCode.GivesUp;
    if !(true in bits && false in bits) {
      OneKind(info, bits, rx);
    } else if !IrSpaceCode.LikeBiphase(Exchanged(info)) {
      PulseRoundTrip(info, bits, rx);
    } else {
      ReadByMachine(info, bits, rx);
    }
  }

  lemma MachineOrNot(data: seq<nat>, h: Lengths, l: Lengths, p: nat, rx: CodeInfo)
    requires Slots(h) && Slots(l) && |data| > 0 && BiphaseShape(h, l) && ShortPulse(h.times[0], l.times[0]) == p
    ensures var r := DecodeSorted(data, h, l, 16, rx);
      if Far(data[0], p, 3) || BiphaseData(data, p).NotBiphase? then
        r == NotBiphaseData(data, h, l, 16, rx.(one0 := p, one1 := p, zero0 := p, zero1 := p))
      else r.Decoded? ==> r.info.encoding != Pulse
  {
    hide Near, Far, BiphaseData, BiphaseShape, Rc6Shape, CodeBytes, NotBiphaseData;
  }

  lemma FirstTime(info: CodeInfo, bits: seq<bool>)
    requires PulseTimings(info) && |bits| > 0 && IrSpaceCode.LikeBiphase(Exchanged(info))
    ensures Far(PulseTimes(info, bits)[0], IrSpaceCode.ShortTime(Exchanged(info)), 3) <==> bits[0]
  {
    ExchangedTimings(info);
    LongIsFar(Exchanged(info));
    ShortIsNotFar(Exchanged(info));
    PulsesAt(info, bits, 0);
    hide Far, IrSpaceCode.ShortTime, Near;
    assert PulseTimes(info, bits)[0] == Marks(info, bits)[0];
  }

  lemma ShortIsNotFar(info: CodeInfo)
    requires IrSpaceCode.SpaceTimings(info) && IrSpaceCode.LikeBiphase(info)
    ensures !Far(info.zero1, IrSpaceCode.ShortTime(info), 3)
  {
  }

  lemma ShapeOfPulses(info: CodeInfo)
    requires PulseTimings(info) && IrSpaceCode.LikeBiphase(Exchanged(info))
    ensures BiphaseShape(PulseLengths(info), SpaceLengths(info))
    ensures ShortPulse(info.zero0, info.one1) == IrSpaceCode.ShortTime(Exchanged(info))
  {
    NearBothWays(info.zero0, info.one1);
  }

  lemma ReadByMachine(info: CodeInfo, bits: seq<bool>, rx: CodeInfo)
    requires PulseTimings(info) && IrSpaceCode.LikeBiphase(Exchanged(info)) && true in bits && false in bits
    ensures ComesBack(info, bits, rx)
       <==> 4 <= |bits| <= MAX_BITS && (bits[0] || IrSpaceCode.NotReadAsBiphase(Exchanged(info), bits))
  {
    var data, p := PulseTimes(info, bits), IrSpaceCode.ShortTime(Exchanged(info));
    PulseCodeSorted(info, bits, rx);
    ShapeOfPulses(info);
    hide CodeBytes, BiphaseData, Near, Far, FromBits, IrSpaceCode.NotReadAsBiphase, IrSpaceCode.ShortTime, BiphaseShape, Decode,
      DecodeSorted, NotBiphaseData, IrSpaceCode.LikeBiphase, PulseTimes, PulseTimings, Exchanged;
    FirstTime(info, bits);
    MachineDecides(info, bits);
    MachineOrNot(data, PulseLengths(info), SpaceLengths(info), p, rx);
    TakenAsPulse(info, bits, rx.(one0 := p, one1 := p, zero0 := p, zero1 := p), rx);
    IrSpaceCode.BitsComeBack(bits, PulseInfo(info, rx));
  }
}
