/** Space coded codes, as most remote controls send them, survive sending and decoding. */
module IrSpaceCode {
  import opened IrCode
  import opened IrDecoder

  /** One pulse width throughout, and a one has the longer space. */
  ghost predicate SpaceTimings(info: CodeInfo) {
    && info.encoding == Space && info.header0 == 0
    && info.one0 == info.zero0 == info.trail > 0 && info.one1 > info.zero1 > 0
  }

  /** The lengths are those of a biphase code. */
  ghost predicate LikeBiphase(info: CodeInfo) { Near(info.one0, info.zero1, 3) && Near(info.one1, 2 * info.zero1, 1) }

  lemma {:induction false} MarksAt(info: CodeInfo, bits: seq<bool>, i: nat)
    requires SpaceTimings(info) && i < |bits|
    ensures Marks(info, bits)[2 * i] == info.one0
    ensures Marks(info, bits)[2 * i + 1] == if bits[i] then info.one1 else info.zero1
  {
    if i < |bits| - 1 { MarksAt(info, bits[..|bits| - 1], i); }
  }

  function SpaceOf(info: CodeInfo, b: bool): nat { if b then info.one1 else info.zero1 }

  ghost predicate Spaces(l: Lengths, info: CodeInfo, bits: seq<bool>) {
    if |bits| == 0 then l == NONE
    else if bits == seq(|bits|, i => bits[0]) then l == Lengths([SpaceOf(info, bits[0]), 0, 0, 0, 0], 1)
    else l == Lengths([SpaceOf(info, bits[0]), SpaceOf(info, !bits[0]), 0, 0, 0], 2)
  }

  lemma NotedSpace(l: Lengths, info: CodeInfo, bits: seq<bool>, b: bool)
    requires SpaceTimings(info) && Spaces(l, info, bits)
    ensures Slots(l) && SlotFor(l.times, SpaceOf(info, b), 0) < 4
    ensures Spaces(Noted(l, SpaceOf(info, b)), info, bits + [b])
  {
    var e := bits + [b];
    if |bits| > 0 && bits == seq(|bits|, i => bits[0]) {
      if b == bits[0] {
        assert e == seq(|e|, i => e[0]);
      } else {
        assert e[|bits|] != e[0];
      }
    } else if |bits| > 0 {
      var i :| 0 <= i < |bits| && bits[i] != bits[0];
      assert e[i] != e[0];
    } else {
      assert e == seq(1, i => e[0]);
    }
  }

  lemma NotedPulse(info: CodeInfo)
    requires SpaceTimings(info)
    ensures var one := Lengths([info.one0, 0, 0, 0, 0], 1);
      && SlotFor(NONE.times, info.one0, 0) < 4 && Noted(NONE, info.one0) == one
      && SlotFor(one.times, info.one0, 0) < 4 && Noted(one, info.one0) == one
  {
  }

  function Pulses(info: CodeInfo, any: bool): Lengths { if any then Lengths([info.one0, 0, 0, 0, 0], 1) else NONE }

  lemma {:induction false} TallyMarks(info: CodeInfo, bits: seq<bool>)
    requires SpaceTimings(info)
    ensures var t := TallyOf(Marks(info, bits));
      t.Tally? && t.highs == Pulses(info, |bits| > 0) && Spaces(t.lows, info, bits)
  {
    hide Noted, SlotFor, Spaces, TallyOf;
    if |bits| == 0 {
      NothingTallied(info, bits);
    } else {
      var k := |bits| - 1;
      var init, b, m := bits[..k], bits[k], Marks(info, bits[..k]);
      TallyMarks(info, init);
      NotedPulse(info);
      var t := TallyOf(m);
      NotedSpace(t.lows, info, init, b);
      assert init + [b] == bits;
      assert Marks(info, bits) == m + [info.one0, SpaceOf(info, b)];
      TallyPair(m, info.one0, SpaceOf(info, b));
    }
  }

  lemma NothingTallied(info: CodeInfo, bits: seq<bool>)
    requires |bits| == 0
    ensures var t := TallyOf(Marks(info, bits)); t == Tally(NONE, NONE) && Spaces(t.lows, info, bits)
  {
  }

  lemma TallyPair(m: seq<nat>, high: nat, low: nat)
    requires |m| % 2 == 0 && TallyOf(m).Tally?
    requires var t := TallyOf(m); SlotFor(t.highs.times, high, 0) < 4 && SlotFor(t.lows.times, low, 0) < 4
    ensures TallyOf(m + [high, low]) == Tally(Noted(TallyOf(m).highs, high), Noted(TallyOf(m).lows, low))
  {
    hide TallyOf, Noted, SlotFor;
    TallyPulse(m, high);
    TallySpace(m + [high], low);
    assert m + [high] + [low] == m + [high, low];
  }

  lemma TallySpace(m: seq<nat>, low: nat)
    requires |m| % 2 == 1 && TallyOf(m).Tally? && SlotFor(TallyOf(m).lows.times, low, 0) < 4
    ensures TallyOf(m + [low]) == Tally(TallyOf(m).highs, Noted(TallyOf(m).lows, low))
  {
    hide Noted, SlotFor;
    assert (m + [low])[..|m|] == m;
  }

  lemma TallyPulse(m: seq<nat>, high: nat)
    requires |m| % 2 == 0 && TallyOf(m).Tally? && SlotFor(TallyOf(m).highs.times, high, 0) < 4
    ensures TallyOf(m + [high]) == Tally(Noted(TallyOf(m).highs, high), TallyOf(m).lows)
  {
    hide Noted, SlotFor;
    assert (m + [high])[..|m|] == m;
  }

  /** The whole code: marks, then the trailing pulse. */
  lemma TallySpaceCode(info: CodeInfo, bits: seq<bool>)
    requires SpaceTimings(info) && true in bits && false in bits
    ensures var t := TallyOf(Marks(info, bits) + [info.trail]);
      && t.Tally?
      && Sorted(t.highs) == Lengths([info.one0, 0, 0, 0, 0], 1)
      && Sorted(t.lows) == Lengths([info.zero1, info.one1, 0, 0, 0], 2)
  {
    hide Noted, SlotFor, Passes, TallyOf, Near, Marks;
    var m := Marks(info, bits);
    TallyMarks(info, bits);
    NotedPulse(info);
    TallyPulse(m, info.trail);
    assert bits != seq(|bits|, i => bits[0]) by { BothOccur(bits); }
    PassesOrder(info.one0, 0, PASSES);
    PassesOrder(SpaceOf(info, bits[0]), SpaceOf(info, !bits[0]), PASSES);
  }

  lemma BothOccur(bits: seq<bool>)
    requires true in bits && false in bits
    ensures bits != seq(|bits|, i => bits[0])
  {
    var i :| 0 <= i < |bits| && bits[i];
    var j :| 0 <= j < |bits| && !bits[j];
  }

  /** With lengths unlike biphase, a code with both kinds of bits comes back bit for bit, with its timings, when it
      has 4 to 128 bits. A shorter one is refused; a longer one is refused too, unless a one lies behind the end of the buffer. */
  lemma SpaceRoundTrip(info: CodeInfo, bits: seq<bool>, rx: CodeInfo)
    requires SpaceTimings(info) && !LikeBiphase(info) && true in bits && false in bits
    ensures Decode(Marks(info, bits) + [info.trail], 16, rx)
         == if 4 <= |bits| <= MAX_BITS then
              Decoded.Decoded(CodeBytes(bits), SpaceInfo(info, rx).(bitCount := |bits|))
            else if exists i :: MAX_BITS <= i < |bits| && bits[i] then OutOfBounds
            else Failed
  {
    hide TallyOf, Sorted, Marks, CodeBytes, BiphaseData, ShortPulse, Near, Matches, FromBits;
    var data := Marks(info, bits) + [info.trail];
    TallySpaceCode(info, bits);
    var h, l := Lengths([info.one0, 0, 0, 0, 0], 1), Lengths([info.zero1, info.one1, 0, 0, 0], 2);
    assert !BiphaseShape(h, l) && !Rc6Shape(h, l);
    SpacesMatch(info, bits);
    assert NotBiphaseData(data, h, l, 16, rx) == FromBits(bits, 16, SpaceInfo(info, rx));
    BitsComeBack(bits, SpaceInfo(info, rx));
  }

  function SpaceInfo(info: CodeInfo, rx: CodeInfo): CodeInfo {
    rx.(one0 := info.one0, one1 := info.one1, zero0 := info.zero0, zero1 := info.zero1, trail := info.trail, encoding := Space)
  }

  lemma SpacesMatch(info: CodeInfo, bits: seq<bool>)
    requires SpaceTimings(info)
    ensures var data := Marks(info, bits) + [info.trail];
      |data| / 2 == |bits| && Matches(data, 1, |bits|, info.one1) == bits
  {
    hide Marks;
    var data := Marks(info, bits) + [info.trail];
    forall i | 0 <= i < |bits| ensures data[1 + 2 * i] == SpaceOf(info, bits[i]) {
      MarksAt(info, bits, i);
    }
  }

  lemma BitsComeBack(bits: seq<bool>, info: CodeInfo)
    ensures FromBits(bits, 16, info)
         == if 4 <= |bits| <= MAX_BITS then Decoded.Decoded(CodeBytes(bits), info.(bitCount := |bits|))
            else if exists i :: MAX_BITS <= i < |bits| && bits[i] then OutOfBounds
            else Failed
  {
    hide CodeBytes;
    var m := Filled(bits);
    if m.Running? && |bits| <= MAX_BITS { assert m.temp[..|bits|] == bits; }
  }

  // ---- lengths like those of a biphase code ---------------------------------------

  function ShortTime(info: CodeInfo): nat { (info.zero1 + info.one0 + 1) / 2 }

  // A short time is neither two nor three halves.
  lemma ShortTimes(info: CodeInfo)
    requires SpaceTimings(info) && LikeBiphase(info)
    ensures var p := ShortTime(info);
      && p > 0 && !Far(info.one0, p, 3) && !Near(info.one0, 2 * p, 3) && !Near(info.zero1, 2 * p, 3)
      && !Near(info.one0, 2 * p, 2) && !Near(info.zero1, 2 * p, 2)
      && !Near(info.one0, 3 * p, 2) && !Near(info.zero1, 3 * p, 2)
  {
  }

  lemma LongTime(info: CodeInfo)
    requires SpaceTimings(info) && LikeBiphase(info)
    ensures Near(info.one1, 2 * ShortTime(info), 3)
  {
  }

  lemma LengthsLikeBiphase(info: CodeInfo)
    requires SpaceTimings(info) && LikeBiphase(info)
    ensures var p := ShortTime(info);
      && ShortPulse(info.one0, info.zero1) == p > 0 && !Far(info.one0, p, 3)
      && !Near(info.one0, 2 * p, 3) && !Near(info.zero1, 2 * p, 3) && Near(info.one1, 2 * p, 3)
      && !Near(info.one0, 2 * p, 2) && !Near(info.zero1, 2 * p, 2)
      && !Near(info.one0, 3 * p, 2) && !Near(info.zero1, 3 * p, 2)
  {
    ShortTimes(info);
    LongTime(info);
    assert Near(info.zero1, info.one0, 3);
    hide Near, Far;
  }

  /** What is left of the times without the first pulse. */
  function Behind(info: CodeInfo, bits: seq<bool>): (t: seq<nat>)
    ensures |t| == 2 * |bits|
  {
    if |bits| == 0 then [] else Behind(info, bits[..|bits| - 1]) + [SpaceOf(info, bits[|bits| - 1]), info.one0]
  }

  lemma {:induction false} BehindFirst(info: CodeInfo, bits: seq<bool>)
    requires SpaceTimings(info)
    ensures Marks(info, bits) + [info.trail] == [info.one0] + Behind(info, bits)
  {
    if |bits| > 0 {
      var init, b := bits[..|bits| - 1], bits[|bits| - 1];
      BehindFirst(info, init);
      assert Marks(info, bits) + [info.trail] == (Marks(info, init) + [info.trail]) + [SpaceOf(info, b), info.one0];
    }
  }

  // The first double time is a space.
  lemma {:induction false} FirstDouble(info: CodeInfo, bits: seq<bool>, i: nat)
    requires SpaceTimings(info) && LikeBiphase(info) && i <= 2 * |bits| + 1
    requires forall j :: 0 <= j < |bits| && 2 * j + 1 < i ==> !bits[j]
    ensures StartSpace(Marks(info, bits) + [info.trail], ShortTime(info), i) ==> true !in bits
    decreases 2 * |bits| + 1 - i
  {
    hide Marks, Near, ShortTime;
    LengthsLikeBiphase(info);
    var data := Marks(info, bits) + [info.trail];
    if i < |data| {
      if i % 2 == 1 {
        MarksAt(info, bits, i / 2);
      } else if i < 2 * |bits| {
        MarksAt(info, bits, i / 2);
      }
      if !Near(data[i], 2 * ShortTime(info), 3) { FirstDouble(info, bits, i + 1); }
    }
  }

  /** Where the half-bit machine gives up. The first one is a time of two halves, or of three, which are allowed
      as bits 3 and 4 of RC-6 only; behind it the machine is half a bit late, and the next one does not fit, unless
      it is taken for the long bit of RC-6. In a code that fills the buffer it comes too late. */
  predicate StopsAt(bits: seq<bool>, t: nat, triple: bool)
    requires t < |bits|
  {
    && bits[t]
    && if true in bits[..t] then t < MAX_BITS - 1 && (triple || t != 3) else triple && t < MAX_BITS && t != 3 && t != 4
  }

  predicate GivesUp(bits: seq<bool>, triple: bool) { exists t: nat :: t < |bits| && StopsAt(bits, t, triple) }

  ghost predicate Driven(m: Machine, bits: seq<bool>, triple: bool) {
    if GivesUp(bits, triple) then m.NotBiphase?
    else if |bits| >= MAX_BITS then m.Overrun?
    else
      && m.Running? && Buffered(m) && m.bitcount == |bits| + (if true in bits then 1 else 0)
      && m.halfbit == (true !in bits) && (m.halfbit ==> !m.rc6temp)
  }

  lemma GivesUpNext(bits: seq<bool>, b: bool, triple: bool)
    ensures GivesUp(bits + [b], triple) <==> GivesUp(bits, triple) || StopsAt(bits + [b], |bits|, triple)
    ensures (bits + [b])[..|bits|] == bits
  {
    var e := bits + [b];
    forall t: nat | t < |bits| ensures StopsAt(e, t, triple) == StopsAt(bits, t, triple) {
      assert e[..t] == bits[..t];
    }
  }

  /** A one has two halves, or three. */
  ghost predicate LongOne(info: CodeInfo, triple: bool) {
    Near(info.one1, 3 * ShortTime(info), 2) == triple && (triple || Near(info.one1, 2 * ShortTime(info), 2))
  }

  lemma DrivenNext(m: Machine, info: CodeInfo, bits: seq<bool>, b: bool, triple: bool)
    requires SpaceTimings(info) && LikeBiphase(info) && LongOne(info, triple)
    requires Buffered(m) && Driven(m, bits, triple)
    ensures var p := ShortTime(info);
      Driven(Advance(Write(Advance(Write(m), SpaceOf(info, b), p)), info.one0, p), bits + [b], triple)
  {
    LengthsLikeBiphase(info);
    hide Near, ShortTime, GivesUp;
    GivesUpNext(bits, b, triple);
    assert true in bits + [b] <==> b || true in bits;
  }

  lemma {:induction false} DrivenAll(info: CodeInfo, bits: seq<bool>, triple: bool)
    requires SpaceTimings(info) && LikeBiphase(info) && LongOne(info, triple)
    ensures Driven(Drive(Start(), Behind(info, bits), ShortTime(info)), bits, triple)
  {
    hide Near, ShortTime, Driven, Advance, Write;
    if |bits| > 0 {
      var init, b := bits[..|bits| - 1], bits[|bits| - 1];
      assert init + [b] == bits;
      DrivenAll(info, init, triple);
      DrivenNext(Drive(Start(), Behind(info, init), ShortTime(info)), info, init, b, triple);
      DriveTwo(Start(), Behind(info, init), SpaceOf(info, b), info.one0, ShortTime(info));
    } else {
      NothingDriven(bits, triple);
    }
  }

  lemma NothingDriven(bits: seq<bool>, triple: bool)
    requires |bits| == 0
    ensures Driven(Start(), bits, triple)
  {
  }

  lemma DriveTwo(m: Machine, data: seq<nat>, s: nat, t: nat, pulse: nat)
    requires Buffered(m)
    ensures Drive(m, data + [s, t], pulse) == Advance(Write(Advance(Write(Drive(m, data, pulse)), s, pulse)), t, pulse)
  {
    hide Advance, Write;
    assert (data + [s, t])[..|data| + 1] == data + [s] && (data + [s])[..|data|] == data;
  }

  // When the space of a one counts as neither, the machine never gives up.
  lemma {:induction false} NeverGivesUp(info: CodeInfo, bits: seq<bool>)
    requires SpaceTimings(info) && LikeBiphase(info) && !LongOne(info, true) && !LongOne(info, false)
    ensures !Drive(Start(), Behind(info, bits), ShortTime(info)).NotBiphase?
  {
    hide Near, ShortTime, Drive;
    LengthsLikeBiphase(info);
    if |bits| > 0 {
      var init, b := bits[..|bits| - 1], bits[|bits| - 1];
      NeverGivesUp(info, init);
      DriveTwo(Start(), Behind(info, init), SpaceOf(info, b), info.one0, ShortTime(info));
    } else {
      NothingDrivenYet(ShortTime(info));
    }
  }

  lemma NothingDrivenYet(pulse: nat)
    ensures Drive(Start(), [], pulse) == Start()
  {
  }

  // ---- exactly which codes come back ----------------------------------------------

  ghost predicate ComesBack(info: CodeInfo, bits: seq<bool>, rx: CodeInfo) {
    Decode(Marks(info, bits) + [info.trail], 16, rx) == Decoded.Decoded(CodeBytes(bits), SpaceInfo(info, rx).(bitCount := |bits|))
  }

  /** Something a sender can check: the lengths are not those of a biphase code, or the code does not read as one. */
  ghost predicate NotReadAsBiphase(info: CodeInfo, bits: seq<bool>) {
    || !LikeBiphase(info)
    || (LongOne(info, false) && GivesUp(bits, false))
    || (LongOne(info, true) && GivesUp(bits, true))
  }

  lemma OneLength(data: seq<nat>, h: Lengths, l: Lengths, info: CodeInfo)
    requires Slots(h) && Slots(l) && |data| > 0 && h.count == 1 && l.count == 1
    ensures var r := DecodeSorted(data, h, l, 16, info); r.Decoded? ==> r.info.encoding != Space
  {
    hide BiphaseShape, Rc6Shape, Near, Far, BiphaseData, CodeBytes;
  }

  lemma OneKind(info: CodeInfo, bits: seq<bool>, rx: CodeInfo)
    requires SpaceTimings(info) && !(true in bits && false in bits)
    ensures !ComesBack(info, bits, rx)
  {
    hide TallyOf, Noted, SlotFor, Marks, CodeBytes, DecodeSorted, Passes;
    var m := Marks(info, bits);
    TallyMarks(info, bits);
    NotedPulse(info);
    TallyPulse(m, info.trail);
    var t := TallyOf(m + [info.trail]);
    if |bits| > 0 {
      forall i | 0 <= i < |bits| ensures bits[i] == bits[0] { assert bits[i] in bits && bits[0] in bits; }
      assert bits == seq(|bits|, i => bits[0]);
      OneLength(m + [info.trail], Sorted(t.highs), Sorted(t.lows), rx);
    }
  }

  lemma MachineDecides(info: CodeInfo, bits: seq<bool>)
    requires SpaceTimings(info) && LikeBiphase(info) && true in bits
    ensures BiphaseData(Marks(info, bits) + [info.trail], ShortTime(info)).NotBiphase? <==> NotReadAsBiphase(info, bits)
  {
    hide Near, ShortTime, Driven, Drive, StartSpace, LikeBiphase, SpaceTimings, Marks;
    FirstDouble(info, bits, 0);
    BehindFirst(info, bits);
    var data := Marks(info, bits) + [info.trail];
    assert data[1..] == Behind(info, bits);
    var m := Drive(Start(), data[1..], ShortTime(info));
    if LongOne(info, false) {
      DrivenAll(info, bits, false);
      DrivenMeans(m, bits, false);
    } else if LongOne(info, true) {
      DrivenAll(info, bits, true);
      DrivenMeans(m, bits, true);
    } else {
      NeverGivesUp(info, bits);
    }
  }

  lemma DrivenMeans(m: Machine, bits: seq<bool>, triple: bool)
    requires Driven(m, bits, triple)
    ensures m.NotBiphase? <==> GivesUp(bits, triple)
  {
  }

  /** Whatever the lengths, exactly these codes come back: both kinds of bits, 4 to 128 of them, and not read as
      biphase. */
  lemma ComesBackIff(info: CodeInfo, bits: seq<bool>, rx: CodeInfo)
    requires SpaceTimings(info)
    ensures ComesBack(info, bits, rx)
       <==> true in bits && false in bits && 4 <= |bits| <= MAX_BITS && NotReadAsBiphase(info, bits)
  {
    if !(true in bits && false in bits) {
      OneKind(info, bits, rx);
    } else if !LikeBiphase(info) {
      SpaceRoundTrip(info, bits, rx);
    } else {
      ReadByMachine(info, bits, rx);
    }
  }

  lemma MachineOrNot(data: seq<nat>, h: Lengths, l: Lengths, p: nat, rx: CodeInfo)
    requires Slots(h) && Slots(l) && |data| > 0 && BiphaseShape(h, l)
    requires ShortPulse(h.times[0], l.times[0]) == p && !Far(data[0], p, 3)
    ensures var r := DecodeSorted(data, h, l, 16, rx);
      if BiphaseData(data, p).NotBiphase? then
        r == NotBiphaseData(data, h, l, 16, rx.(one0 := p, one1 := p, zero0 := p, zero1 := p))
      else r.Decoded? ==> r.info.encoding != Space
  {
    hide Near, Far, BiphaseData, BiphaseShape, Rc6Shape, CodeBytes, NotBiphaseData;
  }

  function PulseLengths(info: CodeInfo): (l: Lengths)
    ensures Slots(l)
  {
    Lengths([info.one0, 0, 0, 0, 0], 1)
  }

  function SpaceLengths(info: CodeInfo): (l: Lengths)
    ensures Slots(l)
  {
    Lengths([info.zero1, info.one1, 0, 0, 0], 2)
  }

  lemma SpaceCodeSorted(info: CodeInfo, bits: seq<bool>, rx: CodeInfo)
    requires SpaceTimings(info) && true in bits && false in bits
    ensures var data := Marks(info, bits) + [info.trail];
      Decode(data, 16, rx) == DecodeSorted(data, PulseLengths(info), SpaceLengths(info), 16, rx)
  {
    hide TallyOf, Sorted, Marks, DecodeSorted;
    TallySpaceCode(info, bits);
  }

  lemma ReadByMachine(info: CodeInfo, bits: seq<bool>, rx: CodeInfo)
    requires SpaceTimings(info) && LikeBiphase(info) && true in bits && false in bits
    ensures ComesBack(info, bits, rx) <==> 4 <= |bits| <= MAX_BITS && NotReadAsBiphase(info, bits)
  {
    var data, p := Marks(info, bits) + [info.trail], ShortTime(info);
    SpaceCodeSorted(info, bits, rx);
    LengthsLikeBiphase(info);
    assert BiphaseShape(PulseLengths(info), SpaceLengths(info));
    BehindFirst(info, bits);
    assert data[0] == info.one0;
    hide Marks, CodeBytes, BiphaseData, Near, Far, FromBits, NotReadAsBiphase, ShortTime, BiphaseShape, Decode,
      DecodeSorted, NotBiphaseData, LikeBiphase, Behind;
    MachineDecides(info, bits);
    MachineOrNot(data, PulseLengths(info), SpaceLengths(info), p, rx);
    TakenAsSpace(info, bits, rx.(one0 := p, one1 := p, zero0 := p, zero1 := p), rx);
    BitsComeBack(bits, SpaceInfo(info, rx));
  }

  lemma TakenAsSpace(info: CodeInfo, bits: seq<bool>, timed: CodeInfo, rx: CodeInfo)
    requires SpaceTimings(info) && SpaceInfo(info, timed) == SpaceInfo(info, rx) && |bits| > 0
    ensures NotBiphaseData(Marks(info, bits) + [info.trail], PulseLengths(info), SpaceLengths(info), 16, timed)
         == FromBits(bits, 16, SpaceInfo(info, rx))
  {
    hide Marks, Matches, FromBits;
    SpacesMatch(info, bits);
  }

  /** A code of zeros and a single one, sent with spaces of one and of two pulse widths, does not come back: it is
      read as a biphase code. */
  lemma SingleOneLost(info: CodeInfo, bits: seq<bool>, one: nat, rx: CodeInfo)
    requires SpaceTimings(info) && info.zero1 == info.one0 && info.one1 == 2 * info.one0
    requires one < |bits| && forall i :: 0 <= i < |bits| ==> bits[i] == (i == one)
    ensures !ComesBack(info, bits, rx)
  {
    hide ComesBack, Near, ShortTime;
    ComesBackIff(info, bits, rx);
    TwoHalves(info);
    assert forall t: nat :: t < |bits| ==> !StopsAt(bits, t, false);
  }

  lemma TwoHalves(info: CodeInfo)
    requires SpaceTimings(info) && info.zero1 == info.one0 && info.one1 == 2 * info.one0
    ensures LikeBiphase(info) && !LongOne(info, true) && LongOne(info, false)
  {
  }
}
