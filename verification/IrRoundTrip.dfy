/** Sending a code and decoding its times again. */
module IrRoundTrip {
  import opened IrCode
  import opened IrDecoder

  /** All half bits take the same time. */
  ghost predicate EvenHalves(info: CodeInfo, half: nat) {
    half > 0 && info.one0 == half && info.one1 == half && info.zero0 == half && info.zero1 == half
  }

  /** The biphase encodings without RC-6. */
  ghost predicate IsPlain(info: CodeInfo) { info.encoding in {Biphase, RC5} }

  ghost predicate OneOrTwo(data: seq<nat>, half: nat, dbl: nat) { forall i :: 0 <= i < |data| ==> data[i] in {half, dbl} }

  /** Two lengths that are taken for one half and for two. */
  ghost predicate Twice(half: nat, dbl: nat) { half > 0 && Near(dbl, 2 * half, 1) }

  // ---- the times ------------------------------------------------------------------

  /** With even halves a bit adds two short times, or one double one when it differs from the bit before. */
  lemma NextTimes(info: CodeInfo, half: nat, bits: seq<bool>)
    requires EvenHalves(info, half) && IsPlain(info) && |bits| > 1
    ensures var k := |bits| - 1;
      HalfTimes(info, bits) == HalfTimes(info, bits[..k]) + if bits[k] == bits[k - 1] then [half, half] else [2 * half]
  {
    hide HalfTimes, FirstOf, SecondOf;
    var k := |bits| - 1;
    HalfTimesNext(info, bits);
    EvenHalf(info, half, bits, k);
    EvenHalf(info, half, bits, k - 1);
  }

  lemma EvenHalf(info: CodeInfo, half: nat, bits: seq<bool>, i: nat)
    requires EvenHalves(info, half) && IsPlain(info) && i < |bits|
    ensures FirstOf(info, bits, i) == half && SecondOf(info, bits, i) == half
  {
  }

  lemma FirstTimes(info: CodeInfo, half: nat, bits: seq<bool>)
    requires EvenHalves(info, half) && IsPlain(info) && |bits| == 1
    ensures HalfTimes(info, bits) == if bits[0] then [] else [half]
  {
  }

  lemma {:induction false} TimesOneOrTwo(info: CodeInfo, half: nat, bits: seq<bool>)
    requires EvenHalves(info, half) && IsPlain(info) && |bits| > 0
    ensures OneOrTwo(HalfTimes(info, bits), half, 2 * half)
  {
    hide HalfTimes;
    if |bits| == 1 {
      FirstTimes(info, half, bits);
    } else {
      TimesOneOrTwo(info, half, bits[..|bits| - 1]);
      NextTimes(info, half, bits);
    }
  }

  lemma EndTimes(info: CodeInfo, half: nat, bits: seq<bool>)
    requires EvenHalves(info, half) && IsPlain(info) && |bits| > 0
    ensures BiphaseTimes(info, bits) == HalfTimes(info, bits) + if bits[|bits| - 1] then [half] else []
  {
    hide HalfTimes;
  }

  // ---- tallying times of two lengths ----------------------------------------------

  ghost predicate Seen(l: Lengths, half: nat, dbl: nat) {
    || l == NONE
    || l == Lengths([half, 0, 0, 0, 0], 1) || l == Lengths([half, dbl, 0, 0, 0], 2)
  }

  lemma NotedHalf(l: Lengths, half: nat, dbl: nat, t: nat)
    requires 0 < half < dbl && Seen(l, half, dbl) && l.count > 0 && t in {half, dbl}
    ensures SlotFor(l.times, t, 0) < 4 && Seen(Noted(l, t), half, dbl) && Noted(l, t).count > 0
  {
  }

  lemma NotedFirst(half: nat)
    requires half > 0
    ensures SlotFor(NONE.times, half, 0) == 0 && Noted(NONE, half) == Lengths([half, 0, 0, 0, 0], 1)
  {
  }

  /** When the first pulse and the first space are short, the lengths come out in order. */
  lemma {:induction false} TallyShortFirst(data: seq<nat>, half: nat, dbl: nat)
    requires 0 < half < dbl && OneOrTwo(data, half, dbl) && |data| >= 2 && data[0] == half && data[1] == half
    ensures var t := TallyOf(data);
      t.Tally? && Seen(t.highs, half, dbl) && Seen(t.lows, half, dbl) && t.highs.count > 0 && t.lows.count > 0
  {
    hide Noted, SlotFor;
    var k := |data| - 1;
    NotedFirst(half);
    if k == 1 {
      assert data[..k] == [half];
      assert [half][..0] == [];
      assert TallyOf([half]) == Tally(Noted(NONE, half), NONE);
    } else {
      TallyShortFirst(data[..k], half, dbl);
      var so := TallyOf(data[..k]);
      if k % 2 == 0 { NotedHalf(so.highs, half, dbl, data[k]); } else { NotedHalf(so.lows, half, dbl, data[k]); }
    }
  }

  lemma ShapeOfHalves(half: nat, dbl: nat, h: Lengths, l: Lengths)
    requires Twice(half, dbl) && Seen(h, half, dbl) && Seen(l, half, dbl) && h.count > 0 && l.count > 0
    ensures BiphaseShape(h, l) && ShortPulse(h.times[0], l.times[0]) == half && !Far(half, half, 3)
  {
  }

  // ---- the invisible first space --------------------------------------------------

  lemma NearTwice(half: nat, dbl: nat)
    requires Twice(half, dbl)
    ensures half < dbl && Near(dbl, 2 * half, 3) && Near(dbl, 2 * half, 2) && !Near(dbl, 3 * half, 2)
    ensures !Near(half, 2 * half, 3) && !Near(half, 2 * half, 2) && !Near(half, 3 * half, 2)
  {
  }

  lemma NearHalves(half: nat)
    requires half > 0
    ensures Twice(half, 2 * half)
    ensures Near(2 * half, 2 * half, 3) && Near(2 * half, 2 * half, 2)
    ensures !Near(half, 2 * half, 3) && !Near(half, 2 * half, 2)
    ensures !Near(half, 3 * half, 2) && !Near(2 * half, 3 * half, 2)
  {
  }

  // No double time yet, or the first of them a pulse.
  ghost predicate FirstDoubleIsPulse(data: seq<nat>, half: nat, dbl: nat) {
    exists j :: 0 <= j < |data| && j % 2 == 0 && data[j] == dbl && forall i :: 0 <= i < j ==> data[i] == half
  }

  ghost predicate AllShort(data: seq<nat>, half: nat) { forall i :: 0 <= i < |data| ==> data[i] == half }

  lemma {:induction false} DoublePulseFirst(info: CodeInfo, half: nat, bits: seq<bool>)
    requires EvenHalves(info, half) && IsPlain(info) && |bits| > 0 && bits[0]
    ensures var d := HalfTimes(info, bits);
      FirstDoubleIsPulse(d, half, 2 * half) || (AllShort(d, half) && |d| % 2 == 0)
  {
    hide HalfTimes;
    if |bits| == 1 {
      FirstTimes(info, half, bits);
    } else {
      var k := |bits| - 1;
      DoublePulseFirst(info, half, bits[..k]);
      NextTimes(info, half, bits);
      var d, e := HalfTimes(info, bits[..k]), HalfTimes(info, bits);
      if FirstDoubleIsPulse(d, half, 2 * half) {
        var j :| 0 <= j < |d| && j % 2 == 0 && d[j] == 2 * half && forall i :: 0 <= i < j ==> d[i] == half;
        assert e[j] == 2 * half && forall i :: 0 <= i < j ==> e[i] == half;
      } else if bits[k] != bits[k - 1] {
        assert e[|d|] == 2 * half && forall i :: 0 <= i < |d| ==> e[i] == half;
      }
    }
  }

  lemma {:induction false} StartSpaceFound(data: seq<nat>, half: nat, dbl: nat, i: nat)
    requires Twice(half, dbl) && i <= |data| && OneOrTwo(data, half, dbl)
    requires AllShort(data, half) || (FirstDoubleIsPulse(data, half, dbl) && forall k :: 0 <= k < i ==> data[k] == half)
    ensures StartSpace(data, half, i)
    decreases |data| - i
  {
    hide Near, Twice;
    NearTwice(half, dbl);
    if i < |data| && data[i] == half {
      StartSpaceFound(data, half, dbl, i + 1);
    }
  }

  lemma AppendShort(data: seq<nat>, half: nat, more: seq<nat>)
    requires half > 0 && AllShort(more, half) && (FirstDoubleIsPulse(data, half, 2 * half) || AllShort(data, half))
    ensures FirstDoubleIsPulse(data + more, half, 2 * half) || AllShort(data + more, half)
  {
    if FirstDoubleIsPulse(data, half, 2 * half) {
      var j :| 0 <= j < |data| && j % 2 == 0 && data[j] == 2 * half && forall i :: 0 <= i < j ==> data[i] == half;
      var e := data + more;
      assert e[j] == 2 * half && forall i :: 0 <= i < j ==> e[i] == half;
    }
  }

  // ---- the half-bit machine -------------------------------------------------------

  // After all times of a bit string but the last half: everything before the last bit is written, and at
  // most the last bit itself.
  ghost predicate Decoding(m: Machine, bits: seq<bool>) {
    && m.Running? && |m.temp| == MAX_BITS && |bits| > 0
    && m.bitcount == |bits| - 1 && m.bit == bits[|bits| - 1] && m.halfbit && !m.rc6temp && !m.rc6
    && (forall i :: 0 <= i < MAX_BITS && i < |bits| - 1 ==> m.temp[i] == bits[i])
    && (forall i :: |bits| <= i < MAX_BITS ==> !m.temp[i])
    && (|bits| <= MAX_BITS && m.temp[|bits| - 1] ==> bits[|bits| - 1])
  }

  lemma {:induction false} RunAppend(m: Machine, a: seq<nat>, b: seq<nat>, pulse: nat)
    requires Buffered(m) && 0 < |b| <= 2
    ensures Drive(m, a + b, pulse)
         == if |b| == 1 then Advance(Write(Drive(m, a, pulse)), b[0], pulse)
            else Advance(Write(Advance(Write(Drive(m, a, pulse)), b[0], pulse)), b[1], pulse)
  {
    hide Advance, Write;
    if |b| == 1 {
      assert (a + b)[..|a|] == a;
    } else {
      assert (a + b)[..|a| + 1] == a + [b[0]];
      assert (a + [b[0]])[..|a|] == a;
    }
  }

  lemma SameBit(m: Machine, bits: seq<bool>, half: nat)
    requires half > 0 && Decoding(m, bits)
    ensures var e := Advance(Write(Advance(Write(m), half, half)), half, half);
      if |bits| < MAX_BITS then Decoding(e, bits + [bits[|bits| - 1]]) else e == Overrun
  {
    hide Near;
    NearHalves(half);
  }

  lemma OtherBit(m: Machine, bits: seq<bool>, half: nat)
    requires half > 0 && Decoding(m, bits)
    ensures var e := Advance(Write(m), 2 * half, half);
      if |bits| <= MAX_BITS then Decoding(e, bits + [!bits[|bits| - 1]]) else e == Overrun
  {
    hide Near;
    NearHalves(half);
  }

  lemma OverrunStays(t: nat, pulse: nat)
    ensures Advance(Write(Overrun), t, pulse) == Overrun && Write(Overrun) == Overrun
  {
  }

  lemma {:induction false} MachineFollows(info: CodeInfo, half: nat, bits: seq<bool>)
    requires EvenHalves(info, half) && IsPlain(info) && |bits| > 0 && bits[0]
    ensures var m := Drive(Start(), HalfTimes(info, bits), half);
      Decoding(m, bits) || (m == Overrun && |bits| > MAX_BITS)
  {
    hide HalfTimes, Advance, Write, Drive, Decoding;
    if |bits| == 1 {
      FirstTimes(info, half, bits);
      NothingRun(bits, half);
    } else {
      var k := |bits| - 1;
      var init, d := bits[..k], HalfTimes(info, bits[..k]);
      MachineFollows(info, half, init);
      NextTimes(info, half, bits);
      var m := Drive(Start(), d, half);
      OverrunStays(half, half);
      OverrunStays(2 * half, half);
      if bits[k] == bits[k - 1] {
        RunAppend(Start(), d, [half, half], half);
        assert bits == init + [init[k - 1]];
        if Decoding(m, init) { SameBit(m, init, half); }
      } else {
        RunAppend(Start(), d, [2 * half], half);
        assert bits == init + [!init[k - 1]];
        if Decoding(m, init) { OtherBit(m, init, half); }
      }
    }
  }

  lemma NothingRun(bits: seq<bool>, half: nat)
    requires |bits| == 1 && bits[0]
    ensures Decoding(Drive(Start(), [], half), bits)
  {
  }

  /** At the end everything is written, unless the last bit lies behind the buffer. */
  ghost predicate Complete(m: Machine, bits: seq<bool>) {
    m.Running? && |m.temp| == MAX_BITS && !m.rc6 && m.bitcount == |bits| <= MAX_BITS && m.temp[..m.bitcount] == bits
  }

  lemma EndsComplete(m: Machine, bits: seq<bool>, half: nat)
    requires half > 0 && Decoding(m, bits)
    ensures var e := End(if bits[|bits| - 1] then Advance(Write(m), half, half) else m, true);
      if |bits| < MAX_BITS || (|bits| == MAX_BITS && !bits[|bits| - 1]) then Complete(e, bits) else e == Overrun
  {
    hide Near;
    NearHalves(half);
    var w := Write(m);
    if w.Running? { assert w.temp[..|bits|] == bits; }
  }

  lemma MachineDecodes(info: CodeInfo, half: nat, bits: seq<bool>)
    requires EvenHalves(info, half) && IsPlain(info) && |bits| > 0 && bits[0]
    ensures var e := End(Drive(Start(), BiphaseTimes(info, bits), half), true);
      if |bits| < MAX_BITS || (|bits| == MAX_BITS && !bits[|bits| - 1]) then Complete(e, bits) else e == Overrun
  {
    hide HalfTimes, Advance, Write, Drive, Decoding, End, Complete, BiphaseTimes;
    MachineFollows(info, half, bits);
    EndTimes(info, half, bits);
    var d := HalfTimes(info, bits);
    var m := Drive(Start(), d, half);
    if bits[|bits| - 1] {
      RunAppend(Start(), d, [half], half);
    } else {
      assert d + [] == d;
    }
    if Decoding(m, bits) {
      EndsComplete(m, bits, half);
    } else {
      OverrunStays(half, half);
      EndOverrun();
    }
  }

  lemma EndOverrun()
    ensures End(Overrun, true) == Overrun
  {
  }

  // ---- the round trip -------------------------------------------------------------

  /** The code info that comes back: RC-5 when the half bit is close to 889 us. */
  function Returned(info: CodeInfo, half: nat, n: nat): CodeInfo {
    info.(one0 := half, one1 := half, zero0 := half, zero1 := half, bitCount := n,
          encoding := if Near(half, 889, 2) then RC5 else Biphase)
  }

  /** A code whose first two bits are ones comes back bit for bit when it has 4 to 127 bits, or 128 of which
      the last is zero; a shorter one is refused, and a longer one does not fit the buffer. */
  lemma BiphaseRoundTrip(info: CodeInfo, half: nat, bits: seq<bool>, rx: CodeInfo)
    requires EvenHalves(info, half) && IsPlain(info) && |bits| >= 2 && bits[0] && bits[1]
    ensures Decode(BiphaseTimes(info, bits), 16, rx)
         == if |bits| < 4 then Failed
            else if |bits| < MAX_BITS || (|bits| == MAX_BITS && !bits[|bits| - 1]) then
              Decoded.Decoded(CodeBytes(bits), Returned(rx, half, |bits|))
            else OutOfBounds
  {
    hide BiphaseTimes, Drive, End, Complete, CodeBytes, Decode, Near, FirstDoubleIsPulse;
    TimesShape(info, half, bits);
    MachineDecodes(info, half, bits);
    NearHalves(half);
    DecodedByMachine(BiphaseTimes(info, bits), half, 2 * half, bits, rx);
  }

  /** Times of two lengths, the first two of them short and the first long one a pulse, are decoded as the machine
      reads them. */
  lemma DecodedByMachine(data: seq<nat>, half: nat, dbl: nat, bits: seq<bool>, rx: CodeInfo)
    requires Twice(half, dbl) && OneOrTwo(data, half, dbl) && |data| >= 2 && data[0] == half && data[1] == half
    requires FirstDoubleIsPulse(data, half, dbl) || AllShort(data, half)
    requires var e := End(Drive(Start(), data, half), true);
      if |bits| < MAX_BITS || (|bits| == MAX_BITS && !bits[|bits| - 1]) then Complete(e, bits) else e == Overrun
    ensures Decode(data, 16, rx)
         == if |bits| < 4 then Failed
            else if |bits| < MAX_BITS || (|bits| == MAX_BITS && !bits[|bits| - 1]) then
              Decoded.Decoded(CodeBytes(bits), Returned(rx, half, |bits|))
            else OutOfBounds
  {
    hide TallyOf, Passes, Near, StartSpace, Drive, End, CodeBytes, BiphaseShape, Rc6Shape, ShortPulse, Far, FirstDoubleIsPulse, Twice;
    NearTwice(half, dbl);
    TallyShortFirst(data, half, dbl);
    var t := TallyOf(data);
    OrderedTwo(half, dbl, t.highs);
    OrderedTwo(half, dbl, t.lows);
    assert Sorted(t.highs) == t.highs && Sorted(t.lows) == t.lows;
    ShapeOfHalves(half, dbl, t.highs, t.lows);
    StartSpaceFound(data, half, dbl, 0);
    var m := BiphaseData(data, half);
    assert m == End(Drive(Start(), data, half), true);
  }

  lemma OrderedTwo(half: nat, dbl: nat, l: Lengths)
    requires 0 < half < dbl && Seen(l, half, dbl) && l.count > 0
    ensures Passes(l.times, PASSES) == l.times
  {
    hide Passes;
    PassesOrder(l.times[0], l.times[1], PASSES);
  }

  /** The first two times are short, all are single or double, and the first double one is a pulse. */
  lemma TimesShape(info: CodeInfo, half: nat, bits: seq<bool>)
    requires EvenHalves(info, half) && IsPlain(info) && |bits| >= 2 && bits[0] && bits[1]
    ensures var data := BiphaseTimes(info, bits);
      && OneOrTwo(data, half, 2 * half) && |data| >= 2 && data[0] == half && data[1] == half
      && (FirstDoubleIsPulse(data, half, 2 * half) || AllShort(data, half))
  {
    hide HalfTimes, BiphaseTimes;
    TimesOneOrTwo(info, half, bits);
    EndTimes(info, half, bits);
    DoublePulseFirst(info, half, bits);
    StartsShort(info, half, bits);
    AppendShort(HalfTimes(info, bits), half, if bits[|bits| - 1] then [half] else []);
  }

  lemma {:induction false} StartsShort(info: CodeInfo, half: nat, bits: seq<bool>)
    requires EvenHalves(info, half) && IsPlain(info) && |bits| >= 2 && bits[0] && bits[1]
    ensures var d := HalfTimes(info, bits);
      |d| >= 2 && d[0] == half && d[1] == half
  {
    hide HalfTimes;
    NextTimes(info, half, bits);
    if |bits| == 2 {
      FirstTimes(info, half, bits[..1]);
    } else {
      StartsShort(info, half, bits[..|bits| - 1]);
    }
  }

  // ---- codes that do not come back ------------------------------------------------

  lemma {:induction false} FirstBitWritten(data: seq<nat>, pulse: nat)
    ensures var m := Drive(Start(), data, pulse);
      m.Running? && |data| > 0 ==> m.temp[0]
    ensures |data| == 0 ==> Drive(Start(), data, pulse) == Start()
  {
    hide Near;
    if |data| > 0 { FirstBitWritten(data[..|data| - 1], pulse); }
  }

  /** Whatever the times, a code taken for biphase begins with a one. */
  lemma BiphaseCodesBeginWithOne(data: seq<nat>, rx: CodeInfo)
    ensures var r := Decode(data, 16, rx);
      r.Decoded? && IsBiphase(r.info.encoding) ==>
        r.info.bitCount >= 4 && ByteCount(r.info.bitCount) <= |r.code| && CodeBit(r.code, r.info.bitCount, 0)
  {
    hide TallyOf, Passes, Near, Far, StartSpace, BiphaseShape, Rc6Shape, ShortPulse, CodeBytes, CodeBit, NotBiphaseData, Drive;
    var r, t := Decode(data, 16, rx), TallyOf(data);
    if r.Decoded? && IsBiphase(r.info.encoding) {
      CountsMeanTimes(data);
      var h, l := Sorted(t.highs), Sorted(t.lows);
      NotBiphaseIsOther(data, h, l, rx);
      var pulse := ShortPulse(h.times[0], l.times[0]);
      NotBiphaseIsOther(data, h, l, rx.(one0 := pulse, one1 := pulse, zero0 := pulse, zero1 := pulse));
      FirstBitWritten(data, pulse);
      FirstBitWritten(data[1..], pulse);
      var m := BiphaseData(data, pulse);
      assert m.Running? && m.temp[0];
      BitsOfBytes(m.temp[..m.bitcount]);
      assert CodeBits(CodeBytes(m.temp[..m.bitcount]), m.bitcount)[0] == m.temp[0];
    }
  }

  lemma {:induction false} CountsMeanTimes(data: seq<nat>)
    ensures var t := TallyOf(data);
      t.Tally? ==> (|data| < 2 ==> t.lows.count == 0) && (|data| < 1 ==> t.highs.count == 0)
  {
    if |data| == 1 { assert data[..0] == []; }
  }

  lemma NotBiphaseIsOther(data: seq<nat>, h: Lengths, l: Lengths, info: CodeInfo)
    requires Slots(h) && Slots(l) && |data| > 0
    ensures var r := NotBiphaseData(data, h, l, 16, info);
      r.Decoded? ==> !IsBiphase(r.info.encoding)
  {
    hide Matches, Filled, CodeBytes;
  }

  // ---- a second bit of zero -------------------------------------------------------

  ghost predicate SeenAny(l: Lengths, half: nat) {
    || l == NONE
    || l == Lengths([half, 0, 0, 0, 0], 1) || l == Lengths([2 * half, 0, 0, 0, 0], 1)
    || l == Lengths([half, 2 * half, 0, 0, 0], 2) || l == Lengths([2 * half, half, 0, 0, 0], 2)
  }

  ghost predicate AllAt(data: seq<nat>, parity: nat, t: nat) {
    forall i :: 0 <= i < |data| && i % 2 == parity ==> data[i] == t
  }

  lemma NotedAny(l: Lengths, half: nat, t: nat)
    requires half > 0 && SeenAny(l, half) && t in {half, 2 * half}
    ensures SlotFor(l.times, t, 0) < 4 && SeenAny(Noted(l, t), half)
    ensures Noted(l, t) == Lengths([2 * half, 0, 0, 0, 0], 1) ==> t == 2 * half && (l == NONE || l == Noted(l, t))
    ensures l.count > 0 ==> Noted(l, t).times[0] == l.times[0]
    ensures Noted(l, t).times[0] == t || l.count > 0
  {
  }

  lemma {:induction false} TallyAny(data: seq<nat>, half: nat)
    requires half > 0 && OneOrTwo(data, half, 2 * half)
    ensures var t := TallyOf(data);
      && t.Tally? && SeenAny(t.highs, half) && SeenAny(t.lows, half)
      && (t.highs == Lengths([2 * half, 0, 0, 0, 0], 1) || t.highs == NONE ==> AllAt(data, 0, 2 * half))
      && (t.lows == Lengths([2 * half, 0, 0, 0, 0], 1) || t.lows == NONE ==> AllAt(data, 1, 2 * half))
      && (|data| > 0 ==> t.highs.count > 0 && t.highs.times[0] == data[0])
  {
    hide Noted, SlotFor, SeenAny;
    if |data| > 0 {
      var k := |data| - 1;
      TallyAny(data[..k], half);
      var so := TallyOf(data[..k]);
      if k % 2 == 0 {
        NotedAny(so.highs, half, data[k]);
        NotedCounts(so.highs, half, data[k]);
      } else {
        NotedAny(so.lows, half, data[k]);
        NotedCounts(so.lows, half, data[k]);
      }
    } else {
      assert SeenAny(NONE, half) by { NothingSeen(half); }
    }
  }

  lemma NothingSeen(half: nat)
    ensures SeenAny(NONE, half)
  {
  }

  lemma NotedCounts(l: Lengths, half: nat, t: nat)
    requires half > 0 && SeenAny(l, half) && t in {half, 2 * half} && SlotFor(l.times, t, 0) < 4
    ensures Noted(l, t).count > 0 && Noted(l, t) != NONE
  {
  }

  lemma OrderedAny(half: nat, l: Lengths)
    requires half > 0 && SeenAny(l, half) && l.count > 0
    ensures Passes(l.times, PASSES) == if l.count == 2 then [half, 2 * half, 0, 0, 0] else l.times
  {
    hide Passes;
    PassesOrder(l.times[0], l.times[1], PASSES);
  }

  // Nothing but short times: the bit never changes.
  lemma {:induction false} ShortTimesOnly(data: seq<nat>, pulse: nat)
    requires pulse > 0 && AllShort(data, pulse)
    ensures var m := Drive(Start(), data, pulse);
      m == Overrun || (m.Running? && m.bit && !m.rc6 && forall i :: 0 <= i < m.bitcount && i < MAX_BITS ==> m.temp[i])
  {
    hide Near;
    NearHalves(pulse);
    if |data| > 0 { ShortTimesOnly(data[..|data| - 1], pulse); }
  }

  lemma NoDoubleIsStartSpace(data: seq<nat>, pulse: nat)
    requires pulse > 0 && AllShort(data, pulse)
    ensures StartSpace(data, pulse, 0)
  {
    NearHalves(pulse);
    StartSpaceFound(data, pulse, 2 * pulse, 0);
  }

  /** When the first time is a double one, what comes out is not biphase, or its second bit is a one too. */
  lemma DoubleFirst(data: seq<nat>, half: nat, rx: CodeInfo)
    requires half > 0 && OneOrTwo(data, half, 2 * half) && |data| > 0 && data[0] == 2 * half
    ensures var r := Decode(data, 16, rx);
      r.Decoded? && IsBiphase(r.info.encoding) ==>
        r.info.bitCount >= 4 && ByteCount(r.info.bitCount) <= |r.code| && CodeBit(r.code, r.info.bitCount, 1)
  {
    hide TallyOf, Passes, Near, Far, StartSpace, ShortPulse, CodeBytes, CodeBit, NotBiphaseData, Drive, AllAt, BiphaseShape, Rc6Shape;
    TallyAny(data, half);
    var t := TallyOf(data);
    OrderedAny(half, t.highs);
    if t.lows.count > 0 { OrderedAny(half, t.lows); }
    var h, l := Sorted(t.highs), Sorted(t.lows);
    var pulse := ShortPulse(h.times[0], l.times[0]);
    NotBiphaseIsOther(data, h, l, rx);
    NotBiphaseIsOther(data, h, l, rx.(one0 := pulse, one1 := pulse, zero0 := pulse, zero1 := pulse));
    if l.count > 0 {
      DoubleShapes(half, h, l);
      if h.count == 1 && l.times[0] == 2 * half {
        assert AllShort(data, 2 * half) by { BothDouble(data, 2 * half); }
        NoDoubleIsStartSpace(data, 2 * half);
        ShortTimesOnly(data, 2 * half);
        var m := BiphaseData(data, pulse);
        if m.Running? && m.bitcount >= 4 && m.bitcount <= MAX_BITS {
          BitsOfBytes(m.temp[..m.bitcount]);
          assert CodeBits(CodeBytes(m.temp[..m.bitcount]), m.bitcount)[1] == m.temp[1];
        }
      }
    }
  }

  lemma BothDouble(data: seq<nat>, t: nat)
    requires AllAt(data, 0, t) && AllAt(data, 1, t)
    ensures AllShort(data, t)
  {
    forall i | 0 <= i < |data| ensures data[i] == t {
      assert i % 2 == 0 || i % 2 == 1;
    }
  }

  lemma DoubleShapes(half: nat, h: Lengths, l: Lengths)
    requires half > 0 && Slots(h) && Slots(l)
    requires h == Lengths([2 * half, 0, 0, 0, 0], 1) || h == Lengths([half, 2 * half, 0, 0, 0], 2)
    requires l == Lengths([half, 0, 0, 0, 0], 1) || l == Lengths([2 * half, 0, 0, 0, 0], 1)
          || l == Lengths([half, 2 * half, 0, 0, 0], 2)
    ensures !Rc6Shape(h, l)
    ensures BiphaseShape(h, l) ==> h.times[0] == l.times[0] && ShortPulse(h.times[0], l.times[0]) == h.times[0]
    ensures Far(2 * half, half, 3)
  {
  }

  // ---- exactly which codes come back ----------------------------------------------

  ghost predicate ComesBack(info: CodeInfo, bits: seq<bool>, rx: CodeInfo)
    requires |bits| > 0
  {
    var r := Decode(BiphaseTimes(info, bits), 16, rx);
    r.Decoded? && IsBiphase(r.info.encoding) && r.info.bitCount == |bits| && r.code == CodeBytes(bits)
  }

  /** With equal half bits, exactly these codes come back as biphase codes: the first two bits are ones, and
      there are 4 to 127 bits, or 128 with the last one zero. */
  lemma ComesBackIff(info: CodeInfo, half: nat, bits: seq<bool>, rx: CodeInfo)
    requires EvenHalves(info, half) && IsPlain(info) && |bits| > 0
    ensures ComesBack(info, bits, rx)
       <==> 4 <= |bits| <= MAX_BITS && bits[0] && bits[1] && (|bits| == MAX_BITS ==> !bits[|bits| - 1])
  {
    hide BiphaseTimes, HalfTimes, Decode, CodeBytes, CodeBit;
    var data := BiphaseTimes(info, bits);
    if |bits| >= 2 && bits[0] && bits[1] {
      BiphaseRoundTrip(info, half, bits, rx);
    } else {
      BiphaseCodesBeginWithOne(data, rx);
      BitsOfBytes(bits);
      if |bits| >= 2 && bits[0] {
        TimesOneOrTwo(info, half, bits);
        EndTimes(info, half, bits);
        StartsDouble(info, half, bits);
        DoubleFirst(data, half, rx);
        assert CodeBits(CodeBytes(bits), |bits|)[1] == bits[1];
      } else {
        assert CodeBits(CodeBytes(bits), |bits|)[0] == bits[0];
      }
    }
  }

  lemma {:induction false} StartsDouble(info: CodeInfo, half: nat, bits: seq<bool>)
    requires EvenHalves(info, half) && IsPlain(info) && |bits| >= 2 && bits[0] && !bits[1]
    ensures var d := HalfTimes(info, bits);
      |d| > 0 && d[0] == 2 * half
  {
    hide HalfTimes;
    NextTimes(info, half, bits);
    if |bits| == 2 {
      FirstTimes(info, half, bits[..1]);
    } else {
      StartsDouble(info, half, bits[..|bits| - 1]);
    }
  }
}
