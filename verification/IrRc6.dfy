/** RC-6 codes, whose fifth bit is twice as long as the others, and what comes back of them. */
module IrRc6 {
  import opened IrCode
  import opened IrDecoder
  import opened IrRoundTrip

  /** An RC-6 code with equal half bits. */
  ghost predicate LongFifth(info: CodeInfo, half: nat) { info.encoding == RC6 && EvenHalves(info, half) }

  /** How long a half of bit i is. */
  function HalfOf(half: nat, i: nat): nat { if i == 4 then 2 * half else half }

  // ---- what is sent ---------------------------------------------------------------

  lemma NextTimes6(info: CodeInfo, half: nat, bits: seq<bool>)
    requires LongFifth(info, half) && |bits| > 1
    ensures var k := |bits| - 1;
      HalfTimes(info, bits) == HalfTimes(info, bits[..k])
        + if bits[k] == bits[k - 1] then [HalfOf(half, k - 1), HalfOf(half, k)] else [HalfOf(half, k - 1) + HalfOf(half, k)]
  {
    hide HalfTimes, FirstOf, SecondOf;
    var k := |bits| - 1;
    HalfTimesNext(info, bits);
    FifthIsLong(info, half, bits, k);
    FifthIsLong(info, half, bits, k - 1);
  }

  lemma FifthIsLong(info: CodeInfo, half: nat, bits: seq<bool>, i: nat)
    requires LongFifth(info, half) && i < |bits|
    ensures FirstOf(info, bits, i) == HalfOf(half, i) && SecondOf(info, bits, i) == HalfOf(half, i)
  {
  }

  lemma FirstTime6(info: CodeInfo, half: nat, bits: seq<bool>)
    requires LongFifth(info, half) && |bits| == 1
    ensures HalfTimes(info, bits) == if bits[0] then [half] else []
  {
  }

  lemma EndTimes6(info: CodeInfo, half: nat, bits: seq<bool>)
    requires LongFifth(info, half) && |bits| > 0
    ensures BiphaseTimes(info, bits) == HalfTimes(info, bits) + if bits[|bits| - 1] then [] else [half]
  {
    hide HalfTimes;
  }

  /** How long the carrier and the silences of a code last, one after the other. */
  function Duration(runs: seq<Run>): (t: nat) { if |runs| == 0 then 0 else Duration(runs[..|runs| - 1]) + runs[|runs| - 1].time }

  lemma {:induction false} JoinLasts(runs: seq<Run>, r: Run)
    ensures Duration(Join(runs, r)) == Duration(runs) + r.time
  {
    if |runs| > 0 && runs[|runs| - 1].on == r.on {
      var m := Join(runs, r);
      assert m[..|m| - 1] == runs[..|runs| - 1];
    } else {
      assert (runs + [r])[..|runs|] == runs;
    }
  }

  /** Every bit lasts two half bits, and the fifth one four. */
  lemma {:induction false} BitsLast(info: CodeInfo, half: nat, bits: seq<bool>)
    requires LongFifth(info, half)
    ensures Duration(Train(info, bits)) == 2 * half * |bits| + if |bits| > 4 then 2 * half else 0
  {
    hide Join, Duration;
    if |bits| > 0 {
      var k := |bits| - 1;
      BitsLast(info, half, bits[..k]);
      FifthIsLong(info, half, bits, k);
      var on := bits[k] == (info.encoding == RC6);
      var a := Train(info, bits[..k]);
      JoinLasts(a, Run(on, FirstOf(info, bits, k)));
      JoinLasts(Join(a, Run(on, FirstOf(info, bits, k))), Run(!on, SecondOf(info, bits, k)));
      TrainIs(info, bits);
      assert 2 * half * |bits| == 2 * half * k + 2 * half;
    } else {
      NothingLasts(info, bits);
    }
  }

  lemma TrainIs(info: CodeInfo, bits: seq<bool>)
    requires |bits| > 0
    ensures var k := |bits| - 1;
      var on := bits[k] == (info.encoding == RC6);
      Train(info, bits) == Join(Join(Train(info, bits[..k]), Run(on, FirstOf(info, bits, k))), Run(!on, SecondOf(info, bits, k)))
  {
  }

  lemma NothingLasts(info: CodeInfo, bits: seq<bool>)
    requires |bits| == 0
    ensures Duration(Train(info, bits)) == 0
  {
  }

  // ---- the half-bit machine -------------------------------------------------------

  // After all times of a bit string but the last half, the first time left out: the first half of bit 0.
  ghost predicate Decoding6(m: Machine, bits: seq<bool>) {
    && m.Running? && |m.temp| == MAX_BITS && |bits| > 0
    && m.bitcount == |bits| - 1 && m.bit == bits[|bits| - 1] && m.halfbit
    && m.rc6temp == (|bits| == 5) && m.rc6 == (|bits| >= 5)
    && (forall i :: 0 <= i < MAX_BITS && i < |bits| - 1 ==> m.temp[i] == bits[i])
    && (forall i :: |bits| <= i < MAX_BITS ==> !m.temp[i])
    && (|bits| <= MAX_BITS && m.temp[|bits| - 1] ==> bits[|bits| - 1])
  }

  lemma NearThirds(half: nat)
    requires half > 0
    ensures Near(3 * half, 3 * half, 2) && !Near(3 * half, 2 * half, 3) && !Near(half, 2 * half, 3)
    ensures Near(2 * half, 2 * half, 2) && Near(2 * half, 2 * half, 3) && !Near(2 * half, 3 * half, 2)
    ensures !Near(half, 2 * half, 2) && !Near(half, 3 * half, 2) && !Far(half, half, 3)
  {
  }

  lemma SameBit6(m: Machine, bits: seq<bool>, half: nat)
    requires half > 0 && Decoding6(m, bits)
    ensures var n := |bits|;
      var e := Advance(Write(Advance(Write(m), HalfOf(half, n - 1), half)), HalfOf(half, n), half);
      if n < MAX_BITS then Decoding6(e, bits + [bits[n - 1]]) else e == Overrun
  {
    hide Near;
    NearThirds(half);
  }

  lemma OtherBit6(m: Machine, bits: seq<bool>, half: nat)
    requires half > 0 && Decoding6(m, bits)
    ensures var n := |bits|;
      var e := Advance(Write(m), HalfOf(half, n - 1) + HalfOf(half, n), half);
      if n <= MAX_BITS then Decoding6(e, bits + [!bits[n - 1]]) else e == Overrun
  {
    hide Near;
    NearThirds(half);
  }

  lemma {:induction false} MachineFollows6(info: CodeInfo, half: nat, bits: seq<bool>)
    requires LongFifth(info, half) && |bits| > 0 && bits[0]
    ensures var d := HalfTimes(info, bits);
      && |d| > 0 && d[0] == half
      && var m := Drive(Start(), d[1..], half);
         Decoding6(m, bits) || (m == Overrun && |bits| > MAX_BITS)
  {
    hide HalfTimes, Advance, Write, Drive, Decoding6;
    if |bits| == 1 {
      FirstTime6(info, half, bits);
      NothingRun6(bits, half);
      assert [half][1..] == [];
    } else {
      var k := |bits| - 1;
      var init := bits[..k];
      MachineFollows6(info, half, init);
      NextTimes6(info, half, bits);
      var d := HalfTimes(info, init)[1..];
      var m := Drive(Start(), d, half);
      if bits[k] == bits[k - 1] {
        var two := [HalfOf(half, k - 1), HalfOf(half, k)];
        assert HalfTimes(info, bits)[1..] == d + two;
        RunAppend(Start(), d, two, half);
        OverrunStays(HalfOf(half, k - 1), half);
        OverrunStays(HalfOf(half, k), half);
        assert bits == init + [init[k - 1]];
        if Decoding6(m, init) { SameBit6(m, init, half); }
      } else {
        var one := [HalfOf(half, k - 1) + HalfOf(half, k)];
        assert HalfTimes(info, bits)[1..] == d + one;
        RunAppend(Start(), d, one, half);
        OverrunStays(HalfOf(half, k - 1) + HalfOf(half, k), half);
        assert bits == init + [!init[k - 1]];
        if Decoding6(m, init) { OtherBit6(m, init, half); }
      }
    }
  }

  lemma NothingRun6(bits: seq<bool>, half: nat)
    requires |bits| == 1 && bits[0]
    ensures Decoding6(Drive(Start(), [], half), bits)
  {
  }

  /** At the end everything is written, unless there is no room for the last bit and its second half. */
  ghost predicate Complete6(m: Machine, bits: seq<bool>) {
    m.Running? && |m.temp| == MAX_BITS && m.rc6 == (|bits| >= 5) && m.bitcount == |bits| <= MAX_BITS && m.temp[..m.bitcount] == bits
  }

  ghost predicate Fits(bits: seq<bool>) { |bits| < MAX_BITS || (|bits| == MAX_BITS && bits[|bits| - 1]) }

  lemma EndsComplete6(m: Machine, bits: seq<bool>, half: nat)
    requires half > 0 && Decoding6(m, bits)
    ensures var e := End(if bits[|bits| - 1] then m else Advance(Write(m), half, half), false);
      if Fits(bits) then Complete6(e, bits) else e == Overrun
  {
    hide Near;
    NearThirds(half);
    var w := Write(m);
    if w.Running? { assert w.temp[..|bits|] == bits; }
  }

  lemma MachineDecodes6(info: CodeInfo, half: nat, bits: seq<bool>)
    requires LongFifth(info, half) && |bits| > 0 && bits[0]
    ensures var data := BiphaseTimes(info, bits);
      && |data| > 0 && data[0] == half
      && var e := End(Drive(Start(), data[1..], half), false);
         if Fits(bits) then Complete6(e, bits) else e == Overrun
  {
    hide HalfTimes, Advance, Write, Drive, Decoding6, End, Complete6, BiphaseTimes;
    MachineFollows6(info, half, bits);
    EndTimes6(info, half, bits);
    var d := HalfTimes(info, bits)[1..];
    var m := Drive(Start(), d, half);
    if bits[|bits| - 1] {
      assert BiphaseTimes(info, bits)[1..] == d;
    } else {
      assert BiphaseTimes(info, bits)[1..] == d + [half];
      RunAppend(Start(), d, [half], half);
    }
    if Decoding6(m, bits) {
      EndsComplete6(m, bits, half);
    } else {
      OverrunStays(half, half);
      EndOverrun6();
    }
  }

  lemma EndOverrun6()
    ensures End(Overrun, false) == Overrun
  {
  }

  // ---- the lengths ----------------------------------------------------------------

  ghost predicate UpToThree(data: seq<nat>, half: nat, dbl: nat, tpl: nat) {
    forall i :: 0 <= i < |data| ==> data[i] in {half, dbl, tpl}
  }

  /** Three lengths that are taken for one half, for two and for three. */
  ghost predicate Thrice(half: nat, dbl: nat, tpl: nat) {
    && 0 < half < dbl < tpl && Near(dbl, 2 * half, 2) && Near(dbl, 2 * half, 3) && !Near(dbl, 3 * half, 2)
    && Near(tpl, 3 * half, 2) && !Near(tpl, 2 * half, 3) && !Near(dbl, half, 3) && !Near(tpl, half, 3)
  }

  lemma WholeHalves(half: nat)
    requires half > 0
    ensures Thrice(half, 2 * half, 3 * half)
  {
  }

  lemma {:induction false} TimesUpToThree(info: CodeInfo, half: nat, bits: seq<bool>)
    requires LongFifth(info, half) && |bits| > 0
    ensures UpToThree(HalfTimes(info, bits), half, 2 * half, 3 * half)
  {
    hide HalfTimes;
    if |bits| == 1 {
      FirstTime6(info, half, bits);
    } else {
      TimesUpToThree(info, half, bits[..|bits| - 1]);
      NextTimes6(info, half, bits);
    }
  }

  // At most three different lengths, and something in the first slot as soon as there is one.
  ghost predicate Few(l: Lengths, half: nat, dbl: nat, tpl: nat) {
    && Slots(l) && l.count <= 3
    && (forall i :: 0 <= i < 5 ==> if i < l.count then l.times[i] in {half, dbl, tpl} else l.times[i] == 0)
    && (forall i, j :: 0 <= i < j < l.count ==> l.times[i] != l.times[j])
  }

  lemma NotedFew(l: Lengths, half: nat, dbl: nat, tpl: nat, t: nat)
    requires 0 < half < dbl < tpl && Few(l, half, dbl, tpl) && t in {half, dbl, tpl}
    ensures SlotFor(l.times, t, 0) < 4 && Few(Noted(l, t), half, dbl, tpl) && Noted(l, t).count > 0
    ensures Noted(l, t).times[0] == if l.count > 0 then l.times[0] else t
  {
    var s := FirstSlot(l.times, t, 0);
    if l.count == 3 { OneOfThree(l.times[0], l.times[1], l.times[2], half, dbl, tpl, t); }
  }

  lemma OneOfThree(a: nat, b: nat, c: nat, half: nat, dbl: nat, tpl: nat, t: nat)
    requires a in {half, dbl, tpl} && b in {half, dbl, tpl} && c in {half, dbl, tpl}
    requires a != b && a != c && b != c && t in {half, dbl, tpl}
    ensures t in {a, b, c}
  {
  }

  lemma {:induction false} TallyFew(data: seq<nat>, half: nat, dbl: nat, tpl: nat)
    requires 0 < half < dbl < tpl && UpToThree(data, half, dbl, tpl)
    ensures var t := TallyOf(data);
      && t.Tally? && Few(t.highs, half, dbl, tpl) && Few(t.lows, half, dbl, tpl)
      && (|data| > 0 ==> t.highs.count > 0 && t.highs.times[0] == data[0])
  {
    hide Noted, SlotFor, Few;
    if |data| > 0 {
      var k := |data| - 1;
      TallyFew(data[..k], half, dbl, tpl);
      var so := TallyOf(data[..k]);
      if k % 2 == 0 { NotedFew(so.highs, half, dbl, tpl, data[k]); } else { NotedFew(so.lows, half, dbl, tpl, data[k]); }
    } else {
      NothingFew(half, dbl, tpl);
    }
  }

  lemma NothingFew(half: nat, dbl: nat, tpl: nat)
    ensures Few(NONE, half, dbl, tpl)
  {
  }

  lemma FewSorted(l: Lengths, half: nat, dbl: nat, tpl: nat)
    requires 0 < half < dbl < tpl && Few(l, half, dbl, tpl) && l.count > 0
    ensures Sorted(l).times[0] in {half, dbl, tpl} && (l.times[0] == half ==> Sorted(l).times[0] == half)
  {
    PassesSort(l.times, l.count);
    hide Passes;
    var r := Sorted(l).times;
    assert multiset(r) == multiset(l.times);
    assert r[0] in multiset(r) && l.times[0] in multiset(r);
    assert r[0] > 0;
  }

  /** The guard of the half-bit machine: the lengths of pulses and spaces are those of a biphase or of an RC-6 code. */
  ghost predicate RightShape(data: seq<nat>) {
    var t := TallyOf(data);
    t.Tally? && t.highs.count > 0 && t.lows.count > 0
    && (BiphaseShape(Sorted(t.highs), Sorted(t.lows)) || Rc6Shape(Sorted(t.highs), Sorted(t.lows)))
  }

  // Whatever the shortest space, half a bit is what the shortest pulse says.
  lemma PulseWidth(half: nat, dbl: nat, tpl: nat, low: nat)
    requires Thrice(half, dbl, tpl) && low in {half, dbl, tpl}
    ensures ShortPulse(half, low) == half
  {
  }

  lemma SortedReads(data: seq<nat>, h: Lengths, l: Lengths, half: nat, rx: CodeInfo) returns (e: Encoding)
    requires Slots(h) && Slots(l) && |data| > 0 && (BiphaseShape(h, l) || Rc6Shape(h, l))
    requires ShortPulse(h.times[0], l.times[0]) == half && !Far(data[0], half, 3)
    ensures var r, m := DecodeSorted(data, h, l, 16, rx), BiphaseData(data, half);
      match m
      case NotBiphase => r.Decoded? ==> !IsBiphase(r.info.encoding)
      case Overrun => r == OutOfBounds
      case Running(temp, bitcount, _, _, _, rc6) =>
        && (rc6 ==> e == RC6)
        && r == Done(temp, bitcount, 16, rx.(one0 := half, one1 := half, zero0 := half, zero1 := half, encoding := e))
  {
    hide Near, Far, BiphaseShape, Rc6Shape, ShortPulse, BiphaseData, CodeBytes, NotBiphaseData, StartSpace;
    NotBiphaseIsOther(data, h, l, rx.(one0 := half, one1 := half, zero0 := half, zero1 := half));
    var m := BiphaseData(data, half);
    e := if m.Running? then BiphaseEncoding(if BiphaseShape(h, l) then Biphase else RC6, m, half, StartSpace(data, half, 0)) else RC6;
  }

  /** What the machine makes of such times. */
  lemma MachineReads(data: seq<nat>, half: nat, dbl: nat, tpl: nat, rx: CodeInfo) returns (e: Encoding)
    requires Thrice(half, dbl, tpl) && UpToThree(data, half, dbl, tpl) && |data| > 0 && data[0] == half && RightShape(data)
    ensures var r, m := Decode(data, 16, rx), BiphaseData(data, half);
      match m
      case NotBiphase => r.Decoded? ==> !IsBiphase(r.info.encoding)
      case Overrun => r == OutOfBounds
      case Running(temp, bitcount, _, _, _, rc6) =>
        && (rc6 ==> e == RC6)
        && r == Done(temp, bitcount, 16, rx.(one0 := half, one1 := half, zero0 := half, zero1 := half, encoding := e))
  {
    hide TallyOf, Passes, Near, Far, BiphaseShape, Rc6Shape, ShortPulse, BiphaseData, CodeBytes, NotBiphaseData, Few, DecodeSorted;
    TallyFew(data, half, dbl, tpl);
    var t := TallyOf(data);
    FewSorted(t.highs, half, dbl, tpl);
    FewSorted(t.lows, half, dbl, tpl);
    PulseWidth(half, dbl, tpl, Sorted(t.lows).times[0]);
    NearThirds(half);
    e := SortedReads(data, Sorted(t.highs), Sorted(t.lows), half, rx);
  }

  lemma WrongShape(data: seq<nat>, rx: CodeInfo)
    requires !RightShape(data)
    ensures var r := Decode(data, 16, rx); r.Decoded? ==> !IsBiphase(r.info.encoding)
  {
    hide TallyOf, Passes, BiphaseShape, Rc6Shape, NotBiphaseData;
    var t := TallyOf(data);
    if t.Tally? && |data| > 0 { NotBiphaseIsOther(data, Sorted(t.highs), Sorted(t.lows), rx); }
  }

  // ---- the round trip -------------------------------------------------------------

  /** A code that begins with a one, whose lengths have the right shape and whose first double time is a space, comes
      back with 5 to 127 bits, or 128 of which the last is a one; a longer one does not fit the buffer. */
  lemma Rc6RoundTrip(info: CodeInfo, half: nat, bits: seq<bool>, rx: CodeInfo)
    requires LongFifth(info, half) && |bits| >= 5 && bits[0]
    requires RightShape(BiphaseTimes(info, bits)) && !StartSpace(BiphaseTimes(info, bits), half, 0)
    ensures Decode(BiphaseTimes(info, bits), 16, rx)
         == if Fits(bits) then
              Decoded.Decoded(CodeBytes(bits), rx.(one0 := half, one1 := half, zero0 := half, zero1 := half, bitCount := |bits|, encoding := RC6))
            else OutOfBounds
  {
    hide BiphaseTimes, Drive, End, CodeBytes, Decode, RightShape, StartSpace, HalfTimes, Complete6, Thrice;
    AllTimes(info, half, bits);
    MachineDecodes6(info, half, bits);
    WholeHalves(half);
    DecodedAsRc6(BiphaseTimes(info, bits), half, 2 * half, 3 * half, bits, rx);
  }

  /** Times of three lengths are decoded as the machine reads them. */
  lemma DecodedAsRc6(data: seq<nat>, half: nat, dbl: nat, tpl: nat, bits: seq<bool>, rx: CodeInfo)
    requires Thrice(half, dbl, tpl) && UpToThree(data, half, dbl, tpl) && |data| > 0 && data[0] == half && |bits| >= 5
    requires RightShape(data) && !StartSpace(data, half, 0)
    requires var e := End(Drive(Start(), data[1..], half), false); if Fits(bits) then Complete6(e, bits) else e == Overrun
    ensures Decode(data, 16, rx)
         == if Fits(bits) then
              Decoded.Decoded(CodeBytes(bits), rx.(one0 := half, one1 := half, zero0 := half, zero1 := half, bitCount := |bits|, encoding := RC6))
            else OutOfBounds
  {
    hide Drive, End, CodeBytes, Decode, RightShape, StartSpace, Thrice;
    var e := MachineReads(data, half, dbl, tpl, rx);
  }

  lemma AllTimes(info: CodeInfo, half: nat, bits: seq<bool>)
    requires LongFifth(info, half) && |bits| > 0
    ensures UpToThree(BiphaseTimes(info, bits), half, 2 * half, 3 * half)
  {
    hide HalfTimes, BiphaseTimes;
    TimesUpToThree(info, half, bits);
    EndTimes6(info, half, bits);
  }

  // ---- when the first double time is not a space ----------------------------------

  lemma {:induction false} TimesOfPrefix(info: CodeInfo, half: nat, bits: seq<bool>, j: nat) returns (rest: seq<nat>)
    requires LongFifth(info, half) && 0 < j <= |bits|
    ensures BiphaseTimes(info, bits) == HalfTimes(info, bits[..j]) + rest
    decreases |bits| - j
  {
    hide HalfTimes, BiphaseTimes;
    if j == |bits| {
      EndTimes6(info, half, bits);
      assert bits[..j] == bits;
      rest := if bits[j - 1] then [] else [half];
    } else {
      var more := TimesOfPrefix(info, half, bits, j + 1);
      var b := bits[..j + 1];
      assert b[..j] == bits[..j];
      NextTimes6(info, half, b);
      rest := (if b[j] == b[j - 1] then [HalfOf(half, j - 1), HalfOf(half, j)] else [HalfOf(half, j - 1) + HalfOf(half, j)]) + more;
    }
  }

  function Shorts(half: nat, n: nat): (t: seq<nat>) { seq(n, i => half) }

  lemma {:induction false} LeadingOnes(info: CodeInfo, half: nat, bits: seq<bool>)
    requires LongFifth(info, half) && 0 < |bits| <= 4 && forall i :: 0 <= i < |bits| ==> bits[i]
    ensures HalfTimes(info, bits) == Shorts(half, 2 * |bits| - 1)
  {
    hide HalfTimes;
    if |bits| == 1 {
      FirstTime6(info, half, bits);
    } else {
      LeadingOnes(info, half, bits[..|bits| - 1]);
      NextTimes6(info, half, bits);
    }
  }

  lemma {:induction false} DoubleSpaceFound(data: seq<nat>, half: nat, i: nat, j: nat)
    requires half > 0 && i <= j < |data| && j % 2 == 1 && data[j] == 2 * half && forall k :: i <= k < j ==> data[k] == half
    ensures !StartSpace(data, half, i)
    decreases j - i
  {
    hide Near;
    NearThirds(half);
    if i < j { DoubleSpaceFound(data, half, i + 1, j); }
  }

  // A zero before the long bit is seen as a double space.
  lemma EarlyZero(info: CodeInfo, half: nat, bits: seq<bool>, k: nat)
    requires LongFifth(info, half) && 0 < k < 4 && k < |bits| && !bits[k] && forall i :: 0 <= i < k ==> bits[i]
    ensures !StartSpace(BiphaseTimes(info, bits), half, 0)
  {
    hide HalfTimes, BiphaseTimes;
    var rest := TimesOfPrefix(info, half, bits, k + 1);
    var b := bits[..k + 1];
    NextTimes6(info, half, b);
    assert b[..k] == bits[..k];
    LeadingOnes(info, half, bits[..k]);
    DoubleSpaceFound(BiphaseTimes(info, bits), half, 0, 2 * k - 1);
  }

  // Half a bit late, after n short times.
  ghost predicate Late(m: Machine, n: nat) {
    && m.Running? && |m.temp| == MAX_BITS && m.bitcount == (n + 1) / 2 && m.halfbit == (n % 2 == 0)
    && m.bit && !m.rc6temp && forall i :: n / 2 < i < MAX_BITS ==> !m.temp[i]
  }

  lemma {:induction false} ShortsAreLate(half: nat, n: nat)
    requires half > 0 && n <= 8
    ensures Late(Drive(Start(), Shorts(half, n), half), n)
  {
    hide Near;
    NearThirds(half);
    if n > 0 {
      ShortsAreLate(half, n - 1);
      assert Shorts(half, n)[..n - 1] == Shorts(half, n - 1);
    }
  }

  // Bit 5 has been left a zero.
  ghost predicate FifthLost(m: Machine) { m.Running? ==> |m.temp| == MAX_BITS && m.bitcount > 5 && !m.temp[5] }

  lemma LossStep(m: Machine, t: nat, pulse: nat)
    requires Buffered(m)
    ensures var e := Advance(Write(m), t, pulse); (m.NotBiphase? ==> e.NotBiphase?) && (FifthLost(m) ==> FifthLost(e))
  {
    hide Near;
  }

  lemma {:induction false} LossStays(a: seq<nat>, b: seq<nat>, pulse: nat)
    ensures var m, e := Drive(Start(), a, pulse), Drive(Start(), a + b, pulse);
      (m.NotBiphase? ==> e.NotBiphase?) && (FifthLost(m) ==> FifthLost(e))
  {
    hide Advance, Write, FifthLost;
    if |b| == 0 {
      assert a + b == a;
    } else {
      LossStays(a, b[..|b| - 1], pulse);
      assert (a + b)[..|a + b| - 1] == a + b[..|b| - 1];
      LossStep(Drive(Start(), a + b[..|b| - 1], pulse), b[|b| - 1], pulse);
    }
  }

  // The long bit, to a machine that is late.
  lemma LateAtZero(half: nat)
    requires half > 0
    ensures Drive(Start(), Shorts(half, 7) + [3 * half], half).NotBiphase?
  {
    hide Near, Drive;
    NearThirds(half);
    ShortsAreLate(half, 7);
    RunAppend(Start(), Shorts(half, 7), [3 * half], half);
  }

  lemma LateAtOne(half: nat)
    requires half > 0
    ensures var m := Drive(Start(), Shorts(half, 8) + [2 * half], half);
      m.Running? && |m.temp| == MAX_BITS && m.bitcount == 5 && !m.bit && m.halfbit && !m.rc6temp && !m.temp[5]
  {
    hide Near, Drive;
    NearThirds(half);
    ShortsAreLate(half, 8);
    RunAppend(Start(), Shorts(half, 8), [2 * half], half);
  }

  lemma LateBehindOne(half: nat)
    requires half > 0
    ensures Drive(Start(), Shorts(half, 8) + [2 * half] + [3 * half], half).NotBiphase?
    ensures FifthLost(Drive(Start(), Shorts(half, 8) + [2 * half] + [2 * half, half], half))
  {
    hide Near, Drive;
    NearThirds(half);
    LateAtOne(half);
    var d := Shorts(half, 8) + [2 * half];
    RunAppend(Start(), d, [3 * half], half);
    RunAppend(Start(), d, [2 * half, half], half);
  }

  // What the machine makes of all times when it starts half a bit late.
  lemma FourOnes(info: CodeInfo, half: nat, bits: seq<bool>)
    requires LongFifth(info, half) && |bits| >= 5 && bits[0] && bits[1] && bits[2] && bits[3]
    ensures var m := Drive(Start(), BiphaseTimes(info, bits), half);
      || m.NotBiphase?
      || (|bits| == 5 && m.Running? && m.bitcount == 5 && !m.bit && m.halfbit)
      || (|bits| > 5 && bits[5] && FifthLost(m))
  {
    hide HalfTimes, BiphaseTimes, Drive, Near;
    var b := bits[..5];
    assert b[..4] == bits[..4];
    LeadingOnes(info, half, bits[..4]);
    NextTimes6(info, half, b);
    if !bits[4] {
      var rest := TimesOfPrefix(info, half, bits, 5);
      LateAtZero(half);
      LossStays(Shorts(half, 7) + [3 * half], rest, half);
    } else {
      assert HalfTimes(info, b) == Shorts(half, 8) + [2 * half];
      if |bits| == 5 {
        EndTimes6(info, half, bits);
        assert b == bits && BiphaseTimes(info, bits) == HalfTimes(info, b);
        LateAtOne(half);
      } else {
        FifthOne(info, half, bits);
      }
    }
  }

  lemma FifthOne(info: CodeInfo, half: nat, bits: seq<bool>)
    requires LongFifth(info, half) && |bits| > 5 && bits[4] && HalfTimes(info, bits[..5]) == Shorts(half, 8) + [2 * half]
    ensures var m := Drive(Start(), BiphaseTimes(info, bits), half); m.NotBiphase? || (bits[5] && FifthLost(m))
  {
    hide HalfTimes, BiphaseTimes, Drive;
    var c, d := bits[..6], Shorts(half, 8) + [2 * half];
    assert c[..5] == bits[..5];
    NextTimes6(info, half, c);
    var rest := TimesOfPrefix(info, half, bits, 6);
    LateBehindOne(half);
    if bits[5] {
      LossStays(d + [2 * half, half], rest, half);
    } else {
      LossStays(d + [3 * half], rest, half);
    }
  }

  // ---- exactly which codes come back ----------------------------------------------

  ghost predicate ComesBack(info: CodeInfo, bits: seq<bool>, rx: CodeInfo)
    requires |bits| > 0
  {
    var r := Decode(BiphaseTimes(info, bits), 16, rx);
    r.Decoded? && r.info.encoding == RC6 && r.info.bitCount == |bits| && r.code == CodeBytes(bits)
  }

  lemma LateIsLost(info: CodeInfo, half: nat, bits: seq<bool>, rx: CodeInfo)
    requires LongFifth(info, half) && |bits| >= 5 && bits[0]
    requires RightShape(BiphaseTimes(info, bits)) && StartSpace(BiphaseTimes(info, bits), half, 0)
    ensures !ComesBack(info, bits, rx)
  {
    hide BiphaseTimes, Drive, CodeBytes, Decode, RightShape, StartSpace, HalfTimes;
    if !bits[1] { EarlyZero(info, half, bits, 1); }
    else if !bits[2] { EarlyZero(info, half, bits, 2); }
    else if !bits[3] { EarlyZero(info, half, bits, 3); }
    else {
      var data := BiphaseTimes(info, bits);
      AllTimes(info, half, bits);
      MachineDecodes6(info, half, bits);
      FourOnes(info, half, bits);
      WholeHalves(half);
      var e := MachineReads(data, half, 2 * half, 3 * half, rx);
      var m := BiphaseData(data, half);
      if m.Running? && m.bitcount == |bits| <= MAX_BITS {
        assert |bits| > 5 && !m.temp[5];
        BitsOfBytes(m.temp[..m.bitcount]);
        BitsOfBytes(bits);
        assert m.temp[..m.bitcount][5] != bits[5];
      }
    }
  }

  /** Exactly these codes come back as RC-6 codes: the first bit is a one, the lengths have the right shape, the first
      double time is a space, and there are at most 127 bits, or 128 with the last one a one. */
  lemma ComesBackIff(info: CodeInfo, half: nat, bits: seq<bool>, rx: CodeInfo)
    requires LongFifth(info, half) && |bits| >= 5
    ensures var data := BiphaseTimes(info, bits);
      ComesBack(info, bits, rx) <==> bits[0] && RightShape(data) && !StartSpace(data, half, 0) && Fits(bits)
  {
    hide BiphaseTimes, Decode, CodeBytes, CodeBit, RightShape, StartSpace;
    var data := BiphaseTimes(info, bits);
    if !bits[0] {
      BiphaseCodesBeginWithOne(data, rx);
      BitsOfBytes(bits);
      assert CodeBits(CodeBytes(bits), |bits|)[0] == bits[0];
    } else if !RightShape(data) {
      WrongShape(data, rx);
    } else if StartSpace(data, half, 0) {
      LateIsLost(info, half, bits, rx);
    } else {
      Rc6RoundTrip(info, half, bits, rx);
    }
  }

  lemma {:induction false} DoublePulseFound(data: seq<nat>, half: nat, i: nat, j: nat)
    requires half > 0 && i <= j < |data| && j % 2 == 0 && data[j] == 2 * half && forall k :: i <= k < j ==> data[k] == half
    ensures StartSpace(data, half, i)
    decreases j - i
  {
    hide Near;
    NearThirds(half);
    if i < j { DoublePulseFound(data, half, i + 1, j); }
  }

  /** A code that begins with five ones never comes back: its first double time is the first half of the long one. */
  lemma FiveOnesLost(info: CodeInfo, half: nat, bits: seq<bool>, rx: CodeInfo)
    requires LongFifth(info, half) && |bits| >= 5 && bits[0] && bits[1] && bits[2] && bits[3] && bits[4]
    ensures !ComesBack(info, bits, rx)
  {
    hide BiphaseTimes, HalfTimes, RightShape, StartSpace, ComesBack;
    var b := bits[..5];
    assert b[..4] == bits[..4];
    LeadingOnes(info, half, bits[..4]);
    NextTimes6(info, half, b);
    var rest := TimesOfPrefix(info, half, bits, 5);
    DoublePulseFound(BiphaseTimes(info, bits), half, 0, 8);
    ComesBackIff(info, half, bits, rx);
  }
}
