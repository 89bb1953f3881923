/** decode_data with its loops and buffers. */
module IrDecodeData {
  import opened IrCode
  import opened Words
  import opened IrDecoder

  // ---- the different lengths ------------------------------------------------------

  /** COUNT_TIMES for the four slots in turn. */
  method CountTime(times: array<nat>, count: nat, t: nat) returns (ok: bool, newCount: nat)
    requires times.Length == 5
    modifies times
    ensures var l := Lengths(old(times[..]), count);
      && (ok <==> SlotFor(l.times, t, 0) < 4)
      && (ok ==> Lengths(times[..], newCount) == Noted(l, t))
      && (!ok ==> times[..] == l.times)
  {
    ghost var l := Lengths(times[..], count);
    newCount := count;
    for index := 0 to 4
      invariant times[..] == l.times && newCount == count
      invariant SlotFor(l.times, t, 0) == SlotFor(l.times, t, index)
    {
      if times[index] == t || times[index] == 0 {
        times[index] := t;
        if count < index + 1 {
          newCount := index + 1;
        }
        return true, newCount;
      }
    }
    ok := false;
  }

  method CountTimes(data: seq<nat>, highs: array<nat>, lows: array<nat>) returns (ok: bool, highcount: nat, lowcount: nat)
    requires highs.Length == lows.Length == 5 && highs != lows
    requires highs[..] == NONE.times && lows[..] == NONE.times
    modifies highs, lows
    ensures ok <==> TallyOf(data).Tally?
    ensures ok ==> TallyOf(data) == Tally(Lengths(highs[..], highcount), Lengths(lows[..], lowcount))
  {
    hide Noted, SlotFor;
    highcount, lowcount := 0, 0;
    for i := 0 to |data|
      invariant TallyOf(data[..i]) == Tally(Lengths(highs[..], highcount), Lengths(lows[..], lowcount))
    {
      assert data[..i + 1][..i] == data[..i];
      if i % 2 == 0 {
        ok, highcount := CountTime(highs, highcount, data[i]);
      } else {
        ok, lowcount := CountTime(lows, lowcount, data[i]);
      }
      if !ok {
        TooManyStays(data, i + 1);
        return;
      }
    }
    assert data[..|data|] == data;
    ok := true;
  }

  lemma {:induction false} TooManyStays(data: seq<nat>, n: nat)
    requires n <= |data| && TallyOf(data[..n]).TooMany?
    ensures TallyOf(data).TooMany?
    decreases |data| - n
  {
    if n == |data| {
      assert data[..n] == data;
    } else {
      assert data[..n + 1][..n] == data[..n];
      TooManyStays(data, n + 1);
    }
  }

  /** ORDER_TIMES. */
  method OrderTime(times: array<nat>, index: nat)
    requires times.Length == 5 && index < 4
    modifies times
    ensures times[..] == Swapped(old(times[..]), index)
  {
    if times[index + 1] != 0 && times[index + 1] < times[index] {
      times[index], times[index + 1] := times[index + 1], times[index];
    }
  }

  method OrderTimes(highs: array<nat>, lows: array<nat>)
    requires highs.Length == lows.Length == 5 && highs != lows
    modifies highs, lows
    ensures highs[..] == Passes(old(highs[..]), PASSES) && lows[..] == Passes(old(lows[..]), PASSES)
  {
    hide Swapped;
    var i := 0;
    while i < PASSES
      invariant i <= PASSES
      invariant highs[..] == Passes(old(highs[..]), i) && lows[..] == Passes(old(lows[..]), i)
    {
      OrderTime(highs, 0);
      OrderTime(highs, 1);
      OrderTime(highs, 2);
      OrderTime(highs, 3);
      OrderTime(lows, 0);
      OrderTime(lows, 1);
      OrderTime(lows, 2);
      OrderTime(lows, 3);
      i := i + 1;
    }
  }

  // ---- biphase --------------------------------------------------------------------

  method FindStartSpace(data: seq<nat>, pulse: nat) returns (startspace: bool)
    ensures startspace == StartSpace(data, pulse, 0)
  {
    hide Near;
    startspace := true;
    for i := 0 to |data|
      invariant startspace && StartSpace(data, pulse, 0) == StartSpace(data, pulse, i)
    {
      if Near(data[i], 2 * pulse, 3) {
        startspace := i % 2 == 0;
        break;
      }
    }
  }

  datatype Verdict = Biphased | NotBiphased | OutOfRange

  /** What one time does to the flags and to the number of bits. */
  method HalfBit(t: nat, pulse: nat, bitcount0: nat, bit0: bool, halfbit0: bool, rc6temp0: bool, rc60: bool, ghost temp: seq<bool>)
    returns (ok: bool, bitcount: nat, bit: bool, halfbit: bool, rc6temp: bool, rc6: bool)
    requires |temp| == MAX_BITS
    ensures Advance(Running(temp, bitcount0, bit0, halfbit0, rc6temp0, rc60), t, pulse)
         == if ok then Running(temp, bitcount, bit, halfbit, rc6temp, rc6) else NotBiphase
  {
    hide Near;
    bitcount, bit, halfbit, rc6temp, rc6 := bitcount0, bit0, halfbit0, rc6temp0, rc60;
    ok := true;
    // three half bits in one occur in RC-6 only
    if Near(t, 3 * pulse, 2) {
      if !halfbit || (bitcount != 3 && bitcount != 4) {
        ok := false;
        return;
      }
      rc6temp := !rc6temp;
      bit := !bit;
      bitcount := bitcount + 1;
      rc6 := true;
    } else if Near(t, 2 * pulse, 2) {
      if !halfbit {
        if bitcount == 4 {
          halfbit := true;
          rc6temp := true;
          rc6 := true;
        } else {
          ok := false;
          return;
        }
      } else {
        if rc6temp {
          rc6temp := false;
          halfbit := false;
        } else {
          bit := !bit;
        }
        bitcount := bitcount + 1;
      }
    } else {
      if halfbit {
        bitcount := bitcount + 1;
      }
      halfbit := !halfbit;
    }
  }

  lemma DriveNext(m: Machine, d: seq<nat>, n: nat, pulse: nat)
    requires Buffered(m) && n < |d|
    ensures Drive(m, d[..n + 1], pulse) == Advance(Write(Drive(m, d[..n], pulse)), d[n], pulse)
  {
    assert d[..n + 1][..n] == d[..n];
  }

  /** The decode loop and what follows it, on a cleared buffer. */
  method DecodeBiphase(data: seq<nat>, pulse: nat, startspace: bool, decodeTemp: array<bool>)
    returns (verdict: Verdict, bitcount: nat, rc6: bool)
    requires |data| > 0 && decodeTemp.Length == MAX_BITS && decodeTemp[..] == seq(MAX_BITS, i => false)
    modifies decodeTemp
    ensures match End(Drive(Start(), if startspace then data else data[1..], pulse), startspace)
      case Overrun => verdict == OutOfRange
      case NotBiphase => verdict == NotBiphased
      case Running(temp, n, _, _, _, six) => verdict == Biphased && decodeTemp[..] == temp && bitcount == n && rc6 == six
  {
    hide Near, Drive, Advance;
    ghost var d := if startspace then data else data[1..];
    var bit, halfbit, rc6temp := true, true, false;
    bitcount, rc6 := 0, false;
    var i := if startspace then 0 else 1;
    ghost var n: nat := 0;
    DriveNothing(Start(), d, pulse);
    while i < |data|
      invariant n <= |d| && i == n + |data| - |d|
      invariant Drive(Start(), d[..n], pulse) == Running(decodeTemp[..], bitcount, bit, halfbit, rc6temp, rc6)
    {
      DriveNext(Start(), d, n, pulse);
      if bitcount >= MAX_BITS {
        AdvanceStuck(data[i], pulse);
        StopsForGood(Start(), d, n + 1, pulse);
        return OutOfRange, bitcount, rc6;
      }
      decodeTemp[bitcount] := decodeTemp[bitcount] || bit;
      assert Write(Drive(Start(), d[..n], pulse)) == Running(decodeTemp[..], bitcount, bit, halfbit, rc6temp, rc6);
      var ok;
      ok, bitcount, bit, halfbit, rc6temp, rc6 := HalfBit(data[i], pulse, bitcount, bit, halfbit, rc6temp, rc6, decodeTemp[..]);
      if !ok {
        StopsForGood(Start(), d, n + 1, pulse);
        return NotBiphased, bitcount, rc6;
      }
      i := i + 1;
      n := n + 1;
    }
    assert d[..n] == d;
    if bitcount >= MAX_BITS {
      return OutOfRange, bitcount, rc6;
    }
    decodeTemp[bitcount] := decodeTemp[bitcount] || bit;
    if (halfbit && !bit) || (!startspace && bit) {
      bitcount := bitcount + 1;
    }
    verdict := Biphased;
  }

  lemma DriveNothing(m: Machine, d: seq<nat>, pulse: nat)
    requires Buffered(m)
    ensures Drive(m, d[..0], pulse) == m
  {
  }

  lemma AdvanceStuck(t: nat, pulse: nat)
    ensures Advance(Overrun, t, pulse) == Overrun
  {
  }

  lemma {:induction false} StopsForGood(m: Machine, data: seq<nat>, n: nat, pulse: nat)
    requires Buffered(m) && n <= |data| && !Drive(m, data[..n], pulse).Running?
    ensures Drive(m, data, pulse) == Drive(m, data[..n], pulse)
    decreases |data| - n
  {
    if n == |data| {
      assert data[..n] == data;
    } else {
      assert data[..n + 1][..n] == data[..n];
      StopsForGood(m, data, n + 1, pulse);
    }
  }

  // ---- the other encodings --------------------------------------------------------

  /** The loops of the two other encodings: one bit for every second time, from position from on. */
  method DecodeMatches(data: seq<nat>, from: nat, n: nat, one: nat, decodeTemp: array<bool>) returns (ok: bool, bitcount: nat)
    requires n > 0 ==> from + 2 * (n - 1) < |data|
    requires decodeTemp.Length == MAX_BITS && decodeTemp[..] == seq(MAX_BITS, i => false)
    modifies decodeTemp
    ensures match Filled(Matches(data, from, n, one))
      case Running(temp, count, _, _, _, _) => ok && decodeTemp[..] == temp && bitcount == count
      case _ => !ok
  {
    ghost var bits := Matches(data, from, n, one);
    bitcount := 0;
    var i := from;
    while bitcount < n
      invariant bitcount <= n && i == from + 2 * bitcount
      invariant forall k :: MAX_BITS <= k < bitcount ==> !bits[k]
      invariant forall k :: 0 <= k < MAX_BITS ==> decodeTemp[k] == (k < bitcount && bits[k])
    {
      if data[i] == one {
        if bitcount >= MAX_BITS {
          assert bits[bitcount];
          return false, bitcount;
        }
        decodeTemp[bitcount] := true;
      }
      assert bits[bitcount] == (data[i] == one);
      bitcount := bitcount + 1;
      i := i + 2;
    }
    ok := true;
    assert decodeTemp[..] == seq(MAX_BITS, k requires 0 <= k < MAX_BITS => k < n && bits[k]);
  }

  /** The bit string in bytes, highest bit first, at the end of the output. */
  method FlipBits(decodeTemp: array<bool>, bitcount: nat) returns (decodedData: seq<Byte>)
    requires decodeTemp.Length == MAX_BITS && bitcount <= MAX_BITS
    ensures decodedData == CodeBytes(decodeTemp[..bitcount])
  {
    var outlength := ByteCount(bitcount);
    ghost var bits := decodeTemp[..bitcount];
    decodedData := seq(outlength, c => seq(8, k => false));
    var j: int, n: int := bitcount - 1, outlength * 8 - 1;
    for i := 0 to bitcount
      invariant j == bitcount - 1 - i && n == outlength * 8 - 1 - i && |decodedData| == outlength
      invariant forall c: nat, k: nat :: c < outlength && k < 8 ==> decodedData[c][k] == (8 * c + 7 - k > n && FlippedBit(bits, c, k))
    {
      ghost var before := decodedData;
      var c := n / 8;
      FlippedPlace(bits, i);
      var row: Byte := decodedData[c][i % 8 := decodedData[c][i % 8] || decodeTemp[j]];
      decodedData := decodedData[c := row];
      forall c': nat, k: nat | c' < outlength && k < 8
        ensures decodedData[c'][k] == (8 * c' + 7 - k > n - 1 && FlippedBit(bits, c', k))
      {
        if c' == c && k == i % 8 { assert 8 * c' + 7 - k == n; }
      }
      j, n := j - 1, n - 1;
    }
    forall c | 0 <= c < outlength ensures decodedData[c] == CodeBytes(bits)[c] {
      forall k | 0 <= k < 8 ensures decodedData[c][k] == CodeBytes(bits)[c][k] {
        assert decodedData[c][k] == (8 * c + 7 - k > n && FlippedBit(bits, c, k));
      }
    }
  }

  predicate FlippedBit(bits: seq<bool>, c: nat, k: nat)
    requires c < ByteCount(|bits|) && k < 8
  {
    8 * c + 7 - k >= Pad(|bits|) && bits[8 * c + 7 - k - Pad(|bits|)]
  }

  lemma FlippedPlace(bits: seq<bool>, i: nat)
    requires i < |bits|
    ensures var n := 8 * ByteCount(|bits|) - 1 - i;
      && 0 <= n / 8 < ByteCount(|bits|) && 8 * (n / 8) + 7 - i % 8 == n
      && FlippedBit(bits, n / 8, i % 8) == bits[|bits| - 1 - i]
  {
    var n := 8 * ByteCount(|bits|) - 1 - i;
    assert n == 8 * (ByteCount(|bits|) - 1 - i / 8) + (7 - i % 8);
  }

  // ---- decode_data ----------------------------------------------------------------

  /** The part behind the label done. */
  method Finish(decodeTemp: array<bool>, bitcount: nat, outlength: nat, info: CodeInfo) returns (r: Decoded)
    requires decodeTemp.Length == MAX_BITS && outlength <= MAX_BITS / 8
    ensures r == Done(decodeTemp[..], bitcount, outlength, info)
  {
    if outlength < ByteCount(bitcount) {
      return Failed;
    }
    if bitcount < 4 {
      return Failed;
    }
    ByteCountFits(bitcount, outlength);
    var decodedData := FlipBits(decodeTemp, bitcount);
    assert decodeTemp[..][..bitcount] == decodeTemp[..bitcount];
    r := Decoded.Decoded(decodedData, info.(bitCount := bitcount));
  }

  /** The part behind the label notbiphase. */
  method DecodeNotBiphase(data: seq<nat>, h: Lengths, l: Lengths, outlength: nat, info: CodeInfo) returns (r: Decoded)
    requires Slots(h) && Slots(l) && outlength <= MAX_BITS / 8 && |data| > 0
    ensures r == NotBiphaseData(data, h, l, outlength, info)
  {
    hide Filled, Matches, Done;
    var decodeTemp := new bool[MAX_BITS](i => false);
    assert decodeTemp[..] == seq(MAX_BITS, i => false);
    if h.count == 1 && l.count == 2 {
      var dataTimeZero, dataTimeOne := l.times[1], l.times[0];
      if l.times[1] > l.times[0] {
        dataTimeZero, dataTimeOne := l.times[0], l.times[1];
      }
      var ok, bitcount := DecodeMatches(data, 1, |data| / 2, dataTimeOne, decodeTemp);
      if !ok {
        return OutOfBounds;
      }
      r := Finish(decodeTemp, bitcount, outlength,
                  info.(one0 := h.times[0], one1 := dataTimeOne, zero0 := h.times[0], zero1 := dataTimeZero,
                        trail := data[|data| - 1], encoding := Space));
    } else if h.count == 2 && l.count == 1 {
      var dataTimeZero, dataTimeOne := h.times[1], h.times[0];
      if h.times[1] > h.times[0] {
        dataTimeZero, dataTimeOne := h.times[0], h.times[1];
      }
      var ok, bitcount := DecodeMatches(data, 0, (|data| + 1) / 2, dataTimeOne, decodeTemp);
      if !ok {
        return OutOfBounds;
      }
      r := Finish(decodeTemp, bitcount, outlength,
                  info.(one0 := dataTimeOne, one1 := l.times[0], zero0 := dataTimeZero, zero1 := l.times[0],
                        encoding := Pulse));
    } else {
      r := Failed;
    }
  }

  /** decode_data. */
  method DecodeData(data: seq<nat>, outlength: nat, info: CodeInfo) returns (r: Decoded)
    requires outlength <= MAX_BITS / 8
    ensures r == Decode(data, outlength, info)
  {
    hide TallyOf, Passes, BiphaseShape, Rc6Shape, Near, Far, NotBiphaseData, Done, Drive, End, StartSpace, ShortPulse;
    var highs, lows := new nat[5](i => 0), new nat[5](i => 0);
    assert highs[..] == NONE.times && lows[..] == NONE.times;
    var ok, highcount, lowcount := CountTimes(data, highs, lows);
    if !ok {
      return Failed;
    }
    OrderTimes(highs, lows);
    if lowcount == 0 || highcount == 0 || |data| == 0 {
      return Failed;
    }
    var h, l := Lengths(highs[..], highcount), Lengths(lows[..], lowcount);
    var shape := Biphase;
    if !BiphaseShape(h, l) {
      // RC-6 may show three lengths of one kind
      if !Rc6Shape(h, l) {
        r := DecodeNotBiphase(data, h, l, outlength, info);
        return;
      }
      shape := RC6;
    }
    var pulse := ShortPulse(h.times[0], l.times[0]);
    var timed := info.(one0 := pulse, one1 := pulse, zero0 := pulse, zero1 := pulse);
    if Far(data[0], pulse, 3) {
      r := DecodeNotBiphase(data, h, l, outlength, timed);
      return;
    }
    var startspace := FindStartSpace(data, pulse);
    var decodeTemp := new bool[MAX_BITS](i => false);
    assert decodeTemp[..] == seq(MAX_BITS, i => false);
    var verdict, bitcount, rc6 := DecodeBiphase(data, pulse, startspace, decodeTemp);
    match verdict
    case OutOfRange =>
      r := OutOfBounds;
    case NotBiphased =>
      r := DecodeNotBiphase(data, h, l, outlength, timed);
    case Biphased =>
      var encoding := if shape == RC6 || rc6 then RC6 else Biphase;
      if Near(pulse, 889, 2) && encoding != RC6 && startspace {
        encoding := RC5;
      }
      r := Finish(decodeTemp, bitcount, outlength, timed.(encoding := encoding));
  }
}
