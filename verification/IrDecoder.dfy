/** decode_data: what pulse and space times are taken for. Ratios of times are compared exactly. */
module IrDecoder {
  import opened IrCode
  import opened Words

  // ---- comparing times ------------------------------------------------------------

  function Gap(a: nat, b: nat): nat { if a < b then b - a else a - b }

  /** pdiff(a, b) < tenths / 10; with both zero the quotient is not a number. */
  predicate Near(a: nat, b: nat, tenths: nat) { a + b > 0 && 20 * Gap(a, b) < tenths * (a + b) }

  /** pdiff(a, b) > tenths / 10. */
  predicate Far(a: nat, b: nat, tenths: nat) { a + b > 0 && 20 * Gap(a, b) > tenths * (a + b) }

  // ---- the different lengths ------------------------------------------------------

  /** Up to four lengths in the order they were seen, then zeros. */
  datatype Lengths = Lengths(times: seq<nat>, count: nat)

  predicate Slots(l: Lengths) { |l.times| == 5 }

  const NONE: Lengths := Lengths([0, 0, 0, 0, 0], 0)

  /** The first slot from k on that is free or holds the time; 4 when there is none. */
  function SlotFor(times: seq<nat>, t: nat, k: nat): (s: nat)
    requires |times| == 5 && k <= 4
    ensures k <= s <= 4
    decreases 4 - k
  {
    if k == 4 || times[k] == t || times[k] == 0 then k else SlotFor(times, t, k + 1)
  }

  datatype Tally = TooMany | Tally(highs: Lengths, lows: Lengths)

  predicate Proper(t: Tally) { t.Tally? ==> Slots(t.highs) && Slots(t.lows) }

  function Noted(l: Lengths, t: nat): (r: Lengths)
    requires Slots(l) && SlotFor(l.times, t, 0) < 4
    ensures Slots(r)
  {
    var s := SlotFor(l.times, t, 0);
    Lengths(l.times[s := t], if l.count < s + 1 then s + 1 else l.count)
  }

  /** Pulses are at even positions, spaces at odd ones. */
  function TallyOf(data: seq<nat>): (t: Tally)
    ensures Proper(t)
  {
    if |data| == 0 then Tally(NONE, NONE)
    else
      var k, so := |data| - 1, TallyOf(data[..|data| - 1]);
      if so.TooMany? then TooMany
      else if k % 2 == 0 then
        if SlotFor(so.highs.times, data[k], 0) == 4 then TooMany else Tally(Noted(so.highs, data[k]), so.lows)
      else
        if SlotFor(so.lows.times, data[k], 0) == 4 then TooMany else Tally(so.highs, Noted(so.lows, data[k]))
  }

  /** ORDER_TIMES at one index. */
  function Swapped(times: seq<nat>, i: nat): (r: seq<nat>)
    requires |times| == 5 && i < 4
    ensures |r| == 5
  {
    if times[i + 1] != 0 && times[i + 1] < times[i] then times[i := times[i + 1]][i + 1 := times[i]] else times
  }

  function OnePass(times: seq<nat>): (r: seq<nat>)
    requires |times| == 5
    ensures |r| == 5
  {
    Swapped(Swapped(Swapped(Swapped(times, 0), 1), 2), 3)
  }

  function Passes(times: seq<nat>, n: nat): (r: seq<nat>)
    requires |times| == 5
    ensures |r| == 5
  {
    if n == 0 then times else OnePass(Passes(times, n - 1))
  }

  /** Two lengths are in order after one pass. */
  lemma OnePassOrders(a: nat, b: nat)
    requires a > 0
    ensures OnePass([a, b, 0, 0, 0]) == if 0 < b < a then [b, a, 0, 0, 0] else [a, b, 0, 0, 0]
  {
    assert Swapped([a, b, 0, 0, 0], 0) == if 0 < b < a then [b, a, 0, 0, 0] else [a, b, 0, 0, 0];
  }

  lemma {:induction false} PassesOrder(a: nat, b: nat, n: nat)
    requires a > 0
    ensures Passes([a, b, 0, 0, 0], n) == if n > 0 && 0 < b < a then [b, a, 0, 0, 0] else [a, b, 0, 0, 0]
  {
    hide OnePass;
    if n > 0 {
      PassesOrder(a, b, n - 1);
      OnePassOrders(a, b);
      if b > 0 { OnePassOrders(b, a); }
    }
  }

  const PASSES: nat := 5

  // ---- the passes sort ------------------------------------------------------------

  /** m different lengths, then zeros. */
  ghost predicate Shape(times: seq<nat>, m: nat) {
    && |times| == 5 && m <= 4 && (forall i :: 0 <= i < 5 ==> (times[i] > 0 <==> i < m))
    && forall i, j :: 0 <= i < j < m ==> times[i] != times[j]
  }

  lemma {:induction false} TallyShape(data: seq<nat>) returns (m: nat, n: nat)
    ensures TallyOf(data).Tally? ==> Shape(TallyOf(data).highs.times, m) && Shape(TallyOf(data).lows.times, n)
  {
    m, n := 0, 0;
    if |data| > 0 {
      var so, k := TallyOf(data[..|data| - 1]), |data| - 1;
      m, n := TallyShape(data[..k]);
      if TallyOf(data).Tally? {
        if k % 2 == 0 {
          m := NotedShape(so.highs, data[k], m);
        } else {
          n := NotedShape(so.lows, data[k], n);
        }
      }
    }
  }

  lemma NotedShape(l: Lengths, t: nat, m: nat) returns (n: nat)
    requires Slots(l) && Shape(l.times, m) && SlotFor(l.times, t, 0) < 4
    ensures Shape(Noted(l, t).times, n)
  {
    var s := FirstSlot(l.times, t, 0);
    n := if s == m && t > 0 then m + 1 else m;
  }

  lemma {:induction false} FirstSlot(times: seq<nat>, t: nat, k: nat) returns (s: nat)
    requires |times| == 5 && k <= 4
    ensures s == SlotFor(times, t, k) && (s < 4 ==> times[s] == t || times[s] == 0)
    ensures forall i :: k <= i < s ==> times[i] != t && times[i] != 0
    decreases 4 - k
  {
    if k == 4 || times[k] == t || times[k] == 0 { s := k; } else { s := FirstSlot(times, t, k + 1); }
  }

  // The last j of the m lengths are in their places.
  ghost predicate Settled(t: seq<nat>, m: nat, j: nat) {
    |t| == 5 && m <= 5 && forall a, b :: 0 <= a < b < m && b + j >= m ==> t[a] <= t[b]
  }

  ghost predicate Largest(t: seq<nat>, m: nat, i: nat) {
    |t| == 5 && m <= 5 && (i < m ==> forall a :: 0 <= a < i ==> t[a] <= t[i])
  }

  lemma SwapStep(t: seq<nat>, m: nat, i: nat, j: nat)
    requires Shape(t, m) && i < 4 && j < m && Settled(t, m, j) && Largest(t, m, i)
    ensures var r := Swapped(t, i);
      && Shape(r, m) && Settled(r, m, j) && Largest(r, m, i + 1) && multiset(r) == multiset(t)
      && (i + 1 + j + 1 == m || Settled(t, m, j + 1) ==> Settled(r, m, j + 1))
  {
    assert |t| == 5;
    hide Swapped, Shape, Settled, Largest;
    SwapShape(t, m, i);
    SwapSettled(t, m, i, j);
    if Settled(t, m, j + 1) { SwapSettled(t, m, i, j + 1); }
    SwapLargest(t, m, i);
    if i + 1 + j + 1 == m { OneMoreSettled(Swapped(t, i), m, i + 1, j); }
  }

  lemma SwapShape(t: seq<nat>, m: nat, i: nat)
    requires Shape(t, m) && i < 4
    ensures Shape(Swapped(t, i), m) && multiset(Swapped(t, i)) == multiset(t)
  {
  }

  lemma SwapSettled(t: seq<nat>, m: nat, i: nat, j: nat)
    requires Shape(t, m) && i < 4 && Settled(t, m, j)
    ensures Settled(Swapped(t, i), m, j)
  {
  }

  lemma SwapLargest(t: seq<nat>, m: nat, i: nat)
    requires Shape(t, m) && i < 4 && Largest(t, m, i)
    ensures Largest(Swapped(t, i), m, i + 1)
  {
  }

  lemma OneMoreSettled(t: seq<nat>, m: nat, i: nat, j: nat)
    requires Settled(t, m, j) && Largest(t, m, i) && i + j + 1 == m
    ensures Settled(t, m, j + 1)
  {
  }

  lemma OnePassSettles(t: seq<nat>, m: nat, j: nat)
    requires Shape(t, m) && j < m && Settled(t, m, j)
    ensures Shape(OnePass(t), m) && Settled(OnePass(t), m, j + 1) && multiset(OnePass(t)) == multiset(t)
  {
    assert |t| == 5;
    hide Swapped, Shape, Settled, Largest;
    var a := Swapped(t, 0);
    var b := Swapped(a, 1);
    var c := Swapped(b, 2);
    StartOfPass(t, m, j);
    SwapStep(t, m, 0, j);
    SwapStep(a, m, 1, j);
    SwapStep(b, m, 2, j);
    SwapStep(c, m, 3, j);
  }

  lemma StartOfPass(t: seq<nat>, m: nat, j: nat)
    requires Shape(t, m) && j < m && Settled(t, m, j)
    ensures Largest(t, m, 0) && m <= 4 && (j + 1 == m ==> Settled(t, m, j + 1))
  {
  }

  lemma {:induction false} PassesSettle(t: seq<nat>, m: nat, n: nat)
    requires Shape(t, m)
    ensures var r := Passes(t, n);
      Shape(r, m) && Settled(r, m, if n < m then n else m) && multiset(r) == multiset(t)
  {
    hide OnePass;
    if n > 0 {
      PassesSettle(t, m, n - 1);
      var s := Passes(t, n - 1);
      if n - 1 < m { OnePassSettles(s, m, n - 1); } else { InPlace(s, m); }
    }
  }

  lemma InPlace(t: seq<nat>, m: nat)
    requires Shape(t, m) && Settled(t, m, m)
    ensures OnePass(t) == t
  {
  }

  /** The passes put the lengths of any data in order: they come out ascending, all of them and nothing else,
      the unused slots still behind them. */
  lemma PassesSort(times: seq<nat>, m: nat)
    requires Shape(times, m)
    ensures var r := Passes(times, PASSES);
      && multiset(r) == multiset(times) && Shape(r, m)
      && forall i, j :: 0 <= i < j < m ==> r[i] < r[j]
  {
    hide Passes;
    PassesSettle(times, m, PASSES);
    var r := Passes(times, PASSES);
    forall i, j | 0 <= i < j < m ensures r[i] < r[j] {
      assert r[i] <= r[j] && r[i] != r[j];
    }
  }

  // ---- the tally in order ---------------------------------------------------------

  function Sorted(l: Lengths): (r: Lengths)
    requires Slots(l)
    ensures Slots(r) && r.count == l.count
  {
    l.(times := Passes(l.times, PASSES))
  }

  ghost predicate Ascending(times: seq<nat>, m: nat) {
    |times| == 5 && m <= 4 && (forall i, j :: 0 <= i < j < m ==> times[i] < times[j])
    && forall i :: 0 <= i < 5 ==> (times[i] > 0 <==> i < m)
  }

  /** Whatever the data, the lengths that are tallied come out ascending, none lost and none added. */
  lemma TallySorted(data: seq<nat>) returns (m: nat, n: nat)
    requires TallyOf(data).Tally?
    ensures var t := TallyOf(data);
      && Ascending(Sorted(t.highs).times, m) && multiset(Sorted(t.highs).times) == multiset(t.highs.times)
      && Ascending(Sorted(t.lows).times, n) && multiset(Sorted(t.lows).times) == multiset(t.lows.times)
  {
    hide TallyOf, Passes;
    m, n := TallyShape(data);
    PassesSort(TallyOf(data).highs.times, m);
    PassesSort(TallyOf(data).lows.times, n);
  }

  // ---- which encoding -------------------------------------------------------------

  /** One length or two, the second twice the first, and the same for pulses and spaces. */
  predicate BiphaseShape(h: Lengths, l: Lengths)
    requires Slots(h) && Slots(l)
  {
    var hs, ls := h.times, l.times;
    || (h.count == 1 && l.count == 1 && Near(hs[0], ls[0], 3))
    || (h.count == 1 && l.count >= 2 && Near(hs[0], ls[0], 3) && Near(ls[1], 2 * ls[0], 1))
    || (h.count >= 2 && l.count == 1 && Near(hs[0], ls[0], 3) && Near(hs[1], 2 * hs[0], 1))
    || (h.count >= 2 && l.count >= 2 && Near(hs[0], ls[0], 3) && Near(hs[1], ls[1], 3)
        && Near(hs[1], 2 * hs[0], 1) && Near(ls[1], 2 * ls[0], 1))
  }

  predicate Rc6Shape(h: Lengths, l: Lengths)
    requires Slots(h) && Slots(l)
  {
    var hs, ls := h.times, l.times;
    || (h.count == 3 && l.count == 1 && Near(hs[1], ls[0], 3) && Near(hs[2], 3 * hs[0], 1))
    || (h.count == 2 && l.count == 3 && Near(hs[0], ls[0], 3) && Near(hs[1], ls[2], 3)
        && Near(ls[1], 2 * ls[0], 1) && Near(ls[2], 3 * ls[0], 1))
    || (h.count == 3 && l.count == 2 && Near(hs[2], ls[1], 3) && Near(hs[1], ls[0], 3)
        && Near(hs[1], 2 * hs[0], 1) && Near(hs[2], 2 * hs[1], 1))
  }

  // ---- biphase --------------------------------------------------------------------

  /** The short pulse width, averaged where pulses and spaces agree. */
  function ShortPulse(high: nat, low: nat): (p: nat) {
    if Near(low, high, 3) then (low + high + 1) / 2 else if high < low then high else low
  }

  /** Whether a space before the first pulse was not visible: not so when the first double time is a space. */
  predicate StartSpace(data: seq<nat>, pulse: nat, i: nat)
    requires i <= |data|
    decreases |data| - i
  {
    if i == |data| then true
    else if Near(data[i], 2 * pulse, 3) then i % 2 == 0
    else StartSpace(data, pulse, i + 1)
  }

  const MAX_BITS: nat := 128

  /** The state of the half-bit machine. A write behind the end of the buffer is Overrun. */
  datatype Machine =
    | Running(temp: seq<bool>, bitcount: nat, bit: bool, halfbit: bool, rc6temp: bool, rc6: bool)
    | NotBiphase
    | Overrun

  predicate Buffered(m: Machine) { m.Running? ==> |m.temp| == MAX_BITS }

  function Start(): Machine { Running(seq(MAX_BITS, i => false), 0, true, true, false, false) }

  function Write(m: Machine): (r: Machine)
    requires Buffered(m)
    ensures Buffered(r)
  {
    if !m.Running? then m
    else if m.bitcount >= MAX_BITS then Overrun
    else m.(temp := m.temp[m.bitcount := m.temp[m.bitcount] || m.bit])
  }

  /** What a time does once the current bit is written. */
  function Advance(m: Machine, t: nat, pulse: nat): (r: Machine)
    requires Buffered(m)
    ensures Buffered(r)
  {
    if !m.Running? then m
    else if Near(t, 3 * pulse, 2) then
      // three half bits in one: RC-6 or nothing
      if !m.halfbit || (m.bitcount != 3 && m.bitcount != 4) then NotBiphase
      else m.(rc6temp := !m.rc6temp, bit := !m.bit, bitcount := m.bitcount + 1, rc6 := true)
    else if Near(t, 2 * pulse, 2) then
      if !m.halfbit then
        if m.bitcount == 4 then m.(halfbit := true, rc6temp := true, rc6 := true) else NotBiphase
      else if m.rc6temp then m.(rc6temp := false, halfbit := false, bitcount := m.bitcount + 1)
      else m.(bit := !m.bit, bitcount := m.bitcount + 1)
    else m.(halfbit := !m.halfbit, bitcount := m.bitcount + if m.halfbit then 1 else 0)
  }

  function Drive(m: Machine, data: seq<nat>, pulse: nat): (r: Machine)
    requires Buffered(m)
    ensures Buffered(r)
  {
    if |data| == 0 then m else Advance(Write(Drive(m, data[..|data| - 1], pulse)), data[|data| - 1], pulse)
  }

  /** The last bit is written, and counted unless it was counted already. */
  function End(m: Machine, startspace: bool): (r: Machine)
    requires Buffered(m)
    ensures Buffered(r)
  {
    var w := Write(m);
    if w.Running? && ((w.halfbit && !w.bit) || (!startspace && w.bit)) then w.(bitcount := w.bitcount + 1) else w
  }

  // ---- the result -----------------------------------------------------------------

  /** OutOfBounds is a write behind the end of decode_temp, for which C promises nothing. */
  datatype Decoded = Failed | OutOfBounds | Decoded(code: seq<Byte>, info: CodeInfo)

  function Done(temp: seq<bool>, bitcount: nat, outlength: nat, info: CodeInfo): (r: Decoded)
    requires |temp| == MAX_BITS && outlength <= MAX_BITS / 8
  {
    if outlength < ByteCount(bitcount) || bitcount < 4 then Failed
    else
      ByteCountFits(bitcount, outlength);
      Decoded.Decoded(CodeBytes(temp[..bitcount]), info.(bitCount := bitcount))
  }

  lemma ByteCountFits(bitcount: nat, outlength: nat)
    requires ByteCount(bitcount) <= outlength <= MAX_BITS / 8
    ensures bitcount <= MAX_BITS
  {
  }

  /** Positions 0, 2, 4, ... of the times: which of them have the length of a one. */
  function Matches(data: seq<nat>, from: nat, n: nat, one: nat): (b: seq<bool>)
    requires n > 0 ==> from + 2 * (n - 1) < |data|
    ensures |b| == n
  {
    seq(n, i requires 0 <= i < n => data[from + 2 * i] == one)
  }

  /** Bits written into a cleared buffer; only ones are written. */
  function Filled(bits: seq<bool>): (m: Machine)
    ensures Buffered(m) && !m.NotBiphase?
  {
    if exists i :: MAX_BITS <= i < |bits| && bits[i] then Overrun
    else Running(seq(MAX_BITS, i requires 0 <= i < MAX_BITS => i < |bits| && bits[i]), |bits|, false, false, false, false)
  }

  function Smaller(a: nat, b: nat): nat { if a < b then a else b }

  function Larger(a: nat, b: nat): nat { if a < b then b else a }

  function FromBits(bits: seq<bool>, outlength: nat, info: CodeInfo): (r: Decoded)
    requires outlength <= MAX_BITS / 8
  {
    var m := Filled(bits);
    if m.Overrun? then OutOfBounds else Done(m.temp, m.bitcount, outlength, info)
  }

  /** Space coding when only spaces differ, pulse coding when only pulses do. */
  function NotBiphaseData(data: seq<nat>, h: Lengths, l: Lengths, outlength: nat, info: CodeInfo): (r: Decoded)
    requires Slots(h) && Slots(l) && outlength <= MAX_BITS / 8 && |data| > 0
  {
    if h.count == 1 && l.count == 2 then
      var zero, one := Smaller(l.times[0], l.times[1]), Larger(l.times[0], l.times[1]);
      FromBits(Matches(data, 1, |data| / 2, one), outlength,
               info.(one0 := h.times[0], one1 := one, zero0 := h.times[0], zero1 := zero,
                     trail := data[|data| - 1], encoding := Space))
    else if h.count == 2 && l.count == 1 then
      var zero, one := Smaller(h.times[0], h.times[1]), Larger(h.times[0], h.times[1]);
      FromBits(Matches(data, 0, (|data| + 1) / 2, one), outlength,
               info.(one0 := one, one1 := l.times[0], zero0 := zero, zero1 := l.times[0], encoding := Pulse))
    else Failed
  }

  function BiphaseData(data: seq<nat>, pulse: nat): (m: Machine)
    requires |data| > 0
    ensures Buffered(m)
  {
    var startspace := StartSpace(data, pulse, 0);
    End(Drive(Start(), if startspace then data else data[1..], pulse), startspace)
  }

  function BiphaseEncoding(shape: Encoding, m: Machine, pulse: nat, startspace: bool): Encoding
    requires m.Running?
  {
    if shape == RC6 || m.rc6 then RC6
    else if Near(pulse, 889, 2) && startspace then RC5
    else Biphase
  }

  function DecodeSorted(data: seq<nat>, h: Lengths, l: Lengths, outlength: nat, info: CodeInfo): (r: Decoded)
    requires Slots(h) && Slots(l) && outlength <= MAX_BITS / 8 && |data| > 0
  {
    if !BiphaseShape(h, l) && !Rc6Shape(h, l) then NotBiphaseData(data, h, l, outlength, info)
    else
      var shape := if BiphaseShape(h, l) then Biphase else RC6;
      var pulse := ShortPulse(h.times[0], l.times[0]);
      var timed := info.(one0 := pulse, one1 := pulse, zero0 := pulse, zero1 := pulse);
      if Far(data[0], pulse, 3) then NotBiphaseData(data, h, l, outlength, timed)
      else
        match BiphaseData(data, pulse)
        case NotBiphase => NotBiphaseData(data, h, l, outlength, timed)
        case Overrun => OutOfBounds
        case Running(temp, bitcount, _, _, _, _) =>
          Done(temp, bitcount, outlength,
               timed.(encoding := BiphaseEncoding(shape, BiphaseData(data, pulse), pulse, StartSpace(data, pulse, 0))))
  }

  function Decode(data: seq<nat>, outlength: nat, info: CodeInfo): (r: Decoded)
    requires outlength <= MAX_BITS / 8
  {
    match TallyOf(data)
    case TooMany => Failed
    case Tally(highs, lows) =>
      if highs.count == 0 || lows.count == 0 || |data| == 0 then Failed
      else DecodeSorted(data, Sorted(highs), Sorted(lows), outlength, info)
  }
}
