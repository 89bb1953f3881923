/** Codes as bytes and as bits, and codeInfoToRawData: from a code to pulse and space times. */
module IrCode {
  import opened Words

  // ---- bits and bytes -------------------------------------------------------------

  function Pad(n: nat): (p: nat)
    ensures p < 8 && (n + p) % 8 == 0
  {
    (8 - n % 8) % 8
  }

  /** Bytes of an n-bit code. */
  function ByteCount(n: nat): (c: nat)
    ensures 8 * c == n + Pad(n)
  {
    n / 8 + if n % 8 != 0 then 1 else 0
  }

  /** Bit t of a code, the most significant first; only code[0] may hold less than eight bits. */
  predicate CodeBit(code: seq<Byte>, n: nat, t: nat)
    requires t < n && ByteCount(n) <= |code|
  {
    code[(t + Pad(n)) / 8][(n - 1 - t) % 8]
  }

  function CodeBits(code: seq<Byte>, n: nat): (b: seq<bool>)
    requires ByteCount(n) <= |code|
    ensures |b| == n
  {
    seq(n, t requires 0 <= t < n => CodeBit(code, n, t))
  }

  /** The bytes of a bit string, the unused bits of the first byte zero. */
  function CodeBytes(bits: seq<bool>): (code: seq<Byte>)
    ensures |code| == ByteCount(|bits|)
  {
    seq(ByteCount(|bits|), c requires 0 <= c < ByteCount(|bits|) =>
      seq(8, k requires 0 <= k < 8 => 8 * c + 7 - k >= Pad(|bits|) && bits[8 * c + 7 - k - Pad(|bits|)]))
  }

  ghost predicate UnusedBitsZero(code: seq<Byte>, n: nat)
    requires ByteCount(n) <= |code|
  {
    n > 0 ==> forall k :: 8 - Pad(n) <= k < 8 ==> !code[0][k]
  }

  lemma BitPlace(n: nat, t: nat)
    requires t < n
    ensures (t + Pad(n)) / 8 < ByteCount(n) && (n - 1 - t) % 8 == 7 - (t + Pad(n)) % 8
  {
    var k := t + Pad(n);
    assert n - 1 - t == 8 * (ByteCount(n) - 1 - k / 8) + (7 - k % 8);
  }

  /** Bits and bytes are inverse to each other. */
  lemma BitsOfBytes(bits: seq<bool>)
    ensures CodeBits(CodeBytes(bits), |bits|) == bits
  {
    forall t | 0 <= t < |bits| ensures CodeBit(CodeBytes(bits), |bits|, t) == bits[t] {
      BitPlace(|bits|, t);
      var k := t + Pad(|bits|);
      assert 8 * (k / 8) + 7 - (7 - k % 8) == k;
    }
  }

  lemma BytesOfBits(code: seq<Byte>, n: nat)
    requires |code| == ByteCount(n) && UnusedBitsZero(code, n)
    ensures CodeBytes(CodeBits(code, n)) == code
  {
    var bits := CodeBits(code, n);
    forall c, k | 0 <= c < |code| && 0 <= k < 8 ensures CodeBytes(bits)[c][k] == code[c][k] {
      var p := 8 * c + 7 - k;
      if p >= Pad(n) {
        BitPlace(n, p - Pad(n));
        assert p / 8 == c && 7 - p % 8 == k;
      } else {
        assert c == 0;
      }
    }
    forall c | 0 <= c < |code| ensures CodeBytes(bits)[c] == code[c] {
      assert forall k :: 0 <= k < 8 ==> CodeBytes(bits)[c][k] == code[c][k];
    }
  }

  // ---- encodings ------------------------------------------------------------------

  datatype Encoding = Unknown | Space | Pulse | Biphase | RC5 | RC6

  /** The timing part of a CodeInfo; repeat holds the times before its terminator. */
  datatype CodeInfo = CodeInfo(
    bitCount: nat, encoding: Encoding, header0: nat, header1: nat, trail: nat,
    one0: nat, one1: nat, zero0: nat, zero1: nat, repeat: seq<nat>)

  function HeaderTimes(info: CodeInfo): seq<nat> { if info.header0 != 0 then [info.header0, info.header1] else [] }

  function MarkOf(info: CodeInfo, b: bool): seq<nat> {
    if b then [info.one0, info.one1] else [info.zero0, info.zero1]
  }

  /** A pulse and a space for every bit. */
  function Marks(info: CodeInfo, bits: seq<bool>): (t: seq<nat>)
    ensures |t| == 2 * |bits|
  {
    if |bits| == 0 then [] else Marks(info, bits[..|bits| - 1]) + MarkOf(info, bits[|bits| - 1])
  }

  function First(info: CodeInfo, b: bool): nat { if b then info.one0 else info.zero0 }

  function Second(info: CodeInfo, b: bool): nat { if b then info.one1 else info.zero1 }

  /** RC-6 sends both halves of bit 4 at double length. */
  function Stretched(info: CodeInfo, bit: nat, t: nat): nat { if info.encoding == RC6 && bit == 4 then t * 2 else t }

  function FirstOf(info: CodeInfo, bits: seq<bool>, i: nat): nat
    requires i < |bits|
  {
    Stretched(info, i, First(info, bits[i]))
  }

  function SecondOf(info: CodeInfo, bits: seq<bool>, i: nat): nat
    requires i < |bits|
  {
    Stretched(info, i, Second(info, bits[i]))
  }

  /** The times that end with the first half of the last bit: one step adds the last half of the bit before
      and the first half of this one, in one piece when the bits differ. */
  function HalfTimes(info: CodeInfo, bits: seq<bool>): (t: seq<nat>)
    requires |bits| > 0
  {
    var k := |bits| - 1;
    if k == 0 then
      // RC-6 is pulse first for a one, the others are pulse first for a zero
      if bits[0] == (info.encoding == RC6) then [First(info, bits[0])] else []
    else
      HalfTimes(info, bits[..k])
      + if bits[k] == bits[k - 1] then [SecondOf(info, bits, k - 1), FirstOf(info, bits, k)]
        else [SecondOf(info, bits, k - 1) + FirstOf(info, bits, k)]
  }

  function BiphaseTimes(info: CodeInfo, bits: seq<bool>): (t: seq<nat>)
    requires |bits| > 0
  {
    var last := bits[|bits| - 1];
    HalfTimes(info, bits) + if last != (info.encoding == RC6) then [Second(info, last)] else []
  }

  ghost predicate IsBiphase(e: Encoding) { e in {Biphase, RC5, RC6} }

  // ---- biphase times are the merged half bits --------------------------------------

  /** A stretch of carrier or of silence. */
  datatype Run = Run(on: bool, time: nat)

  function Join(runs: seq<Run>, r: Run): (m: seq<Run>) {
    if |runs| > 0 && runs[|runs| - 1].on == r.on then
      runs[..|runs| - 1] + [Run(r.on, runs[|runs| - 1].time + r.time)]
    else runs + [r]
  }

  /** The half bits one after the other: silence then carrier for a one, carrier then silence for a zero,
      the other way round in RC-6. */
  function Train(info: CodeInfo, bits: seq<bool>): (runs: seq<Run>) {
    if |bits| == 0 then []
    else
      var k := |bits| - 1;
      var on := bits[k] == (info.encoding == RC6);
      Join(Join(Train(info, bits[..k]), Run(on, FirstOf(info, bits, k))), Run(!on, SecondOf(info, bits, k)))
  }

  function Times(runs: seq<Run>): (t: seq<nat>)
    ensures |t| == |runs|
  {
    seq(|runs|, i requires 0 <= i < |runs| => runs[i].time)
  }

  ghost predicate Alternates(runs: seq<Run>) { forall i :: 0 <= i < |runs| - 1 ==> runs[i].on != runs[i + 1].on }

  /** Silence at the start and at the end is not sent. */
  function Trimmed(runs: seq<Run>): (r: seq<Run>) {
    var a := if |runs| > 0 && !runs[0].on then runs[1..] else runs;
    if |a| > 0 && !a[|a| - 1].on then a[..|a| - 1] else a
  }

  lemma {:induction false} TrainShape(info: CodeInfo, bits: seq<bool>)
    requires |bits| > 0
    ensures var r := Train(info, bits);
      |r| >= 2 && Alternates(r) && r[0].on == (bits[0] == (info.encoding == RC6))
      && r[|r| - 1] == Run(bits[|bits| - 1] != (info.encoding == RC6), SecondOf(info, bits, |bits| - 1))
  {
    hide Train, FirstOf, SecondOf, Join;
    var k := |bits| - 1;
    if k == 0 {
      TrainOne(info, bits);
    } else {
      TrainShape(info, bits[..k]);
      HalvesOfPrefix(info, bits);
      TrainNext(info, bits);
      NextBit(Train(info, bits[..k]), bits[k] == (info.encoding == RC6),
              SecondOf(info, bits, k - 1), FirstOf(info, bits, k), SecondOf(info, bits, k));
    }
  }

  lemma {:induction false} TrainTimes(info: CodeInfo, bits: seq<bool>)
    requires |bits| > 0 && |Train(info, bits)| > 0
    ensures var r := Train(info, bits);
      Times(r[..|r| - 1])
      == (if bits[0] == (info.encoding == RC6) then [] else [FirstOf(info, bits, 0)]) + HalfTimes(info, bits)
  {
    hide Train, HalfTimes, FirstOf, SecondOf, Join;
    var k := |bits| - 1;
    if k == 0 {
      TrainOne(info, bits);
    } else {
      TrainShape(info, bits[..k]);
      TrainTimes(info, bits[..k]);
      HalvesOfPrefix(info, bits);
      HalfTimesNext(info, bits);
      TrainNext(info, bits);
      NextBit(Train(info, bits[..k]), bits[k] == (info.encoding == RC6),
              SecondOf(info, bits, k - 1), FirstOf(info, bits, k), SecondOf(info, bits, k));
    }
  }

  lemma TrainOne(info: CodeInfo, bits: seq<bool>)
    requires |bits| == 1
    ensures var on := bits[0] == (info.encoding == RC6);
      && Train(info, bits) == [Run(on, FirstOf(info, bits, 0)), Run(!on, SecondOf(info, bits, 0))]
      && HalfTimes(info, bits) == if on then [FirstOf(info, bits, 0)] else []
  {
    hide SecondOf;
    assert Train(info, bits[..0]) == [];
    assert FirstOf(info, bits, 0) == First(info, bits[0]);
  }

  lemma HalvesOfPrefix(info: CodeInfo, bits: seq<bool>)
    requires |bits| > 1
    ensures var init := bits[..|bits| - 1];
      FirstOf(info, init, 0) == FirstOf(info, bits, 0) && SecondOf(info, init, |bits| - 2) == SecondOf(info, bits, |bits| - 2)
  {
  }

  lemma HalfTimesNext(info: CodeInfo, bits: seq<bool>)
    requires |bits| > 1
    ensures var k := |bits| - 1;
      HalfTimes(info, bits) == HalfTimes(info, bits[..k])
        + if bits[k] == bits[k - 1] then [SecondOf(info, bits, k - 1), FirstOf(info, bits, k)]
          else [SecondOf(info, bits, k - 1) + FirstOf(info, bits, k)]
  {
    hide FirstOf, SecondOf;
  }

  lemma TrainNext(info: CodeInfo, bits: seq<bool>)
    requires |bits| > 1
    ensures var k, on := |bits| - 1, bits[|bits| - 1] == (info.encoding == RC6);
      Train(info, bits) == Join(Join(Train(info, bits[..k]), Run(on, FirstOf(info, bits, k))), Run(!on, SecondOf(info, bits, k)))
  {
    hide FirstOf, SecondOf, Join;
  }

  lemma NextBit(r: seq<Run>, on: bool, last: nat, first: nat, second: nat)
    requires |r| >= 2 && Alternates(r) && r[|r| - 1].time == last
    ensures var m := Join(Join(r, Run(on, first)), Run(!on, second));
      && |m| >= 2 && Alternates(m) && m[0].on == r[0].on && m[|m| - 1] == Run(!on, second)
      && Times(m[..|m| - 1])
         == Times(r[..|r| - 1]) + if r[|r| - 1].on != on then [last, first] else [last + first]
  {
    var a := Join(r, Run(on, first));
    var m := Join(a, Run(!on, second));
    assert m == a + [Run(!on, second)] && m[..|m| - 1] == a;
  }

  /** What is sent for a biphase code is its train of half bits, neighbours of the same kind in one piece,
      without the silence at both ends. (RC-6 codes of five bits keep their last half short.) */
  lemma BiphaseTimesAreMerged(info: CodeInfo, bits: seq<bool>)
    requires |bits| > 0 && IsBiphase(info.encoding) && (info.encoding == RC6 ==> |bits| != 5)
    ensures BiphaseTimes(info, bits) == Times(Trimmed(Train(info, bits)))
    ensures Alternates(Train(info, bits))
  {
    hide Train, HalfTimes;
    TrainShape(info, bits);
    TrainTimes(info, bits);
    var r := Train(info, bits);
    var on, n := r[0].on, |r|;
    assert Times(r) == Times(r[..n - 1]) + [r[n - 1].time];
    if on {
      assert Times(r[..n - 1]) == HalfTimes(info, bits);
    } else {
      assert Times(r[1..]) == Times(r)[1..];
      assert Times(r[1..][..n - 2]) == Times(r[..n - 1])[1..];
    }
  }
}
