/** Pulses as dataInput classifies them, and the two line codes as levels on the wire. */
module Pulses {

  /** An entry of the data ring: a pause, or the length of a pulse in clocks and its polarity. */
  datatype Entry = Space | Edge(polarity: bool, clocks: nat)

  type Pulse = p: Entry | p.Edge? ==> p.clocks in {16, 32, 48, 64, 128} witness Space

  /** Bits 0 to 7 and bit 8 of an entry, where a pause is the largest 32-bit integer. */
  function Clocks(p: Pulse): (c: nat)
    ensures c > 0
  {
    if p.Space? then 0xFF else p.clocks
  }

  function Polarity(p: Pulse): bool { p.Space? || p.polarity }

  /** A byte of a packet: the polarity in the top bit and half the number of clocks below. */
  function Classify(b: nat): (p: Pulse)
    requires b < 256
  {
    var polarity, clocks := b >= 128, 2 * (b % 128);
    if clocks == 0xFE then Space
    else if 10 <= clocks <= 22 then Edge(polarity, 16)
    else if 26 <= clocks <= 40 then Edge(polarity, 32)
    else if 42 <= clocks <= 54 then Edge(polarity, 48)
    else if 56 <= clocks <= 72 then Edge(polarity, 64)
    else if 120 <= clocks <= 136 then Edge(polarity, 128)
    else Space
  }

  // ---- the line codes -------------------------------------------------------------

  ghost predicate IsRate(half: nat) { half in {16, 32, 64} }

  /** What the wire does for a list of pulses, one entry per half bit. */
  function Wire(pulses: seq<Pulse>, half: nat): (levels: seq<bool>) {
    if |pulses| == 0 then []
    else Wire(pulses[..|pulses| - 1], half) + LevelOf(pulses[|pulses| - 1], half)
  }

  function LevelOf(p: Pulse, half: nat): (levels: seq<bool>) {
    if Clocks(p) == half then [Polarity(p)] else [Polarity(p), Polarity(p)]
  }

  /** The pulses of bit b after bit a in Manchester code. */
  function ManchesterBit(a: bool, b: bool, half: nat): (p: seq<Pulse>)
    requires IsRate(half)
  {
    if a != b then [Edge(b, 2 * half)] else [Edge(!b, half), Edge(b, half)]
  }

  /** The bit before position n of a bit string that follows bit a. */
  function Before(a: bool, bits: seq<bool>, n: nat): bool
    requires n <= |bits|
  {
    if n == 0 then a else bits[n - 1]
  }

  function ManchesterPulses(a: bool, bits: seq<bool>, half: nat): (p: seq<Pulse>)
    requires IsRate(half)
  {
    if |bits| == 0 then []
    else ManchesterPulses(a, bits[..|bits| - 1], half)
         + ManchesterBit(Before(a, bits, |bits| - 1), bits[|bits| - 1], half)
  }

  /** The half bits of a Manchester code word: every bit, then its complement. */
  function ManchesterLevels(bits: seq<bool>): (levels: seq<bool>) {
    if |bits| == 0 then [] else ManchesterLevels(bits[..|bits| - 1]) + [bits[|bits| - 1], !bits[|bits| - 1]]
  }

  /** The pulses are what the Manchester code puts on the wire between the middle of the bit before and
      the middle of the last bit. */
  lemma {:induction false} ManchesterIsManchester(a: bool, bits: seq<bool>, half: nat)
    requires IsRate(half)
    ensures Wire(ManchesterPulses(a, bits, half), half) + [!Before(a, bits, |bits|)] == [!a] + ManchesterLevels(bits)
  {
    hide Wire, ManchesterBit;
    if |bits| == 0 {
      EmptyWire(half);
    } else {
      var init, b := bits[..|bits| - 1], bits[|bits| - 1];
      var last, p := Before(a, bits, |bits| - 1), ManchesterPulses(a, init, half);
      ManchesterIsManchester(a, init, half);
      assert Before(a, init, |init|) == last;
      assert ManchesterPulses(a, bits, half) == p + ManchesterBit(last, b, half);
      ManchesterBitOnWire(p, last, b, half);
      assert Wire(p, half) + [!last] == [!a] + ManchesterLevels(init);
      assert [!a] + ManchesterLevels(init) + [b, !b] == [!a] + ManchesterLevels(bits);
    }
  }

  lemma EmptyWire(half: nat)
    ensures Wire([], half) == []
  {
  }

  lemma ManchesterBitOnWire(p: seq<Pulse>, a: bool, b: bool, half: nat)
    requires IsRate(half)
    ensures Wire(p + ManchesterBit(a, b, half), half) + [!b] == Wire(p, half) + [!a] + [b, !b]
  {
    hide Wire;
    WireAppend(p, ManchesterBit(a, b, half), half);
    if a != b {
      assert [b, b] + [!b] == [!a] + [b, !b];
    } else {
      assert [!b] + [b] + [!b] == [!a] + [b, !b];
    }
  }

  lemma {:induction false} WireAppend(p: seq<Pulse>, q: seq<Pulse>, half: nat)
    requires 0 < |q| <= 2
    ensures Wire(p + q, half) == Wire(p, half) + (if |q| == 1 then LevelOf(q[0], half)
                                                  else LevelOf(q[0], half) + LevelOf(q[1], half))
  {
    if |q| == 1 {
      assert (p + q)[..|p|] == p;
    } else {
      assert (p + q)[..|p| + 1] == p + [q[0]];
      assert (p + [q[0]])[..|p|] == p;
    }
  }

  /** The pulses of a bit in biphase code: one long pulse for a one, two short ones for a zero. */
  function BiphaseBit(level: bool, b: bool, half: nat): (p: seq<Pulse>)
    requires IsRate(half)
  {
    if b then [Edge(!level, 2 * half)] else [Edge(!level, half), Edge(level, half)]
  }

  /** The level at the end of a biphase code word: a one toggles it, a zero toggles it twice. */
  function LevelAfter(level: bool, bits: seq<bool>): bool {
    if |bits| == 0 then level else LevelAfter(level, bits[..|bits| - 1]) != bits[|bits| - 1]
  }

  function BiphasePulses(level: bool, bits: seq<bool>, half: nat): (p: seq<Pulse>)
    requires IsRate(half)
  {
    if |bits| == 0 then []
    else BiphasePulses(level, bits[..|bits| - 1], half)
         + BiphaseBit(LevelAfter(level, bits[..|bits| - 1]), bits[|bits| - 1], half)
  }

  /** The half bits of a biphase code word: the level changes at the start of every bit, and in the
      middle of a zero. */
  function BiphaseLevels(level: bool, bits: seq<bool>): (levels: seq<bool>)
    ensures |levels| == 2 * |bits|
  {
    if |bits| == 0 then []
    else
      var init := BiphaseLevels(level, bits[..|bits| - 1]);
      var last := if |init| == 0 then level else init[|init| - 1];
      init + [!last, if bits[|bits| - 1] then !last else last]
  }

  lemma {:induction false} BiphaseIsBiphase(level: bool, bits: seq<bool>, half: nat)
    requires IsRate(half)
    ensures Wire(BiphasePulses(level, bits, half), half) == BiphaseLevels(level, bits)
    ensures |bits| > 0 ==> BiphaseLevels(level, bits)[2 * |bits| - 1] == LevelAfter(level, bits)
  {
    hide Wire, BiphaseBit;
    if |bits| == 0 {
      EmptyWire(half);
    } else {
      var init, b := bits[..|bits| - 1], bits[|bits| - 1];
      var last, p := LevelAfter(level, init), BiphasePulses(level, init, half);
      BiphaseIsBiphase(level, init, half);
      assert BiphasePulses(level, bits, half) == p + BiphaseBit(last, b, half);
      BiphaseBitOnWire(p, last, b, half);
      assert BiphaseLevels(level, bits) == BiphaseLevels(level, init) + [!last, if b then !last else last];
    }
  }

  lemma BiphaseBitOnWire(p: seq<Pulse>, level: bool, b: bool, half: nat)
    requires IsRate(half)
    ensures Wire(p + BiphaseBit(level, b, half), half) == Wire(p, half) + [!level, if b then !level else level]
  {
    hide Wire;
    WireAppend(p, BiphaseBit(level, b, half), half);
  }
}
