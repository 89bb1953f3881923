/** Checksums of given messages, worked out in sixteen-bit words. */
module CrcWords {
  import opened Crc

  predicate WordBit(c: bv16, k: nat)
    requires k < 16
  {
    c & (1 << k) != 0
  }

  function WordOf(c: bv16): (w: Crc16) { seq(16, k requires 0 <= k < 16 => WordBit(c, k)) }

  /** One step of the long division. */
  function StepWord(c: bv16, b: bool): bv16 { if WordBit(c, 15) != b then (c << 1) ^ 0x1021 else c << 1 }

  lemma ShiftedBit(c: bv16, k: nat)
    requires k < 16
    ensures WordBit(c << 1, k) == (k > 0 && WordBit(c, k - 1))
  {
    if k == 0 { assert (c << 1) & 1 == 0; }
    else if k == 1 { assert ((c << 1) & 2 != 0) == (c & 1 != 0); }
    else if k == 2 { assert ((c << 1) & 4 != 0) == (c & 2 != 0); }
    else if k == 3 { assert ((c << 1) & 8 != 0) == (c & 4 != 0); }
    else if k == 4 { assert ((c << 1) & 16 != 0) == (c & 8 != 0); }
    else if k == 5 { assert ((c << 1) & 32 != 0) == (c & 16 != 0); }
    else if k == 6 { assert ((c << 1) & 64 != 0) == (c & 32 != 0); }
    else if k == 7 { assert ((c << 1) & 128 != 0) == (c & 64 != 0); }
    else if k == 8 { assert ((c << 1) & 256 != 0) == (c & 128 != 0); }
    else if k == 9 { assert ((c << 1) & 512 != 0) == (c & 256 != 0); }
    else if k == 10 { assert ((c << 1) & 1024 != 0) == (c & 512 != 0); }
    else if k == 11 { assert ((c << 1) & 2048 != 0) == (c & 1024 != 0); }
    else if k == 12 { assert ((c << 1) & 4096 != 0) == (c & 2048 != 0); }
    else if k == 13 { assert ((c << 1) & 8192 != 0) == (c & 4096 != 0); }
    else if k == 14 { assert ((c << 1) & 16384 != 0) == (c & 8192 != 0); }
    else { assert ((c << 1) & 32768 != 0) == (c & 16384 != 0); }
  }

  lemma XoredBit(c: bv16, k: nat)
    requires k < 16
    ensures WordBit(c ^ 0x1021, k) == (WordBit(c, k) != Generator(k))
  {
    if k == 0 { assert ((c ^ 0x1021) & 1 != 0) == (c & 1 == 0); }
    else if k == 5 { assert ((c ^ 0x1021) & 32 != 0) == (c & 32 == 0); }
    else if k == 12 { assert ((c ^ 0x1021) & 4096 != 0) == (c & 4096 == 0); }
    else if k == 1 { assert ((c ^ 0x1021) & 2 != 0) == (c & 2 != 0); }
    else if k == 2 { assert ((c ^ 0x1021) & 4 != 0) == (c & 4 != 0); }
    else if k == 3 { assert ((c ^ 0x1021) & 8 != 0) == (c & 8 != 0); }
    else if k == 4 { assert ((c ^ 0x1021) & 16 != 0) == (c & 16 != 0); }
    else if k == 6 { assert ((c ^ 0x1021) & 64 != 0) == (c & 64 != 0); }
    else if k == 7 { assert ((c ^ 0x1021) & 128 != 0) == (c & 128 != 0); }
    else if k == 8 { assert ((c ^ 0x1021) & 256 != 0) == (c & 256 != 0); }
    else if k == 9 { assert ((c ^ 0x1021) & 512 != 0) == (c & 512 != 0); }
    else if k == 10 { assert ((c ^ 0x1021) & 1024 != 0) == (c & 1024 != 0); }
    else if k == 11 { assert ((c ^ 0x1021) & 2048 != 0) == (c & 2048 != 0); }
    else if k == 13 { assert ((c ^ 0x1021) & 8192 != 0) == (c & 8192 != 0); }
    else if k == 14 { assert ((c ^ 0x1021) & 16384 != 0) == (c & 16384 != 0); }
    else { assert ((c ^ 0x1021) & 32768 != 0) == (c & 32768 != 0); }
  }

  lemma SteppedBit(c: bv16, b: bool, k: nat)
    requires k < 16
    ensures WordBit(StepWord(c, b), k) == ((k > 0 && WordBit(c, k - 1)) != ((WordBit(c, 15) != b) && Generator(k)))
  {
    hide WordBit, Generator;
    ShiftedBit(c, k);
    XoredBit(c << 1, k);
  }

  lemma StepsAgree(c: bv16, b: bool)
    ensures Step(WordOf(c), b) == WordOf(StepWord(c, b))
  {
    hide WordBit, StepWord;
    var s, t := WordOf(c), WordOf(StepWord(c, b));
    forall k | 0 <= k < 16 ensures Step(s, b)[k] == t[k] {
      SteppedBit(c, b, k);
      assert Step(s, b)[k] == ((k > 0 && s[k - 1]) != ((s[15] != b) && Generator(k)));
    }
  }

  /** Eight steps, the bits given as a string of zeros and ones. */
  function ByteSteps(c: bv16, bits: string): bv16
    requires |bits| == 8
  {
    StepWord(StepWord(StepWord(StepWord(StepWord(StepWord(StepWord(StepWord(
      c, bits[0] == '1'), bits[1] == '1'), bits[2] == '1'), bits[3] == '1'), bits[4] == '1'), bits[5] == '1'), bits[6] == '1'), bits[7] == '1')
  }

  /** The bits of m from i on. */
  predicate Spells(m: seq<bool>, i: nat, bits: string) {
    i + |bits| <= |m| && forall j: nat :: j < |bits| ==> m[i + j] == (bits[j] == '1')
  }

  ghost predicate Divided(m: seq<bool>, n: nat, c: bv16) { n <= |m| && Divide(Zero(), m[..n]) == WordOf(c) }

  lemma NextBit(m: seq<bool>, n: nat, c: bv16, b: bool)
    requires n < |m| && Divided(m, n, c) && m[n] == b
    ensures Divided(m, n + 1, StepWord(c, b))
  {
    hide Step, StepWord, WordOf;
    StepsAgree(c, b);
    assert m[..n + 1][..n] == m[..n];
  }

  /** Eight more bits of a message. */
  lemma NextByte(m: seq<bool>, n: nat, c: bv16, bits: string)
    requires |bits| == 8 && Divided(m, n, c) && Spells(m, n, bits)
    ensures Divided(m, n + 8, ByteSteps(c, bits))
  {
    hide Divided, StepWord;
    var b := (j: nat) requires j < 8 => bits[j] == '1';
    assert m[n] == b(0) by { assert m[n + 0] == b(0); }
    NextBit(m, n, c, b(0));
    var c1 := StepWord(c, b(0));
    NextBit(m, n + 1, c1, b(1));
    var c2 := StepWord(c1, b(1));
    NextBit(m, n + 2, c2, b(2));
    var c3 := StepWord(c2, b(2));
    NextBit(m, n + 3, c3, b(3));
    var c4 := StepWord(c3, b(3));
    NextBit(m, n + 4, c4, b(4));
    var c5 := StepWord(c4, b(4));
    NextBit(m, n + 5, c5, b(5));
    var c6 := StepWord(c5, b(5));
    NextBit(m, n + 6, c6, b(6));
    var c7 := StepWord(c6, b(6));
    NextBit(m, n + 7, c7, b(7));
  }

  lemma NothingDivided(m: seq<bool>)
    ensures Divided(m, 0, 0)
  {
    assert WordOf(0) == Zero() by {
      forall k: nat | k < 16 ensures !WordBit(0, k) { NoBit(k); }
    }
  }

  lemma NoBit(k: nat)
    requires k < 16
    ensures !WordBit(0, k)
  {
    assert 0 & (1 << k) == 0 as bv16;
  }

  /** The bits of a word, highest first, as two strings. */
  ghost predicate SpelledBy(c: bv16, upper: string, lower: string) {
    && |upper| == 8 && |lower| == 8
    && (forall j: nat :: j < 8 ==> WordBit(c, 15 - j) == (upper[j] == '1'))
    && (forall j: nat :: j < 8 ==> WordBit(c, 7 - j) == (lower[j] == '1'))
  }
}
