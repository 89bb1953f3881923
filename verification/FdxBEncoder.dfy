/** encodeISO11785_FDX_B: the two 64-bit words built with shifts and masks, and their four blocks. */
module FdxBEncoder {
  import opened Words
  import opened Crc
  import opened Numbers
  import opened FdxB
  import opened Blocks

  type Word64 = w: Word | |w| == 64 witness seq(64, i => false)

  // ---- reverse --------------------------------------------------------------------

  const ODD_BITS: Word64 := Hex("aaaaaaaaaaaaaaaa")
  const EVEN_BITS: Word64 := Hex("5555555555555555")
  const ODD_PAIRS: Word64 := Hex("cccccccccccccccc")
  const EVEN_PAIRS: Word64 := Hex("3333333333333333")
  const ODD_NIBBLES: Word64 := Hex("f0f0f0f0f0f0f0f0")
  const EVEN_NIBBLES: Word64 := Hex("0f0f0f0f0f0f0f0f")
  const ODD_BYTES: Word64 := Hex("ff00ff00ff00ff00")
  const EVEN_BYTES: Word64 := Hex("00ff00ff00ff00ff")
  const ODD_HALVES: Word64 := Hex("ffff0000ffff0000")
  const EVEN_HALVES: Word64 := Hex("0000ffff0000ffff")

  function SwapStage(x: Word64, n: nat, high: Word64, low: Word64): Word64 {
    Or(Shr(And(x, high), n), Shl(And(x, low), n))
  }

  /** reverse: all bits in the opposite order, by swapping neighbours of growing size. */
  function Reverse(x: Word64): Word64 {
    var a := SwapStage(x, 1, ODD_BITS, EVEN_BITS);
    var b := SwapStage(a, 2, ODD_PAIRS, EVEN_PAIRS);
    var c := SwapStage(b, 4, ODD_NIBBLES, EVEN_NIBBLES);
    var d := SwapStage(c, 8, ODD_BYTES, EVEN_BYTES);
    var e := SwapStage(d, 16, ODD_HALVES, EVEN_HALVES);
    Or(Shr(e, 32), Shl(e, 32))
  }

  function Flip(k: nat, n: nat): (f: int)
    requires n > 0
  {
    if k / n % 2 == 0 then k + n else k - n
  }

  ghost predicate Stripes(n: nat, high: Word64, low: Word64)
    requires n > 0
  {
    forall j: nat :: j < 64 ==> high[j] == (j / n % 2 == 1) && low[j] == (j / n % 2 == 0)
  }

  lemma StageFlips(x: Word64, n: nat, high: Word64, low: Word64, k: nat)
    requires n in {1, 2, 4, 8, 16} && k < 64 && Stripes(n, high, low)
    ensures 0 <= Flip(k, n) < 64 && SwapStage(x, n, high, low)[k] == x[Flip(k, n)]
  {
    StripePartner(k, n);
    var f := Flip(k, n);
    if k / n % 2 == 0 {
      assert high[f] && low[k];
      assert k >= n ==> !low[k - n];
    } else {
      assert low[f] && high[k];
      assert k + n < 64 ==> !high[k + n];
    }
  }

  lemma StripePartner(k: nat, n: nat)
    requires n in {1, 2, 4, 8, 16} && k < 64
    ensures (k + n) / n == k / n + 1
    ensures k >= n ==> (k - n) / n == k / n - 1
    ensures if k / n % 2 == 0 then k + n < 64 && (k + n) / n % 2 == 1
            else k >= n && (k - n) / n % 2 == 0
    ensures k >= n && k / n % 2 == 0 ==> (k - n) / n % 2 == 1
    ensures k / n % 2 == 1 ==> (k + n) / n % 2 == 0
  {
    if n == 1 {
    } else if n == 2 {
    } else if n == 4 {
    } else if n == 8 {
    } else {
    }
  }

  lemma OddBits(k: nat)
    requires k < 64
    ensures ODD_BITS[k] == (k % 2 == 1)
  {
    assert "aaaaaaaaaaaaaaaa"[15 - k / 4] == 'a';
    assert HexValue('a') == 10;
  }

  lemma EvenBits(k: nat)
    requires k < 64
    ensures EVEN_BITS[k] == (k % 2 == 0)
  {
    assert "5555555555555555"[15 - k / 4] == '5';
    assert HexValue('5') == 5;
  }

  lemma OddPairs(k: nat)
    requires k < 64
    ensures ODD_PAIRS[k] == (k / 2 % 2 == 1)
  {
    assert "cccccccccccccccc"[15 - k / 4] == 'c';
    assert HexValue('c') == 12;
  }

  lemma EvenPairs(k: nat)
    requires k < 64
    ensures EVEN_PAIRS[k] == (k / 2 % 2 == 0)
  {
    assert "3333333333333333"[15 - k / 4] == '3';
    assert HexValue('3') == 3;
  }

  lemma Stripes1()
    ensures Stripes(1, ODD_BITS, EVEN_BITS)
  {
    hide Hex;
    forall k: nat | k < 64 ensures ODD_BITS[k] == (k / 1 % 2 == 1) && EVEN_BITS[k] == (k / 1 % 2 == 0) {
      OddBits(k);
      EvenBits(k);
    }
  }

  lemma Stripes2()
    ensures Stripes(2, ODD_PAIRS, EVEN_PAIRS)
  {
    hide Hex;
    forall k: nat | k < 64 ensures ODD_PAIRS[k] == (k / 2 % 2 == 1) && EVEN_PAIRS[k] == (k / 2 % 2 == 0) {
      OddPairs(k);
      EvenPairs(k);
    }
  }

  lemma FullOrEmptyDigit(s: string, k: nat)
    requires IsHex(s) && |s| == 16 && k < 64 && s[15 - k / 4] in {'0', 'f'}
    ensures Hex(s)[k] == (s[15 - k / 4] == 'f')
  {
  }

  lemma QuarterDivides(k: nat, n: nat)
    requires n in {4, 8, 16}
    ensures 4 * (k / 4) / n == k / n
  {
    var q, r := k / n, k % n;
    if n == 4 {
      assert k == 4 * q + r;
    } else if n == 8 {
      assert k == 8 * q + r;
      assert k / 4 == 2 * q + r / 4;
    } else {
      assert k == 16 * q + r;
      assert k / 4 == 4 * q + r / 4;
    }
  }

  lemma DigitStripes(n: nat, s: string, t: string)
    requires n in {4, 8, 16} && |s| == |t| == 16
    requires forall d :: 0 <= d < 16 ==> s[d] == (if 4 * (15 - d) / n % 2 == 1 then 'f' else '0')
    requires forall d :: 0 <= d < 16 ==> t[d] == (if 4 * (15 - d) / n % 2 == 1 then '0' else 'f')
    ensures IsHex(s) && IsHex(t) && Stripes(n, Hex(s), Hex(t))
  {
    forall k: nat | k < 64
      ensures Hex(s)[k] == (k / n % 2 == 1) && Hex(t)[k] == (k / n % 2 == 0)
    {
      FullOrEmptyDigit(s, k);
      FullOrEmptyDigit(t, k);
      QuarterDivides(k, n);
    }
  }

  lemma Stripes4()
    ensures Stripes(4, ODD_NIBBLES, EVEN_NIBBLES)
  {
    hide Hex, Stripes;
    DigitStripes(4, "f0f0f0f0f0f0f0f0", "0f0f0f0f0f0f0f0f");
  }

  lemma Stripes8()
    ensures Stripes(8, ODD_BYTES, EVEN_BYTES)
  {
    hide Hex, Stripes;
    DigitStripes(8, "ff00ff00ff00ff00", "00ff00ff00ff00ff");
  }

  lemma Stripes16()
    ensures Stripes(16, ODD_HALVES, EVEN_HALVES)
  {
    hide Hex, Stripes;
    DigitStripes(16, "ffff0000ffff0000", "0000ffff0000ffff");
  }

  /** Flipping by n inverts the binary digit of weight n. */
  lemma FlipDigit(n: nat, q: nat, b: nat, r: nat, k: nat)
    requires n in {1, 2, 4, 8, 16} && b < 2 && r < n
    requires k == (2 * q + b) * n + r
    ensures Flip(k, n) == k + n - 2 * (n * b)
  {
    if n == 1 {
    } else if n == 2 {
    } else if n == 4 {
    } else if n == 8 {
    } else {
    }
    assert k / n == 2 * q + b;
  }

  lemma BinaryDigits(k: nat) returns (h: nat, a: nat, b: nat, c: nat, d: nat, e: nat)
    requires k < 64
    ensures h < 2 && a < 2 && b < 2 && c < 2 && d < 2 && e < 2
    ensures k == 32 * h + 16 * a + 8 * b + 4 * c + 2 * d + e
  {
    var k1, k2, k3, k4: nat;
    e, k1 := k % 2, k / 2;
    d, k2 := k1 % 2, k1 / 2;
    c, k3 := k2 % 2, k2 / 2;
    b, k4 := k3 % 2, k3 / 2;
    a, h := k4 % 2, k4 / 2;
  }

  lemma LowFlips(q: nat, d: nat, e: nat)
    requires q < 16 && d < 2 && e < 2
    ensures var m := 4 * q + 2 * d + e; 0 <= Flip(m, 2) < 64 && Flip(Flip(m, 2), 1) == 4 * q + 3 - 2 * d - e
  {
    hide Flip;
    FlipDigit(2, q, d, e, 4 * q + 2 * d + e);
    FlipDigit(1, 2 * q + 1 - d, e, 0, 4 * q + 2 * (1 - d) + e);
  }

  lemma HighFlips(k: nat, h: nat, a: nat, b: nat, c: nat, r: nat)
    requires h < 2 && a < 2 && b < 2 && c < 2 && r < 4 && k == 32 * h + 16 * a + 8 * b + 4 * c + r
    ensures 0 <= Flip(k, 16) < 64 && 0 <= Flip(Flip(k, 16), 8) < 64
    ensures Flip(Flip(Flip(k, 16), 8), 4) == 32 * h + 28 - 16 * a - 8 * b - 4 * c + r
  {
    hide Flip;
    FlipDigit(16, h, a, 8 * b + 4 * c + r, k);
    var k1 := k + 16 - 32 * a;
    FlipDigit(8, 2 * h + 1 - a, b, 4 * c + r, k1);
    var k2 := k1 + 8 - 16 * b;
    FlipDigit(4, 4 * h + 2 * (1 - a) + 1 - b, c, r, k2);
  }

  lemma AllFlips(k: nat)
    requires k < 64
    ensures 0 <= Flip(k, 16) < 64 && 0 <= Flip(Flip(k, 16), 8) < 64 && 0 <= Flip(Flip(Flip(k, 16), 8), 4) < 64
    ensures var m := Flip(Flip(Flip(k, 16), 8), 4);
      0 <= Flip(m, 2) < 64 && Flip(Flip(m, 2), 1) == if k < 32 then 31 - k else 95 - k
  {
    hide Flip;
    var h, a, b, c, d, e := BinaryDigits(k);
    HighFlips(k, h, a, b, c, 2 * d + e);
    LowFlips(8 * h + 7 - 4 * a - 2 * b - c, d, e);
    assert (h == 0) == (k < 32);
  }

  lemma ReverseBit(x: Word64, k: nat)
    requires k < 64
    ensures Reverse(x)[k] == x[63 - k]
  {
    hide SwapStage, Hex, Stripes, Flip;
    Stripes1(); Stripes2(); Stripes4(); Stripes8(); Stripes16();
    var a := SwapStage(x, 1, ODD_BITS, EVEN_BITS);
    var b := SwapStage(a, 2, ODD_PAIRS, EVEN_PAIRS);
    var c := SwapStage(b, 4, ODD_NIBBLES, EVEN_NIBBLES);
    var d := SwapStage(c, 8, ODD_BYTES, EVEN_BYTES);
    var e := SwapStage(d, 16, ODD_HALVES, EVEN_HALVES);
    var k' := if k < 32 then k + 32 else k - 32;
    assert Reverse(x)[k] == e[k'];
    AllFlips(k');
    StageFlips(d, 16, ODD_HALVES, EVEN_HALVES, k');
    StageFlips(c, 8, ODD_BYTES, EVEN_BYTES, Flip(k', 16));
    StageFlips(b, 4, ODD_NIBBLES, EVEN_NIBBLES, Flip(Flip(k', 16), 8));
    var m := Flip(Flip(Flip(k', 16), 8), 4);
    StageFlips(a, 2, ODD_PAIRS, EVEN_PAIRS, m);
    StageFlips(x, 1, ODD_BITS, EVEN_BITS, Flip(m, 2));
  }

  // ---- the tag number -------------------------------------------------------------

  const ANIMAL: Word64 := Hex("8000000000000000")

  lemma AnimalBit(k: nat)
    requires k < 64
    ensures ANIMAL[k] == (k == 63)
  {
    assert HexValue('8') == 8 && HexValue('0') == 0;
    assert "8000000000000000"[15 - k / 4] == if k >= 60 then '8' else '0';
  }

  /** A 64-bit integer as an unsigned one. */
  function Unsigned(v: int): (u: nat) { v % 0x1_0000_0000_0000_0000 }

  /** The 64 bits that are sent for a country code and a number: 38 bits of the number, 25 of the country code,
      and the animal bit. */
  function NumberData(country: nat, number: nat): (d: Data) {
    NatBits(number, 38) + NatBits(country, 25) + [true]
  }

  /** (countryCode << 38) | uniqueID, with the animal bit. */
  function TagNumber(country: nat, number: nat): (w: Word64) {
    Or(Or(Shl(NatBits(country, 64), 38), NatBits(number, 64)), ANIMAL)
  }

  lemma TagNumberIsData(country: nat, number: nat)
    requires number <= 0x3FFFFFFFFF
    ensures TagNumber(country, number) == NumberData(country, number)
  {
    hide NatBits, Pow2;
    TwoTo38();
    BitsPrefix(country, 64, 25);
    BitsPrefix(number, 64, 38);
    forall k | 0 <= k < 64 ensures TagNumber(country, number)[k] == NumberData(country, number)[k] {
      AnimalBit(k);
      if k < 38 {
        assert NatBits(number, 38)[k] == NatBits(number, 64)[..38][k];
      } else {
        HighBitsZero(number, 64, 38, k);
        if k < 63 { assert NatBits(country, 25)[k - 38] == NatBits(country, 64)[..25][k - 38]; }
      }
    }
  }

  /** For fifteen decimal digits these are the bits of the tag. */
  lemma DigitsData(s: string)
    requires TagDigits(s)
    ensures NumberData(Parse(s[..3]), Parse(s[3..])) == TagData(s)
  {
    hide Parse, NatBits, Pow2, Pow10;
    var country := Parse(s[..3]);
    TwoTo38();
    ParseBound(s[..3]);
    BitsPrefix(country, 25, 10);
    forall k | 0 <= k < 25 ensures NatBits(country, 25)[k] == (NatBits(country, 10) + seq(15, i => false))[k] {
      if k >= 10 {
        HighBitsZero(country, 25, 10, k);
      } else {
        assert NatBits(country, 10)[k] == NatBits(country, 25)[..10][k];
      }
    }
    assert NatBits(country, 25) == NatBits(country, 10) + seq(15, i => false);
  }

  lemma SentBytes(d: Data, r: Word64, i: nat)
    requires i < 8 && forall k :: 0 <= k < 64 ==> r[k] == d[63 - k]
    ensures Shr(r, 56 - 8 * i)[..8] == DataBytes(d)[i]
  {
    forall b | 0 <= b < 8 ensures Shr(r, 56 - 8 * i)[..8][b] == DataBytes(d)[i][b] {
      assert DataBytes(d)[i][b] == d[8 * i..8 * i + 8][7 - b];
    }
  }

  method TagChecksum(d: Data, r: Word64) returns (crc: Crc16)
    requires forall k :: 0 <= k < 64 ==> r[k] == d[63 - k]
    ensures crc == MessageCrc(DataBytes(d))
  {
    hide Update, DataBytes;
    crc := Zero();
    var j := 7 * 8;
    for i := 0 to 8
      invariant j == 56 - 8 * i
      invariant crc == Fold(Zero(), DataBytes(d)[..i])
    {
      assert DataBytes(d)[..i + 1][..i] == DataBytes(d)[..i];
      SentBytes(d, r, i);
      crc := Update(crc, Shr(r, j)[..8]);
      j := j - 8;
    }
    assert DataBytes(d)[..8] == DataBytes(d);
  }

  // ---- the frame ------------------------------------------------------------------

  /** Frame bit p once the first n groups are filled in. */
  predicate Filled(d: Data, n: nat, p: nat)
    requires p < 128
  {
    if p >= 11 && (p - 11) % 9 < 8 && (p - 11) / 9 >= n then false else FrameBit(d, p)
  }

  /** Filling group n changes exactly its eight bits. */
  lemma FillGroup(d: Data, n: nat, p: nat)
    requires n < 10 && p < 128
    ensures Filled(d, n + 1, p)
         == (Filled(d, n, p) || (11 + 9 * n <= p < 19 + 9 * n && FrameBit(d, p)))
    ensures 11 + 9 * n <= p < 19 + 9 * n ==> (p - 11) / 9 == n && (p - 11) % 9 == p - 11 - 9 * n
  {
  }

  lemma NothingFilled(d: Data, p: nat)
    requires p < 128
    ensures Filled(d, 0, p) == (p >= 10 && (p - 10) % 9 == 0)
    ensures p >= 101 ==> Filled(d, 10, p) == FrameBit(d, p)
  {
    if p >= 11 {
      assert (p - 11) % 9 == 8 <==> (p - 10) % 9 == 0;
    }
  }

  const HEAD: Word64 := Hex("0020100804020100")
  const TAIL: Word64 := Hex("8040201008040201")

  lemma HeadBits(k: nat)
    requires k < 64
    ensures HEAD[k] == (63 - k >= 10 && (63 - k - 10) % 9 == 0)
  {
    assert HexValue('0') == 0 && HexValue('1') == 1 && HexValue('2') == 2 && HexValue('4') == 4 && HexValue('8') == 8;
    var d := 15 - k / 4;
    assert "0020100804020100"[d] == if d == 2 then '2' else if d == 4 then '1' else if d == 7 then '8'
      else if d == 9 then '4' else if d == 11 then '2' else if d == 13 then '1' else '0';
  }

  lemma TailBits(k: nat)
    requires k < 64
    ensures TAIL[k] == ((127 - k - 10) % 9 == 0)
  {
    assert HexValue('0') == 0 && HexValue('1') == 1 && HexValue('2') == 2 && HexValue('4') == 4 && HexValue('8') == 8;
    var d := 15 - k / 4;
    assert "8040201008040201"[d] == if d == 0 then '8' else if d == 2 then '4' else if d == 4 then '2'
      else if d == 6 then '1' else if d == 9 then '8' else if d == 11 then '4' else if d == 13 then '2'
      else if d == 15 then '1' else '0';
  }

  const LOW_MASK: Word64 := Hex("001FE00000000000")
  const HIGH_MASK: Word64 := Hex("7F80000000000000")
  const CRC_HIGH: Word64 := Hex("00001FE000000000")
  const CRC_LOW: Word64 := Hex("0000000FF0000000")

  lemma MaskBits(k: nat)
    requires k < 64
    ensures LOW_MASK[k] == (45 <= k <= 52) && HIGH_MASK[k] == (55 <= k <= 62)
  {
    assert HexValue('0') == 0 && HexValue('1') == 1 && HexValue('F') == 15 && HexValue('E') == 14
        && HexValue('7') == 7 && HexValue('8') == 8;
    var d := 15 - k / 4;
    assert "001FE00000000000"[d] == if d == 2 then '1' else if d == 3 then 'F' else if d == 4 then 'E' else '0';
    assert "7F80000000000000"[d] == if d == 0 then '7' else if d == 1 then 'F' else if d == 2 then '8' else '0';
  }

  lemma ChecksumMaskBits(k: nat)
    requires k < 64
    ensures CRC_HIGH[k] == (37 <= k <= 44) && CRC_LOW[k] == (28 <= k <= 35)
  {
    assert HexValue('0') == 0 && HexValue('1') == 1 && HexValue('F') == 15 && HexValue('E') == 14;
    var d := 15 - k / 4;
    assert "00001FE000000000"[d] == if d == 4 then '1' else if d == 5 then 'F' else if d == 6 then 'E' else '0';
    assert "0000000FF0000000"[d] == if d == 7 || d == 8 then 'F' else '0';
  }

  lemma FirstStep(d: Data, r: Word64, enc: Word64, mask: Word64, i: nat, k: nat)
    requires i < 6 && k < 64 && forall t :: 0 <= t < 64 ==> r[t] == d[63 - t]
    requires mask[k] == (45 - 9 * i <= k <= 52 - 9 * i) && enc[k] == Filled(d, i, 63 - k)
    ensures Or(enc, And(Shr(r, 11 + i), mask))[k] == Filled(d, i + 1, 63 - k)
  {
    hide Filled, FrameBit;
    FillGroup(d, i, 63 - k);
    if mask[k] { GroupData(d, i, 63 - k); }
  }

  lemma SecondStep(d: Data, r: Word64, enc: Word64, mask: Word64, i: nat, k: nat)
    requires i < 2 && k < 64 && forall t :: 0 <= t < 64 ==> r[t] == d[63 - t]
    requires mask[k] == (55 - 9 * i <= k <= 62 - 9 * i) && enc[k] == Filled(d, 6 + i, 127 - k)
    ensures Or(enc, And(Shl(r, 47 - i), mask))[k] == Filled(d, 7 + i, 127 - k)
  {
    hide Filled, FrameBit;
    FillGroup(d, 6 + i, 127 - k);
    if mask[k] { GroupData(d, 6 + i, 127 - k); }
  }

  method FirstWord(d: Data, r: Word64) returns (enc: Word64)
    requires forall k :: 0 <= k < 64 ==> r[k] == d[63 - k]
    ensures forall k :: 0 <= k < 64 ==> enc[k] == Filled(d, 6, 63 - k)
  {
    hide Filled, FrameBit, Or, And, Hex;
    enc := HEAD;
    var mask := LOW_MASK;
    forall k | 0 <= k < 64 ensures HEAD[k] == Filled(d, 0, 63 - k) && LOW_MASK[k] == (45 <= k <= 52) {
      HeadBits(k);
      NothingFilled(d, 63 - k);
      MaskBits(k);
    }
    var j := 11;
    for i := 0 to 6
      invariant j == 11 + i
      invariant forall k :: 0 <= k < 64 ==> mask[k] == (45 - 9 * i <= k <= 52 - 9 * i)
      invariant forall k :: 0 <= k < 64 ==> enc[k] == Filled(d, i, 63 - k)
    {
      forall k | 0 <= k < 64 ensures Or(enc, And(Shr(r, j), mask))[k] == Filled(d, i + 1, 63 - k) {
        FirstStep(d, r, enc, mask, i, k);
      }
      enc := Or(enc, And(Shr(r, j), mask));
      mask := Shr(mask, 9);
      j := j + 1;
    }
  }

  lemma GroupData(d: Data, g: nat, p: nat)
    requires g < 8 && 11 + 9 * g <= p < 19 + 9 * g
    ensures FrameBit(d, p) == d[p - 11 - g]
  {
    FrameGroup(d, g, p - 11 - 9 * g);
  }

  lemma GroupChecksum(d: Data, g: nat, p: nat)
    requires 8 <= g < 10 && 11 + 9 * g <= p < 19 + 9 * g && p < 128
    ensures FrameBit(d, p) == MessageCrc(DataBytes(d))[98 - p + (g - 8)]
  {
    hide FrameBit, MessageCrc, DataBytes;
    FrameGroup(d, g, p - 11 - 9 * g);
  }

  method SecondWord(d: Data, r: Word64) returns (enc: Word64)
    requires forall k :: 0 <= k < 64 ==> r[k] == d[63 - k]
    ensures forall k :: 0 <= k < 64 ==> enc[k] == Filled(d, 8, 127 - k)
  {
    hide Filled, FrameBit, Or, And, Hex;
    enc := TAIL;
    var mask := HIGH_MASK;
    forall k | 0 <= k < 64 ensures TAIL[k] == Filled(d, 6, 127 - k) && HIGH_MASK[k] == (55 <= k <= 62) {
      TailBits(k);
      NothingFilled(d, 127 - k);
      EarlyGroups(d, 127 - k);
      MaskBits(k);
    }
    var j := 47;
    for i := 0 to 2
      invariant j == 47 - i
      invariant forall k :: 0 <= k < 64 ==> mask[k] == (55 - 9 * i <= k <= 62 - 9 * i)
      invariant forall k :: 0 <= k < 64 ==> enc[k] == Filled(d, 6 + i, 127 - k)
    {
      forall k | 0 <= k < 64 ensures Or(enc, And(Shl(r, j), mask))[k] == Filled(d, 6 + i + 1, 127 - k) {
        SecondStep(d, r, enc, mask, i, k);
      }
      enc := Or(enc, And(Shl(r, j), mask));
      mask := Shr(mask, 9);
      j := j - 1;
    }
  }

  lemma ChecksumHigh(d: Data, enc: Word64, wide: Word64, mask: Word64, k: nat)
    requires k < 64 && enc[k] == Filled(d, 8, 127 - k) && mask[k] == (37 <= k <= 44)
    requires forall i :: 0 <= i < 16 ==> wide[i] == MessageCrc(DataBytes(d))[i]
    ensures Or(enc, And(Shl(wide, 29), mask))[k] == Filled(d, 9, 127 - k)
  {
    hide Filled, FrameBit, MessageCrc, DataBytes;
    FillGroup(d, 8, 127 - k);
    if 37 <= k <= 44 { GroupChecksum(d, 8, 127 - k); }
  }

  lemma ChecksumLow(d: Data, enc: Word64, wide: Word64, mask: Word64, k: nat)
    requires k < 64 && enc[k] == Filled(d, 9, 127 - k) && mask[k] == (28 <= k <= 35)
    requires forall i :: 0 <= i < 16 ==> wide[i] == MessageCrc(DataBytes(d))[i]
    ensures Or(enc, And(Shl(wide, 28), mask))[k] == Filled(d, 10, 127 - k)
  {
    hide Filled, FrameBit, MessageCrc, DataBytes;
    FillGroup(d, 9, 127 - k);
    if 28 <= k <= 35 { GroupChecksum(d, 9, 127 - k); }
  }

  method AddChecksum(d: Data, word: Word64, crc: Crc16) returns (enc: Word64)
    requires crc == MessageCrc(DataBytes(d))
    requires forall k :: 0 <= k < 64 ==> word[k] == Filled(d, 8, 127 - k)
    ensures forall k :: 0 <= k < 64 ==> enc[k] == Filled(d, 10, 127 - k)
  {
    hide Filled, MessageCrc, DataBytes;
    var wide: Word64 := crc + seq(48, i => false);
    enc := Or(word, And(Shl(wide, 29), CRC_HIGH));
    forall k | 0 <= k < 64 ensures enc[k] == Filled(d, 9, 127 - k) {
      ChecksumMaskBits(k);
      ChecksumHigh(d, word, wide, CRC_HIGH, k);
    }
    ghost var high := enc;
    enc := Or(enc, And(Shl(wide, 28), CRC_LOW));
    forall k | 0 <= k < 64 ensures enc[k] == Filled(d, 10, 127 - k) {
      ChecksumMaskBits(k);
      ChecksumLow(d, high, wide, CRC_LOW, k);
    }
  }

  // The second word holds nothing of the first six groups.
  lemma EarlyGroups(d: Data, p: nat)
    requires 64 <= p < 128
    ensures Filled(d, 6, p) == Filled(d, 0, p)
  {
  }

  /** encodeISO11785_FDX_B turns fifteen characters into the four blocks that send the frame of the two numbers
      that strtoul and strtoll read in them; a number of more than 38 bits is refused. */
  method EncodeFdxB(tagString: string, blockDataLen: nat, strtoll: string -> int, strtoul: string -> nat) returns (r: Encoded)
    ensures r.Blocks? <==>
      blockDataLen >= 4 && |tagString| == 15 && Unsigned(strtoll(tagString[3..])) <= 0x3FFFFFFFFF
    ensures r.Blocks? ==> |r.blocks| == 4 && forall i :: 0 <= i < 4 ==> |r.blocks[i]| == 32
    ensures r.Blocks? ==>
      SentBits(r.blocks) == Frame(NumberData(strtoul(tagString[..3]), Unsigned(strtoll(tagString[3..]))))
  {
    hide FrameBit, Filled, TagNumber, NumberData, Reverse, Unsigned;
    if blockDataLen < 4 {
      return InvalidArg;
    }
    if |tagString| != 15 {
      return InvalidArg;
    }
    var uniqueID := Unsigned(strtoll(tagString[3..]));
    if uniqueID > 0x3FFFFFFFFF {
      return InvalidArg;
    }
    var countryCode := strtoul(tagString[..3]);
    ghost var d := NumberData(countryCode, uniqueID);
    var number := TagNumber(countryCode, uniqueID);
    TagNumberIsData(countryCode, uniqueID);
    var tagData := Reverse(number);
    forall k | 0 <= k < 64 ensures tagData[k] == d[63 - k] {
      ReverseBit(number, k);
    }
    var crc := TagChecksum(number, tagData);
    var first := FirstWord(number, tagData);
    var second := SecondWord(number, tagData);
    second := AddChecksum(number, second, crc);
    var blocks := [first[32..], first[..32], second[32..], second[..32]];
    forall p | 0 <= p < 128 ensures SentBits(blocks)[p] == Frame(d)[p] {
      AllFilled(d, p);
      BlockBit(first, second, blocks, p);
    }
    assert SentBits(blocks) == Frame(d);
    return Encoded.Blocks(blocks);
  }

  /** What strtoll and strtoul are for: they read decimal digits, three or twelve of them. */
  ghost predicate ReadDecimal(strtoll: string -> int, strtoul: string -> nat) {
    forall s :: IsDecimal(s) && 0 < |s| <= 12 ==> strtoll(s) == Parse(s) && (|s| == 3 ==> strtoul(s) == Parse(s))
  }

  /** So fifteen digits are taken if and only if the last twelve of them fit in 38 bits, and what is sent is the
      frame of the tag. */
  lemma DecimalTagFrame(s: string, strtoll: string -> int, strtoul: string -> nat)
    requires |s| == 15 && IsDecimal(s) && ReadDecimal(strtoll, strtoul)
    ensures Unsigned(strtoll(s[3..])) <= 0x3FFFFFFFFF <==> TagDigits(s)
    ensures TagDigits(s) ==>
      Frame(NumberData(strtoul(s[..3]), Unsigned(strtoll(s[3..])))) == Frame(TagData(s))
  {
    hide Parse, TagData, NumberData, Pow10;
    assert IsDecimal(s[3..]) && IsDecimal(s[..3]);
    ParseBound(s[3..]);
    TwelveDigits();
    if TagDigits(s) { DigitsData(s); }
  }

  lemma TwelveDigits()
    ensures Pow10(12) == 1_000_000_000_000
  {
    assert Pow10(4) == 10_000;
    assert Pow10(8) == 100_000_000;
  }

  lemma AllFilled(d: Data, p: nat)
    requires p < 128
    ensures Filled(d, 10, p) == FrameBit(d, p)
    ensures p < 64 ==> Filled(d, 6, p) == FrameBit(d, p)
  {
    NothingFilled(d, p);
  }

  lemma BlockBit(first: Word64, second: Word64, blocks: seq<Word>, p: nat)
    requires p < 128 && blocks == [first[32..], first[..32], second[32..], second[..32]]
    ensures SentBits(blocks)[p] == if p < 64 then first[63 - p] else second[127 - p]
  {
  }
}
