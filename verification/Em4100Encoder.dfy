/** encodeEM4100: the 64-bit word built with shifts, masks and parities, and its two blocks. */
module Em4100Encoder {
  import opened Words
  import opened Em4100
  import opened Numbers
  import opened Blocks

  // ---- the number -----------------------------------------------------------------

  /** v shifted down by k bits. */
  function Halved(v: int, k: nat): int { if k == 0 then v else Halved(v, k - 1) / 2 }

  /** A number as a 64-bit word, negative ones in two's complement. */
  function NumberWord(v: int): (w: Word)
    ensures |w| == 64
  {
    seq(64, k requires 0 <= k < 64 => Halved(v, k) % 2 == 1)
  }

  function Nibble(v: int, m: nat): (n: nat)
    ensures n < 16
  {
    Halved(v, 4 * m) % 16
  }

  /** The ten hexadecimal digits of the low 40 bits of a number. */
  function TenDigits(v: int): (s: string)
    ensures TagDigits(s)
  {
    seq(10, i requires 0 <= i < 10 => HexDigit(Nibble(v, 9 - i)))
  }

  /** The word holds, in its low 40 bits, what the ten digits spell. */
  ghost predicate Carries(w: Word, s: string) {
    |w| == 64 && TagDigits(s) && forall k :: 0 <= k < 40 ==> w[k] == TagBit(s, k)
  }

  lemma NumberCarries(v: int)
    ensures Carries(NumberWord(v), TenDigits(v))
  {
    forall k | 0 <= k < 40 ensures NumberWord(v)[k] == TagBit(TenDigits(v), k) {
      var m, j := k / 4, k % 4;
      assert TenDigits(v)[9 - m] == HexDigit(Nibble(v, m));
      NibbleOf(v, m, j);
    }
  }

  lemma NibbleOf(v: int, m: nat, j: nat)
    requires j < 4
    ensures (Halved(v, 4 * m + j) % 2 == 1) == NibbleBit(Nibble(v, m), j)
  {
    var x := Halved(v, 4 * m);
    HalvedThrice(v, 4 * m);
    hide Halved;
    LowNibble(x);
  }

  lemma HalvedThrice(v: int, k: nat)
    ensures var x := Halved(v, k);
      Halved(v, k + 1) == x / 2 && Halved(v, k + 2) == x / 2 / 2 && Halved(v, k + 3) == x / 2 / 2 / 2
  {
  }

  lemma LowNibble(x: int)
    ensures var n: nat := x % 16;
      && (x % 2 == 1) == NibbleBit(n, 0) && (x / 2 % 2 == 1) == NibbleBit(n, 1)
      && (x / 2 / 2 % 2 == 1) == NibbleBit(n, 2) && (x / 2 / 2 / 2 % 2 == 1) == NibbleBit(n, 3)
  {
    var q, n := x / 16, x % 16;
    assert x / 2 == 8 * q + n / 2;
    assert x / 2 / 2 == 4 * q + n / 4;
    assert x / 2 / 2 / 2 == 2 * q + n / 8;
  }

  /** The number that hexadecimal digits spell. */
  function HexNumber(s: string): (n: nat)
    requires IsHex(s)
  {
    if |s| == 0 then 0 else 16 * HexNumber(s[..|s| - 1]) + HexValue(s[|s| - 1])
  }

  lemma {:induction false} HexReadTo(s: string, k: nat)
    requires k <= |s| && IsHex(s)
    ensures HexNumber(s[..k]) == ReadTo(s, 16, k)
  {
    if k > 0 {
      HexReadTo(s, k - 1);
      assert s[..k][..k - 1] == s[..k - 1];
    }
  }

  /** The bits of a number, by its hexadecimal digits. */
  lemma {:induction false} HexBits(s: string, len: nat, k: nat)
    requires IsHex(s) && k < len && k < 4 * |s|
    ensures NatBits(HexNumber(s), len)[k] == NibbleBit(HexValue(s[|s| - 1 - k / 4]), k % 4)
  {
    hide NatBits, NibbleBit, HexValue;
    var init, v := s[..|s| - 1], HexValue(s[|s| - 1]);
    var m := HexNumber(init);
    if k < 4 {
      FirstFourBits(m, v, len, k);
    } else {
      FourBitsOn(16 * m + v, len, k);
      HexBits(init, len - 4, k - 4);
    }
  }

  lemma {:induction false} HalvedFromInside(v: int, k: nat)
    ensures Halved(v, 4 + k) == Halved(v / 16, k)
  {
    if k > 0 {
      HalvedFromInside(v, k - 1);
    } else {
      assert Halved(v, 0) == v;
      HalvedThrice(v, 0);
      assert Halved(v, 4) == Halved(v, 3) / 2;
    }
  }

  lemma {:induction false} NibbleOfDigits(s: string, m: nat)
    requires IsHex(s) && m < |s|
    ensures Nibble(HexNumber(s), m) == HexValue(s[|s| - 1 - m])
  {
    var init := s[..|s| - 1];
    if m > 0 {
      NibbleOfDigits(init, m - 1);
      HalvedFromInside(HexNumber(s), 4 * (m - 1));
      assert HexNumber(s) / 16 == HexNumber(init);
    }
  }

  /** What ten digits spell has the frame of these digits. */
  lemma DigitsComeBack(s: string)
    requires TagDigits(s)
    ensures Frame(TenDigits(HexNumber(s))) == Frame(s)
  {
    hide RowBit, FrameBit, TenDigits, HexNumber;
    var t := TenDigits(HexNumber(s));
    forall d: nat, c: nat | d < 10 && c < 4 ensures RowBit(t, d, c) == RowBit(s, d, c) {
      DigitComesBack(s, d);
      SameRow(s, t, d, c);
    }
    forall p: nat | p < 64 ensures Frame(t)[p] == Frame(s)[p] {
      SameFrameBit(s, t, p);
    }
  }

  lemma DigitComesBack(s: string, d: nat)
    requires TagDigits(s) && d < 10
    ensures HexValue(TenDigits(HexNumber(s))[d]) == HexValue(s[d])
  {
    hide HexValue, HexNumber, Nibble;
    NibbleOfDigits(s, 9 - d);
  }

  lemma SameFrameBit(s: string, t: string, p: nat)
    requires TagDigits(s) && TagDigits(t) && p < 64
    requires forall d: nat, c: nat :: d < 10 && c < 4 ==> RowBit(t, d, c) == RowBit(s, d, c)
    ensures FrameBit(t, p) == FrameBit(s, p)
  {
    hide RowBit, Parity;
    if 9 <= p < 59 {
      var d := (p - 9) / 5;
      assert RowBits(t, d, 4) == RowBits(s, d, 4);
    } else if 59 <= p < 63 {
      var c := p - 59;
      assert ColumnBits(t, c, 10) == ColumnBits(s, c, 10);
    }
  }

  lemma SameRow(s: string, t: string, d: nat, c: nat)
    requires TagDigits(s) && TagDigits(t) && d < 10 && c < 4 && HexValue(t[d]) == HexValue(s[d])
    ensures RowBit(t, d, c) == RowBit(s, d, c)
  {
  }

  // ---- data -----------------------------------------------------------------------

  // Word bit k after the first i digits have been moved to their rows: row r holds bits 51-5r .. 54-5r.
  predicate DataBit(s: string, i: nat, k: nat)
    requires TagDigits(s) && k < 64
  {
    if k >= 55 then true
    else if k < 5 || k % 5 == 0 then false
    else 10 - k / 5 < i && RowBit(s, 10 - k / 5, 4 - k % 5)
  }

  lemma DataStep(s: string, i: nat, enc: Word, tag: Word, mask: Word, k: nat)
    requires TagDigits(s) && i < 10 && |enc| == |mask| == 64 && Carries(tag, s) && k < 64
    requires enc[k] == DataBit(s, i, k) && mask[k] == (51 - 5 * i <= k <= 54 - 5 * i)
    ensures Or(enc, And(Shl(tag, 15 - i), mask))[k] == DataBit(s, i + 1, k)
  {
    if mask[k] {
      var c := k - (51 - 5 * i);
      assert k == 5 * (10 - i) + (c + 1);
      assert k / 5 == 10 - i && k % 5 == c + 1;
      var t := k - (15 - i);
      assert t == 4 * (9 - i) + c && t / 4 == 9 - i && t % 4 == c;
    } else if 5 <= k < 55 {
      assert k == 5 * (k / 5) + k % 5;
    }
  }

  // ---- parity ---------------------------------------------------------------------

  lemma {:induction false} ParityCons(a: bool, b: seq<bool>)
    ensures Parity([a] + b) == (a != Parity(b))
  {
    if |b| == 0 {
      assert ([a] + b)[..0] == [];
    } else {
      var k := |b| - 1;
      assert ([a] + b)[..k + 1] == [a] + b[..k];
      ParityCons(a, b[..k]);
    }
  }

  lemma ParitySuffix(b: seq<bool>, n: nat)
    requires n < |b|
    ensures Parity(b[|b| - n - 1..]) == (b[|b| - n - 1] != Parity(b[|b| - n..]))
  {
    var k := |b| - n - 1;
    assert b[k..] == [b[k]] + b[k + 1..];
    ParityCons(b[k], b[k + 1..]);
  }

  // How many of the first i tag bits, taken from the lowest, fall in column k or in row r.
  function InColumn(i: nat, k: nat): (n: nat)
    requires i <= 40 && 1 <= k <= 4
    ensures n <= 10
  {
    (i + 4 - k) / 4
  }

  function InRow(i: nat, r: nat): (n: nat)
    requires 1 <= r
    ensures n <= 4
  {
    if i <= 4 * (r - 1) then 0 else if i >= 4 * r then 4 else i - 4 * (r - 1)
  }

  // Word bit k once all data is placed and the parities of the first i tag bits are in.
  predicate ParityBit(s: string, i: nat, k: nat)
    requires TagDigits(s) && i <= 40 && k < 64
  {
    if k >= 55 then true
    else if k == 0 then false
    else if k < 5 then Parity(ColumnBits(s, 4 - k, 10)[10 - InColumn(i, k)..])
    else if k % 5 == 0 then Parity(RowBits(s, 10 - k / 5, 4)[4 - InRow(i, k / 5)..])
    else RowBit(s, 10 - k / 5, 4 - k % 5)
  }

  lemma ParityStart(s: string, k: nat)
    requires TagDigits(s) && k < 64
    ensures ParityBit(s, 0, k) == DataBit(s, 10, k)
  {
    if 1 <= k <= 4 { assert InColumn(0, k) == 0; }
  }

  lemma InColumnStep(i: nat, k: nat)
    requires i < 40 && 1 <= k <= 4
    ensures if k == i % 4 + 1 then InColumn(i, k) == i / 4 && InColumn(i + 1, k) == i / 4 + 1
            else InColumn(i, k) == InColumn(i + 1, k)
  {
  }

  lemma ParityAtColumn(s: string, i: nat, k: nat)
    requires TagDigits(s) && i <= 40 && 1 <= k <= 4
    ensures ParityBit(s, i, k) == Parity(ColumnBits(s, 4 - k, 10)[10 - InColumn(i, k)..])
  {
    hide Parity, RowBit, ColumnBits, InColumn;
  }

  lemma ColumnStep(s: string, i: nat, k: nat)
    requires TagDigits(s) && i < 40 && 1 <= k <= 4
    ensures ParityBit(s, i + 1, k) == (ParityBit(s, i, k) != (k == i % 4 + 1 && RowBit(s, 9 - i / 4, 3 - i % 4)))
  {
    hide Parity, RowBit, ParityBit, InColumn;
    ParityAtColumn(s, i, k);
    ParityAtColumn(s, i + 1, k);
    InColumnStep(i, k);
    if k == i % 4 + 1 {
      ParitySuffix(ColumnBits(s, 4 - k, 10), i / 4);
    }
  }

  lemma InRowStep(i: nat, r: nat)
    requires 1 <= r
    ensures if r == i / 4 + 1 then InRow(i, r) == i % 4 && InRow(i + 1, r) == i % 4 + 1
            else InRow(i, r) == InRow(i + 1, r)
  {
  }

  lemma ParityAtRow(s: string, i: nat, r: nat)
    requires TagDigits(s) && i <= 40 && 1 <= r <= 10
    ensures ParityBit(s, i, 5 * r) == Parity(RowBits(s, 10 - r, 4)[4 - InRow(i, r)..])
  {
    hide Parity, RowBit;
    assert (5 * r) / 5 == r && (5 * r) % 5 == 0;
  }

  lemma RowStep(s: string, i: nat, r: nat)
    requires TagDigits(s) && i < 40 && 1 <= r <= 10
    ensures ParityBit(s, i + 1, 5 * r)
         == (ParityBit(s, i, 5 * r) != (r == i / 4 + 1 && RowBit(s, 9 - i / 4, 3 - i % 4)))
  {
    hide Parity, RowBit, ParityBit, InRow;
    ParityAtRow(s, i, r);
    ParityAtRow(s, i + 1, r);
    InRowStep(i, r);
    if r == i / 4 + 1 {
      ParitySuffix(RowBits(s, 10 - r, 4), i % 4);
    }
  }

  /** Tag bit i toggles the parity of its column and of its row, and nothing else. */
  lemma ParityStep(s: string, i: nat, k: nat)
    requires TagDigits(s) && i < 40 && k < 64
    ensures ParityBit(s, i + 1, k)
         == (ParityBit(s, i, k) != (TagBit(s, i) && (k == i % 4 + 1 || k == 5 * (i / 4 + 1))))
  {
    hide NibbleBit, Parity;
    assert TagBit(s, i) == RowBit(s, 9 - i / 4, 3 - i % 4) by { TagBitIsRowBit(s, i); }
    if 1 <= k <= 4 {
      ColumnStep(s, i, k);
    } else if 5 <= k < 55 && k % 5 == 0 {
      RowStep(s, i, k / 5);
      assert k == 5 * (k / 5);
    }
  }

  lemma TagBitIsRowBit(s: string, i: nat)
    requires TagDigits(s) && i < 40
    ensures TagBit(s, i) == RowBit(s, 9 - i / 4, 3 - i % 4)
  {
  }

  lemma FinalBit(s: string, p: nat)
    requires TagDigits(s) && p < 64
    ensures ParityBit(s, 40, 63 - p) == FrameBit(s, p)
  {
    var k := 63 - p;
    if 9 <= p < 59 {
      var d, c := (p - 9) / 5, (p - 9) % 5;
      assert k == 5 * (10 - d) + (4 - c);
      assert k / 5 == 10 - d && k % 5 == 4 - c;
      if c == 4 { assert InRow(40, 10 - d) == 4; }
    } else if 59 <= p < 63 {
      assert InColumn(40, k) == 10;
    }
  }

  // ---- the encoder ----------------------------------------------------------------

  const ONE := Hex("0000000000000001")
  const HEADER_ONES := Hex("FF80000000000000")
  const FIRST_ROW := Hex("0078000000000000")

  lemma HeaderOnes(k: nat)
    requires k < 64
    ensures HEADER_ONES[k] == (k >= 55)
  {
    hide HexValue;
    DigitValues();
    var d := 15 - k / 4;
    assert "FF80000000000000"[d] == if d < 2 then 'F' else if d == 2 then '8' else '0';
  }

  lemma FirstRow(k: nat)
    requires k < 64
    ensures FIRST_ROW[k] == (51 <= k <= 54)
  {
    hide HexValue;
    DigitValues();
    var d := 15 - k / 4;
    assert "0078000000000000"[d] == if d == 2 then '7' else if d == 3 then '8' else '0';
  }

  lemma OneBits(k: nat)
    requires k < 64
    ensures ONE[k] == (k == 0)
  {
    hide HexValue;
    DigitValues();
    assert "0000000000000001"[15 - k / 4] == if k < 4 then '1' else '0';
  }

  lemma DigitValues()
    ensures HexValue('0') == 0 && HexValue('F') == 15 && HexValue('8') == 8 && HexValue('7') == 7 && HexValue('1') == 1
  {
  }

  // The first loop of the encoder: the ten digits into their rows.
  method PlaceData(ghost s: string, tagData: Word) returns (enc: Word)
    requires Carries(tagData, s)
    ensures |enc| == 64 && forall k :: 0 <= k < 64 ==> enc[k] == DataBit(s, 10, k)
  {
    hide DataBit, TagBit, Hex, Or, And;
    enc := HEADER_ONES;
    var mask := FIRST_ROW;
    forall k | 0 <= k < 64
      ensures enc[k] == DataBit(s, 0, k) && mask[k] == (51 <= k <= 54)
    {
      HeaderOnes(k);
      FirstRow(k);
      DataStart(s, k);
    }
    var j := 15;
    for i := 0 to 10
      invariant j == 15 - i && |enc| == |mask| == 64
      invariant forall k :: 0 <= k < 64 ==> enc[k] == DataBit(s, i, k)
      invariant forall k :: 0 <= k < 64 ==> mask[k] == (51 - 5 * i <= k <= 54 - 5 * i)
    {
      forall k | 0 <= k < 64 ensures Or(enc, And(Shl(tagData, j), mask))[k] == DataBit(s, i + 1, k) {
        DataStep(s, i, enc, tagData, mask, k);
      }
      enc := Or(enc, And(Shl(tagData, j), mask));
      mask := Shr(mask, 5);
      j := j - 1;
    }
  }

  lemma DataStart(s: string, k: nat)
    requires TagDigits(s) && k < 64
    ensures DataBit(s, 0, k) == (k >= 55)
  {
  }

  // The second loop: one tag bit at a time, from the lowest, into its column and row parities.
  method AddParity(ghost s: string, tag: Word, data: Word) returns (enc: Word)
    requires Carries(tag, s)
    requires |data| == 64 && forall k :: 0 <= k < 64 ==> data[k] == DataBit(s, 10, k)
    ensures |enc| == 64 && forall k :: 0 <= k < 64 ==> enc[k] == ParityBit(s, 40, k)
  {
    hide DataBit, ParityBit, TagBit, Shl, Xor, And;
    enc := data;
    var tagData := tag;
    forall k | 0 <= k < 64 ensures enc[k] == ParityBit(s, 0, k) { ParityStart(s, k); }
    var row, col := 1, 1;
    for i := 0 to 40
      invariant |enc| == 64 && tagData == Shr(tag, i)
      invariant if i == 0 then row == col == 1 else row == (i - 1) / 4 + 1 && col == (i - 1) % 4 + 2
      invariant forall k :: 0 <= k < 64 ==> enc[k] == ParityBit(s, i, k)
    {
      if col > 4 {
        col := 1;
        row := row + 1;
      }
      assert col == i % 4 + 1 && row == i / 4 + 1;
      ghost var before := enc;
      enc := Xor(enc, Shl(And(tagData, ONE), col));
      enc := Xor(enc, Shl(And(tagData, ONE), row * 5));
      forall k | 0 <= k < 64 ensures enc[k] == ParityBit(s, i + 1, k) {
        ParityStep(s, i, k);
        Toggles(before, tag, tagData, i, col, row * 5, k);
      }
      tagData := Shr(tagData, 1);
      col := col + 1;
    }
  }

  lemma Toggles(w: Word, tag: Word, shifted: Word, i: nat, c: nat, r: nat, k: nat)
    requires |w| == |tag| == 64 && shifted == Shr(tag, i) && i < 40 && c < r && k < 64
    ensures Xor(Xor(w, Shl(And(shifted, ONE), c)), Shl(And(shifted, ONE), r))[k]
         == (w[k] != (tag[i] && (k == c || k == r)))
  {
    if k >= c { OneBits(k - c); }
    if k >= r { OneBits(k - r); }
  }

  /** encodeEM4100 turns a string of ten characters, or of twelve that begin with 0x, into the two blocks that
      send the frame of the number strtoll reads in it. */
  method EncodeEM4100(tagString: string, blockDataLen: nat, strtoll: string -> int) returns (r: Encoded)
    ensures r.InvalidArg? <==>
      blockDataLen < 2 || !(|tagString| == 10 || (|tagString| == 12 && tagString[0] == '0' && tagString[1] == 'x'))
    ensures r.Blocks? ==> |r.blocks| == 2 && |r.blocks[0]| == |r.blocks[1]| == 32
    ensures r.Blocks? ==> SentBits(r.blocks) == Frame(TenDigits(strtoll(tagString)))
  {
    hide ParityBit, DataBit, FrameBit;
    if blockDataLen < 2 {
      return InvalidArg;
    }
    if |tagString| != 10 && !(|tagString| == 12 && tagString[0] == '0' && tagString[1] == 'x') {
      return InvalidArg;
    }
    var tagData := NumberWord(strtoll(tagString));
    ghost var s := TenDigits(strtoll(tagString));
    NumberCarries(strtoll(tagString));
    var enc := PlaceData(s, tagData);
    enc := AddParity(s, tagData, enc);
    var blocks := [enc[32..], enc[..32]];
    forall p | 0 <= p < 64 ensures SentBits(blocks)[p] == Frame(s)[p] {
      FinalBit(s, p);
      assert blocks[p / 32][31 - p % 32] == enc[63 - p];
    }
    assert SentBits(blocks) == Frame(s);
    return Encoded.Blocks(blocks);
  }

  /** What strtoll(.., 16) is for: it reads ten hexadecimal digits, with 0x in front or without. */
  ghost predicate ReadsHex(strtoll: string -> int) {
    forall s :: TagDigits(s) ==> strtoll(s) == HexNumber(s) && strtoll("0x" + s) == HexNumber(s)
  }

  /** So the blocks of ten hexadecimal digits send the frame of these digits. */
  lemma HexTagFrame(s: string, strtoll: string -> int)
    requires TagDigits(s) && ReadsHex(strtoll)
    ensures Frame(TenDigits(strtoll(s))) == Frame(s) && Frame(TenDigits(strtoll("0x" + s))) == Frame(s)
  {
    DigitsComeBack(s);
  }
}
