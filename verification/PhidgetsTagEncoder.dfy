/** encodePHIDGETS_TAG: header, control bits and checksum by mask, then one shifted character at a time. */
module PhidgetsTagEncoder {
  import opened Words
  import opened Crc
  import opened Blocks
  import opened PhidgetsTag

  type Word32 = w: Word | |w| == 32 witness seq(32, i => false)

  const HEAD: Word32 := Hex("00040201")
  const CRC_HIGH: Word32 := Hex("0003FC00")
  const CRC_LOW: Word32 := Hex("000001FE")
  const CONTROL: Word32 := Hex("01010101")

  lemma DigitValues()
    ensures HexValue('0') == 0 && HexValue('1') == 1 && HexValue('2') == 2 && HexValue('3') == 3
    ensures HexValue('4') == 4 && HexValue('C') == 12 && HexValue('E') == 14 && HexValue('F') == 15
  {
  }

  lemma HeadBits(k: nat)
    requires k < 32
    ensures HEAD[k] == (k == 18 || k == 9 || k == 0)
  {
    hide HexValue;
    DigitValues();
    var d := 7 - k / 4;
    assert "00040201"[d] == if d == 3 then '4' else if d == 5 then '2' else if d == 7 then '1' else '0';
  }

  lemma HighMaskBits(k: nat)
    requires k < 32
    ensures CRC_HIGH[k] == (10 <= k <= 17)
  {
    hide HexValue;
    DigitValues();
    var d := 7 - k / 4;
    assert "0003FC00"[d] == if d == 3 then '3' else if d == 4 then 'F' else if d == 5 then 'C' else '0';
  }

  lemma LowMaskBits(k: nat)
    requires k < 32
    ensures CRC_LOW[k] == (1 <= k <= 8)
  {
    hide HexValue;
    DigitValues();
    var d := 7 - k / 4;
    assert "000001FE"[d] == if d == 5 then '1' else if d == 6 then 'F' else if d == 7 then 'E' else '0';
  }

  lemma ControlBits(k: nat)
    requires k < 32
    ensures CONTROL[k] == (k % 8 == 0)
  {
    hide HexValue;
    DigitValues();
    var d := 7 - k / 4;
    assert "01010101"[d] == if d % 2 == 1 then '1' else '0';
  }

  // ---- the first block ------------------------------------------------------------

  lemma FirstBlockBit(d: Text, head: Word32, wide: Word32, high: Word32, low: Word32, k: nat)
    requires k < 32 && head[k] == (k == 18 || k == 9 || k == 0)
    requires high[k] == (10 <= k <= 17) && low[k] == (1 <= k <= 8)
    requires forall i :: 0 <= i < 16 ==> wide[i] == MessageCrc(d)[i]
    ensures Or(Or(head, And(Shl(wide, 2), high)), And(Shl(wide, 1), low))[k] == FrameBit(d, 31 - k)
  {
    hide MessageCrc;
    if k <= 17 {
      var g, c := (17 - k) / 9, (17 - k) % 9;
      assert 31 - k == 14 + 9 * g + c;
      assert FrameBit(d, 31 - k) == (c == 8 || MessageCrc(d)[15 - 8 * g - c]) by { FrameChecksumBit(d, g, c); }
    }
  }

  method FirstBlock(d: Text, crc: Crc16) returns (block: Word32)
    requires crc == MessageCrc(d)
    ensures forall k :: 0 <= k < 32 ==> block[k] == FrameBit(d, 31 - k)
  {
    hide MessageCrc, FrameBit, Or, And, Shl, Hex;
    var wide: Word32 := crc + seq(16, i => false);
    block := HEAD;
    block := Or(block, And(Shl(wide, 2), CRC_HIGH));
    block := Or(block, And(Shl(wide, 1), CRC_LOW));
    forall k | 0 <= k < 32 ensures block[k] == FrameBit(d, 31 - k) {
      HeadBits(k);
      HighMaskBits(k);
      LowMaskBits(k);
      FirstBlockBit(d, HEAD, wide, CRC_HIGH, CRC_LOW, k);
    }
  }

  // ---- the characters -------------------------------------------------------------

  /** Frame bit p once the first n characters are in. */
  predicate Placed(d: Text, n: nat, p: nat)
    requires p < 224
  {
    if p >= 32 && (p - 32) % 8 < 7 && (p - 32) / 8 >= n then false else FrameBit(d, p)
  }

  lemma PlacedStart(d: Text, b: nat, k: nat)
    requires 1 <= b < 7 && k < 32
    ensures Placed(d, 0, 32 * b + 31 - k) == (k % 8 == 0)
  {
    hide MessageCrc;
    var p := 32 * b + 31 - k;
    assert p - 32 == 8 * (4 * (b - 1) + (31 - k) / 8) + (31 - k) % 8;
  }

  lemma PlaceCharacter(d: Text, n: nat, block: Word32, wide: Word32, k: nat)
    requires n < 24 && k < 32 && block[k] == Placed(d, n, 32 * (n / 4 + 1) + 31 - k)
    requires forall i :: 0 <= i < 8 ==> wide[i] == d[n][i]
    requires forall i :: 8 <= i < 32 ==> !wide[i]
    ensures Or(block, Shl(wide, 25 - 8 * (n % 4)))[k] == Placed(d, n + 1, 32 * (n / 4 + 1) + 31 - k)
  {
    hide MessageCrc;
    var p, j, c := 32 * (n / 4 + 1) + 31 - k, (31 - k) / 8, (31 - k) % 8;
    assert p - 32 == 8 * (4 * (n / 4) + j) + c;
    assert (p - 32) / 8 == 4 * (n / 4) + j && (p - 32) % 8 == c;
    var shift := 25 - 8 * (n % 4);
    if j == n % 4 {
      assert k - shift == 6 - c;
    } else if k >= shift {
      assert k - shift == 8 * (n % 4 - j) + 6 - c;
    }
  }

  lemma OtherBlocks(d: Text, n: nat, b: nat, k: nat)
    requires n < 24 && b < 7 && b != n / 4 + 1 && k < 32
    ensures Placed(d, n + 1, 32 * b + 31 - k) == Placed(d, n, 32 * b + 31 - k)
  {
    hide FrameBit;
    if b > 0 {
      assert 32 * b + 31 - k - 32 == 8 * (4 * (b - 1) + (31 - k) / 8) + (31 - k) % 8;
    }
  }

  ghost predicate BlocksPlaced(d: Text, n: nat, blocks: seq<Word32>) {
    forall b: nat, k: nat :: b < |blocks| && b < 7 && k < 32 ==> blocks[b][k] == Placed(d, n, 32 * b + 31 - k)
  }

  lemma PlaceInBlocks(d: Text, n: nat, blocks: seq<Word32>, wide: Word32)
    requires n < 24 && |blocks| == 7 && BlocksPlaced(d, n, blocks)
    requires forall i :: 0 <= i < 8 ==> wide[i] == d[n][i]
    requires forall i :: 8 <= i < 32 ==> !wide[i]
    ensures BlocksPlaced(d, n + 1, blocks[n / 4 + 1 := Or(blocks[n / 4 + 1], Shl(wide, 25 - 8 * (n % 4)))])
  {
    hide Placed, Or, Shl;
    var after := blocks[n / 4 + 1 := Or(blocks[n / 4 + 1], Shl(wide, 25 - 8 * (n % 4)))];
    forall b: nat, k: nat | b < 7 && k < 32 ensures after[b][k] == Placed(d, n + 1, 32 * b + 31 - k) {
      if b == n / 4 + 1 {
        PlaceCharacter(d, n, blocks[b], wide, k);
      } else {
        OtherBlocks(d, n, b, k);
      }
    }
  }

  lemma AllPlaced(d: Text, blocks: seq<Word32>)
    requires |blocks| == 7 && BlocksPlaced(d, 24, blocks)
    ensures SentBits(blocks) == Frame(d)
  {
    hide FrameBit;
    forall p | 0 <= p < 224 ensures SentBits(blocks)[p] == Frame(d)[p] {
      var b, k := p / 32, 31 - p % 32;
      assert p == 32 * b + 31 - k;
      assert blocks[b][k] == Placed(d, 24, p);
    }
  }

  method ControlBlocks(d: Text, first: Word32) returns (blocks: seq<Word32>)
    requires forall k :: 0 <= k < 32 ==> first[k] == FrameBit(d, 31 - k)
    ensures |blocks| == 7 && BlocksPlaced(d, 0, blocks)
  {
    hide FrameBit, Hex;
    blocks := [first];
    for i := 1 to 7
      invariant |blocks| == i && blocks[0] == first
      invariant forall b :: 1 <= b < i ==> blocks[b] == CONTROL
    {
      blocks := blocks + [CONTROL];
    }
    forall b: nat, k: nat | b < 7 && k < 32 ensures blocks[b][k] == Placed(d, 0, 32 * b + 31 - k) {
      if b > 0 {
        ControlBits(k);
        PlacedStart(d, b, k);
      }
    }
  }

  /** encodePHIDGETS_TAG turns at most 24 ASCII characters into the seven blocks that send the tag's frame. */
  method EncodePhidgetsTag(tagString: string, blockDataLen: nat) returns (r: Encoded)
    requires forall i :: 0 <= i < |tagString| ==> 0 < tagString[i] as int < 128
    ensures r.Blocks? <==> blockDataLen >= 7 && TagText(tagString)
    ensures r.Blocks? ==> |r.blocks| == 7 && forall i :: 0 <= i < 7 ==> |r.blocks[i]| == 32
    ensures r.Blocks? ==> SentBits(r.blocks) == Frame(TextData(tagString))
  {
    hide MessageCrc, FrameBit, BlocksPlaced, CharBits, Or, Shl;
    if blockDataLen < 7 {
      return InvalidArg;
    }
    if |tagString| > 24 {
      return InvalidArg;
    }
    // the characters, in a buffer of zeros
    var tagData := TextData(tagString);
    var crc := Checksum(tagData);
    var first := FirstBlock(tagData, crc);
    var blocks: seq<Word32> := ControlBlocks(tagData, first);
    var j := 184;
    for i := 0 to 24
      invariant j == 184 - 8 * i && |blocks| == 7 && BlocksPlaced(tagData, i, blocks)
    {
      var block := i / 4 + 1;
      var shift := j % 32 + 1;
      assert shift == 25 - 8 * (i % 4);
      var wide: Word32 := tagData[i] + seq(24, k => false);
      PlaceInBlocks(tagData, i, blocks, wide);
      blocks := blocks[block := Or(blocks[block], Shl(wide, shift))];
      j := j - 8;
    }
    AllPlaced(tagData, blocks);
    return Encoded.Blocks(blocks);
  }
}
