/** A PhidgetsTAG that is taken for an FDX-B tag. */
module MistakenText {
  // Nine characters of it are sent where an FDX-B tag has its data and its checksum; the checksum of the whole text
  // comes before them.

  import opened Words
  import opened Crc
  import opened CrcWords
  import opened Numbers
  import Stream
  import Pulses
  import opened Analysis
  import opened Feeding
  import opened BiphaseTracking
  import opened DoubleTags
  import opened TagReads
  import PhidgetsTag
  import PhidgetsTagDamage
  import Em4100Encoder
  import FdxB

  const TEXT := "Zcy0l77sjN9z"

  lemma IsText()
    ensures PhidgetsTag.TagText(TEXT)
  {
  }

  // ---- its characters -------------------------------------------------------------

  // The two hexadecimal digits of a code.
  lemma CodeBits(h: nat, l: nat, k: nat)
    requires h < 16 && l < 16 && k < 8
    ensures NatBits(16 * h + l, 8)[k] == if k < 4 then NibbleBit(l, k) else NibbleBit(h, k - 4)
  {
    hide NatBits, NibbleBit;
    if k < 4 {
      FirstFourBits(h, l, 8, k);
    } else {
      assert (16 * h + l) / 16 == h;
      FourBitsOn(16 * h + l, 8, k);
      FirstFourBits(0, h, 4, k - 4);
    }
  }

  /** Character i has the code 16 * h + l, and is sent like this. */
  predicate Code(i: nat, h: nat, l: nat, sent: string) {
    && i < 24 && h < 8 && l < 16 && |sent| == 8
    && (if i < 12 then TEXT[i] as int == 16 * h + l else h == 0 && l == 0)
    && (forall j: nat :: j < 8 ==> (sent[j] == '1') == if j < 4 then j > 0 && NibbleBit(h, 3 - j) else NibbleBit(l, 7 - j))
  }

  lemma CharacterBits(i: nat, h: nat, l: nat, sent: string, k: nat)
    requires Code(i, h, l, sent) && k < 8
    ensures PhidgetsTag.TagText(TEXT) && PhidgetsTag.TextData(TEXT)[i][k] == (sent[7 - k] == '1')
  {
    hide NibbleBit, NatBits;
    IsText();
    CodeBits(h, l, k);
    assert PhidgetsTag.CharAt(TEXT, i) as int == 16 * h + l;
    assert !PhidgetsTag.CharBits(PhidgetsTag.CharAt(TEXT, i))[7];
  }

  lemma CharacterSpelled(i: nat, h: nat, l: nat, sent: string)
    requires Code(i, h, l, sent)
    ensures PhidgetsTag.TagText(TEXT) && Spells(Bits(PhidgetsTag.TextData(TEXT)), 8 * i, sent)
  {
    hide NibbleBit, PhidgetsTag.TagText, PhidgetsTag.TextData, Bits;
    CharacterBits(i, h, l, sent, 0);
    var d := PhidgetsTag.TextData(TEXT);
    forall j: nat | j < |sent| ensures Bits(d)[8 * i + j] == (sent[j] == '1') {
      CharacterBits(i, h, l, sent, 7 - j);
      PhidgetsTagDamage.MessageBit(d, 8 * i + j);
      assert (8 * i + j) / 8 == i && (8 * i + j) % 8 == j;
    }
  }

  lemma NextCharacter(i: nat, c: bv16, h: nat, l: nat, sent: string)
    requires PhidgetsTag.TagText(TEXT) && Code(i, h, l, sent) && Divided(Bits(PhidgetsTag.TextData(TEXT)), 8 * i, c)
    ensures Divided(Bits(PhidgetsTag.TextData(TEXT)), 8 * i + 8, ByteSteps(c, sent))
  {
    hide NibbleBit, PhidgetsTag.TagText, PhidgetsTag.TextData, Bits, Divided, Spells, ByteSteps;
    CharacterSpelled(i, h, l, sent);
    NextByte(Bits(PhidgetsTag.TextData(TEXT)), 8 * i, c, sent);
  }

  lemma TextSteps()
    ensures PhidgetsTag.TagText(TEXT) && Divided(Bits(PhidgetsTag.TextData(TEXT)), 192, 0xb653)
  {
    hide PhidgetsTag.TagText, PhidgetsTag.TextData, Bits, Divided;
    IsText();
    NothingDivided(Bits(PhidgetsTag.TextData(TEXT)));
    NextCharacter(0, 0x0, 5, 10, "01011010");
    NextCharacter(1, 0xfbbf, 6, 3, "01100011");
    NextCharacter(2, 0xbdb1, 7, 9, "01111001");
    NextCharacter(3, 0x28c8, 3, 0, "00110000");
    NextCharacter(4, 0x5b39, 6, 12, "01101100");
    NextCharacter(5, 0x7fb4, 3, 7, "00110111");
    NextCharacter(6, 0x7dcc, 3, 7, "00110111");
    NextCharacter(7, 0x258e, 7, 3, "01110011");
    NextCharacter(8, 0xb433, 6, 10, "01101010");
    NextCharacter(9, 0x19b3, 4, 14, "01001110");
    NextCharacter(10, 0x9912, 3, 9, "00111001");
    NextCharacter(11, 0xa7ea, 7, 10, "01111010");
    NextCharacter(12, 0xf0d0, 0, 0, "00000000");
    NextCharacter(13, 0x3f1f, 0, 0, "00000000");
    NextCharacter(14, 0xd8bc, 0, 0, "00000000");
    NextCharacter(15, 0xf675, 0, 0, "00000000");
    NextCharacter(16, 0xfad9, 0, 0, "00000000");
    NextCharacter(17, 0x9755, 0, 0, "00000000");
    NextCharacter(18, 0xa65e, 0, 0, "00000000");
    NextCharacter(19, 0x8b2c, 0, 0, "00000000");
    NextCharacter(20, 0xce3, 0, 0, "00000000");
    NextCharacter(21, 0x228c, 0, 0, "00000000");
    NextCharacter(22, 0x8820, 0, 0, "00000000");
    NextCharacter(23, 0x3080, 0, 0, "00000000");
  }

  lemma TextChecksum()
    ensures PhidgetsTag.TagText(TEXT) && MessageCrc(PhidgetsTag.TextData(TEXT)) == WordOf(0xb653)
  {
    hide PhidgetsTag.TextData, Bits, MessageCrc, Divide, WordOf;
    TextSteps();
    var d := PhidgetsTag.TextData(TEXT);
    CrcIsRemainder(d);
    assert Bits(d)[..192] == Bits(d);
  }

  // ---- its frame, in groups of nine bits ------------------------------------------

  ghost predicate Shows(d: PhidgetsTag.Text, p: nat, bits: string) {
    p + |bits| <= 224 && forall j: nat :: j < |bits| ==> PhidgetsTag.FrameBit(d, p + j) == (bits[j] == '1')
  }

  lemma CharacterShown(i: nat, h: nat, l: nat, sent: string, bits: string)
    requires Code(i, h, l, sent) && |bits| == 8 && bits[7] == '1' && bits[..7] == sent[1..]
    ensures PhidgetsTag.TagText(TEXT) && Shows(PhidgetsTag.TextData(TEXT), 32 + 8 * i, bits)
  {
    hide NibbleBit, PhidgetsTag.TagText, PhidgetsTag.TextData, PhidgetsTag.FrameBit;
    CharacterBits(i, h, l, sent, 0);
    var d := PhidgetsTag.TextData(TEXT);
    forall j: nat | j < 8 ensures PhidgetsTag.FrameBit(d, 32 + 8 * i + j) == (bits[j] == '1') {
      PhidgetsTag.FrameDataBit(d, i, j);
      if j < 7 {
        CharacterBits(i, h, l, sent, 6 - j);
        assert bits[j] == bits[..7][j] == sent[1..][j] == sent[j + 1];
      }
    }
  }

  // Of eight and of nine bits, one by one.
  ghost predicate OneByOne(d: PhidgetsTag.Text, p: nat, bits: string) {
    && p + 9 <= 224 && 8 <= |bits| <= 9
    && PhidgetsTag.FrameBit(d, p) == (bits[0] == '1') && PhidgetsTag.FrameBit(d, p + 1) == (bits[1] == '1')
    && PhidgetsTag.FrameBit(d, p + 2) == (bits[2] == '1') && PhidgetsTag.FrameBit(d, p + 3) == (bits[3] == '1')
    && PhidgetsTag.FrameBit(d, p + 4) == (bits[4] == '1') && PhidgetsTag.FrameBit(d, p + 5) == (bits[5] == '1')
    && PhidgetsTag.FrameBit(d, p + 6) == (bits[6] == '1') && PhidgetsTag.FrameBit(d, p + 7) == (bits[7] == '1')
    && (|bits| == 9 ==> PhidgetsTag.FrameBit(d, p + 8) == (bits[8] == '1'))
  }

  lemma Apart(d: PhidgetsTag.Text, p: nat, bits: string)
    requires Shows(d, p, bits) && 8 <= |bits| <= 9 && p + 9 <= 224
    ensures OneByOne(d, p, bits)
  {
    hide PhidgetsTag.FrameBit;
    assert PhidgetsTag.FrameBit(d, p + 0) == (bits[0] == '1');
  }

  lemma Together(d: PhidgetsTag.Text, p: nat, bits: string)
    requires OneByOne(d, p, bits)
    ensures Shows(d, p, bits)
  {
    hide PhidgetsTag.FrameBit;
  }

  // The first nine characters, and the same bits in groups of nine.
  ghost predicate Characters(d: PhidgetsTag.Text) {
    && Shows(d, 32, "10110101")
    && Shows(d, 40, "11000111")
    && Shows(d, 48, "11110011")
    && Shows(d, 56, "01100001")
    && Shows(d, 64, "11011001")
    && Shows(d, 72, "01101111")
    && Shows(d, 80, "01101111")
    && Shows(d, 88, "11100111")
    && Shows(d, 96, "11010101")
  }

  ghost predicate NineBits(d: PhidgetsTag.Text) {
    && Shows(d, 32, "101101011")
    && Shows(d, 41, "100011111")
    && Shows(d, 50, "110011011")
    && Shows(d, 59, "000011101")
    && Shows(d, 68, "100101101")
    && Shows(d, 77, "111011011")
    && Shows(d, 86, "111110011")
    && Shows(d, 95, "111010101")
  }

  lemma CharactersShown()
    ensures PhidgetsTag.TagText(TEXT)
    ensures Characters(PhidgetsTag.TextData(TEXT))
  {
    hide PhidgetsTag.TextData, PhidgetsTag.TagText, Shows;
    IsText();
    CharacterShown(0, 5, 10, "01011010", "10110101");
    CharacterShown(1, 6, 3, "01100011", "11000111");
    CharacterShown(2, 7, 9, "01111001", "11110011");
    CharacterShown(3, 3, 0, "00110000", "01100001");
    CharacterShown(4, 6, 12, "01101100", "11011001");
    CharacterShown(5, 3, 7, "00110111", "01101111");
    CharacterShown(6, 3, 7, "00110111", "01101111");
    CharacterShown(7, 7, 3, "01110011", "11100111");
    CharacterShown(8, 6, 10, "01101010", "11010101");
  }

  lemma NineBitsEach(d: PhidgetsTag.Text)
    requires Characters(d)
    ensures NineBits(d)
  {
    hide PhidgetsTag.FrameBit, Shows;
    Apart(d, 32, "10110101");
    Apart(d, 40, "11000111");
    Apart(d, 48, "11110011");
    Apart(d, 56, "01100001");
    Apart(d, 64, "11011001");
    Apart(d, 72, "01101111");
    Apart(d, 80, "01101111");
    Apart(d, 88, "11100111");
    Apart(d, 96, "11010101");
    Together(d, 32, "101101011");
    Together(d, 41, "100011111");
    Together(d, 50, "110011011");
    Together(d, 59, "000011101");
    Together(d, 68, "100101101");
    Together(d, 77, "111011011");
    Together(d, 86, "111110011");
    Together(d, 95, "111010101");
  }

  // ---- the checksum of the text, and that of an FDX-B tag -------------------------

  lemma TextChecksumSpelled()
    ensures SpelledBy(0xb653, "10110110", "01010011")
  {
    var c: bv16, upper, lower := 0xb653, "10110110", "01010011";
    forall j: nat | j < 8 ensures WordBit(c, 15 - j) == (upper[j] == '1') && WordBit(c, 7 - j) == (lower[j] == '1') {
      if j == 0 {} else if j == 1 {} else if j == 2 {} else if j == 3 {} else if j == 4 {} else if j == 5 {} else if j == 6 {} else {}
    }
  }

  lemma FdxChecksumSpelled()
    ensures SpelledBy(0xf9ea, "11111001", "11101010")
  {
    var c: bv16, upper, lower := 0xf9ea, "11111001", "11101010";
    forall j: nat | j < 8 ensures WordBit(c, 15 - j) == (upper[j] == '1') && WordBit(c, 7 - j) == (lower[j] == '1') {
      if j == 0 {} else if j == 1 {} else if j == 2 {} else if j == 3 {} else if j == 4 {} else if j == 5 {} else if j == 6 {} else {}
    }
  }

  lemma ChecksumShown()
    ensures PhidgetsTag.TagText(TEXT)
    ensures Shows(PhidgetsTag.TextData(TEXT), 14, "101101101") && Shows(PhidgetsTag.TextData(TEXT), 23, "010100111")
  {
    hide PhidgetsTag.TextData, PhidgetsTag.TagText, PhidgetsTag.FrameBit, MessageCrc, WordBit;
    TextChecksum();
    TextChecksumSpelled();
    var d := PhidgetsTag.TextData(TEXT);
    ChecksumGroup(d, 0xb653, 0, "10110110", "101101101");
    ChecksumGroup(d, 0xb653, 1, "01010011", "010100111");
  }

  lemma ChecksumGroup(d: PhidgetsTag.Text, c: bv16, g: nat, eight: string, nine: string)
    requires g < 2 && MessageCrc(d) == WordOf(c) && |eight| == 8 && nine == eight + "1"
    requires forall j: nat :: j < 8 ==> WordBit(c, if g == 0 then 15 - j else 7 - j) == (eight[j] == '1')
    ensures Shows(d, 14 + 9 * g, nine)
  {
    hide PhidgetsTag.FrameBit, MessageCrc, WordBit;
    forall j: nat | j < 9 ensures PhidgetsTag.FrameBit(d, 14 + 9 * g + j) == (nine[j] == '1') {
      PhidgetsTag.FrameChecksumBit(d, g, j);
    }
  }

  function FdxPart(d: PhidgetsTag.Text): (w: seq<bool>)
    ensures |w| == 128
  {
    PhidgetsTag.Frame(d)[3..131]
  }

  /** A group of the frame as an FDX-B decoder takes it. */
  lemma GroupTaken(d: PhidgetsTag.Text, g: nat, eight: string, nine: string)
    requires g < 10 && Shows(d, 14 + 9 * g, nine) && |eight| == 8 && nine == eight + "1"
    ensures FdxPart(d)[19 + 9 * g]
    ensures g < 8 ==> Spells(FdxB.DataOf(FdxPart(d)), 8 * g, eight)
    ensures g == 8 ==> forall j: nat :: j < 8 ==> FdxB.ChecksumOf(FdxPart(d))[15 - j] == (eight[j] == '1')
    ensures g == 9 ==> forall j: nat :: j < 8 ==> FdxB.ChecksumOf(FdxPart(d))[7 - j] == (eight[j] == '1')
  {
    hide PhidgetsTag.FrameBit, Shows;
    var w := FdxPart(d);
    GroupBit(d, g, nine, 8);
    forall j: nat | j < 8
      ensures g < 8 ==> FdxB.DataOf(w)[8 * g + j] == (eight[j] == '1')
      ensures g == 8 ==> FdxB.ChecksumOf(w)[15 - j] == (eight[j] == '1')
      ensures g == 9 ==> FdxB.ChecksumOf(w)[7 - j] == (eight[j] == '1')
    {
      GroupBit(d, g, nine, j);
      assert nine[j] == eight[j];
      if g < 8 {
        var t := 8 * g + j;
        assert t / 8 == g && 11 + t + t / 8 == 11 + 9 * g + j;
        assert FdxB.DataOf(w)[t] == w[11 + t + t / 8];
      } else if g == 8 {
        assert FdxB.ChecksumOf(w)[15 - j] == w[83 + j + j / 8];
      } else {
        assert FdxB.ChecksumOf(w)[7 - j] == w[83 + (8 + j) + (8 + j) / 8];
      }
    }
  }

  lemma GroupBit(d: PhidgetsTag.Text, g: nat, nine: string, j: nat)
    requires g < 10 && Shows(d, 14 + 9 * g, nine) && |nine| == 9 && j < 9
    ensures FdxPart(d)[11 + 9 * g + j] == (nine[j] == '1')
  {
    hide PhidgetsTag.FrameBit;
    assert FdxPart(d)[11 + 9 * g + j] == PhidgetsTag.Frame(d)[14 + 9 * g + j];
  }

  // The bytes of an FDX-B tag that are in it.
  ghost predicate FdxBytes(d: FdxB.Data) {
    && Spells(d, 0, "10110110")
    && Spells(d, 8, "01010011")
    && Spells(d, 16, "10110101")
    && Spells(d, 24, "10001111")
    && Spells(d, 32, "11001101")
    && Spells(d, 40, "00001110")
    && Spells(d, 48, "10010110")
    && Spells(d, 56, "11101101")
  }

  lemma FdxGroups(d: PhidgetsTag.Text)
    requires Shows(d, 14, "101101101") && Shows(d, 23, "010100111")
    requires NineBits(d)
    ensures var w := FdxPart(d);
      && FdxB.Controls(w)
      && FdxBytes(FdxB.DataOf(w))
      && FdxB.ChecksumOf(w) == WordOf(0xf9ea)
  {
    hide Shows, Spells, FdxPart, FdxB.DataOf, FdxB.ChecksumOf, WordBit;
    GroupTaken(d, 0, "10110110", "101101101");
    GroupTaken(d, 1, "01010011", "010100111");
    GroupTaken(d, 2, "10110101", "101101011");
    GroupTaken(d, 3, "10001111", "100011111");
    GroupTaken(d, 4, "11001101", "110011011");
    GroupTaken(d, 5, "00001110", "000011101");
    GroupTaken(d, 6, "10010110", "100101101");
    GroupTaken(d, 7, "11101101", "111011011");
    GroupTaken(d, 8, "11111001", "111110011");
    GroupTaken(d, 9, "11101010", "111010101");
    FdxChecksumSpelled();
    SpelledChecksum(FdxB.ChecksumOf(FdxPart(d)), 0xf9ea, "11111001", "11101010");
  }

  lemma SpelledChecksum(w: Crc16, c: bv16, upper: string, lower: string)
    requires SpelledBy(c, upper, lower)
    requires forall j: nat :: j < 8 ==> w[15 - j] == (upper[j] == '1')
    requires forall j: nat :: j < 8 ==> w[7 - j] == (lower[j] == '1')
    ensures w == WordOf(c)
  {
    hide WordBit;
    forall k: nat | k < 16 ensures w[k] == WordBit(c, k) {
      if k < 8 {
        var j: nat := 7 - k;
        assert w[7 - j] == (lower[j] == '1');
      } else {
        var j: nat := 15 - k;
        assert w[15 - j] == (upper[j] == '1');
      }
    }
  }

  lemma FdxSteps(d: FdxB.Data)
    requires FdxBytes(d)
    ensures MessageCrc(FdxB.DataBytes(d)) == WordOf(0xf9ea)
  {
    hide Spells, Divided, MessageCrc, Bits, WordOf, FdxB.DataBytes;
    NothingDivided(d);
    NextByte(d, 0, 0x0, "10110110");
    NextByte(d, 8, 0xc71d, "01010011");
    NextByte(d, 16, 0xde3d, "10110101");
    NextByte(d, 24, 0xe0cd, "10001111");
    NextByte(d, 32, 0x5049, "11001101");
    NextByte(d, 40, 0x1b14, "00001110");
    NextByte(d, 48, 0x5694, "10010110");
    NextByte(d, 56, 0x4d4c, "11101101");
    FdxB.SentAsDivided(d);
    CrcIsRemainder(FdxB.DataBytes(d));
    AllDivided(d, 0xf9ea);
  }

  lemma AllDivided(d: FdxB.Data, c: bv16)
    requires Divided(d, 64, c)
    ensures Divide(Zero(), d) == WordOf(c)
  {
    assert d[..64] == d;
  }

  /** Its frame is an FDX-B frame besides. */
  lemma TextLooksLikeFdx()
    ensures Double(TEXT)
    ensures FdxBytes(FdxB.DataOf(PhidgetsTag.Frame(PhidgetsTag.TextData(TEXT))[3..131]))
  {
    hide Shows, Spells, MessageCrc, WordOf, FdxB.Controls, FdxB.DataOf, FdxB.ChecksumOf, PhidgetsTag.Frame, PhidgetsTag.TextData;
    IsText();
    var d := PhidgetsTag.TextData(TEXT);
    ChecksumShown();
    CharactersShown();
    NineBitsEach(d);
    FdxGroups(d);
    FdxSteps(FdxB.DataOf(FdxPart(d)));
    assert FdxPart(d) == PhidgetsTag.Frame(d)[3..131];
  }

  // ---- and the FDX-B tag in it ----------------------------------------------------

  const HIDDEN := "450223098030701"

  // Its number in both bases, and its country code in hexadecimal.
  const DECIMAL := "223098030701"
  const NUMBER := "33f1adca6d"
  const COUNTRY := "1c2"

  lemma DecimalDigits(s: string)
    requires s == DECIMAL
    ensures IsHex(s) && ReadTo(s, 10, |s|) == 223098030701
  {
    assert ReadTo(s, 10, 4) == 2230;
    assert ReadTo(s, 10, 8) == 22309803;
    assert ReadTo(s, 10, 12) == 223098030701;
  }

  lemma HexDigits(s: string)
    requires s == NUMBER
    ensures IsHex(s) && ReadTo(s, 16, |s|) == 223098030701
  {
    assert ReadTo(s, 16, 10) == 223098030701;
  }

  lemma NumberRead()
    ensures IsDecimal(HIDDEN[3..]) && Parse(HIDDEN[3..]) == 223098030701
    ensures Em4100Encoder.HexNumber(NUMBER) == 223098030701
  {
    hide Parse, ReadTo, Em4100Encoder.HexNumber;
    var s, h := HIDDEN[3..], NUMBER;
    assert s == DECIMAL && s[..|s|] == s && h[..|h|] == h;
    DecimalDigits(s);
    ParsedTo(s, |s|);
    HexDigits(h);
    Em4100Encoder.HexReadTo(h, |h|);
  }

  lemma CountryRead()
    ensures IsDecimal(HIDDEN[..3]) && Parse(HIDDEN[..3]) == 450 && Em4100Encoder.HexNumber(COUNTRY) == 450
  {
    var s := HIDDEN[..3];
    assert s == "450" && s[..3] == s && COUNTRY[..3] == COUNTRY;
    ParsedTo(s, 3);
    Em4100Encoder.HexReadTo(COUNTRY, 3);
    assert ReadTo("450", 10, 3) == 450 && ReadTo("1c2", 16, 3) == 450;
  }

  // The bits of d from i on are those of the number that h spells, from bit k on.
  ghost predicate Agree(d: FdxB.Data, i: nat, h: string, len: nat, k: nat, n: nat) {
    && IsHex(h) && i + n <= 64 && k + n <= len <= 4 * |h|
    && forall t :: i <= t < i + n ==> d[t] == NatBits(Em4100Encoder.HexNumber(h), len)[t - i + k]
  }

  lemma DigitsAgree(d: FdxB.Data, i: nat, h: string, len: nat, k: nat, bits: string, n: nat)
    requires IsHex(h) && Spells(d, i, bits) && n <= |bits| && k + n <= len <= 4 * |h|
    requires forall j: nat :: j < n ==> (bits[j] == '1') == NibbleBit(HexValue(h[|h| - 1 - (k + j) / 4]), (k + j) % 4)
    ensures Agree(d, i, h, len, k, n)
  {
    hide NatBits, Em4100Encoder.HexNumber, NibbleBit, HexValue;
    forall t | i <= t < i + n ensures d[t] == NatBits(Em4100Encoder.HexNumber(h), len)[t - i + k] {
      var j: nat := t - i;
      Em4100Encoder.HexBits(h, len, k + j);
      assert d[i + j] == (bits[j] == '1');
    }
  }

  lemma FirstByte(d: FdxB.Data)
    requires FdxBytes(d)
    ensures Agree(d, 0, NUMBER, 38, 0, 8)
  {
    hide Spells, Agree, NatBits, Em4100Encoder.HexNumber;
    DigitsAgree(d, 0, NUMBER, 38, 0, "10110110", 8);
  }

  lemma SecondByte(d: FdxB.Data)
    requires FdxBytes(d)
    ensures Agree(d, 8, NUMBER, 38, 8, 8)
  {
    hide Spells, Agree, NatBits, Em4100Encoder.HexNumber;
    DigitsAgree(d, 8, NUMBER, 38, 8, "01010011", 8);
  }

  lemma ThirdByte(d: FdxB.Data)
    requires FdxBytes(d)
    ensures Agree(d, 16, NUMBER, 38, 16, 8)
  {
    hide Spells, Agree, NatBits, Em4100Encoder.HexNumber;
    DigitsAgree(d, 16, NUMBER, 38, 16, "10110101", 8);
  }

  lemma FourthByte(d: FdxB.Data)
    requires FdxBytes(d)
    ensures Agree(d, 24, NUMBER, 38, 24, 8)
  {
    hide Spells, Agree, NatBits, Em4100Encoder.HexNumber;
    DigitsAgree(d, 24, NUMBER, 38, 24, "10001111", 8);
  }

  // Bits 38 and 39 are those of the country code already.
  lemma FifthByte(d: FdxB.Data)
    requires FdxBytes(d)
    ensures Agree(d, 32, NUMBER, 38, 32, 6) && Agree(d, 38, COUNTRY, 10, 0, 2)
  {
    hide Spells, Agree, NatBits, Em4100Encoder.HexNumber;
    DigitsAgree(d, 32, NUMBER, 38, 32, "11001101", 6);
    SpellsInside(d, 32, "11001101", 6, "01");
    DigitsAgree(d, 38, COUNTRY, 10, 0, "01", 2);
  }

  lemma SixthByte(d: FdxB.Data)
    requires FdxBytes(d)
    ensures Agree(d, 40, COUNTRY, 10, 2, 8)
  {
    hide Spells, Agree, NatBits, Em4100Encoder.HexNumber;
    DigitsAgree(d, 40, COUNTRY, 10, 2, "00001110", 8);
  }

  lemma SpellsInside(d: FdxB.Data, i: nat, bits: string, k: nat, rest: string)
    requires Spells(d, i, bits) && k <= |bits| && rest == bits[k..]
    ensures Spells(d, i + k, rest)
  {
    forall j: nat | j < |rest| ensures d[i + k + j] == (rest[j] == '1') {
      var t := k + j;
      assert d[i + t] == (bits[t] == '1');
    }
  }

  lemma FdxNumbers(d: FdxB.Data)
    requires FdxBytes(d)
    ensures d[..38] == NatBits(223098030701, 38) && d[38..48] == NatBits(450, 10)
  {
    hide FdxBytes, NatBits, Em4100Encoder.HexNumber, Parse;
    FirstByte(d);
    SecondByte(d);
    ThirdByte(d);
    FourthByte(d);
    FifthByte(d);
    SixthByte(d);
    NumberRead();
    CountryRead();
  }

  /** What the text is taken for. */
  lemma TextHides()
    ensures Double(TEXT) && HiddenTag(TEXT) == HIDDEN
  {
    hide FdxBytes, Parse, NatBits, BitsNat, Padded, Pow2, Pow10, FdxB.DataOf, PhidgetsTag.TagText, PhidgetsTag.TextData, LooksLikeFdx;
    TextLooksLikeFdx();
    var d := FdxB.DataOf(PhidgetsTag.Frame(PhidgetsTag.TextData(TEXT))[3..131]);
    FdxNumbers(d);
    NumberRead();
    CountryRead();
    FdxB.TwoTo38();
    BitsOfNat(450, 10);
    BitsOfNat(223098030701, 38);
    PaddedParse(HIDDEN[..3]);
    PaddedParse(HIDDEN[3..]);
    assert HIDDEN == HIDDEN[..3] + HIDDEN[3..];
  }

  // ---- a whole run ----------------------------------------------------------------

  /** A reset reader that is fed this PhidgetsTAG reports the FDX-B tag first of all, and with packets of 2 to 46
      pulses it never reports the PhidgetsTAG. */
  lemma TextReadAsFdx(st: State, f: Stream.Bits, half: nat, mid: bool, ms: seq<nat>, rot: nat)
    requires Pulses.IsRate(half) && Stream.IsPos(f, Stream.Pos(0, mid)) && TagBits(f, Phidgets(TEXT), rot)
    requires Packets(ms) && Start(st)
    ensures var tags := FeedAll(st, f, half, Stream.Pos(0, mid), ms).1;
      && (Stream.PosAfter(f, Stream.Pos(0, mid), Total(ms)).n >= 672 ==>
            Only(tags, false) != [] && Only(tags, false)[0] == Read(ISO11785_FDX_B, HIDDEN))
      && (Sized(ms, 2, SMALL) ==> forall i :: 0 <= i < |tags| ==> tags[i].protocol != PHIDGETS)
  {
    hide Pulses.IsRate, TagBits, FeedAll, Only, Stream.PosAfter, HiddenTag, SomeOther, Total, LooksLikeFdx;
    TextHides();
    ReadsAnotherTagIff(st, f, half, mid, ms, TEXT, rot);
    if Sized(ms, 2, SMALL) { NeverReadsDoubleTag(st, f, half, mid, ms, TEXT, rot); }
  }
}
