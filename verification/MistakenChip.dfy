/** An FDX-B tag that is reported as an EM4100 tag as well. */
module MistakenChip {
  // Eight zeros close the trailer of an FDX-B frame and ten open its header, so the level stays high for nine bits
  // and then low: the header of an EM4100 tag and the beginning of its data. The rest is up to the FDX-B number.

  import opened Words
  import opened Numbers
  import opened Pulses
  import opened Stream
  import opened BiphaseStream
  import opened Analysis
  import opened Feeding
  import opened BiphaseTracking
  import opened CrossTalk
  import opened TagReads
  import FdxB
  import Em4100
  import Em4100Encoder

  const CHIP := "982212672881079"
  const HEARD := "005479667a"

  // The last twelve digits of CHIP, and the same number in hexadecimal.
  const DECIMAL := "212672881079"
  const NUMBER := "31844aa1b7"

  // ---- the data of the tag --------------------------------------------------------

  lemma DecimalDigits(s: string)
    requires s == DECIMAL
    ensures IsHex(s) && ReadTo(s, 10, |s|) == 212672881079
  {
    assert ReadTo(s, 10, 4) == 2126;
    assert ReadTo(s, 10, 8) == 21267288;
    assert ReadTo(s, 10, 12) == 212672881079;
  }

  lemma HexDigits(s: string)
    requires s == NUMBER
    ensures IsHex(s) && ReadTo(s, 16, |s|) == 212672881079
  {
    assert ReadTo(s, 16, 10) == 212672881079;
  }

  lemma ChipNumber()
    ensures FdxB.TagDigits(CHIP) && Parse(CHIP[3..]) == 212672881079
    ensures Em4100Encoder.HexNumber(NUMBER) == 212672881079
  {
    hide Parse, ReadTo, Em4100Encoder.HexNumber;
    var s, h := CHIP[3..], NUMBER;
    assert s == DECIMAL && s[..|s|] == s && h[..|h|] == h;
    DecimalDigits(s);
    ParsedTo(s, |s|);
    HexDigits(h);
    Em4100Encoder.HexReadTo(h, |h|);
  }

  // ---- what is sent ---------------------------------------------------------------

  /** The bits of group g of the frame with these data, as a string of zeros and ones. */
  predicate Sends(d: FdxB.Data, g: nat, sent: string)
    requires g < 8
  {
    |sent| <= 9 && forall j: nat :: j < |sent| ==> (sent[j] == '1') == (j == 8 || d[8 * g + j])
  }

  lemma NumberSends(d: FdxB.Data, g: nat, sent: string)
    requires g < 5 && |sent| <= (if g == 4 then 7 else 9) && HasNumber(d)
    requires forall j: nat :: j < |sent| ==> (sent[j] == '1') == (j == 8 || (8 * g + j < 38 && Em4100.TagBit(NUMBER, 8 * g + j)))
    ensures Sends(d, g, sent)
  {
    hide NatBits, Em4100Encoder.HexNumber, NibbleBit, HexValue;
    forall j: nat | j < |sent| ensures (sent[j] == '1') == (j == 8 || d[8 * g + j]) {
      var k := 8 * g + j;
      if j < 8 && k < 38 {
        Em4100Encoder.HexBits(NUMBER, 38, k);
        assert d[k] == d[..38][k];
      }
    }
  }

  /** The first groups of the tag's data: the number, and a zero of the even country code. */
  lemma ChipData()
    ensures FdxB.TagDigits(CHIP)
    ensures var d := FdxB.TagData(CHIP);
      Sends(d, 0, "111011011")
      && Sends(d, 1, "100001011")
      && Sends(d, 2, "010100101")
      && Sends(d, 3, "001000011")
      && Sends(d, 4, "1000110")
  {
    hide NatBits, Em4100Encoder.HexNumber, Parse, Sends;
    ChipNumber();
    CountryIsEven();
    FirstGroups(FdxB.TagData(CHIP));
    OtherGroups(FdxB.TagData(CHIP));
  }

  ghost predicate HasNumber(d: FdxB.Data) { d[..38] == NatBits(Em4100Encoder.HexNumber(NUMBER), 38) && !d[38] }

  lemma FirstGroups(d: FdxB.Data)
    requires HasNumber(d)
    ensures Sends(d, 0, "111011011") && Sends(d, 1, "100001011")
  {
    hide NatBits, Em4100Encoder.HexNumber, Sends, HasNumber;
    NumberSends(d, 0, "111011011");
    NumberSends(d, 1, "100001011");
  }

  lemma OtherGroups(d: FdxB.Data)
    requires HasNumber(d)
    ensures Sends(d, 2, "010100101") && Sends(d, 3, "001000011") && Sends(d, 4, "1000110")
  {
    hide NatBits, Em4100Encoder.HexNumber, Sends, HasNumber;
    NumberSends(d, 2, "010100101");
    NumberSends(d, 3, "001000011");
    NumberSends(d, 4, "1000110");
  }

  lemma CountryIsEven()
    ensures IsDecimal(CHIP[..3]) && !NatBits(Parse(CHIP[..3]), 10)[0]
  {
    var s := CHIP[..3];
    assert s == "982" && s[..3] == s && s[..3][..2] == "98";
  }


  lemma ChipSends(i: nat)
    requires i < 64
    ensures FdxB.TagDigits(CHIP) && Sendable(Fdx(CHIP))
    ensures var sent := SentBit(Fdx(CHIP), Place(Fdx(CHIP), i + 118));
      if i < 21 then sent == (i == 0 || i == 9 || i == 20)
      else sent == ((i - 21) % 9 == 8 || FdxB.TagData(CHIP)[8 * ((i - 21) / 9) + (i - 21) % 9])
  {
    hide FdxB.TagData;
    ChipNumber();
    var d := FdxB.TagData(CHIP);
    if i < 10 {
      assert Place(Fdx(CHIP), i + 118) == i + 118;
      FdxB.FrameGroup(d, (i + 107) / 9, (i + 107) % 9);
    } else {
      assert Place(Fdx(CHIP), i + 118) == i - 10;
      if i >= 21 { FdxB.FrameGroup(d, (i - 21) / 9, (i - 21) % 9); }
    }
  }

  // ---- the levels -----------------------------------------------------------------

  /** The levels after level k, as a string of zeros and ones. */
  ghost predicate Shows(f: Bits, k: nat, levels: string) {
    forall j: nat :: j < |levels| ==> f(k + 1 + j) == (levels[j] == '1')
  }

  // What the first n bits make of a level.
  predicate Follows(before: bool, sent: string, levels: string, n: nat)
    requires n <= |sent| && n <= |levels|
  {
    n == 0 || (Follows(before, sent, levels, n - 1)
               && (levels[n - 1] == '1') == ((if n == 1 then before else levels[n - 2] == '1') != (sent[n - 1] == '1')))
  }

  lemma {:induction false} FollowsInside(before: bool, sent: string, levels: string, n: nat, j: nat)
    requires 0 < j <= n <= |sent| && n <= |levels| && Follows(before, sent, levels, n)
    ensures (levels[j - 1] == '1') == ((if j == 1 then before else levels[j - 2] == '1') != (sent[j - 1] == '1'))
  {
    if j < n { FollowsInside(before, sent, levels, n - 1, j); }
  }

  lemma {:induction false} LevelFollows(f: Bits, k: nat, sent: string, levels: string, j: nat)
    requires j <= |sent| == |levels| && Follows(f(k), sent, levels, |sent|)
    requires forall i: nat :: i < |sent| ==> Toggles(f)(k + 1 + i) == (sent[i] == '1')
    ensures j > 0 ==> f(k + j) == (levels[j - 1] == '1')
  {
    hide Follows;
    if j > 0 {
      LevelFollows(f, k, sent, levels, j - 1);
      FollowsInside(f(k), sent, levels, |sent|, j);
      var i := j - 1;
      assert Toggles(f)(k + 1 + i) == (f(k + 1 + i) != f(k + i));
    }
  }

  lemma LevelsFollow(f: Bits, k: nat, sent: string, levels: string)
    requires |sent| == |levels| && Follows(f(k), sent, levels, |sent|)
    requires forall i: nat :: i < |sent| ==> Toggles(f)(k + 1 + i) == (sent[i] == '1')
    ensures Shows(f, k, levels)
  {
    hide Follows, Toggles;
    forall j: nat | j < |levels| ensures f(k + 1 + j) == (levels[j] == '1') {
      LevelFollows(f, k, sent, levels, j + 1);
    }
  }

  lemma ChipToggles(f: Bits, i: nat)
    requires TagBits(f, Fdx(CHIP), 117) && i < 64
    ensures FdxB.TagDigits(CHIP)
    ensures Toggles(f)(i + 1)
         == if i < 21 then i == 0 || i == 9 || i == 20
            else (i - 21) % 9 == 8 || FdxB.TagData(CHIP)[8 * ((i - 21) / 9) + (i - 21) % 9]
  {
    hide Toggles, SentBit, Place, Sendable;
    ChipSends(i);
    assert i + 1 + 117 == i + 118;
  }

  /** A one, eight zeros, a one, ten zeros and a one are sent. */
  lemma {:induction false} HeaderLevel(f: Bits, i: nat)
    requires TagBits(f, Fdx(CHIP), 117) && !f(0) && i <= 21
    ensures f(i) == (0 < i < 10 || i == 21)
  {
    hide TagBits;
    if i > 0 {
      HeaderLevel(f, i - 1);
      ChipToggles(f, i - 1);
    }
  }

  lemma GroupToggles(f: Bits, g: nat, j: nat)
    requires TagBits(f, Fdx(CHIP), 117) && g < 5 && j < (if g == 4 then 7 else 9)
    ensures FdxB.TagDigits(CHIP) && Toggles(f)(21 + 9 * g + 1 + j) == (j == 8 || FdxB.TagData(CHIP)[8 * g + j])
  {
    hide TagBits, Toggles, FdxB.TagData;
    ChipToggles(f, 21 + 9 * g + j);
    assert (9 * g + j) / 9 == g && (9 * g + j) % 9 == j;
  }

  lemma GroupLevels(f: Bits, g: nat, sent: string, levels: string)
    requires TagBits(f, Fdx(CHIP), 117) && g < 5 && |sent| == |levels| <= (if g == 4 then 7 else 9)
    requires FdxB.TagDigits(CHIP) && Sends(FdxB.TagData(CHIP), g, sent) && Follows(f(21 + 9 * g), sent, levels, |sent|)
    ensures Shows(f, 21 + 9 * g, levels)
  {
    hide TagBits, Toggles, Follows, FdxB.TagData, Shows;
    forall j: nat | j < |sent| ensures Toggles(f)(21 + 9 * g + 1 + j) == (sent[j] == '1') {
      GroupToggles(f, g, j);
    }
    LevelsFollow(f, 21 + 9 * g, sent, levels);
  }

  lemma GroupsFollow()
    ensures Follows(true, "111011011", "010010010", 9)
    ensures Follows(false, "100001011", "111110010", 9)
    ensures Follows(false, "010100101", "011000110", 9)
    ensures Follows(false, "001000011", "001111101", 9)
    ensures Follows(true, "1000110", "0000100", 7)
  {
  }

  lemma ChipLevels(f: Bits)
    requires TagBits(f, Fdx(CHIP), 117) && !f(0)
    ensures forall i: nat :: i <= 21 ==> f(i) == (0 < i < 10 || i == 21)
    ensures Shows(f, 21, "010010010") && Shows(f, 30, "111110010") && Shows(f, 39, "011000110") && Shows(f, 48, "001111101") && Shows(f, 57, "0000100")
  {
    hide TagBits, FdxB.TagData;
    forall i: nat | i <= 21 ensures f(i) == (0 < i < 10 || i == 21) { HeaderLevel(f, i); }
    ChipData();
    GroupsFollow();
    GroupLevels(f, 0, "111011011", "010010010");
    GroupLevels(f, 1, "100001011", "111110010");
    GroupLevels(f, 2, "010100101", "011000110");
    GroupLevels(f, 3, "001000011", "001111101");
    GroupLevels(f, 4, "1000110", "0000100");
  }

  // ---- and what they are to an EM4100 decoder -------------------------------------

  // Levels one by one.
  lemma OneByOne(f: Bits, k: nat, levels: string)
    requires 7 <= |levels| <= 9 && Shows(f, k, levels)
    ensures f(k + 1) == (levels[0] == '1') && f(k + 2) == (levels[1] == '1') && f(k + 3) == (levels[2] == '1')
    ensures f(k + 4) == (levels[3] == '1') && f(k + 5) == (levels[4] == '1') && f(k + 6) == (levels[5] == '1')
    ensures f(k + 7) == (levels[6] == '1')
    ensures |levels| == 9 ==> f(k + 8) == (levels[7] == '1') && f(k + 9) == (levels[8] == '1')
  {
    assert f(k + 1 + 0) == (levels[0] == '1') && f(k + 1 + 1) == (levels[1] == '1') && f(k + 1 + 2) == (levels[2] == '1');
    assert f(k + 1 + 3) == (levels[3] == '1') && f(k + 1 + 4) == (levels[4] == '1') && f(k + 1 + 5) == (levels[5] == '1');
    assert f(k + 1 + 6) == (levels[6] == '1');
    if |levels| == 9 { assert f(k + 1 + 7) == (levels[7] == '1') && f(k + 1 + 8) == (levels[8] == '1'); }
  }

  // The parity of row r and of column c of an EM4100 frame that begins with the first level.
  predicate RowEven(f: Bits, r: nat) {
    var i := 10 + 5 * r;
    f(i + 4) == (((f(i) != f(i + 1)) != f(i + 2)) != f(i + 3))
  }

  predicate ColumnEven(f: Bits, c: nat) {
    var i := 10 + c;
    f(i + 50) == (((((((((f(i) != f(i + 5)) != f(i + 10)) != f(i + 15)) != f(i + 20)) != f(i + 25)) != f(i + 30)) != f(i + 35))
                   != f(i + 40)) != f(i + 45))
  }

  lemma ChipParities(f: Bits)
    requires TagBits(f, Fdx(CHIP), 117) && !f(0)
    ensures RowEven(f, 0) && RowEven(f, 1) && RowEven(f, 2) && RowEven(f, 3) && RowEven(f, 4)
    ensures RowEven(f, 5) && RowEven(f, 6) && RowEven(f, 7) && RowEven(f, 8) && RowEven(f, 9)
    ensures ColumnEven(f, 0) && ColumnEven(f, 1) && ColumnEven(f, 2) && ColumnEven(f, 3) && !f(64)
  {
    ChipLevels(f);
    hide *;
    OneByOne(f, 21, "010010010");
    OneByOne(f, 30, "111110010");
    OneByOne(f, 39, "011000110");
    OneByOne(f, 48, "001111101");
    OneByOne(f, 57, "0000100");
  }

  lemma RowChecks(f: Bits, r: nat)
    requires r < 10 && RowEven(f, r)
    ensures Em4100.RowOk(Levels(f, 0), r)
  {
    var b := Em4100.RowOf(Levels(f, 0), r, 4);
    assert b == [b[0], b[1], b[2], b[3]];
    Em4100.ParityOfFour(b[0], b[1], b[2], b[3]);
  }

  lemma ColumnChecks(f: Bits, c: nat)
    requires c < 4 && ColumnEven(f, c)
    ensures Em4100.ColumnOk(Levels(f, 0), c)
  {
    ParityOfTen(Em4100.ColumnOf(Levels(f, 0), c, 10));
  }

  lemma ParityNext(b: seq<bool>, n: nat)
    requires n < |b|
    ensures Parity(b[..n + 1]) == (Parity(b[..n]) != b[n])
  {
    assert b[..n + 1][..n] == b[..n];
  }

  lemma ParityOfTen(b: seq<bool>)
    requires |b| == 10
    ensures Parity(b) == (((((((((b[0] != b[1]) != b[2]) != b[3]) != b[4]) != b[5]) != b[6]) != b[7]) != b[8]) != b[9])
  {
    assert b[..4] == [b[0], b[1], b[2], b[3]] && b[..10] == b;
    Em4100.ParityOfFour(b[0], b[1], b[2], b[3]);
    hide Parity;
    ParityNext(b, 4);
    ParityNext(b, 5);
    ParityNext(b, 6);
    ParityNext(b, 7);
    ParityNext(b, 8);
    ParityNext(b, 9);
  }

  /** The very first levels are an EM4100 frame. */
  lemma ChipIsFrame(f: Bits)
    requires TagBits(f, Fdx(CHIP), 117) && !f(0)
    ensures FirstFrame(f, 0)
  {
    hide TagBits, RowEven, ColumnEven, Em4100.RowOk, Em4100.ColumnOk;
    ChipParities(f);
    forall r | 0 <= r < 10 ensures Em4100.RowOk(Levels(f, 0), r) { RowChecks(f, r); }
    forall c | 0 <= c < 4 ensures Em4100.ColumnOk(Levels(f, 0), c) { ColumnChecks(f, c); }
    forall i: nat | i <= 21 ensures f(i) == (0 < i < 10 || i == 21) { HeaderLevel(f, i); }
    assert Em4100.Header(Levels(f, 0));
    assert f(1) != f(0);
  }

  // The digit in row r of that frame.
  predicate DigitSaid(f: Bits, r: nat, v: nat) {
    var i := 10 + 5 * r;
    v == Weight(f(i), 8) + Weight(f(i + 1), 4) + Weight(f(i + 2), 2) + Weight(f(i + 3), 1)
  }

  lemma ChipDigits(f: Bits)
    requires TagBits(f, Fdx(CHIP), 117) && !f(0)
    ensures DigitSaid(f, 0, 0) && DigitSaid(f, 1, 0) && DigitSaid(f, 2, 5) && DigitSaid(f, 3, 4) && DigitSaid(f, 4, 7)
    ensures DigitSaid(f, 5, 9) && DigitSaid(f, 6, 6) && DigitSaid(f, 7, 6) && DigitSaid(f, 8, 7) && DigitSaid(f, 9, 10)
  {
    ChipLevels(f);
    hide TagBits, Shows;
    OneByOne(f, 21, "010010010");
    OneByOne(f, 30, "111110010");
    OneByOne(f, 39, "011000110");
    OneByOne(f, 48, "001111101");
    OneByOne(f, 57, "0000100");
  }

  lemma DigitRead(f: Bits, r: nat, v: nat)
    requires r < 10 && DigitSaid(f, r, v)
    ensures Em4100.DigitOf(Levels(f, 0), r) == v
  {
  }

  lemma ChipSays(f: Bits)
    requires TagBits(f, Fdx(CHIP), 117) && !f(0)
    ensures Em4100.TagOf(Levels(f, 0)) == HEARD
  {
    hide TagBits, DigitSaid;
    ChipDigits(f);
    hide Em4100.DigitOf;
    DigitRead(f, 0, 0);
    DigitRead(f, 1, 0);
    DigitRead(f, 2, 5);
    DigitRead(f, 3, 4);
    DigitRead(f, 4, 7);
    DigitRead(f, 5, 9);
    DigitRead(f, 6, 6);
    DigitRead(f, 7, 6);
    DigitRead(f, 8, 7);
    DigitRead(f, 9, 10);
    assert HexDigit(0) == '0' && HexDigit(5) == '5' && HexDigit(4) == '4' && HexDigit(7) == '7' && HexDigit(9) == '9';
    assert HexDigit(6) == '6' && HexDigit(10) == 'a';
  }

  /** A reset reader that is fed this FDX-B tag from the last control bit of its trailer but one, the level being
      low before, reports an EM4100 tag as soon as it has heard 64 bits, and later the FDX-B tag. */
  lemma ChipReadAsEM4100(st: State, f: Bits, half: nat, mid: bool, ms: seq<nat>)
    requires IsRate(half) && IsPos(f, Pos(0, mid)) && TagBits(f, Fdx(CHIP), 117) && !f(0) && Packets(ms) && Start(st)
    ensures var tags := FeedAll(st, f, half, Pos(0, mid), ms).1;
      var n := PosAfter(f, Pos(0, mid), Total(ms)).n;
      && (n >= 64 ==> Only(tags, true) != [] && Only(tags, true)[0] == Read(EM4100, HEARD))
      && (n >= 384 ==> Only(tags, false) != [] && AllOf(Only(tags, false), Fdx(CHIP)))
  {
    hide IsRate, TagBits, FeedAll, Only, PosAfter, Lively, FirstFrame, Em4100.TagOf;
    BiphaseLively(f, half, mid, Fdx(CHIP), 117);
    ReadsEM4100IffHeard(st, f, half, mid, ms);
    BiphaseTagsRead(st, f, half, mid, ms, Fdx(CHIP), 117);
    ChipIsFrame(f);
    ChipSays(f);
    FirstFrameIsOne(f, PosAfter(f, Pos(0, mid), Total(ms)).n, 0);
  }

  lemma FirstFrameIsOne(f: Bits, n: nat, k: nat)
    requires FirstFrame(f, k)
    ensures k + 64 <= n ==> FrameHeard(f, n)
    ensures forall j: nat :: FirstFrame(f, j) ==> j == k
  {
  }
}
