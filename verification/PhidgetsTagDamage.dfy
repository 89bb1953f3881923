/** PhidgetsTAG frames with wrong data bits. */
module PhidgetsTagDamage {
  // When the decoder takes a damaged frame for a tag: never, up to sixteen wrong bits of the message in a row
  // and with a clean register; but the register may hold what is missing from the checksum, and three patterns
  // of sixteen data bits escape the checksum itself.

  import opened Words
  import opened Crc
  import opened Search
  import opened Numbers
  import opened PhidgetsTag

  ghost predicate Controlled(w: Win) { w[22] && w[31] && DataControls(w) }

  /** A frame passes if and only if what the register held and its own checksum are together the checksum of
      its text. */
  lemma PassesIff(w: Win, stale: Crc16)
    requires Controlled(w)
    ensures Passes(w, stale) <==> Or(stale, ChecksumOf(w)) == MessageCrc(TextOf(w))
    ensures Passes(w, Zero()) <==> ChecksumOf(w) == MessageCrc(TextOf(w))
  {
    hide MessageCrc, TextOf, ChecksumOf, DataControls;
    assert Or(Zero(), ChecksumOf(w)) == ChecksumOf(w);
  }

  /** The same on a queue: the search accepts a header with all its control bits if and only if an even number
      of headers stand in a row directly before it, and the checksum of its text consists of its own checksum
      bits and those left behind by headers tried before. */
  lemma AcceptedIff(q: seq<bool>, k: nat)
    requires Headers(q)(k) && Controlled(Window(q, k))
    ensures Accepted(q, 0, Zero(), k)
       <==> && Chain(Headers(q), 14, k) % 2 == 0
            && forall b :: 0 <= b < 16 ==>
                 MessageCrc(TextOf(Window(q, k)))[b] == (ChecksumOf(Window(q, k))[b] || LeftBehind(q, k, b))
  {
    hide Passes, RegisterAt, LeftBehind, ChecksumOf, TextOf, MessageCrc, Header;
    HeadersSpaced(q);
    ReachesIffEven(Headers(q), 14, k);
    var w, reg := Window(q, k), RegisterAt(q, 0, Zero(), k);
    PassesIff(w, reg);
    forall b | 0 <= b < 16 ensures Or(reg, ChecksumOf(w))[b] == (ChecksumOf(w)[b] || LeftBehind(q, k, b)) {
      RegisterHolds(q, k, b);
    }
  }

  /** With a clean register no frame whose message was changed by a burst of at most sixteen bits passes. */
  lemma BurstRefused(w: Win, d: Text, first: nat)
    requires ChecksumOf(w) == MessageCrc(d) && TextOf(w) != d
    requires forall i :: 0 <= i < 192 && !(first <= i < first + 16) ==> Bits(TextOf(w))[i] == Bits(d)[i]
    ensures !Passes(w, Zero())
  {
    hide MessageCrc, TextOf, ChecksumOf, DataControls, Bits;
    BurstDetected(TextOf(w), d, first);
    if Controlled(w) { PassesIff(w, Zero()); }
  }

  // ---- bits as they are sent ------------------------------------------------------

  /** Data bit t of a frame: seven to a character, the highest first. */
  predicate SentBit(d: Text, t: nat)
    requires t < 168
  {
    d[t / 7][6 - t % 7]
  }

  /** Where data bit t stands in the message, in which every character has a zero in front. */
  function Place(t: nat): (i: nat) { 8 * (t / 7) + 1 + t % 7 }

  lemma {:induction false} MessageBit(m: seq<Byte>, i: nat)
    requires i < 8 * |m|
    ensures Bits(m)[i] == m[i / 8][7 - i % 8]
  {
    hide ByteBits;
    var k := |m| - 1;
    if i < 8 * k {
      MessageBit(m[..k], i);
    } else {
      LastByteBit(m[k], i - 8 * k);
    }
  }

  lemma LastByteBit(x: Byte, b: nat)
    requires b < 8
    ensures ByteBits(x)[b] == x[7 - b]
  {
  }

  lemma PlaceOf(i: nat)
    requires i < 192 && i % 8 != 0
    ensures var t := 7 * (i / 8) + i % 8 - 1; 0 <= t < 168 && Place(t) == i && t / 7 == i / 8 && t % 7 == i % 8 - 1
  {
    var c, b := i / 8, i % 8 - 1;
    assert (7 * c + b) / 7 == c && (7 * c + b) % 7 == b;
  }

  // The first of nineteen message bits that hold the sixteen data bits from t on.
  function From(t: nat): (lo: nat)
    requires t < 168
    ensures lo + 19 <= 192
  {
    if Place(t) <= 173 then Place(t) else 173
  }

  lemma SameOutside(d: Text, c: Text, first: nat, i: nat)
    requires first < 168 && i < 192 && !(From(first) <= i < From(first) + 19)
    requires forall t: nat :: t < 168 && !(first <= t < first + 16) ==> SentBit(d, t) == SentBit(c, t)
    ensures Bits(d)[i] == Bits(c)[i]
  {
    MessageBit(d, i);
    MessageBit(c, i);
    if i % 8 != 0 {
      PlaceOf(i);
      var t: nat := 7 * (i / 8) + i % 8 - 1;
      if first <= t < first + 16 { PlacesAscend(first, t); }
      assert SentBit(d, t) == SentBit(c, t);
    }
  }

  lemma PlacesAscend(s: nat, t: nat)
    requires s <= t < s + 16
    ensures Place(s) <= Place(t) <= Place(s) + 18
  {
  }

  /** Sixteen data bits in a row, as they are sent, may be wrong unnoticed: the frame passes if and only if the
      wrong bits are, in the message, a multiple of the generator. */
  lemma SixteenBitsPassIff(w: Win, d: Text, first: nat)
    requires Controlled(w) && ChecksumOf(w) == MessageCrc(d) && first < 168
    requires forall t: nat :: t < 168 && !(first <= t < first + 16) ==> SentBit(d, t) == SentBit(TextOf(w), t)
    ensures var lo := From(first);
      Passes(w, Zero()) <==> Multiple(Xor(Bits(d)[lo..lo + 19], Bits(TextOf(w))[lo..lo + 19]))
  {
    hide MessageCrc, TextOf, ChecksumOf, DataControls, Bits, From, SentBit, Multiple;
    var c, lo := TextOf(w), From(first);
    forall i: nat | i < 192 && !(lo <= i < lo + 19) ensures Bits(d)[i] == Bits(c)[i] {
      SameOutside(d, c, first, i);
    }
    ChecksumKeptIff(d, c, lo);
    PassesIff(w, Zero());
  }

  // ---- a damage that passes -------------------------------------------------------

  /** The first, fifth, eleventh and fifteenth data bit inverted. */
  function Damaged(d: Text): (c: Text) {
    var a: Byte := d[0][6 := !d[0][6]][2 := !d[0][2]];
    var b: Byte := d[1][3 := !d[1][3]];
    var e: Byte := d[2][6 := !d[2][6]];
    d[0 := a][1 := b][2 := e]
  }

  // Bit p of the frame of d with the text of c in it and the checksum left as it was.
  predicate MixedBit(d: Text, c: Text, p: nat)
    requires p < 224
  {
    if p < 32 then FrameBit(d, p) else FrameBit(c, p)
  }

  function Mixed(d: Text, c: Text): (w: Win) {
    seq(224, p requires 0 <= p < 224 => MixedBit(d, c, p))
  }

  lemma MixedHolds(d: Text, c: Text)
    ensures var w := Mixed(d, c);
      Header(w) && Controlled(w) && ChecksumOf(w) == MessageCrc(d) && TextOf(w) == c
  {
    hide MessageCrc, FrameBit;
    var w := Mixed(d, c);
    FrameGood(d);
    FrameGood(c);
    assert forall p :: 0 <= p < 32 ==> w[p] == Frame(d)[p];
    assert forall p :: 32 <= p < 224 ==> w[p] == Frame(c)[p];
    forall k | 0 <= k < 16 ensures ChecksumOf(w)[k] == ChecksumOf(Frame(d))[k] {
      assert 14 + (15 - k) + (15 - k) / 8 < 32;
    }
    assert ChecksumOf(w) == ChecksumOf(Frame(d));
    forall i | 0 <= i < 24 ensures TextOf(w)[i] == c[i] {
      assert TextOf(Frame(c))[i] == c[i];
      assert forall b :: 0 <= b < 8 ==> TextOf(w)[i][b] == TextOf(Frame(c))[i][b];
    }
    assert TextOf(w) == c;
  }

  // The low seven bits of a character come back from it.
  lemma BitsOfChar(b: Byte)
    ensures NatBits(CharOfBits(b) as int, 7) == b[..7]
  {
    BitsNatBound(b[..7]);
    BitsComeBack(b[..7]);
  }

  lemma FirstCharacter(d: Text)
    ensures CString(d) == [] <==> CharOfBits(d[0]) == 0 as char
    ensures CString(d) != [] ==> CString(d)[0] == CharOfBits(d[0])
  {
  }

  lemma OtherText(d: Text, c: Text)
    requires d[0][6] != c[0][6]
    ensures CString(d) != CString(c)
  {
    hide CString, CharOfBits;
    BitsOfChar(d[0]);
    BitsOfChar(c[0]);
    assert d[0][..7][6] != c[0][..7][6];
    FirstCharacter(d);
    FirstCharacter(c);
  }

  /** For every tag there is a damage of fifteen data bits that passes for another tag: inverting the data bits
      0, 4, 10 and 14 adds the generator to the message. */
  lemma FifteenBitsPass(d: Text)
    ensures CString(Damaged(d)) != CString(d)
    ensures forall t: nat :: t < 168 && !(t < 15) ==> SentBit(Damaged(d), t) == SentBit(d, t)
    ensures Scan(Mixed(d, Damaged(d)), 0, Zero()) == Tag(CString(Damaged(d)))
  {
    hide MessageCrc, FrameBit, TextOf, ChecksumOf, Passes, Header, CString, Bits;
    var c := Damaged(d);
    OtherText(d, c);
    MixedHolds(d, c);
    var e := Xor(Bits(d)[1..20], Bits(c)[1..20]);
    forall i: nat | i < 19 ensures e[i] == Term(i) {
      MessageBit(d, i + 1);
      MessageBit(c, i + 1);
    }
    assert Multiple(e);
    assert From(0) == 1;
    SixteenBitsPassIff(Mixed(d, c), d, 0);
    assert Window(Mixed(d, c), 0) == Mixed(d, c);
  }

  // ---- a register that completes a wrong checksum ---------------------------------

  /** A header with a checksum, and then no control bit. */
  function FalseHeader(c: Crc16): (x: seq<bool>)
    ensures |x| == 32
  {
    seq(32, p requires 0 <= p < 32 =>
      if p < 14 then p == 13 else if p == 22 then true else if p == 31 then false
      else c[15 - (p - 14) + (p - 14) / 9])
  }

  /** Behind a false header that carries the checksum of c, the frame of d with the text c in it is read as c,
      for all texts d and c with no checksum bit of d missing from that of c; without the false header it is
      refused whenever the checksums differ. */
  lemma WrongTagRead(d: Text, c: Text)
    requires Or(MessageCrc(c), MessageCrc(d)) == MessageCrc(c)
    ensures Scan(FalseHeader(MessageCrc(c)) + Mixed(d, c), 0, Zero()) == Tag(CString(c))
    ensures MessageCrc(d) != MessageCrc(c) ==> Scan(Mixed(d, c), 0, Zero()) == NotFound
  {
    hide MessageCrc, FrameBit, TextOf, ChecksumOf, CString, Collected, DataControls;
    var s, m := MessageCrc(c), Mixed(d, c);
    var q := FalseHeader(s) + m;
    MixedHolds(d, c);
    FalseHeaderFails(q, s, m);
    SkipTo(q, 15, 32, s) by { NoHeaderBetween(q, s, m); }
    assert Window(q, 32) == m && Window(m, 0) == m;
    PassesIff(m, s);
    PassesIff(m, Zero());
  }

  lemma FalseHeaderFails(q: seq<bool>, s: Crc16, m: Win)
    requires q == FalseHeader(s) + m
    ensures Scan(q, 0, Zero()) == Scan(q, 15, s)
  {
    var w := Window(q, 0);
    assert forall p :: 0 <= p < 32 ==> w[p] == FalseHeader(s)[p];
    forall k | 0 <= k < 16 ensures ChecksumOf(w)[k] == s[k] {
      var i := 15 - k;
      assert w[14 + i + i / 8] == s[k];
    }
    assert ChecksumOf(w) == s && Collected(w, Zero()) == s;
    assert Header(w) && !w[31];
  }

  lemma NoHeaderBetween(q: seq<bool>, s: Crc16, m: Win)
    requires q == FalseHeader(s) + m && Header(m)
    ensures forall j: nat :: 15 <= j < 32 ==> !Header(Window(q, j))
  {
    forall j: nat | 15 <= j < 32 ensures !Header(Window(q, j)) {
      if j < 19 {
        assert Window(q, j)[22 - j] == FalseHeader(s)[22];
      } else {
        assert Window(q, j)[13] == m[j + 13 - 32];
      }
    }
  }

  /** For instance the frame of the empty tag with any other text in it is read as that text. */
  lemma EmptyTagMisread(c: Text)
    ensures TagText("") && Scan(FalseHeader(MessageCrc(c)) + Mixed(TextData(""), c), 0, Zero()) == Tag(CString(c))
    ensures MessageCrc(c) != Zero() ==> Scan(Mixed(TextData(""), c), 0, Zero()) == NotFound
  {
    hide MessageCrc, CString;
    EmptyTagCrc();
    assert Or(MessageCrc(c), Zero()) == MessageCrc(c);
    WrongTagRead(TextData(""), c);
  }

  lemma EmptyTagCrc()
    ensures MessageCrc(TextData("")) == Zero()
  {
    var d := TextData("");
    assert forall i :: 0 <= i < 24 ==> d[i] == CharBits(0 as char);
    NulBits();
    ZeroCrc(d);
  }

  /** A concrete input: the frame of the empty tag with its first character changed to c. Alone it is refused,
      behind a false header it is read as the tag "c". */
  lemma ReadAsC()
    ensures TagText("") && TagText("c")
    ensures var d, c := TextData(""), TextData("c");
      && Scan(Mixed(d, c), 0, Zero()) == NotFound
      && Scan(FalseHeader(MessageCrc(c)) + Mixed(d, c), 0, Zero()) == Tag("c")
  {
    hide MessageCrc, CString, Bits;
    var d, c := TextData(""), TextData("c");
    TextRoundTrip("c");
    EmptyTagMisread(c);
    EmptyTagCrc();
    TextRoundTrip("");
    forall i: nat | 16 <= i < 192 ensures Bits(c)[i] == Bits(d)[i] {
      MessageBit(c, i);
      MessageBit(d, i);
      assert CharAt("c", i / 8) == CharAt("", i / 8);
    }
    BurstDetected(c, d, 0);
  }
}
