/** ISO 11785 FDX-B tags: the frame, the decoder's search, and what it finds. */
module FdxB {
  import opened Words
  import opened Crc
  import opened Numbers
  import opened Search

  /** The 64 data bits of a tag in the order they are sent: the ISO 11784 number, lowest bit first. */
  type Data = d: seq<bool> | |d| == 64 witness seq(64, i => false)

  /** Fifteen digits whose last twelve are a number of at most 38 bits. */
  ghost predicate TagDigits(s: string) { |s| == 15 && IsDecimal(s) && Parse(s[3..]) <= 0x3FFFFFFFFF }

  /** Country code above a 38-bit number, and the animal bit on top. */
  function TagData(s: string): (d: Data)
    requires TagDigits(s)
  {
    NatBits(Parse(s[3..]), 38) + NatBits(Parse(s[..3]), 10) + seq(15, i => false) + [true]
  }

  /** The eight bytes that go into the checksum: the bits as they are sent, first bit highest. */
  function DataBytes(d: Data): (m: seq<Byte>)
    ensures |m| == 8
  {
    seq(8, i requires 0 <= i < 8 => SentByte(d[8 * i..8 * i + 8]))
  }

  function SentByte(b: seq<bool>): (x: Byte)
    requires |b| == 8
  {
    seq(8, k requires 0 <= k < 8 => b[7 - k])
  }

  /** Ten zeros and a one, then groups of eight bits closed by a one: eight of data, two of checksum,
      three of trailer. */
  predicate FrameBit(d: Data, p: nat)
    requires p < 128
  {
    if p < 11 then p == 10
    else
      var g, c := (p - 11) / 9, (p - 11) % 9;
      if c == 8 then true
      else if g < 8 then d[8 * g + c]
      else if g < 10 then MessageCrc(DataBytes(d))[15 - 8 * (g - 8) - c]
      else false
  }

  function Frame(d: Data): (f: seq<bool>)
    ensures |f| == 128
  {
    seq(128, p requires 0 <= p < 128 => FrameBit(d, p))
  }

  // ---- what a decoder window must satisfy -----------------------------------------

  function Window(q: seq<bool>, p: nat): (w: seq<bool>)
    requires p + 128 <= |q|
    ensures |w| == 128
  {
    q[p..p + 128]
  }

  predicate Header(w: seq<bool>)
    requires |w| == 128
  {
    (forall i :: 0 <= i < 10 ==> !w[i]) && w[10]
  }

  /** The ones that close the data and checksum groups. The trailer is not looked at. */
  predicate Controls(w: seq<bool>)
    requires |w| == 128
  {
    forall g :: 0 <= g < 10 ==> w[19 + 9 * g]
  }

  function DataOf(w: seq<bool>): (d: Data)
    requires |w| == 128
  {
    seq(64, t requires 0 <= t < 64 => w[11 + t + t / 8])
  }

  function ChecksumOf(w: seq<bool>): (c: Crc16)
    requires |w| == 128
  {
    seq(16, k requires 0 <= k < 16 => w[83 + (15 - k) + (15 - k) / 8])
  }

  predicate Passes(w: seq<bool>)
    requires |w| == 128
  {
    Controls(w) && MessageCrc(DataBytes(DataOf(w))) == ChecksumOf(w)
  }

  /** Country code in at least three digits, number in at least twelve. */
  function TagOf(d: Data): (s: string) { Padded(BitsNat(d[38..48]), 3) + Padded(BitsNat(d[..38]), 12) }

  predicate Valid(q: seq<bool>, p: nat) {
    p + 128 <= |q| && Header(Window(q, p)) && Passes(Window(q, p))
  }

  // ---- a frame passes its own checks and spells its tag ---------------------------

  lemma FrameGroup(d: Data, g: nat, c: nat)
    requires g < 13 && c < 9
    ensures FrameBit(d, 11 + 9 * g + c)
         == if c == 8 then true
            else if g < 8 then d[8 * g + c]
            else if g < 10 then MessageCrc(DataBytes(d))[15 - 8 * (g - 8) - c]
            else false
  {
    assert (9 * g + c) / 9 == g && (9 * g + c) % 9 == c;
  }

  lemma FrameValid(d: Data)
    ensures Header(Frame(d)) && Passes(Frame(d)) && DataOf(Frame(d)) == d
  {
    hide MessageCrc;
    var f := Frame(d);
    forall g | 0 <= g < 10 ensures f[19 + 9 * g] {
      FrameGroup(d, g, 8);
    }
    forall t | 0 <= t < 64 ensures DataOf(f)[t] == d[t] {
      FrameGroup(d, t / 8, t % 8);
      assert 11 + 9 * (t / 8) + t % 8 == 11 + t + t / 8;
    }
    assert DataOf(f) == d;
    forall k | 0 <= k < 16 ensures ChecksumOf(f)[k] == MessageCrc(DataBytes(d))[k] {
      var i := 15 - k;
      FrameGroup(d, 8 + i / 8, i % 8);
      assert 11 + 9 * (8 + i / 8) + i % 8 == 83 + i + i / 8;
    }
    assert ChecksumOf(f) == MessageCrc(DataBytes(d));
  }

  lemma TwoTo38()
    ensures Pow2(38) == 0x4000000000 && Pow2(10) == 1024 && Pow10(3) == 1000
  {
    assert Pow2(10) == 1024;
    assert Pow2(20) == 1048576;
    assert Pow2(30) == 1073741824;
  }

  /** The decoder's numbers print as the encoder's string. */
  lemma TagOfData(s: string)
    requires TagDigits(s)
    ensures TagOf(TagData(s)) == s
  {
    hide Parse, NatBits, BitsNat, Padded, Pow2, Pow10;
    var country, number := Parse(s[..3]), Parse(s[3..]);
    var d := TagData(s);
    assert d[38..48] == NatBits(country, 10) && d[..38] == NatBits(number, 38);
    assert country < Pow2(10) && number < Pow2(38) by {
      TwoTo38();
      ParseBound(s[..3]);
    }
    BitsOfNat(country, 10);
    BitsOfNat(number, 38);
    PaddedParse(s[..3]);
    PaddedParse(s[3..]);
    assert s == s[..3] + s[3..];
  }

  // ---- the search -----------------------------------------------------------------

  datatype Found = NotFound | Tag(tagString: string)

  /** The decoder from position p on: a header whose frame fails moves it past the header and one more. */
  function Scan(q: seq<bool>, p: nat): (r: Found)
    decreases |q| - p
  {
    if p + 128 > |q| then NotFound
    else if !Header(Window(q, p)) then Scan(q, p + 1)
    else if Passes(Window(q, p)) then Tag(TagOf(DataOf(Window(q, p))))
    else Scan(q, p + 12)
  }

  ghost function Headers(q: seq<bool>): nat -> bool {
    (k: nat) => k + 128 <= |q| && Header(Window(q, k))
  }

  /** Two headers never overlap. */
  lemma HeadersSpaced(q: seq<bool>)
    ensures Spaced(Headers(q), 11)
  {
    forall a: nat, b: nat | a < b < a + 11 && Headers(q)(a) && b + 128 <= |q| ensures !Headers(q)(b) {
      assert Window(q, a)[10] == q[a + 10] == Window(q, b)[a + 10 - b];
    }
  }

  /** The decoder finds a tag exactly when a valid frame stands where its search comes by, and it
      returns the first of these. */
  lemma {:induction false} ScanFinds(q: seq<bool>, p: nat)
    ensures Scan(q, p) == NotFound <==> forall k :: p <= k && Valid(q, k) ==> !Reaches(Headers(q), 11, p, k)
    ensures Scan(q, p).Tag? ==>
      exists k :: p <= k && Valid(q, k) && Reaches(Headers(q), 11, p, k)
               && (forall j :: p <= j < k && Valid(q, j) ==> !Reaches(Headers(q), 11, p, j))
               && Scan(q, p) == Tag(TagOf(DataOf(Window(q, k))))
    decreases |q| - p
  {
    hide Header, Passes, TagOf;
    if p + 128 <= |q| {
      if Valid(q, p) {
        assert Reaches(Headers(q), 11, p, p);
      } else {
        var next := if Header(Window(q, p)) then p + 12 else p + 1;
        ScanFinds(q, next);
        forall k | p <= k && Valid(q, k)
          ensures Reaches(Headers(q), 11, p, k) <==> next <= k && Reaches(Headers(q), 11, next, k)
        {
          assert Headers(q)(p) == Header(Window(q, p));
          if Reaches(Headers(q), 11, next, k) { ReachesIsForward(Headers(q), 11, next, k); }
        }
        if Scan(q, p).Tag? {
          var k :| next <= k && Valid(q, k) && Reaches(Headers(q), 11, next, k)
                && (forall j :: next <= j < k && Valid(q, j) ==> !Reaches(Headers(q), 11, next, j))
                && Scan(q, next) == Tag(TagOf(DataOf(Window(q, k))));
          assert Reaches(Headers(q), 11, p, k);
        }
      }
    }
  }

  /** A valid frame is passed over if and only if an odd number of headers stand in a row directly before it. */
  lemma MissedIffHidden(q: seq<bool>, k: nat)
    requires Valid(q, k)
    ensures Reaches(Headers(q), 11, 0, k) <==> Chain(Headers(q), 11, k) % 2 == 0
  {
    HeadersSpaced(q);
    ReachesIffEven(Headers(q), 11, k);
  }

  // ---- damaged frames -------------------------------------------------------------

  /** The bits that go into the checksum are the data bits as they are sent. */
  lemma SentAsDivided(d: Data)
    ensures Bits(DataBytes(d)) == d
  {
    hide ByteBits;
    var m := DataBytes(d);
    forall i | 0 <= i < 8 ensures ByteBits(m[i]) == d[8 * i..8 * i + 8] {
      SentByteBits(d[8 * i..8 * i + 8]);
    }
    BitsAreCuts(m, d, 8);
    assert m[..8] == m && d[..64] == d;
  }

  lemma SentByteBits(b: seq<bool>)
    requires |b| == 8
    ensures ByteBits(SentByte(b)) == b
  {
  }

  lemma {:induction false} BitsAreCuts(m: seq<Byte>, d: seq<bool>, n: nat)
    requires n <= |m| && |d| == 8 * |m| && forall i :: 0 <= i < |m| ==> ByteBits(m[i]) == d[8 * i..8 * i + 8]
    ensures Bits(m[..n]) == d[..8 * n]
  {
    if n > 0 {
      BitsAreCuts(m, d, n - 1);
      assert m[..n][..n - 1] == m[..n - 1];
      assert d[..8 * n] == d[..8 * (n - 1)] + d[8 * (n - 1)..8 * (n - 1) + 8];
    }
  }

  /** A frame whose data bits differ from the ones its checksum was made for, by a burst of at most sixteen, is
      refused wherever it stands: what is read from the queue never comes from there. */
  lemma BurstRefused(q: seq<bool>, k: nat, d: Data, first: nat)
    requires k + 128 <= |q| && ChecksumOf(Window(q, k)) == MessageCrc(DataBytes(d))
    requires DataOf(Window(q, k)) != d
    requires forall i :: 0 <= i < 64 && !(first <= i < first + 16) ==> DataOf(Window(q, k))[i] == d[i]
    ensures !Passes(Window(q, k)) && !Valid(q, k)
    ensures forall p: nat :: Scan(q, p).Tag? ==>
      exists j :: j != k && p <= j && Valid(q, j) && Reaches(Headers(q), 11, p, j) && Scan(q, p) == Tag(TagOf(DataOf(Window(q, j))))
  {
    hide DataOf, ChecksumOf, Controls, MessageCrc, DataBytes, Bits, TagOf, Scan, Reaches;
    var c := DataOf(Window(q, k));
    SentAsDivided(c);
    SentAsDivided(d);
    BurstDetected(DataBytes(c), DataBytes(d), first);
    forall p: nat | Scan(q, p).Tag?
      ensures exists j :: j != k && p <= j && Valid(q, j) && Reaches(Headers(q), 11, p, j) && Scan(q, p) == Tag(TagOf(DataOf(Window(q, j))))
    {
      ScanFinds(q, p);
    }
  }

  /** Every frame is missed when the eleven header bits come once more right before it. */
  lemma DoubledHeaderHidesFrame(d: Data)
    ensures Valid(Frame(d)[..11] + Frame(d), 11)
    ensures Scan(Frame(d)[..11] + Frame(d), 0) == NotFound
  {
    var q := Frame(d)[..11] + Frame(d);
    assert Window(q, 11) == Frame(d);
    FrameValid(d);
    var w := Window(q, 0);
    assert forall i :: 0 <= i < 11 ==> w[i] == FrameBit(d, i);
    assert w[19 + 9 * 0] == Frame(d)[8];
    assert !Controls(w);
  }

  // ---- self-synchronisation -------------------------------------------------------

  /** q is a stretch of the frame of d repeated back to back, starting at bit rot of the frame. */
  ghost predicate Repeated(q: seq<bool>, d: Data, rot: nat) {
    forall i :: 0 <= i < |q| ==> q[i] == FrameBit(d, (i + rot) % 128)
  }

  predicate SeenBit(d: Data, o: nat, i: nat)
    requires o < 128 && i < 128
  {
    FrameBit(d, if o + i < 128 then o + i else o + i - 128)
  }

  lemma AddMod(a: nat, i: nat)
    requires i < 128
    ensures (a + i) % 128 == if a % 128 + i < 128 then a % 128 + i else a % 128 + i - 128
  {
  }

  lemma WindowBit(d: Data, q: seq<bool>, rot: nat, p: nat, i: nat)
    requires Repeated(q, d, rot) && p + 128 <= |q| && i < 128
    ensures Window(q, p)[i] == SeenBit(d, (p + rot) % 128, i)
  {
    AddMod(p + rot, i);
    assert Window(q, p)[i] == q[p + i] == FrameBit(d, (p + i + rot) % 128);
  }

  /** Ten zeros in a row occur in a repeated frame only at its start: from any other offset one of the
      ten bits is a control one. */
  lemma OneWithinTen(d: Data, o: nat) returns (i: nat)
    requires 0 < o < 128
    ensures i < 10 && SeenBit(d, o, i)
  {
    if o <= 118 {
      var g := (o - 1) / 9;
      if g > 0 { FrameGroup(d, g - 1, 8); }
      i := 10 + 9 * g - o;
    } else {
      FrameGroup(d, 12, 8);
      i := 127 - o;
    }
  }

  lemma HeaderIffAligned(d: Data, q: seq<bool>, rot: nat, p: nat)
    requires Repeated(q, d, rot) && p + 128 <= |q|
    ensures Header(Window(q, p)) <==> (p + rot) % 128 == 0
    ensures Header(Window(q, p)) ==> Window(q, p) == Frame(d)
  {
    hide FrameBit;
    var o := (p + rot) % 128;
    forall i: nat | i < 128 ensures Window(q, p)[i] == SeenBit(d, o, i) {
      WindowBit(d, q, rot, p, i);
    }
    if o > 0 {
      var i := OneWithinTen(d, o);
    } else {
      assert Window(q, p) == Frame(d);
      FrameValid(d);
    }
  }

  /** Any 255 bits of a tag's frame repeated back to back, at any rotation, decode to that tag. */
  lemma {:induction false} SelfSynchronising(s: string, q: seq<bool>, rot: nat, p: nat)
    requires TagDigits(s) && Repeated(q, TagData(s), rot)
    requires |q| >= p + 128 + (128 - (p + rot) % 128) % 128
    ensures Scan(q, p) == Tag(s)
    decreases (128 - (p + rot) % 128) % 128
  {
    hide Header, Passes, Repeated, TagOf, TagData;
    HeaderIffAligned(TagData(s), q, rot, p);
    if (p + rot) % 128 == 0 {
      FrameValid(TagData(s));
      TagOfData(s);
    } else {
      AddMod(p + rot, 1);
      assert (p + 1 + rot) % 128 == (if (p + rot) % 128 == 127 then 0 else (p + rot) % 128 + 1);
      SelfSynchronising(s, q, rot, p + 1);
    }
  }
}
