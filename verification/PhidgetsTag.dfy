/** PhidgetsTAG: the frame, the decoder's search with its checksum register, and what it finds. */
module PhidgetsTag {
  import opened Words
  import opened Crc
  import opened Numbers
  import opened Search

  /** Twenty-four seven-bit characters. */
  type Text = d: seq<Byte> | |d| == 24 && forall i :: 0 <= i < 24 ==> !d[i][7]
    witness seq(24, i => seq(8, k => false))

  /** A string the encoder takes: ASCII, at most 24 characters, none of them NUL. */
  ghost predicate TagText(s: string) {
    |s| <= 24 && forall i :: 0 <= i < |s| ==> 0 < s[i] as int < 128
  }

  /** The bits of a character, and the character in the low seven bits of a byte. */
  function CharBits(c: char): (b: Byte)
    requires c as int < 128
    ensures !b[7]
  {
    HighBitsZero(c as int, 8, 7, 7);
    NatBits(c as int, 8)
  }

  function CharOfBits(b: Byte): (c: char)
    ensures c as int < 128
  {
    BitsNatBound(b[..7]);
    BitsNat(b[..7]) as char
  }

  lemma CharRoundTrip(c: char)
    requires c as int < 128
    ensures CharOfBits(CharBits(c)) == c
  {
    BitsPrefix(c as int, 8, 7);
    BitsOfNat(c as int, 7);
  }

  /** The string padded with NULs. */
  function TextData(s: string): (d: Text)
    requires TagText(s)
  {
    seq(24, i requires 0 <= i < 24 => CharBits(CharAt(s, i)))
  }

  function CharAt(s: string, i: nat): (c: char)
    requires forall k :: 0 <= k < |s| ==> 0 < s[k] as int < 128
    ensures c as int < 128
  {
    if i < |s| then s[i] else 0 as char
  }

  /** The C string in a text: everything before the first NUL. */
  function CString(d: seq<Byte>): (s: string) {
    if |d| == 0 || CharOfBits(d[0]) == 0 as char then [] else [CharOfBits(d[0])] + CString(d[1..])
  }

  lemma {:induction false} CStringOfText(s: string, d: seq<Byte>, n: nat)
    requires n <= |s| <= n + |d| && forall i :: 0 <= i < |s| ==> 0 < s[i] as int < 128
    requires forall i :: 0 <= i < |d| ==> d[i] == CharBits(CharAt(s, n + i))
    ensures CString(d) == s[n..]
  {
    hide CharBits, CharOfBits;
    if |d| > 0 {
      CharRoundTrip(CharAt(s, n));
      if n < |s| {
        CStringOfText(s, d[1..], n + 1);
      }
    }
  }

  /** Thirteen zeros and a one, two groups of eight checksum bits, twenty-four of seven data bits, each
      closed by a one. */
  predicate FrameBit(d: Text, p: nat)
    requires p < 224
  {
    if p < 14 then p == 13
    else if p < 32 then
      var g, c := (p - 14) / 9, (p - 14) % 9;
      c == 8 || MessageCrc(d)[15 - 8 * g - c]
    else
      var i, c := (p - 32) / 8, (p - 32) % 8;
      c == 7 || d[i][6 - c]
  }

  function Frame(d: Text): (f: seq<bool>)
    ensures |f| == 224
  {
    seq(224, p requires 0 <= p < 224 => FrameBit(d, p))
  }

  // ---- what a decoder window must satisfy -----------------------------------------

  type Win = w: seq<bool> | |w| == 224 witness seq(224, i => false)

  function Window(q: seq<bool>, p: nat): (w: Win)
    requires p + 224 <= |q|
  {
    q[p..p + 224]
  }

  predicate Header(w: Win) { (forall i :: 0 <= i < 13 ==> !w[i]) && w[13] }

  predicate DataControls(w: Win) { forall i :: 0 <= i < 24 ==> w[39 + 8 * i] }

  function TextOf(w: Win): (d: Text) {
    seq(24, i requires 0 <= i < 24 => seq(8, b requires 0 <= b < 8 => b < 7 && w[32 + 8 * i + 6 - b]))
  }

  function ChecksumOf(w: Win): (c: Crc16) {
    seq(16, k requires 0 <= k < 16 => w[14 + (15 - k) + (15 - k) / 8])
  }

  /** The upper half of the checksum, which is all that is read before the first control bit. */
  function UpperChecksum(w: Win): (c: Crc16) {
    seq(16, k requires 0 <= k < 16 => k >= 8 && ChecksumOf(w)[k])
  }

  /** The register that collects the checksum is never cleared between attempts: new bits are or-ed in. */
  function Collected(w: Win, stale: Crc16): (c: Crc16) {
    if w[22] then Or(stale, ChecksumOf(w)) else Or(stale, UpperChecksum(w))
  }

  predicate Passes(w: Win, stale: Crc16) {
    w[22] && w[31] && DataControls(w) && MessageCrc(TextOf(w)) == Collected(w, stale)
  }

  /** A frame as the encoder sends it: every control bit set and the checksum right. */
  predicate Good(w: Win) { Header(w) && Passes(w, Zero()) }

  lemma FrameChecksumBit(d: Text, g: nat, c: nat)
    requires g < 2 && c < 9
    ensures FrameBit(d, 14 + 9 * g + c) == (c == 8 || MessageCrc(d)[15 - 8 * g - c])
  {
    hide MessageCrc;
    assert (9 * g + c) / 9 == g && (9 * g + c) % 9 == c;
  }

  lemma FrameDataBit(d: Text, i: nat, c: nat)
    requires i < 24 && c < 8
    ensures FrameBit(d, 32 + 8 * i + c) == (c == 7 || d[i][6 - c])
  {
    assert (8 * i + c) / 8 == i && (8 * i + c) % 8 == c;
  }

  lemma FrameStart(d: Text)
    ensures Header(Frame(d))
  {
    hide MessageCrc;
  }

  lemma FrameGood(d: Text)
    ensures Good(Frame(d)) && TextOf(Frame(d)) == d && ChecksumOf(Frame(d)) == MessageCrc(d)
  {
    hide MessageCrc, FrameBit;
    var f := Frame(d);
    FrameStart(d);
    FrameChecksumBit(d, 0, 8);
    FrameChecksumBit(d, 1, 8);
    forall i | 0 <= i < 24 ensures f[39 + 8 * i] && TextOf(f)[i] == d[i] {
      FrameDataBit(d, i, 7);
      forall b | 0 <= b < 8 ensures TextOf(f)[i][b] == d[i][b] {
        if b < 7 { FrameDataBit(d, i, 6 - b); }
      }
    }
    assert TextOf(f) == d;
    forall k | 0 <= k < 16 ensures ChecksumOf(f)[k] == MessageCrc(d)[k] {
      var i := 15 - k;
      FrameChecksumBit(d, i / 8, i % 8);
    }
    assert ChecksumOf(f) == MessageCrc(d);
    assert Or(Zero(), ChecksumOf(f)) == ChecksumOf(f);
  }

  // ---- the search -----------------------------------------------------------------

  datatype Found = NotFound | Tag(tagString: string)

  /** The decoder from position p on, with what earlier attempts left in the checksum register. */
  function Scan(q: seq<bool>, p: nat, stale: Crc16): (r: Found)
    decreases |q| - p
  {
    if p + 224 > |q| then NotFound
    else if !Header(Window(q, p)) then Scan(q, p + 1, stale)
    else if Passes(Window(q, p), stale) then Tag(CString(TextOf(Window(q, p))))
    else Scan(q, p + 15, Collected(Window(q, p), stale))
  }

  /** A good frame is accepted exactly when every bit left in the register is a bit of its checksum. */
  lemma AcceptedIffStaleFits(w: Win, stale: Crc16)
    requires Good(w)
    ensures Passes(w, stale) <==> Or(stale, ChecksumOf(w)) == ChecksumOf(w)
  {
    assert Or(Zero(), ChecksumOf(w)) == ChecksumOf(w);
  }

  function Headers(q: seq<bool>): (h: nat -> bool) {
    (k: nat) => k + 224 <= |q| && Header(Window(q, k))
  }

  /** What the register holds when the search from p comes to position k. */
  function RegisterAt(q: seq<bool>, p: nat, stale: Crc16, k: nat): (c: Crc16)
    decreases k - p
  {
    if p >= k then stale
    else if Headers(q)(p) then RegisterAt(q, p + 15, Collected(Window(q, p), stale), k)
    else RegisterAt(q, p + 1, stale, k)
  }

  /** The frame at k is tried with a register that lets it pass. */
  ghost predicate Accepted(q: seq<bool>, p: nat, stale: Crc16, k: nat) {
    p <= k && Headers(q)(k) && Reaches(Headers(q), 14, p, k) && Passes(Window(q, k), RegisterAt(q, p, stale, k))
  }

  /** The decoder finds a tag exactly when it comes by a frame that passes, and returns the first of these. */
  lemma {:induction false} ScanFinds(q: seq<bool>, p: nat, stale: Crc16)
    ensures Scan(q, p, stale) == NotFound <==> forall k :: !Accepted(q, p, stale, k)
    ensures Scan(q, p, stale).Tag? ==>
      exists k :: Accepted(q, p, stale, k) && (forall j :: j < k ==> !Accepted(q, p, stale, j))
               && Scan(q, p, stale) == Tag(CString(TextOf(Window(q, k))))
    decreases |q| - p
  {
    hide Header, Passes, CString, TextOf, Collected;
    if p + 224 <= |q| {
      assert Headers(q)(p) == Header(Window(q, p));
      if Header(Window(q, p)) && Passes(Window(q, p), stale) {
        assert Accepted(q, p, stale, p);
      } else {
        var next := if Header(Window(q, p)) then p + 15 else p + 1;
        var reg := if Header(Window(q, p)) then Collected(Window(q, p), stale) else stale;
        ScanFinds(q, next, reg);
        forall k: nat ensures Accepted(q, p, stale, k) <==> Accepted(q, next, reg, k) {
          AcceptedLater(q, p, stale, k);
        }
        if Scan(q, p, stale).Tag? {
          var k :| Accepted(q, next, reg, k) && (forall j :: j < k ==> !Accepted(q, next, reg, j))
                && Scan(q, next, reg) == Tag(CString(TextOf(Window(q, k))));
          assert Accepted(q, p, stale, k);
        }
      }
    }
  }

  lemma AcceptedLater(q: seq<bool>, p: nat, stale: Crc16, k: nat)
    requires p + 224 <= |q| && !(Header(Window(q, p)) && Passes(Window(q, p), stale))
    ensures Accepted(q, p, stale, k)
       <==> if Header(Window(q, p)) then Accepted(q, p + 15, Collected(Window(q, p), stale), k)
            else Accepted(q, p + 1, stale, k)
  {
    hide Header, Passes, Collected;
    assert Headers(q)(p) == Header(Window(q, p));
    var next := if Header(Window(q, p)) then p + 15 else p + 1;
    if p < k && Reaches(Headers(q), 14, next, k) { ReachesIsForward(Headers(q), 14, next, k); }
  }

  // ---- what the register holds ----------------------------------------------------

  /** Position j has a header that the search from the front tries: an even number of headers stand in a row
      directly before it. */
  ghost predicate Tried(q: seq<bool>, j: nat) { Headers(q)(j) && Chain(Headers(q), 14, j) % 2 == 0 }

  /** Some header before k that was tried had bit b in its checksum, in the part that was read. */
  ghost predicate LeftBehind(q: seq<bool>, k: nat, b: nat)
    requires b < 16
  {
    exists j: nat :: j < k && Tried(q, j) && Collected(Window(q, j), Zero())[b]
  }

  // The same counted from position p, with the register as it is there.
  ghost predicate LeftBehindFrom(q: seq<bool>, p: nat, stale: Crc16, k: nat, b: nat)
    requires b < 16
  {
    stale[b]
    || exists j: nat :: p <= j < k && Headers(q)(j) && Reaches(Headers(q), 14, p, j) && Collected(Window(q, j), Zero())[b]
  }

  lemma CollectedBit(w: Win, stale: Crc16, b: nat)
    requires b < 16
    ensures Collected(w, stale)[b] == (stale[b] || Collected(w, Zero())[b])
  {
  }

  lemma {:induction false} RegisterBit(q: seq<bool>, p: nat, stale: Crc16, k: nat, b: nat)
    requires b < 16
    ensures RegisterAt(q, p, stale, k)[b] <==> LeftBehindFrom(q, p, stale, k, b)
    decreases k - p
  {
    hide Collected, Header;
    if p < k {
      var next := if Headers(q)(p) then p + 15 else p + 1;
      var reg := if Headers(q)(p) then Collected(Window(q, p), stale) else stale;
      RegisterBit(q, next, reg, k, b);
      LeftBehindLater(q, p, stale, next, reg, k, b);
      hide LeftBehindFrom;
      assert RegisterAt(q, p, stale, k) == RegisterAt(q, next, reg, k);
    }
  }

  // What is left behind from p on is what the header at p leaves and what is left behind after it.
  lemma LeftBehindLater(q: seq<bool>, p: nat, stale: Crc16, next: nat, reg: Crc16, k: nat, b: nat)
    requires b < 16 && p < k && next == if Headers(q)(p) then p + 15 else p + 1
    requires reg == if Headers(q)(p) then Collected(Window(q, p), stale) else stale
    ensures LeftBehindFrom(q, p, stale, k, b) <==> LeftBehindFrom(q, next, reg, k, b)
  {
    hide Collected, Header;
    if Headers(q)(p) { CollectedBit(Window(q, p), stale, b); }
    if LeftBehindFrom(q, p, stale, k, b) && !reg[b] {
      var j: nat :| p <= j < k && Headers(q)(j) && Reaches(Headers(q), 14, p, j) && Collected(Window(q, j), Zero())[b];
      assert j != p && Reaches(Headers(q), 14, next, j);
      ReachesIsForward(Headers(q), 14, next, j);
    }
    if LeftBehindFrom(q, next, reg, k, b) && !stale[b] {
      if reg[b] {
        assert Headers(q)(p) && Reaches(Headers(q), 14, p, p) && Collected(Window(q, p), Zero())[b];
      } else {
        var j: nat :| next <= j < k && Headers(q)(j) && Reaches(Headers(q), 14, next, j) && Collected(Window(q, j), Zero())[b];
        assert Reaches(Headers(q), 14, p, j);
      }
    }
  }

  lemma RegisterHolds(q: seq<bool>, k: nat, b: nat)
    requires b < 16
    ensures RegisterAt(q, 0, Zero(), k)[b] <==> LeftBehind(q, k, b)
  {
    hide Collected, Header;
    RegisterBit(q, 0, Zero(), k, b);
    HeadersSpaced(q);
    forall j: nat | Headers(q)(j) ensures Reaches(Headers(q), 14, 0, j) <==> Tried(q, j) {
      ReachesIffEven(Headers(q), 14, j);
    }
  }

  /** Exactly two things make the decoder pass over a good frame: an odd number of headers in a row directly
      before it, or a tried header somewhere before it with a checksum bit that the frame does not have. */
  lemma GoodFrameAccepted(q: seq<bool>, k: nat)
    requires k + 224 <= |q| && Good(Window(q, k))
    ensures Accepted(q, 0, Zero(), k)
       <==> && Chain(Headers(q), 14, k) % 2 == 0
            && forall b :: 0 <= b < 16 && LeftBehind(q, k, b) ==> ChecksumOf(Window(q, k))[b]
  {
    hide Passes, RegisterAt, LeftBehind, ChecksumOf;
    HeadersSpaced(q);
    ReachesIffEven(Headers(q), 14, k);
    var reg, sum := RegisterAt(q, 0, Zero(), k), ChecksumOf(Window(q, k));
    AcceptedIffStaleFits(Window(q, k), reg);
    forall b | 0 <= b < 16 ensures reg[b] <==> LeftBehind(q, k, b) {
      RegisterHolds(q, k, b);
    }
    OrFits(reg, sum);
  }

  lemma OrFits(a: Crc16, b: Crc16)
    ensures Or(a, b) == b <==> forall i :: 0 <= i < 16 && a[i] ==> b[i]
  {
    if Or(a, b) == b {
      forall i | 0 <= i < 16 && a[i] ensures b[i] { assert Or(a, b)[i]; }
    }
  }

  /** Headers never overlap. */
  lemma HeadersSpaced(q: seq<bool>)
    ensures Spaced(Headers(q), 14)
  {
    forall a: nat, b: nat | a < b < a + 14 && Headers(q)(a) && b + 224 <= |q| ensures !Headers(q)(b) {
      assert Window(q, a)[13] == q[a + 13] == Window(q, b)[a + 13 - b];
    }
  }

  /** A run of positions without headers is passed over. */
  lemma {:induction false} SkipTo(q: seq<bool>, p: nat, k: nat, stale: Crc16)
    requires p <= k && k + 224 <= |q| && forall j: nat :: p <= j < k ==> !Header(Window(q, j))
    ensures Scan(q, p, stale) == Scan(q, k, stale)
    decreases k - p
  {
    if p < k { SkipTo(q, p + 1, k, stale); }
  }

  /** When the first header of the queue belongs to a good frame, the decoder reads that frame. */
  lemma FirstHeaderGood(q: seq<bool>, k: nat)
    requires k + 224 <= |q| && Good(Window(q, k))
    requires forall j: nat :: j < k ==> !Header(Window(q, j))
    ensures Scan(q, 0, Zero()) == Tag(CString(TextOf(Window(q, k))))
  {
    SkipTo(q, 0, k, Zero());
  }

  // ---- a failed attempt spoils the next frame -------------------------------------

  /** Twenty-three bits that look like a header with a checksum of ones and no control bit after it. */
  function FalseStart(): (x: seq<bool>)
    ensures |x| == 23
  {
    seq(23, i => 13 <= i < 22)
  }

  function UpperOnes(): Crc16 { seq(16, k => k >= 8) }

  /** Behind a false start, a frame that begins where the search comes by is still read only if the
      upper byte of its checksum is all ones. */
  lemma SpoiledByFalseStart(d: Text)
    ensures Scan(FalseStart() + Frame(d), 0, Zero())
         == if Or(UpperOnes(), MessageCrc(d)) == MessageCrc(d) then Tag(CString(d)) else NotFound
  {
    hide MessageCrc, CString;
    var q := FalseStart() + Frame(d);
    var w := Window(q, 0);
    assert forall i: nat :: i < 23 ==> w[i] == FalseStart()[i];
    assert !w[22];
    assert Collected(w, Zero()) == UpperOnes() by {
      forall k | 0 <= k < 16 ensures UpperChecksum(w)[k] == UpperOnes()[k] {
        if k >= 8 {
          var i: nat := 29 - k;
          assert w[i] == FalseStart()[i];
          assert 14 + (15 - k) + (15 - k) / 8 == i;
          assert ChecksumOf(w)[k] == w[i];
          assert UpperChecksum(w)[k];
          assert UpperOnes()[k];
        }
      }
      assert Or(Zero(), UpperChecksum(w)) == UpperOnes();
    }
    assert Scan(q, 0, Zero()) == Scan(q, 15, UpperOnes());
    forall j: nat | 15 <= j < 23 ensures !Header(Window(q, j)) {
      if j < 22 {
        assert Window(q, j)[0] == FalseStart()[j];
      } else {
        assert Window(q, j)[13] == q[35] == Frame(d)[12];
      }
    }
    SkipTo(q, 15, 23, UpperOnes());
    assert Window(q, 23) == Frame(d);
    FrameGood(d);
    AcceptedIffStaleFits(Frame(d), UpperOnes());
    assert Scan(q, 38, Collected(Frame(d), UpperOnes())) == NotFound;
  }

  lemma {:induction false} ZeroCrc(m: seq<Byte>)
    requires forall i :: 0 <= i < |m| ==> m[i] == seq(8, k => false)
    ensures MessageCrc(m) == Zero()
  {
    if |m| > 0 {
      ZeroCrc(m[..|m| - 1]);
      UpdateZero();
    }
  }

  lemma UpdateZero()
    ensures Update(Zero(), seq(8, k => false)) == Zero()
  {
    UpdateDivides(Zero(), seq(8, k => false));
    var b := ByteBits(seq(8, k => false));
    DivideRun(Zero(), b);
    assert Xor(Zero(), Load(b)) == Zero();
    PowerZero(8);
  }

  lemma NulBits()
    ensures CharBits(0 as char) == seq(8, k => false)
  {
    var z := seq(8, k => false);
    forall k | 0 <= k < 8 ensures CharBits(0 as char)[k] == z[k] { ZeroBits(8, k); }
  }

  /** A concrete loss: the frame of the empty tag, good and in the queue, is not found. */
  lemma EmptyTagLost()
    ensures TagText("") && Good(Window(FalseStart() + Frame(TextData("")), 23))
    ensures Scan(FalseStart() + Frame(TextData("")), 0, Zero()) == NotFound
  {
    var d := TextData("");
    FrameGood(d);
    assert Window(FalseStart() + Frame(d), 23) == Frame(d);
    SpoiledByFalseStart(d);
    assert forall i :: 0 <= i < 24 ==> d[i] == CharBits(0 as char);
    NulBits();
    ZeroCrc(d);
    assert Or(UpperOnes(), Zero())[8] && !Zero()[8];
  }

  /** Every frame is missed when the fourteen header bits come once more right before it. */
  lemma DoubledHeaderHidesFrame(d: Text)
    ensures Good(Window(Frame(d)[..14] + Frame(d), 14))
    ensures Scan(Frame(d)[..14] + Frame(d), 0, Zero()) == NotFound
  {
    var q := Frame(d)[..14] + Frame(d);
    assert Window(q, 14) == Frame(d);
    FrameGood(d);
    var w := Window(q, 0);
    assert forall i: nat :: i < 14 ==> w[i] == Frame(d)[i];
    assert w[22] == Frame(d)[8];
  }

  // ---- self-synchronisation -------------------------------------------------------

  ghost predicate Repeated(q: seq<bool>, d: Text, rot: nat) {
    forall i :: 0 <= i < |q| ==> q[i] == FrameBit(d, (i + rot) % 224)
  }

  predicate SeenBit(d: Text, o: nat, i: nat)
    requires o < 224 && i < 224
  {
    FrameBit(d, if o + i < 224 then o + i else o + i - 224)
  }

  lemma AddMod(a: nat, i: nat)
    requires i < 224
    ensures (a + i) % 224 == if a % 224 + i < 224 then a % 224 + i else a % 224 + i - 224
  {
  }

  lemma WindowBit(d: Text, q: seq<bool>, rot: nat, p: nat, i: nat)
    requires Repeated(q, d, rot) && p + 224 <= |q| && i < 224
    ensures Window(q, p)[i] == SeenBit(d, (p + rot) % 224, i)
  {
    AddMod(p + rot, i);
    assert Window(q, p)[i] == q[p + i] == FrameBit(d, (p + i + rot) % 224);
  }

  /** Thirteen zeros in a row occur in a repeated frame only at its start. */
  lemma OneWithinThirteen(d: Text, o: nat) returns (i: nat)
    requires 0 < o < 224
    ensures i < 13 && SeenBit(d, o, i)
  {
    if o <= 13 {
      i := 13 - o;
    } else if o <= 22 {
      FrameChecksumBit(d, 0, 8);
      i := 22 - o;
    } else if o <= 31 {
      FrameChecksumBit(d, 1, 8);
      i := 31 - o;
    } else {
      var g := (o - 32) / 8;
      FrameDataBit(d, g, 7);
      i := 39 + 8 * g - o;
    }
  }

  lemma HeaderIffAligned(d: Text, q: seq<bool>, rot: nat, p: nat)
    requires Repeated(q, d, rot) && p + 224 <= |q|
    ensures Header(Window(q, p)) <==> (p + rot) % 224 == 0
    ensures Header(Window(q, p)) ==> Window(q, p) == Frame(d)
  {
    hide FrameBit;
    var o := (p + rot) % 224;
    forall i: nat | i < 224 ensures Window(q, p)[i] == SeenBit(d, o, i) {
      WindowBit(d, q, rot, p, i);
    }
    if o > 0 {
      var i := OneWithinThirteen(d, o);
    } else {
      assert Window(q, p) == Frame(d);
      FrameGood(d);
    }
  }

  /** Any 447 bits of a tag's frame repeated back to back, at any rotation, decode to that tag. */
  lemma SelfSynchronising(s: string, q: seq<bool>, rot: nat)
    requires TagText(s) && Repeated(q, TextData(s), rot) && |q| >= 447
    ensures Scan(q, 0, Zero()) == Tag(s)
  {
    hide Header, Passes, Repeated, TextData, CString, Good;
    var d := TextData(s);
    var k := (224 - rot % 224) % 224;
    assert (k + rot) % 224 == 0;
    HeaderIffAligned(d, q, rot, k);
    forall j: nat | j < k ensures !Header(Window(q, j)) {
      assert (j + rot) % 224 != 0;
      HeaderIffAligned(d, q, rot, j);
    }
    FrameGood(d);
    FirstHeaderGood(q, k);
    TextRoundTrip(s);
  }

  lemma TextRoundTrip(s: string)
    requires TagText(s)
    ensures CString(TextData(s)) == s
  {
    CStringOfText(s, TextData(s), 0);
  }
}
