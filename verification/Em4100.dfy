/** EM4100 tags: encodeEM4100 and decodeEM4100 of cphidgetrfid.c, the frame between them, and
    self-synchronisation on a frame repeated back to back. */
module Em4100 {
  import opened Words

  // ---- the frame ------------------------------------------------------------------

  ghost predicate TagDigits(s: string) { |s| == 10 && IsHex(s) }

  /** Bit 39 .. 0 of a tag is spelled by its ten digits, first digit first. */
  predicate TagBit(s: string, k: nat)
    requires |s| == 10 && IsHex(s) && k < 40
  {
    NibbleBit(HexValue(s[9 - k / 4]), k % 4)
  }

  // Data bit c of row d, most significant first.
  predicate RowBit(s: string, d: nat, c: nat)
    requires TagDigits(s) && d < 10 && c < 4
  {
    NibbleBit(HexValue(s[d]), 3 - c)
  }

  function RowBits(s: string, d: nat, n: nat): (b: seq<bool>)
    requires TagDigits(s) && d < 10 && n <= 4
    ensures |b| == n
  {
    seq(n, c requires 0 <= c < n => RowBit(s, d, c))
  }

  function ColumnBits(s: string, c: nat, n: nat): (b: seq<bool>)
    requires TagDigits(s) && c < 4 && n <= 10
    ensures |b| == n
  {
    seq(n, d requires 0 <= d < n => RowBit(s, d, c))
  }

  /** Nine ones, ten rows of four data bits and their parity, four column parities, a zero. */
  function FrameBit(s: string, p: nat): bool
    requires TagDigits(s) && p < 64
  {
    if p < 9 then true
    else if p < 59 then
      var d, c := (p - 9) / 5, (p - 9) % 5;
      if c < 4 then RowBit(s, d, c) else Parity(RowBits(s, d, 4))
    else if p < 63 then Parity(ColumnBits(s, p - 59, 10))
    else false
  }

  function Frame(s: string): (f: seq<bool>)
    requires TagDigits(s)
    ensures |f| == 64
  {
    seq(64, p requires 0 <= p < 64 => FrameBit(s, p))
  }

  // ---- what a decoder window must satisfy -----------------------------------------

  predicate Header(w: seq<bool>)
    requires |w| == 64
  {
    forall i :: 0 <= i < 9 ==> w[i]
  }

  /** The first n bits of row i of a window. */
  function RowOf(w: seq<bool>, i: nat, n: nat): (b: seq<bool>)
    requires |w| == 64 && i < 10 && n <= 4
    ensures |b| == n
  {
    w[9 + 5 * i..9 + 5 * i + n]
  }

  /** The first n data bits of column i of a window. */
  function ColumnOf(w: seq<bool>, i: nat, n: nat): (b: seq<bool>)
    requires |w| == 64 && i < 4 && n <= 10
    ensures |b| == n
  {
    seq(n, k requires 0 <= k < n => w[9 + i + 5 * k])
  }

  predicate RowOk(w: seq<bool>, i: nat)
    requires |w| == 64 && i < 10
  {
    Parity(RowOf(w, i, 4)) == w[13 + 5 * i]
  }

  predicate ColumnOk(w: seq<bool>, i: nat)
    requires |w| == 64 && i < 4
  {
    Parity(ColumnOf(w, i, 10)) == w[59 + i]
  }

  predicate Checks(w: seq<bool>)
    requires |w| == 64
  {
    && !w[63]
    && (forall i :: 0 <= i < 10 ==> RowOk(w, i))
    && (forall i :: 0 <= i < 4 ==> ColumnOk(w, i))
  }

  /** The hexadecimal digit in row i of a window. */
  function DigitOf(w: seq<bool>, i: nat): (v: nat)
    requires |w| == 64 && i < 10
    ensures v < 16
  {
    var j := 9 + 5 * i;
    Weight(w[j], 8) + Weight(w[j + 1], 4) + Weight(w[j + 2], 2) + Weight(w[j + 3], 1)
  }

  function TagOf(w: seq<bool>): (s: string)
    requires |w| == 64
    ensures |s| == 10
  {
    seq(10, i requires 0 <= i < 10 => HexDigit(DigitOf(w, i)))
  }

  function Window(q: seq<bool>, p: nat): (w: seq<bool>)
    requires p + 64 <= |q|
    ensures |w| == 64
  {
    q[p..p + 64]
  }

  predicate Valid(q: seq<bool>, p: nat) {
    p + 64 <= |q| && Header(Window(q, p)) && Checks(Window(q, p))
  }

  // ---- a frame passes its own checks ----------------------------------------------

  lemma ParityOfFour(a: bool, b: bool, c: bool, d: bool)
    ensures Parity([a, b, c, d]) == (((a != b) != c) != d)
  {
    assert [a][..0] == [];
    assert [a, b][..1] == [a];
    assert [a, b, c][..2] == [a, b];
    assert [a, b, c, d][..3] == [a, b, c];
    assert Parity([a]) == a;
    assert Parity([a, b]) == (a != b);
    assert Parity([a, b, c]) == ((a != b) != c);
  }

  lemma FrameRow(s: string, d: nat, c: nat)
    requires TagDigits(s) && d < 10 && c < 5
    ensures FrameBit(s, 9 + 5 * d + c) == if c < 4 then RowBit(s, d, c) else Parity(RowBits(s, d, 4))
  {
    assert (5 * d + c) / 5 == d && (5 * d + c) % 5 == c;
  }

  lemma DigitFromRow(w: seq<bool>, s: string, d: nat)
    requires |w| == 64 && TagDigits(s) && d < 10 && RowOf(w, d, 4) == RowBits(s, d, 4)
    ensures HexDigit(DigitOf(w, d)) == LowerCase(s[d])
  {
    var r, v := RowOf(w, d, 4), HexValue(s[d]);
    assert r[0] == NibbleBit(v, 3) && r[1] == NibbleBit(v, 2) && r[2] == NibbleBit(v, 1) && r[3] == NibbleBit(v, 0);
    assert DigitOf(w, d) == Weight(r[0], 8) + Weight(r[1], 4) + Weight(r[2], 2) + Weight(r[3], 1);
    NibbleFromBits(v);
    HexDigitOfValue(s[d]);
  }

  lemma FrameRowOk(s: string, d: nat)
    requires TagDigits(s) && d < 10
    ensures RowOk(Frame(s), d) && RowOf(Frame(s), d, 4) == RowBits(s, d, 4)
    ensures HexDigit(DigitOf(Frame(s), d)) == LowerCase(s[d])
  {
    hide FrameBit, RowBit, Parity, DigitOf;
    forall c: nat | c < 4 ensures RowOf(Frame(s), d, 4)[c] == RowBits(s, d, 4)[c] {
      FrameRow(s, d, c);
      assert RowOf(Frame(s), d, 4)[c] == Frame(s)[9 + 5 * d + c];
    }
    FrameRow(s, d, 4);
    assert RowOf(Frame(s), d, 4) == RowBits(s, d, 4);
    DigitFromRow(Frame(s), s, d);
  }

  lemma FrameColumnOk(s: string, c: nat)
    requires TagDigits(s) && c < 4
    ensures ColumnOk(Frame(s), c)
  {
    forall d: nat | d < 10 ensures ColumnOf(Frame(s), c, 10)[d] == ColumnBits(s, c, 10)[d] {
      FrameRow(s, d, c);
    }
    assert ColumnOf(Frame(s), c, 10) == ColumnBits(s, c, 10);
  }

  /** A frame passes all checks and spells its tag in lower case. */
  lemma FrameValid(s: string)
    requires TagDigits(s)
    ensures Header(Frame(s)) && Checks(Frame(s))
    ensures |TagOf(Frame(s))| == |s| && forall i :: 0 <= i < |s| ==> TagOf(Frame(s))[i] == LowerCase(s[i])
  {
    forall d | 0 <= d < 10
      ensures RowOk(Frame(s), d) && HexDigit(DigitOf(Frame(s), d)) == LowerCase(s[d])
    {
      FrameRowOk(s, d);
    }
    forall c | 0 <= c < 4 ensures ColumnOk(Frame(s), c) {
      FrameColumnOk(s, c);
    }
  }

  // ---- self-synchronisation -------------------------------------------------------

  /** q is a stretch of the frame of s repeated back to back, starting at bit rot of the frame. */
  ghost predicate Repeated(q: seq<bool>, s: string, rot: nat)
    requires TagDigits(s)
  {
    forall i :: 0 <= i < |q| ==> q[i] == FrameBit(s, (i + rot) % 64)
  }

  /** Bit i of a window that starts at bit o of a frame and runs into the next frame. */
  function SeenBit(s: string, o: nat, i: nat): bool
    requires TagDigits(s) && o < 64 && i < 64
  {
    FrameBit(s, if o + i < 64 then o + i else o + i - 64)
  }

  lemma WindowBit(s: string, q: seq<bool>, rot: nat, p: nat, i: nat)
    requires TagDigits(s) && Repeated(q, s, rot) && p + 64 <= |q| && i < 64
    ensures Window(q, p)[i] == SeenBit(s, (p + rot) % 64, i)
  {
    AddMod(p + rot, i);
    assert Window(q, p)[i] == q[p + i] == FrameBit(s, (p + i + rot) % 64);
  }

  lemma AddMod(a: nat, i: nat)
    requires i < 64
    ensures (a + i) % 64 == if a % 64 + i < 64 then a % 64 + i else a % 64 + i - 64
  {
  }

  // A row and its parity bit hold an even number of ones, so they are never five ones.
  lemma RowHasZero(s: string, d: nat) returns (c: nat)
    requires TagDigits(s) && d < 10
    ensures c < 5 && !FrameBit(s, 9 + 5 * d + c)
  {
    var r := RowBits(s, d, 4);
    ParityOfFour(r[0], r[1], r[2], r[3]);
    assert r == [r[0], r[1], r[2], r[3]];
    c := if !r[0] then 0 else if !r[1] then 1 else if !r[2] then 2 else if !r[3] then 3 else 4;
    FrameRow(s, d, c);
  }

  /** Nine consecutive ones of a repeated frame begin at offset 0 .. 4 of a frame: from any other
      offset one of the nine bits is a zero. */
  lemma ZeroWithinNine(s: string, o: nat) returns (i: nat)
    requires TagDigits(s) && 4 < o < 64
    ensures i < 9 && !SeenBit(s, o, i)
  {
    if o <= 54 {
      var d := if o < 9 then 0 else (o - 5) / 5;
      var c := RowHasZero(s, d);
      i := 9 + 5 * d + c - o;
    } else {
      i := 63 - o;
    }
  }

  /** A window of a repeated frame passes all checks exactly when it is aligned with the frame. */
  lemma ValidIffAligned(s: string, q: seq<bool>, rot: nat, p: nat)
    requires TagDigits(s) && Repeated(q, s, rot) && p + 64 <= |q|
    ensures Valid(q, p) <==> (p + rot) % 64 == 0
    ensures Valid(q, p) ==> Window(q, p) == Frame(s)
  {
    var o := (p + rot) % 64;
    forall i: nat | i < 64 ensures Window(q, p)[i] == SeenBit(s, o, i) {
      WindowBit(s, q, rot, p, i);
    }
    if o > 4 {
      var i := ZeroWithinNine(s, o);
    } else if o > 0 {
      assert Window(q, p)[63] == FrameBit(s, o - 1);
    } else {
      assert Window(q, p) == Frame(s);
      FrameValid(s);
    }
  }

  // ---- the first tag in a queue ---------------------------------------------------

  datatype Found = NotFound | Tag(tagString: string)

  /** The tag at the first position from p on whose window passes all checks. */
  function FirstTag(q: seq<bool>, p: nat): (r: Found)
    decreases |q| - p
  {
    if p + 64 > |q| then NotFound
    else if Valid(q, p) then Tag(TagOf(Window(q, p)))
    else FirstTag(q, p + 1)
  }

  /** NotFound means that no window is valid, and a tag is read at the first valid window. */
  lemma {:induction false} FirstTagIsFirst(q: seq<bool>, p: nat)
    ensures FirstTag(q, p) == NotFound <==> forall k :: p <= k ==> !Valid(q, k)
    ensures FirstTag(q, p).Tag? ==>
      exists k :: p <= k && Valid(q, k) && (forall j :: p <= j < k ==> !Valid(q, j))
               && FirstTag(q, p) == Tag(TagOf(Window(q, k)))
    decreases |q| - p
  {
    if p + 64 <= |q| && !Valid(q, p) {
      FirstTagIsFirst(q, p + 1);
      if FirstTag(q, p).Tag? {
        var k :| p + 1 <= k && Valid(q, k) && (forall j :: p + 1 <= j < k ==> !Valid(q, j))
               && FirstTag(q, p) == Tag(TagOf(Window(q, k)));
        assert forall j :: p <= j < k ==> !Valid(q, j);
      } else {
        assert forall k :: p <= k && Valid(q, k) ==> k == p || p + 1 <= k;
      }
    }
  }

  /** Any 127 bits of a tag's frame repeated back to back, at any rotation, decode to that tag. */
  lemma {:induction false} SelfSynchronising(s: string, q: seq<bool>, rot: nat, p: nat)
    requires TagDigits(s) && Repeated(q, s, rot)
    requires |q| >= p + 64 + (64 - (p + rot) % 64) % 64
    ensures FirstTag(q, p).Tag?
    ensures var t := FirstTag(q, p).tagString;
      |t| == |s| && forall i :: 0 <= i < |s| ==> t[i] == LowerCase(s[i])
    decreases (64 - (p + rot) % 64) % 64
  {
    hide Valid, Repeated, TagOf;
    ValidIffAligned(s, q, rot, p);
    if Valid(q, p) {
      FrameValid(s);
    } else {
      AddMod(p + rot, 1);
      assert (p + 1 + rot) % 64 == (if (p + rot) % 64 == 63 then 0 else (p + rot) % 64 + 1);
      SelfSynchronising(s, q, rot, p + 1);
    }
  }
}
