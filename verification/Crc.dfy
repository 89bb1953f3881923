/** CRC_16_CCITT_update of cphidgetrfid.c as polynomial division. */
module Crc {
  // The generator is x^16 + x^12 + x^5 + 1 of ITU-T V.41, section 2, with initial value 0.

  import opened Words

  type Crc16 = w: Word | |w| == 16 witness seq(16, i => false)

  function Zero(): Crc16 { seq(16, i => false) }

  function Widen(x: Byte): Crc16 { seq(16, k requires 0 <= k < 16 => k < 8 && x[k]) }

  /** crc & 0xff. */
  function Low(c: Crc16): Crc16 { And(c, Hex("00ff")) }

  /** CRC_16_CCITT_update, with C's truncations to 16 and to 8 bits. */
  function Update(crc: Crc16, x: Byte): Crc16 {
    var a := Or(Low(Shr(crc, 8)), Shl(crc, 8));
    var b := Xor(a, Widen(x));
    var c := Xor(b, Shr(Low(b), 4));
    var d := Xor(c, Shl(c, 12));
    Xor(d, Shl(Low(d), 5))
  }

  function Fold(crc: Crc16, m: seq<Byte>): Crc16 {
    if |m| == 0 then crc else Update(Fold(crc, m[..|m| - 1]), m[|m| - 1])
  }

  /** The checksum of a message. */
  function MessageCrc(m: seq<Byte>): Crc16 { Fold(Zero(), m) }

  // The loop that feeds a message to the checksum.
  method Checksum(m: seq<Byte>) returns (crc: Crc16)
    ensures crc == MessageCrc(m)
  {
    hide Update;
    crc := Zero();
    for i := 0 to |m|
      invariant crc == Fold(Zero(), m[..i])
    {
      assert m[..i + 1][..i] == m[..i];
      crc := Update(crc, m[i]);
    }
    assert m[..|m|] == m;
  }

  // ---- long division --------------------------------------------------------------

  /** The generator without its leading term: x^12 + x^5 + 1. */
  predicate Generator(k: nat) { k == 0 || k == 5 || k == 12 }

  /** Multiplication by x modulo the generator. */
  function Times(s: Crc16): Crc16 {
    seq(16, k requires 0 <= k < 16 => (k > 0 && s[k - 1]) != (s[15] && Generator(k)))
  }

  /** One step of long division: a message bit enters against the bit that leaves at the top. */
  function Step(s: Crc16, b: bool): Crc16 { Times(s[15 := s[15] != b]) }

  function Divide(s: Crc16, bits: seq<bool>): Crc16 {
    if |bits| == 0 then s else Step(Divide(s, bits[..|bits| - 1]), bits[|bits| - 1])
  }

  function Power(s: Crc16, n: nat): Crc16 {
    if n == 0 then s else Times(Power(s, n - 1))
  }

  lemma TimesLinear(s: Crc16, t: Crc16)
    ensures Times(Xor(s, t)) == Xor(Times(s), Times(t))
  {
  }

  lemma TimesInjective(s: Crc16, t: Crc16)
    requires Times(s) == Times(t)
    ensures s == t
  {
    assert Times(s)[0] == s[15] && Times(t)[0] == t[15];
    forall k | 0 <= k < 15 ensures s[k] == t[k] {
      assert Times(s)[k + 1] == (s[k] != (s[15] && Generator(k + 1)));
      assert Times(t)[k + 1] == (t[k] != (t[15] && Generator(k + 1)));
    }
  }

  lemma {:induction false} PowerLinear(s: Crc16, t: Crc16, n: nat)
    ensures Power(Xor(s, t), n) == Xor(Power(s, n), Power(t, n))
  {
    if n > 0 {
      PowerLinear(s, t, n - 1);
      TimesLinear(Power(s, n - 1), Power(t, n - 1));
    }
  }

  lemma {:induction false} PowerInjective(s: Crc16, t: Crc16, n: nat)
    requires Power(s, n) == Power(t, n)
    ensures s == t
  {
    if n > 0 {
      TimesInjective(Power(s, n - 1), Power(t, n - 1));
      PowerInjective(s, t, n - 1);
    }
  }

  lemma {:induction false} PowerFromInside(s: Crc16, n: nat)
    ensures Power(Times(s), n) == Power(s, n + 1)
  {
    if n > 0 { PowerFromInside(s, n - 1); }
  }

  // ---- up to sixteen bits at once -------------------------------------------------

  /** A run of at most sixteen bits, loaded from the top. */
  function Load(bits: seq<bool>): Crc16
    requires |bits| <= 16
  {
    seq(16, k requires 0 <= k < 16 => 15 - k < |bits| && bits[15 - k])
  }

  /** x^j when b, else 0. */
  function Unit(j: nat, b: bool): Crc16
    requires j < 16
  {
    seq(16, k requires 0 <= k < 16 => k == j && b)
  }

  lemma {:induction false} UnitPower(j: nat, b: bool)
    requires j < 16
    ensures Power(Unit(15 - j, b), j) == Unit(15, b)
  {
    if j > 0 {
      assert Times(Unit(15 - j, b)) == Unit(15 - (j - 1), b);
      UnitPower(j - 1, b);
      PowerFromInside(Unit(15 - j, b), j - 1);
    }
  }

  /** Dividing a run of at most sixteen bits is one multiplication of the remainder with the run
      loaded into it. */
  lemma {:induction false} DivideRun(s: Crc16, bits: seq<bool>)
    requires |bits| <= 16
    ensures Divide(s, bits) == Power(Xor(s, Load(bits)), |bits|)
  {
    if |bits| == 0 {
      assert Xor(s, Load(bits)) == s;
    } else {
      var n := |bits| - 1;
      var init, b := bits[..n], bits[n];
      var l := Xor(s, Load(init));
      DivideRun(s, init);
      UnitPower(n, b);
      PowerLinear(l, Unit(15 - n, b), n);
      assert Xor(s, Load(bits)) == Xor(l, Unit(15 - n, b));
      var p := Power(l, n);
      assert Xor(p, Unit(15, b)) == p[15 := p[15] != b];
    }
  }

  // ---- a byte ---------------------------------------------------------------------

  /** The bits of a byte, most significant first. */
  function ByteBits(x: Byte): (b: seq<bool>)
    ensures |b| == 8
  {
    seq(8, k requires 0 <= k < 8 => x[7 - k])
  }

  // Bit k of a remainder multiplied by x^4, and by x^8, in terms of the remainder.
  predicate FourTimes(s: Crc16, k: nat)
    requires k < 16
  {
    (if k < 4 then s[12 + k] else s[k - 4])
      != (((5 <= k < 9) && s[k + 7]) != ((12 <= k) && s[k]))
  }

  lemma PowerFour(s: Crc16)
    ensures Power(s, 4) == seq(16, k requires 0 <= k < 16 => FourTimes(s, k))
  {
    var a := Times(s);
    var b := Times(a);
    var c := Times(b);
    var d := Times(c);
    assert Power(s, 0) == s && Power(s, 1) == a && Power(s, 2) == b && Power(s, 3) == c;
    forall k | 0 <= k < 16 ensures d[k] == FourTimes(s, k) {
    }
  }

  lemma {:induction false} PowerSum(s: Crc16, m: nat, n: nat)
    ensures Power(s, m + n) == Power(Power(s, m), n)
  {
    if n > 0 { PowerSum(s, m, n - 1); }
  }

  function TimesFour(s: Crc16): Crc16 { seq(16, k requires 0 <= k < 16 => FourTimes(s, k)) }

  lemma LowBits(c: Crc16, k: nat)
    requires k < 16
    ensures Low(c)[k] == (k < 8 && c[k])
  {
    assert Hex("00ff")[k] == (k < 8) by {
      assert "00ff"[3 - k / 4] == if k < 8 then 'f' else '0';
    }
  }

  // The assignments of the update, bit by bit; e is the remainder with the byte at its top.
  predicate Swapped(e: Crc16, k: nat)
    requires k < 16
  {
    if k < 8 then e[k + 8] else e[k - 8]
  }

  predicate FoldedDown(b: Crc16, k: nat)
    requires k < 16
  {
    b[k] != (k < 4 && b[k + 4])
  }

  predicate ShiftedUp(c: Crc16, k: nat)
    requires k < 16
  {
    c[k] != (k >= 12 && c[k - 12])
  }

  predicate FoldedUp(d: Crc16, k: nat)
    requires k < 16
  {
    d[k] != (5 <= k < 13 && d[k - 5])
  }

  lemma SwapBit(crc: Crc16, x: Byte, k: nat)
    requires k < 16
    ensures Xor(Or(Low(Shr(crc, 8)), Shl(crc, 8)), Widen(x))[k] == Swapped(Xor(crc, Load(ByteBits(x))), k)
  {
    LowBits(Shr(crc, 8), k);
  }

  lemma FoldDownBit(b: Crc16, k: nat)
    requires k < 16
    ensures Xor(b, Shr(Low(b), 4))[k] == FoldedDown(b, k)
  {
    if k < 12 { LowBits(b, k + 4); }
  }

  lemma FoldUpBit(d: Crc16, k: nat)
    requires k < 16
    ensures Xor(d, Shl(Low(d), 5))[k] == FoldedUp(d, k)
  {
    if k >= 5 { LowBits(d, k - 5); }
  }

  lemma UpdateBit(crc: Crc16, x: Byte, k: nat)
    requires k < 16
    ensures Update(crc, x)[k] == TimesFour(TimesFour(Xor(crc, Load(ByteBits(x)))))[k]
  {
    var e := Xor(crc, Load(ByteBits(x)));
    var b := Xor(Or(Low(Shr(crc, 8)), Shl(crc, 8)), Widen(x));
    var c := Xor(b, Shr(Low(b), 4));
    var d := Xor(c, Shl(c, 12));
    forall j: nat | j < 16
      ensures b[j] == Swapped(e, j) && c[j] == FoldedDown(b, j) && d[j] == ShiftedUp(c, j)
    {
      SwapBit(crc, x, j);
      FoldDownBit(b, j);
    }
    FoldUpBit(d, k);
    assert Update(crc, x) == Xor(d, Shl(Low(d), 5));
    StagesMultiply(e, b, c, d, k);
  }

  lemma StagesMultiply(e: Crc16, b: Crc16, c: Crc16, d: Crc16, k: nat)
    requires k < 16
    requires forall j: nat :: j < 16 ==> b[j] == Swapped(e, j)
    requires forall j: nat :: j < 16 ==> c[j] == FoldedDown(b, j)
    requires forall j: nat :: j < 16 ==> d[j] == ShiftedUp(c, j)
    ensures FoldedUp(d, k) == TimesFour(TimesFour(e))[k]
  {
    var f := TimesFour(e);
    assert forall j: nat :: j < 16 ==> f[j] == FourTimes(e, j);
    assert TimesFour(f)[k] == FourTimes(f, k);
  }

  /** The table-free update is eight steps of long division by the generator. */
  lemma UpdateDivides(crc: Crc16, x: Byte)
    ensures Update(crc, x) == Divide(crc, ByteBits(x))
  {
    hide Update, Load;
    var e := Xor(crc, Load(ByteBits(x)));
    DivideRun(crc, ByteBits(x));
    PowerSum(e, 4, 4);
    PowerFour(e);
    PowerFour(TimesFour(e));
    forall k | 0 <= k < 16 ensures Update(crc, x)[k] == Divide(crc, ByteBits(x))[k] {
      UpdateBit(crc, x, k);
    }
  }

  // ---- messages -------------------------------------------------------------------

  /** The bits of a message in the order they are divided. */
  function Bits(m: seq<Byte>): (b: seq<bool>)
    ensures |b| == 8 * |m|
  {
    if |m| == 0 then [] else Bits(m[..|m| - 1]) + ByteBits(m[|m| - 1])
  }

  lemma {:induction false} DivideConcat(s: Crc16, a: seq<bool>, b: seq<bool>)
    ensures Divide(s, a + b) == Divide(Divide(s, a), b)
  {
    if |b| == 0 {
      assert a + b == a;
    } else {
      assert (a + b)[..|a + b| - 1] == a + b[..|b| - 1];
      DivideConcat(s, a, b[..|b| - 1]);
    }
  }

  /** The checksum is the remainder of the whole message. */
  lemma {:induction false} CrcIsRemainder(m: seq<Byte>)
    ensures MessageCrc(m) == Divide(Zero(), Bits(m))
  {
    hide Update, Step, ByteBits;
    if |m| > 0 {
      var init, x := m[..|m| - 1], m[|m| - 1];
      CrcIsRemainder(init);
      UpdateDivides(Fold(Zero(), init), x);
      DivideConcat(Zero(), Bits(init), ByteBits(x));
    }
  }

  lemma StepLinear(s: Crc16, t: Crc16, a: bool, b: bool)
    ensures Step(Xor(s, t), a != b) == Xor(Step(s, a), Step(t, b))
  {
    var u, v := s[15 := s[15] != a], t[15 := t[15] != b];
    assert Xor(s, t)[15 := Xor(s, t)[15] != (a != b)] == Xor(u, v);
    TimesLinear(u, v);
  }

  /** The checksum of the difference of two messages is the difference of their checksums. */
  lemma {:induction false} RemainderLinear(x: seq<bool>, y: seq<bool>)
    requires |x| == |y|
    ensures Divide(Zero(), Xor(x, y)) == Xor(Divide(Zero(), x), Divide(Zero(), y))
  {
    hide Step;
    if |x| == 0 {
      assert Xor(Zero(), Zero()) == Zero();
    } else {
      var k := |x| - 1;
      assert Xor(x, y)[..k] == Xor(x[..k], y[..k]);
      RemainderLinear(x[..k], y[..k]);
      StepLinear(Divide(Zero(), x[..k]), Divide(Zero(), y[..k]), x[k], y[k]);
    }
  }

  // ---- bursts ---------------------------------------------------------------------

  lemma {:induction false} DivideInjective(s: Crc16, t: Crc16, c: seq<bool>)
    requires Divide(s, c) == Divide(t, c)
    ensures s == t
  {
    if |c| > 0 {
      var n := |c| - 1;
      var u, v := Divide(s, c[..n]), Divide(t, c[..n]);
      var u', v' := u[15 := u[15] != c[n]], v[15 := v[15] != c[n]];
      TimesInjective(u', v');
      forall k | 0 <= k < 16 ensures u[k] == v[k] {
        assert u'[k] == v'[k];
      }
      assert u == v;
      DivideInjective(s, t, c[..n]);
    }
  }

  lemma LoadInjective(s: Crc16, a: seq<bool>, b: seq<bool>)
    requires |a| == |b| <= 16 && Xor(s, Load(a)) == Xor(s, Load(b))
    ensures a == b
  {
    forall i | 0 <= i < |a| ensures a[i] == b[i] {
      assert Xor(s, Load(a))[15 - i] == (s[15 - i] != a[i]);
      assert Xor(s, Load(b))[15 - i] == (s[15 - i] != b[i]);
    }
  }

  /** Messages that differ only in a run of at most sixteen bits leave different remainders. */
  lemma BurstChangesRemainder(s: Crc16, a: seq<bool>, b: seq<bool>, b': seq<bool>, c: seq<bool>)
    requires |b| == |b'| <= 16 && b != b'
    ensures Divide(s, a + b + c) != Divide(s, a + b' + c)
  {
    hide Divide, Power, Load;
    var t := Divide(s, a);
    DivideConcat(s, a + b, c);
    DivideConcat(s, a + b', c);
    DivideConcat(s, a, b);
    DivideConcat(s, a, b');
    if Divide(s, a + b + c) == Divide(s, a + b' + c) {
      DivideInjective(Divide(t, b), Divide(t, b'), c);
      DivideRun(t, b);
      DivideRun(t, b');
      PowerInjective(Xor(t, Load(b)), Xor(t, Load(b')), |b|);
      LoadInjective(t, b, b');
    }
  }

  lemma ByteBitsInjective(x: Byte, y: Byte)
    requires ByteBits(x) == ByteBits(y)
    ensures x == y
  {
    forall k | 0 <= k < 8 ensures x[k] == y[k] {
      assert ByteBits(x)[7 - k] == x[k] && ByteBits(y)[7 - k] == y[k];
    }
  }

  lemma {:induction false} BitsInjective(m: seq<Byte>, n: seq<Byte>)
    requires |m| == |n| && Bits(m) == Bits(n)
    ensures m == n
  {
    if |m| > 0 {
      var k := |m| - 1;
      assert Bits(m)[..8 * k] == Bits(m[..k]) && Bits(n)[..8 * k] == Bits(n[..k]);
      assert Bits(m)[8 * k..] == ByteBits(m[k]) && Bits(n)[8 * k..] == ByteBits(n[k]);
      ByteBitsInjective(m[k], n[k]);
      BitsInjective(m[..k], n[..k]);
      assert m == m[..k] + [m[k]] && n == n[..k] + [n[k]];
    }
  }

  /** No burst of at most sixteen wrong bits, anywhere in a message, keeps its checksum. */
  lemma BurstDetected(m: seq<Byte>, n: seq<Byte>, first: nat)
    requires |m| == |n| && m != n
    requires forall i :: 0 <= i < 8 * |m| && !(first <= i < first + 16) ==> Bits(m)[i] == Bits(n)[i]
    ensures MessageCrc(m) != MessageCrc(n)
  {
    hide Bits, Divide, MessageCrc;
    var x, y, last := Bits(m), Bits(n), 8 * |m|;
    var lo := if first < last then first else last;
    var hi := if first + 16 < last then first + 16 else last;
    CutsAgree(x, y, lo, hi);
    if x[lo..hi] == y[lo..hi] {
      BitsInjective(m, n);
    }
    BurstChangesRemainder(Zero(), x[..lo], x[lo..hi], y[lo..hi], x[hi..]);
    CrcIsRemainder(m);
    CrcIsRemainder(n);
  }

  lemma CutsAgree(x: seq<bool>, y: seq<bool>, lo: nat, hi: nat)
    requires |x| == |y| && lo <= hi <= |x|
    requires forall i :: 0 <= i < |x| && !(lo <= i < hi) ==> x[i] == y[i]
    ensures x == x[..lo] + x[lo..hi] + x[hi..] && y == x[..lo] + y[lo..hi] + x[hi..]
  {
  }

  // ---- what the checksum cannot see -----------------------------------------------

  lemma {:induction false} DivideZeros(bits: seq<bool>)
    requires forall i :: 0 <= i < |bits| ==> !bits[i]
    ensures Divide(Zero(), bits) == Zero()
  {
    if |bits| > 0 {
      DivideZeros(bits[..|bits| - 1]);
      assert Step(Zero(), false) == Zero();
    }
  }

  lemma {:induction false} PowerZero(n: nat)
    ensures Power(Zero(), n) == Zero()
  {
    if n > 0 {
      PowerZero(n - 1);
      assert Times(Zero()) == Zero();
    }
  }

  /** The terms of the generator, the highest one first: x^16, x^12, x^5, 1. */
  predicate Term(i: int) { i == 0 || i == 4 || i == 11 || i == 16 }

  // Bit i of the sum of the generators that the first three bits of e name.
  predicate SumBit(e: seq<bool>, i: int)
    requires |e| >= 3
  {
    (e[0] && Term(i)) != ((e[1] && Term(i - 1)) != (e[2] && Term(i - 2)))
  }

  /** Nineteen bits that are a sum of the generator and of the generator one and two bits further on, the
      first three bits saying which of them. */
  predicate Multiple(e: seq<bool>) {
    |e| == 19 && forall i :: 3 <= i < 19 ==> e[i] == SumBit(e, i)
  }

  lemma OneBit(a: bool, k: nat)
    requires k < 16
    ensures Step(Zero(), a)[k] == (a && Term(16 - k))
  {
  }

  lemma TimesTerm(s: Crc16, k: nat)
    requires k < 16
    ensures Times(s)[k] == ((k > 0 && s[k - 1]) != (s[15] && Generator(k)))
  {
  }

  lemma DivideNext(bits: seq<bool>, b: bool)
    ensures Divide(Zero(), bits + [b]) == Step(Divide(Zero(), bits), b)
  {
    assert (bits + [b])[..|bits|] == bits;
  }

  lemma ThreeBits(e: seq<bool>, k: nat)
    requires |e| == 3 && k < 16
    ensures Divide(Zero(), e)[k] == SumBit(e, 18 - k)
  {
    hide Times, Divide;
    var a := Step(Zero(), e[0]);
    var b := Step(a, e[1]);
    assert Divide(Zero(), []) == Zero() by { DivideZeros([]); }
    DivideNext([], e[0]);
    DivideNext([e[0]], e[1]);
    DivideNext([e[0], e[1]], e[2]);
    assert [] + [e[0]] == [e[0]] && [e[0]] + [e[1]] == [e[0], e[1]] && [e[0], e[1]] + [e[2]] == e;
    forall j: nat | j < 16 ensures a[j] == (e[0] && Generator(j)) {
      OneBit(e[0], j);
    }
    forall j: nat | j < 16 ensures b[j] == ((e[0] && (j == 1 || j == 6 || j == 13)) != (e[1] && Generator(j))) {
      TimesTerm(a[15 := a[15] != e[1]], j);
    }
    TimesTerm(b[15 := b[15] != e[2]], k);
  }

  lemma ShortMultiples(e: seq<bool>)
    requires |e| == 19
    ensures Divide(Zero(), e) == Zero() <==> Multiple(e)
  {
    hide Divide, Load, Power, SumBit;
    var s, rest := Divide(Zero(), e[..3]), e[3..];
    assert e == e[..3] + rest;
    DivideConcat(Zero(), e[..3], rest);
    DivideRun(s, rest);
    PowerZero(16);
    if Divide(Zero(), e) == Zero() { PowerInjective(Xor(s, Load(rest)), Zero(), 16); }
    assert Divide(Zero(), e) == Zero() <==> Xor(s, Load(rest)) == Zero();
    XorEqual(s, Load(rest));
    forall i | 3 <= i < 19 ensures s[18 - i] == SumBit(e, i) && Load(rest)[18 - i] == e[i] {
      ThreeBits(e[..3], 18 - i);
      SameSum(e, i);
      LoadBit(rest, 18 - i);
    }
    SameBits(s, Load(rest), e);
  }

  lemma SameSum(e: seq<bool>, i: int)
    requires |e| == 19
    ensures SumBit(e[..3], i) == SumBit(e, i)
  {
  }

  lemma LoadBit(bits: seq<bool>, k: nat)
    requires |bits| == 16 && k < 16
    ensures Load(bits)[k] == bits[15 - k]
  {
  }

  lemma SameBits(s: Crc16, t: Crc16, e: seq<bool>)
    requires |e| == 19 && forall i :: 3 <= i < 19 ==> s[18 - i] == SumBit(e, i) && t[18 - i] == e[i]
    ensures s == t <==> Multiple(e)
  {
    hide SumBit;
    if Multiple(e) {
      forall k | 0 <= k < 16 ensures s[k] == t[k] {
        var i := 18 - k;
        assert e[i] == SumBit(e, i);
      }
    }
  }

  lemma XorEqual(s: Crc16, t: Crc16)
    ensures Xor(s, t) == Zero() <==> s == t
  {
    var x := Xor(s, t);
    assert forall k :: 0 <= k < 16 ==> x[k] == (s[k] != t[k]);
    if x == Zero() {
      forall k | 0 <= k < 16 ensures s[k] == t[k] {
        assert !x[k];
      }
    } else {
      var k :| 0 <= k < 16 && x[k] != Zero()[k];
      assert s[k] != t[k];
    }
  }

  lemma CutXor(x: seq<bool>, y: seq<bool>, lo: nat, hi: nat)
    requires |x| == |y| && lo <= hi <= |x|
    requires forall i :: 0 <= i < |x| && !(lo <= i < hi) ==> x[i] == y[i]
    ensures var e := Xor(x, y);
      && e == e[..lo] + Xor(x[lo..hi], y[lo..hi]) + e[hi..]
      && (forall i :: 0 <= i < lo ==> !e[..lo][i]) && forall i :: 0 <= i < |x| - hi ==> !e[hi..][i]
  {
  }

  /** Two messages that agree outside nineteen bits have the same checksum if and only if their difference
      there is a multiple of the generator. */
  lemma ChecksumKeptIff(m: seq<Byte>, n: seq<Byte>, lo: nat)
    requires |m| == |n| && lo + 19 <= 8 * |m|
    requires forall i :: 0 <= i < 8 * |m| && !(lo <= i < lo + 19) ==> Bits(m)[i] == Bits(n)[i]
    ensures MessageCrc(m) == MessageCrc(n) <==> Multiple(Xor(Bits(m)[lo..lo + 19], Bits(n)[lo..lo + 19]))
  {
    hide Bits, Divide, MessageCrc, Multiple;
    var x, y, hi := Bits(m), Bits(n), lo + 19;
    var e := Xor(x, y);
    var w := Xor(x[lo..hi], y[lo..hi]);
    CrcIsRemainder(m);
    CrcIsRemainder(n);
    RemainderLinear(x, y);
    XorEqual(MessageCrc(m), MessageCrc(n));
    CutXor(x, y, lo, hi);
    hide Xor;
    DivideConcat(Zero(), e[..lo] + w, e[hi..]);
    DivideConcat(Zero(), e[..lo], w);
    DivideZeros(e[..lo]);
    DivideZeros(e[hi..]);
    ShortMultiples(w);
    if Divide(Zero(), e) == Zero() { DivideInjective(Divide(Zero(), w), Zero(), e[hi..]); }
  }
}
