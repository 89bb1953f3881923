/** Binary and decimal digits of natural numbers: a fixed number of bits, least significant first, as the tag
    frames and the LED packets carry them, and decimal strings, padded with zeros to the width in which the
    decoders print a tag. */
module Numbers {
  import opened Words

  // ---- binary, least significant bit first ----------------------------------------

  function BitsNat(b: seq<bool>): (n: nat) {
    if |b| == 0 then 0 else (if b[0] then 1 else 0) + 2 * BitsNat(b[1..])
  }

  function NatBits(n: nat, len: nat): (b: seq<bool>)
    ensures |b| == len
  {
    if len == 0 then [] else [n % 2 == 1] + NatBits(n / 2, len - 1)
  }

  function Pow2(k: nat): (p: nat)
    ensures p > 0
  {
    if k == 0 then 1 else 2 * Pow2(k - 1)
  }

  lemma {:induction false} BitsNatBound(b: seq<bool>)
    ensures BitsNat(b) < Pow2(|b|)
  {
    if |b| > 0 { BitsNatBound(b[1..]); }
  }

  lemma {:induction false} BitsOfNat(n: nat, len: nat)
    requires n < Pow2(len)
    ensures BitsNat(NatBits(n, len)) == n
  {
    if len > 0 {
      BitsOfNat(n / 2, len - 1);
      assert NatBits(n, len)[1..] == NatBits(n / 2, len - 1);
    }
  }

  lemma {:induction false} BitsComeBack(b: seq<bool>)
    ensures NatBits(BitsNat(b), |b|) == b
  {
    if |b| > 0 {
      BitsComeBack(b[1..]);
      assert BitsNat(b) / 2 == BitsNat(b[1..]);
    }
  }

  /** Bits beyond the size of a number are zero. */
  lemma {:induction false} HighBitsZero(n: nat, len: nat, size: nat, k: nat)
    requires n < Pow2(size) && size <= k < len
    ensures !NatBits(n, len)[k]
  {
    if size == 0 {
      ZeroBits(len, k);
    } else {
      HighBitsZero(n / 2, len - 1, size - 1, k - 1);
    }
  }

  lemma {:induction false} ZeroBits(len: nat, k: nat)
    requires k < len
    ensures !NatBits(0, len)[k]
  {
    if k > 0 { ZeroBits(len - 1, k - 1); }
  }

  lemma {:induction false} BitsPrefix(n: nat, len: nat, short: nat)
    requires short <= len
    ensures NatBits(n, len)[..short] == NatBits(n, short)
  {
    if short > 0 {
      BitsPrefix(n / 2, len - 1, short - 1);
      assert NatBits(n, len)[..short] == [n % 2 == 1] + NatBits(n / 2, len - 1)[..short - 1];
    }
  }

  // Four bits of a number at a time.

  lemma FourBitsOn(n: nat, len: nat, k: nat)
    requires 4 <= k < len
    ensures NatBits(n, len)[k] == NatBits(n / 16, len - 4)[k - 4]
  {
    hide NatBits;
    BitOn(n, len, k);
    BitOn(n / 2, len - 1, k - 1);
    BitOn(n / 2 / 2, len - 2, k - 2);
    BitOn(n / 2 / 2 / 2, len - 3, k - 3);
    assert n / 2 / 2 / 2 / 2 == n / 16;
  }

  lemma BitOn(n: nat, len: nat, k: nat)
    requires 0 < k < len
    ensures NatBits(n, len)[k] == NatBits(n / 2, len - 1)[k - 1]
  {
  }

  lemma FirstFourBits(m: nat, v: nat, len: nat, k: nat)
    requires v < 16 && k < 4 && k < len
    ensures NatBits(16 * m + v, len)[k] == NibbleBit(v, k)
  {
    var n := 16 * m + v;
    if k > 0 {
      BitOn(n, len, k);
      assert n / 2 == 8 * m + v / 2;
    }
    if k > 1 {
      BitOn(n / 2, len - 1, k - 1);
      assert n / 2 / 2 == 4 * m + v / 4;
    }
    if k > 2 {
      BitOn(n / 2 / 2, len - 2, k - 2);
      assert n / 2 / 2 / 2 == 2 * m + v / 8;
    }
  }

  // ---- decimal --------------------------------------------------------------------

  predicate IsDigit(c: char) { '0' <= c <= '9' }

  ghost predicate IsDecimal(s: string) { forall i :: 0 <= i < |s| ==> IsDigit(s[i]) }

  function DigitChar(v: nat): (c: char)
    requires v < 10
    ensures IsDigit(c)
  {
    '0' + v as char
  }

  /** strtoll and strtoul in base 10, on digits. */
  function Parse(s: string): nat
    requires IsDecimal(s)
  {
    if |s| == 0 then 0 else 10 * Parse(s[..|s| - 1]) + (s[|s| - 1] - '0') as nat
  }

  /** %d. */
  function Decimal(n: nat): (s: string)
    ensures |s| > 0
  {
    if n < 10 then [DigitChar(n)] else Decimal(n / 10) + [DigitChar(n % 10)]
  }

  /** %0wd: at least w characters, padded with zeros on the left. */
  function Padded(n: nat, w: nat): (s: string) {
    seq(if |Decimal(n)| < w then w - |Decimal(n)| else 0, i => '0') + Decimal(n)
  }

  /** Printing w digits after parsing them changes nothing. */
  lemma {:induction false} PaddedParse(s: string)
    requires IsDecimal(s) && |s| > 0
    ensures |Decimal(Parse(s))| <= |s| && Padded(Parse(s), |s|) == s
  {
    var k := |s| - 1;
    var init, last := s[..k], (s[k] - '0') as nat;
    assert DigitChar(last) == s[k];
    assert s == init + [s[k]];
    if k > 0 {
      PaddedParse(init);
      var n := Parse(init);
      assert (10 * n + last) / 10 == n && (10 * n + last) % 10 == last;
      if n == 0 {
        ZeroPadded(init);
        assert Padded(last, |s|) == seq(k, i => '0') + [DigitChar(last)];
      } else {
        assert Decimal(Parse(s)) == Decimal(n) + [s[k]];
      }
    } else {
      assert Parse(init) == 0;
    }
  }

  lemma ZeroPadded(s: string)
    requires |s| > 0 && Padded(0, |s|) == s
    ensures s == seq(|s|, i => '0')
  {
    assert Decimal(0) == ['0'];
  }

  lemma {:induction false} ParseBound(s: string)
    requires IsDecimal(s)
    ensures Parse(s) < Pow10(|s|)
  {
    if |s| > 0 { ParseBound(s[..|s| - 1]); }
  }

  function Pow10(k: nat): (p: nat) { if k == 0 then 1 else 10 * Pow10(k - 1) }

  // The number that the first k digits spell.
  function ReadTo(s: string, base: nat, k: nat): (n: nat)
    requires k <= |s| && IsHex(s)
  {
    if k == 0 then 0 else base * ReadTo(s, base, k - 1) + HexValue(s[k - 1])
  }

  lemma {:induction false} ParsedTo(s: string, k: nat)
    requires k <= |s| && IsDecimal(s)
    ensures IsHex(s) && Parse(s[..k]) == ReadTo(s, 10, k)
  {
    if k > 0 {
      ParsedTo(s, k - 1);
      assert s[..k][..k - 1] == s[..k - 1];
    }
  }
}
