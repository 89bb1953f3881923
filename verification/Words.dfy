/** Machine words as sequences of bits, bit 0 the least significant, with C's operators bit by bit. */
module Words {

  type Word = seq<bool>

  type Byte = w: Word | |w| == 8 witness seq(8, i => false)

  function Shl(w: Word, j: nat): (r: Word)
    ensures |r| == |w|
  {
    seq(|w|, k requires 0 <= k < |w| => k >= j && w[k - j])
  }

  function Shr(w: Word, j: nat): (r: Word)
    ensures |r| == |w|
  {
    seq(|w|, k requires 0 <= k < |w| => k + j < |w| && w[k + j])
  }

  function And(a: Word, b: Word): (r: Word)
    requires |a| == |b|
    ensures |r| == |a|
  {
    seq(|a|, k requires 0 <= k < |a| => a[k] && b[k])
  }

  function Or(a: Word, b: Word): (r: Word)
    requires |a| == |b|
    ensures |r| == |a|
  {
    seq(|a|, k requires 0 <= k < |a| => a[k] || b[k])
  }

  function Xor(a: Word, b: Word): (r: Word)
    requires |a| == |b|
    ensures |r| == |a|
  {
    seq(|a|, k requires 0 <= k < |a| => a[k] != b[k])
  }

  // ---- hexadecimal digits ---------------------------------------------------------

  predicate IsHexDigit(c: char) { '0' <= c <= '9' || 'a' <= c <= 'f' || 'A' <= c <= 'F' }

  function HexValue(c: char): (v: nat)
    requires IsHexDigit(c)
    ensures v < 16
  {
    if c <= '9' then (c - '0') as int
    else if c <= 'F' then (c - 'A') as int + 10
    else (c - 'a') as int + 10
  }

  /** The digit that %x prints. */
  function HexDigit(v: nat): (c: char)
    requires v < 16
    ensures IsHexDigit(c) && HexValue(c) == v
  {
    if v < 10 then '0' + v as char else 'a' + (v - 10) as char
  }

  function LowerCase(c: char): char { if 'A' <= c <= 'F' then c + 32 as char else c }

  lemma HexDigitOfValue(c: char)
    requires IsHexDigit(c)
    ensures HexDigit(HexValue(c)) == LowerCase(c)
  {
  }

  /** Bit b of a hexadecimal digit. */
  predicate NibbleBit(v: nat, b: nat)
    requires v < 16 && b < 4
  {
    if b == 0 then v % 2 == 1 else if b == 1 then v / 2 % 2 == 1 else if b == 2 then v / 4 % 2 == 1 else v / 8 == 1
  }

  function Weight(b: bool, w: nat): nat { if b then w else 0 }

  lemma NibbleFromBits(v: nat)
    requires v < 16
    ensures Weight(NibbleBit(v, 3), 8) + Weight(NibbleBit(v, 2), 4) + Weight(NibbleBit(v, 1), 2)
          + Weight(NibbleBit(v, 0), 1) == v
  {
  }

  ghost predicate IsHex(s: string) { forall i :: 0 <= i < |s| ==> IsHexDigit(s[i]) }

  /** The 4 * |s| bit word written as the hexadecimal string s, as in the constants of the source. */
  function Hex(s: string): (w: Word)
    requires IsHex(s)
    ensures |w| == 4 * |s|
  {
    seq(4 * |s|, k requires 0 <= k < 4 * |s| => NibbleBit(HexValue(s[|s| - 1 - k / 4]), k % 4))
  }

  // ---- parity ---------------------------------------------------------------------

  /** The exclusive or of a run of bits. */
  function Parity(b: seq<bool>): bool {
    if |b| == 0 then false else Parity(b[..|b| - 1]) != b[|b| - 1]
  }
}
