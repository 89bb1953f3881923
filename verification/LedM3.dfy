/** The LED_64_ADV_M3 board: 12-bit brightness values and 6-bit current limits packed into bytes, and the
    scale they are read back with. */
module LedM3 {
  import opened Words
  import opened Numbers
  import opened Led

  const BYTES: nat := 48

  // ---- packed bit fields ----------------------------------------------------------

  type Word12 = w: Word | |w| == 12 witness seq(12, i => false)
  type Word6 = w: Word | |w| == 6 witness seq(6, i => false)

  type Values12 = v: seq<Word12> | |v| == 32 witness seq(32, i => seq(12, k => false))
  type Values6 = v: seq<Word6> | |v| == 64 witness seq(64, i => seq(6, k => false))

  type Packed = b: seq<Byte> | |b| == BYTES witness seq(BYTES, i => seq(8, k => false))

  /** Bit t of a stream of bytes, and of a stream of 12-bit or 6-bit values. */
  predicate ByteBit(buf: Packed, t: nat)
    requires t < 384
  {
    buf[t / 8][t % 8]
  }

  predicate ValueBit12(v: Values12, t: nat)
    requires t < 384
  {
    v[t / 12][t % 12]
  }

  predicate ValueBit6(v: Values6, t: nat)
    requires t < 384
  {
    v[t / 6][t % 6]
  }

  ghost predicate Packs12(buf: Packed, v: Values12) { forall t: nat :: t < 384 ==> ByteBit(buf, t) == ValueBit12(v, t) }

  ghost predicate Packs6(buf: Packed, v: Values6) { forall t: nat :: t < 384 ==> ByteBit(buf, t) == ValueBit6(v, t) }

  /** What dataInput reads at place i. */
  function Field12(buf: Packed, i: nat): (w: Word12)
    requires i < 32
  {
    var index := i * 12 / 8;
    if i % 2 == 0 then buf[index] + buf[index + 1][..4] else buf[index][4..] + buf[index + 1]
  }

  function Field6(buf: Packed, i: nat): (w: Word6)
    requires i < 64
  {
    var index := i * 6 / 8;
    if i % 4 == 0 then buf[index][..6]
    else if i % 4 == 1 then buf[index][6..] + buf[index + 1][..4]
    else if i % 4 == 2 then buf[index][4..] + buf[index + 1][..2]
    else buf[index][2..]
  }

  lemma FieldBit12(buf: Packed, i: nat, k: nat)
    requires i < 32 && k < 12
    ensures Field12(buf, i)[k] == ByteBit(buf, 12 * i + k)
  {
    var t, h := 12 * i + k, i / 2;
    if i % 2 == 0 {
      assert i == 2 * h && i * 12 / 8 == 3 * h;
      if k < 8 { At(t, 3 * h, k); } else { At(t, 3 * h + 1, k - 8); }
    } else {
      assert i == 2 * h + 1 && i * 12 / 8 == 3 * h + 1;
      if k < 4 { At(t, 3 * h + 1, 4 + k); } else { At(t, 3 * h + 2, k - 4); }
    }
  }

  lemma At(t: nat, c: nat, r: nat)
    requires t == 8 * c + r && r < 8
    ensures t / 8 == c && t % 8 == r
  {
  }

  lemma FieldBit6(buf: Packed, i: nat, k: nat)
    requires i < 64 && k < 6
    ensures Field6(buf, i)[k] == ByteBit(buf, 6 * i + k)
  {
    var t, h := 6 * i + k, i / 4;
    if i % 4 == 0 {
      assert i == 4 * h && i * 6 / 8 == 3 * h;
      At(t, 3 * h, k);
    } else if i % 4 == 1 {
      assert i == 4 * h + 1 && i * 6 / 8 == 3 * h;
      if k < 2 { At(t, 3 * h, 6 + k); } else { At(t, 3 * h + 1, k - 2); }
    } else if i % 4 == 2 {
      assert i == 4 * h + 2 && i * 6 / 8 == 3 * h + 1;
      if k < 4 { At(t, 3 * h + 1, 4 + k); } else { At(t, 3 * h + 2, k - 4); }
    } else {
      assert i == 4 * h + 3 && i * 6 / 8 == 3 * h + 2;
      At(t, 3 * h + 2, 2 + k);
    }
  }

  /** Reading the fields gives back the values that were packed. */
  lemma UnpackPack12(buf: Packed, v: Values12, i: nat)
    requires Packs12(buf, v) && i < 32
    ensures Field12(buf, i) == v[i]
  {
    forall k: nat | k < 12 ensures Field12(buf, i)[k] == v[i][k] {
      FieldBit12(buf, i, k);
      assert ByteBit(buf, 12 * i + k) == ValueBit12(v, 12 * i + k);
      assert (12 * i + k) / 12 == i && (12 * i + k) % 12 == k;
    }
  }

  lemma UnpackPack6(buf: Packed, v: Values6, i: nat)
    requires Packs6(buf, v) && i < 64
    ensures Field6(buf, i) == v[i]
  {
    forall k: nat | k < 6 ensures Field6(buf, i)[k] == v[i][k] {
      FieldBit6(buf, i, k);
      assert ByteBit(buf, 6 * i + k) == ValueBit6(v, 6 * i + k);
      assert (6 * i + k) / 6 == i && (6 * i + k) % 6 == k;
    }
  }

  // ---- packing --------------------------------------------------------------------

  /** Bits from up to to-1 of a value, placed at bit at of a byte. */
  function Piece(w: Word, from: nat, to: nat, at: nat): (b: Byte)
    requires from <= to <= |w|
  {
    seq(8, k => at <= k < at + (to - from) && w[from + k - at])
  }

  // Bit t once the first n values are packed.
  ghost predicate Packed12To(buf: Packed, v: Values12, n: nat) {
    forall t: nat :: t < 384 ==> ByteBit(buf, t) == (t < 12 * n && ValueBit12(v, t))
  }

  ghost predicate Packed6To(buf: Packed, v: Values6, n: nat) {
    forall t: nat :: t < 384 ==> ByteBit(buf, t) == (t < 6 * n && ValueBit6(v, t))
  }

  function OrByte(buf: Packed, index: nat, b: Byte): (r: Packed)
    requires index < BYTES
  {
    buf[index := Or(buf[index], b)]
  }

  lemma OrByteBit(buf: Packed, index: nat, b: Byte, t: nat)
    requires index < BYTES && t < 384
    ensures ByteBit(OrByte(buf, index, b), t) == (ByteBit(buf, t) || (t / 8 == index && b[t % 8]))
  {
  }

  lemma Step12(buf: Packed, v: Values12, n: nat, r: Packed)
    requires n < 32 && Packed12To(buf, v, n)
    requires var index := n * 12 / 8;
      r == if n % 2 == 0 then OrByte(OrByte(buf, index, Piece(v[n], 0, 8, 0)), index + 1, Piece(v[n], 8, 12, 0))
           else OrByte(OrByte(buf, index, Piece(v[n], 0, 4, 4)), index + 1, Piece(v[n], 4, 12, 0))
    ensures Packed12To(r, v, n + 1)
  {
    hide ByteBit, ValueBit12, Piece, OrByte;
    var index, h := n * 12 / 8, n / 2;
    var first, second := if n % 2 == 0 then Piece(v[n], 0, 8, 0) else Piece(v[n], 0, 4, 4),
                         if n % 2 == 0 then Piece(v[n], 8, 12, 0) else Piece(v[n], 4, 12, 0);
    forall t: nat | t < 384 ensures ByteBit(r, t) == (t < 12 * (n + 1) && ValueBit12(v, t)) {
      OrByteBit(buf, index, first, t);
      OrByteBit(OrByte(buf, index, first), index + 1, second, t);
      PieceBits12(v, n, t);
    }
  }

  // The two pieces of value n lie at bits 12n to 12n + 11 of the stream.
  lemma PieceBits12(v: Values12, n: nat, t: nat)
    requires n < 32 && t < 384
    ensures var index := n * 12 / 8;
      var first, second := if n % 2 == 0 then Piece(v[n], 0, 8, 0) else Piece(v[n], 0, 4, 4),
                           if n % 2 == 0 then Piece(v[n], 8, 12, 0) else Piece(v[n], 4, 12, 0);
      ((t / 8 == index && first[t % 8]) || (t / 8 == index + 1 && second[t % 8]))
        == (12 * n <= t < 12 * (n + 1) && ValueBit12(v, t))
  {
    var h, c, k := n / 2, t / 8, t % 8;
    assert t == 8 * c + k;
    if n % 2 == 0 {
      assert n == 2 * h && n * 12 / 8 == 3 * h;
    } else {
      assert n == 2 * h + 1 && n * 12 / 8 == 3 * h + 1;
    }
    if 12 * n <= t < 12 * (n + 1) { assert t / 12 == n && t % 12 == t - 12 * n; }
  }

  /** The loop of getPacket that packs 32 brightness values into a cleared buffer. */
  method Pack12(v: Values12) returns (buf: Packed)
    ensures Packs12(buf, v)
  {
    hide OrByte, Piece;
    buf := seq(BYTES, i => seq(8, k => false));
    for i := 0 to 32
      invariant Packed12To(buf, v, i)
    {
      ghost var before := buf;
      var bufIndex := i * 12 / 8;
      if i % 2 == 0 {
        buf := OrByte(buf, bufIndex, Piece(v[i], 0, 8, 0));
        buf := OrByte(buf, bufIndex + 1, Piece(v[i], 8, 12, 0));
      } else {
        buf := OrByte(buf, bufIndex, Piece(v[i], 0, 4, 4));
        buf := OrByte(buf, bufIndex + 1, Piece(v[i], 4, 12, 0));
      }
      Step12(before, v, i, buf);
    }
  }

  lemma PieceBits6(v: Values6, n: nat, t: nat)
    requires n < 64 && t < 384
    ensures var index := n * 6 / 8;
      ((t / 8 == index && First6(v[n], n)[t % 8]) || (n % 4 in {1, 2} && t / 8 == index + 1 && Second6(v[n], n)[t % 8]))
        == (6 * n <= t < 6 * (n + 1) && ValueBit6(v, t))
  {
    var h, c, k := n / 4, t / 8, t % 8;
    assert t == 8 * c + k;
    if n % 4 == 0 {
      assert n == 4 * h && n * 6 / 8 == 3 * h;
    } else if n % 4 == 1 {
      assert n == 4 * h + 1 && n * 6 / 8 == 3 * h;
    } else if n % 4 == 2 {
      assert n == 4 * h + 2 && n * 6 / 8 == 3 * h + 1;
    } else {
      assert n == 4 * h + 3 && n * 6 / 8 == 3 * h + 2;
    }
    if 6 * n <= t < 6 * (n + 1) { assert t / 6 == n && t % 6 == t - 6 * n; }
  }

  function First6(w: Word6, i: nat): (b: Byte) {
    if i % 4 == 0 then Piece(w, 0, 6, 0)
    else if i % 4 == 1 then Piece(w, 0, 2, 6)
    else if i % 4 == 2 then Piece(w, 0, 4, 4)
    else Piece(w, 0, 6, 2)
  }

  function Second6(w: Word6, i: nat): (b: Byte) { if i % 4 == 1 then Piece(w, 2, 6, 0) else Piece(w, 4, 6, 0) }

  lemma Step6(buf: Packed, v: Values6, n: nat, r: Packed)
    requires n < 64 && Packed6To(buf, v, n)
    requires var index := n * 6 / 8;
      r == if n % 4 == 1 || n % 4 == 2 then OrByte(OrByte(buf, index, First6(v[n], n)), index + 1, Second6(v[n], n))
           else OrByte(buf, index, First6(v[n], n))
    ensures Packed6To(r, v, n + 1)
  {
    hide ByteBit, ValueBit6, Piece, OrByte, First6, Second6;
    var index := n * 6 / 8;
    forall t: nat | t < 384 ensures ByteBit(r, t) == (t < 6 * (n + 1) && ValueBit6(v, t)) {
      OrByteBit(buf, index, First6(v[n], n), t);
      if n % 4 == 1 || n % 4 == 2 { OrByteBit(OrByte(buf, index, First6(v[n], n)), index + 1, Second6(v[n], n), t); }
      PieceBits6(v, n, t);
    }
  }

  /** The loop of getPacket that packs 64 current limits. */
  method Pack6(v: Values6) returns (buf: Packed)
    ensures Packs6(buf, v)
  {
    hide OrByte, Piece;
    buf := seq(BYTES, i => seq(8, k => false));
    for i := 0 to 64
      invariant Packed6To(buf, v, i)
    {
      ghost var before := buf;
      var bufIndex := i * 6 / 8;
      if i % 4 == 0 {
        buf := OrByte(buf, bufIndex, Piece(v[i], 0, 6, 0));
      } else if i % 4 == 1 {
        buf := OrByte(buf, bufIndex, Piece(v[i], 0, 2, 6));
        buf := OrByte(buf, bufIndex + 1, Piece(v[i], 2, 6, 0));
      } else if i % 4 == 2 {
        buf := OrByte(buf, bufIndex, Piece(v[i], 0, 4, 4));
        buf := OrByte(buf, bufIndex + 1, Piece(v[i], 4, 6, 0));
      } else {
        buf := OrByte(buf, bufIndex, Piece(v[i], 0, 6, 2));
      }
      Step6(before, v, i, buf);
    }
  }

  // ---- scales ---------------------------------------------------------------------

  /** 0-100 -> 0-4095 on the way out. */
  function Level12(p: real): (n: nat)
    ensures p <= 100.0 ==> n <= 4095
  {
    if p < 0.0 then 0 else (p / 100.0 * 4095.0 + 0.5).Floor
  }

  /** The scale on the way back divides by 4097. */
  function Echo12(n: nat): (p: real)
    ensures 0.0 <= p
  {
    n as real / 4097.0 * 100.0
  }

  /** A brightness read back from the board is sent again as the same value exactly up to 1024; above that
      every round trip loses at least one step. */
  lemma EchoRoundTripIff(n: nat)
    requires n <= 4095
    ensures Level12(Echo12(n)) == n <==> n <= 1024
    ensures n > 1024 ==> Level12(Echo12(n)) < n
  {
    var x := n as real;
    var p := Echo12(n);
    assert p / 100.0 == x / 4097.0;
    var y := p / 100.0 * 4095.0 + 0.5;
    assert y * 4097.0 == x * 4095.0 + 2048.5;
    if n <= 1024 {
      assert x * 4097.0 <= y * 4097.0 < (x + 1.0) * 4097.0;
    } else {
      assert y * 4097.0 < x * 4097.0;
    }
  }

  /** 0-80 mA -> 0-63, and back: both scales agree. */
  function Limit6(mA: real): (n: nat)
    ensures mA <= 80.0 ==> n <= 63
  {
    if mA < 0.0 then 0 else (mA / 80.0 * 63.0 + 0.5).Floor
  }

  lemma LimitRoundTrip(n: nat)
    requires n <= 63
    ensures Limit6(n as real / 63.0 * 80.0) == n
  {
    assert n as real / 63.0 * 80.0 / 80.0 * 63.0 == n as real;
    assert (n as real + 0.5).Floor == n;
  }

  // ---- the board ------------------------------------------------------------------

  /** The values of a half of the board. */
  function HalfValues(powers: Powers, upper: bool): (v: Values12) {
    seq(32, i requires 0 <= i < 32 => HalfValue(powers, upper, i))
  }

  function HalfValue(powers: Powers, upper: bool, i: nat): (w: Word12)
    requires i < 32
  {
    ValueOf(powers[if upper then 32 + i else i])
  }

  function ValueOf(p: real): (w: Word12) { NatBits(Level12(p), 12) }

  type Stored = s: seq<nat> | |s| == LEDS witness seq(LEDS, i => 0)

  /** A board that takes the 32 values of an output packet. */
  function ReceiveHalf(d: Stored, upper: bool, buf: Packed): (r: Stored) {
    seq(LEDS, i requires 0 <= i < LEDS => if (i >= 32) == upper then BitsNat(Field12(buf, i % 32)) else d[i])
  }

  ghost predicate InPercent(powers: Powers) { forall i :: 0 <= i < LEDS ==> 0.0 <= powers[i] <= 100.0 }

  /** After an output packet every LED of its half shows the level of its LED_Power; the other half is as
      before. */
  lemma HalfShows(d: Stored, powers: Powers, upper: bool, buf: Packed, i: nat)
    requires InPercent(powers) && Packs12(buf, HalfValues(powers, upper)) && i < LEDS
    ensures ReceiveHalf(d, upper, buf)[i] == if (i >= 32) == upper then Level12(powers[i]) else d[i]
  {
    hide Level12, Packs12, Field12;
    if (i >= 32) == upper {
      UnpackPack12(buf, HalfValues(powers, upper), i % 32);
      assert HalfValues(powers, upper)[i % 32] == ValueOf(powers[i]);
      Level12Fits(powers[i]);
    }
  }

  lemma Level12Fits(p: real)
    requires 0.0 <= p <= 100.0
    ensures BitsNat(NatBits(Level12(p), 12)) == Level12(p)
  {
    hide Level12;
    assert Pow2(6) == 64 && Pow2(12) == 4096;
    BitsOfNat(Level12(p), 12);
  }

  ghost predicate Shows(b: Board, d: Stored) {
    && (forall i :: 0 <= i < LEDS ==> d[i] == Level12(b.power[i]))
    && (forall i :: 0 <= i < LEDS ==> 0.0 <= b.power[i] <= 100.0 && (b.changed[i] ==> 0.0 <= b.next[i] <= 100.0))
  }

  /** Once the board shows LED_Power it goes on to do so, packet after packet. */
  lemma SentShows(b: Board, d: Stored, buf: Packed)
    requires Shows(b, d) && Chosen(Led64M3, b).Outputs?
    requires Packs12(buf, HalfValues(Sent(Led64M3, b).power, Chosen(Led64M3, b).upper))
    ensures Shows(Sent(Led64M3, b), ReceiveHalf(d, Chosen(Led64M3, b).upper, buf))
  {
    hide Level12, Packs12, ReceiveHalf, NextIsUpper, Count;
    var t, upper := Sent(Led64M3, b), Chosen(Led64M3, b).upper;
    assert InPercent(t.power);
    forall i: nat | i < LEDS ensures ReceiveHalf(d, upper, buf)[i] == Level12(t.power[i]) {
      HalfShows(d, t.power, upper, buf, i);
    }
  }

  /** LED_Power as the attach code reads it back. */
  function Attached(d: Stored): (b: Board) {
    Board(seq(LEDS, i requires 0 <= i < LEDS => Echo12(d[i])), seq(LEDS, i => UNKNOWN), seq(LEDS, i => UNKNOWN),
          seq(LEDS, i => false), 0, false, 0)
  }

  /** It starts in step with the board exactly when nothing is brighter than 1024 of 4095. */
  lemma AttachedShowsIff(d: Stored)
    requires forall i :: 0 <= i < LEDS ==> d[i] <= 4095
    ensures Shows(Attached(d), d) <==> forall i :: 0 <= i < LEDS ==> d[i] <= 1024
  {
    hide Level12;
    forall i | 0 <= i < LEDS
      ensures Level12(Attached(d).power[i]) == d[i] <==> d[i] <= 1024
      ensures 0.0 <= Attached(d).power[i] <= 100.0
    {
      EchoRoundTripIff(d[i]);
      EchoInRange(d[i]);
    }
  }

  lemma EchoInRange(n: nat)
    requires n <= 4095
    ensures 0.0 <= Echo12(n) <= 100.0
  {
    assert n as real / 4097.0 <= 1.0;
  }
}
