/** The packets of the LED_64_ADV board, the board that reads them, and what can be seen on it: the powers
    the sender keeps for its LEDs, whichever kinds of packet brought them there. */
module LedPackets {
  import opened Words
  import opened Numbers
  import opened Led

  // ---- brightness levels ----------------------------------------------------------

  /** 0-100 -> 0-127, rounded. */
  function Level(p: real): (n: nat)
    ensures p <= 100.0 ==> n <= 127
    ensures p == 0.0 ==> n == 0
  {
    if p < 0.0 then 0 else (p / 100.0 * 127.0 + 0.5).Floor
  }

  /** A brightness that was read back is sent as the level it was read from. */
  lemma LevelOfEcho(n: nat)
    requires n <= 127
    ensures Level(n as real / 127.0 * 100.0) == n
  {
    var p := n as real / 127.0 * 100.0;
    assert p / 100.0 * 127.0 == n as real;
    assert (n as real + 0.5).Floor == n;
  }

  // ---- bytes ----------------------------------------------------------------------

  const PACKET: nat := 8

  function BitByte(k: nat): (b: Byte) { seq(8, i => i == k) }

  function NoBits(): (b: Byte) { seq(8, i => false) }

  function IndexByte(i: nat): (b: Byte) { NatBits(i, 8) }

  /** The level, and a bit that turns the LED on when it is not zero. */
  function LevelByte(p: real): (b: Byte) { NatBits(Level(p), 7) + [Level(p) > 0] }

  datatype Settings = Settings(currentLimit: nat, voltage: nat)

  /** LED64_CURSELA_FLAG, LED64_CURSELB_FLAG, LED64_PWRSELA_FLAG and LED64_PWRSELB_FLAG. */
  function ControlByte(s: Settings): (b: Byte) {
    seq(8, k =>
      if k == 1 then s.currentLimit == 2 || s.currentLimit == 4
      else if k == 2 then s.currentLimit == 3 || s.currentLimit == 4
      else if k == 3 then s.voltage == 2 || s.voltage == 4
      else if k == 4 then s.voltage == 3 || s.voltage == 4
      else false)
  }

  /** dataInput: the same flags read back. */
  function SettingsOf(b: Byte): (s: Settings) {
    Settings(if b[1] then (if b[2] then 4 else 2) else if b[2] then 3 else 1,
             if b[3] then (if b[4] then 4 else 2) else if b[4] then 3 else 1)
  }

  predicate Allowed(s: Settings) { 1 <= s.currentLimit <= 4 && 1 <= s.voltage <= 4 }

  lemma SettingsReadBack(s: Settings)
    requires Allowed(s)
    ensures SettingsOf(ControlByte(s)) == s
  {
  }

  // ---- the sets of a brightness packet --------------------------------------------

  /** The LEDs picked, in order. */
  function Indices(p: seq<bool>): (s: seq<nat>)
    ensures |s| == Count(p) && forall k :: 0 <= k < |s| ==> s[k] < |p| && p[s[k]]
  {
    if |p| == 0 then []
    else Indices(p[..|p| - 1]) + if p[|p| - 1] then [|p| - 1] else []
  }

  /** Remaining space is filled with the last set. */
  function Padded4(s: seq<nat>): (r: seq<nat>)
    requires |s| > 0
    ensures |r| == 4
  {
    seq(4, k requires 0 <= k < 4 => if k < |s| then s[k] else s[|s| - 1])
  }

  lemma {:induction false} IndicesAll(p: seq<bool>, i: nat)
    requires i < |p| && p[i]
    ensures i in Indices(p)
  {
    if i < |p| - 1 {
      IndicesAll(p[..|p| - 1], i);
      var k :| 0 <= k < |Indices(p[..|p| - 1])| && Indices(p[..|p| - 1])[k] == i;
      assert Indices(p)[k] == i;
    } else {
      assert Indices(p)[|Indices(p)| - 1] == i;
    }
  }

  lemma {:induction false} AtMostFour(f: Flags, n: nat)
    requires n <= LEDS
    ensures Count(FirstFour(f)[..n]) == (if Count(f[..n]) < 4 then Count(f[..n]) else 4)
  {
    if n > 0 {
      AtMostFour(f, n - 1);
      assert f[..n][..n - 1] == f[..n - 1] && FirstFour(f)[..n][..n - 1] == FirstFour(f)[..n - 1];
    }
  }

  lemma PaddedSame(s: seq<nat>, i: nat)
    requires 0 < |s| <= 4
    ensures i in Padded4(s) <==> i in s
  {
    if i in s {
      var k :| 0 <= k < |s| && s[k] == i;
      assert Padded4(s)[k] == i;
    }
  }

  // ---- packets --------------------------------------------------------------------

  function SetBytes(indices: seq<nat>, powers: Powers): (buf: seq<Byte>)
    requires |indices| == 4 && forall k :: 0 <= k < 4 ==> indices[k] < LEDS
    ensures |buf| == PACKET
  {
    seq(PACKET, j requires 0 <= j < PACKET =>
      if j % 2 == 0 then IndexByte(indices[j / 2]) else LevelByte(powers[indices[j / 2]]))
  }

  /** Which LEDs of a half are on. */
  function OutputBytes(upper: bool, powers: Powers): (buf: seq<Byte>)
    ensures |buf| == PACKET
  {
    seq(PACKET, j requires 0 <= j < PACKET => OutputAt(upper, powers, j))
  }

  function OutputAt(upper: bool, powers: Powers, j: nat): (b: Byte)
    requires j < PACKET
  {
    if j == 0 then OutputType(upper) else if j <= 4 then OutputByte(upper, powers, j - 1) else NoBits()
  }

  function OutputByte(upper: bool, powers: Powers, j: nat): (b: Byte)
    requires j < 4
  {
    seq(8, k requires 0 <= k < 8 => powers[(if upper then 32 else 0) + 8 * j + k] > 0.0)
  }

  /** LED64_OUTLOW_PACKET and LED64_OUTHIGH_PACKET. */
  function OutputType(upper: bool): (b: Byte) { seq(8, k => k == 7 || (k == 6 && upper)) }

  /** LED64_CONTROL_PACKET. */
  function ControlBytes(s: Settings): (buf: seq<Byte>)
    ensures |buf| == PACKET
  {
    [BitByte(6), ControlByte(s), NoBits(), NoBits(), NoBits(), NoBits(), NoBits(), NoBits()]
  }

  /** The packet that goes with Sent for an LED_64_ADV. */
  function Packet(b: Board, s: Settings): (buf: seq<Byte>)
    requires Counted(b)
    ensures |buf| == PACKET
  {
    match Chosen(Led64Adv, b)
    case Control => ControlBytes(s)
    case Outputs(upper) => OutputBytes(upper, Sent(Led64Adv, b).power)
    case Brightness => BrightIndices(b); SetBytes(Padded4(Indices(FirstFour(Lit(b)))), Sent(Led64Adv, b).power)
    case Four => seq(PACKET, k => NoBits())
  }

  lemma BrightIndices(b: Board)
    requires NeedsBrightness(b)
    ensures 0 < |Indices(FirstFour(Lit(b)))| <= 4
  {
    hide FirstFour;
    var j :| 0 <= j < LEDS && b.changed[j] && b.next[j] != b.last[j] && b.next[j] != 0.0;
    var f := Lit(b);
    assert f[j] && f[..LEDS] == f && FirstFour(f)[..LEDS] == FirstFour(f);
    FirstFourSome(f, LEDS);
    CountNone(FirstFour(f));
    AtMostFour(f, LEDS);
  }

  // ---- the board ------------------------------------------------------------------

  /** What the board keeps: for each LED a brightness and whether it is on, and its settings. */
  datatype Device = Device(stored: seq<nat>, on: seq<bool>, settings: Settings)

  predicate IsDevice(d: Device) { |d.stored| == LEDS && |d.on| == LEDS }

  function Visible(d: Device, i: nat): nat
    requires IsDevice(d) && i < LEDS
  {
    if d.on[i] then d.stored[i] else 0
  }

  /** A set: a new brightness, and on if its bit says so. */
  function SetOne(d: Device, index: nat, b: Byte): (r: Device)
    requires IsDevice(d)
    ensures IsDevice(r)
  {
    if index >= LEDS then d
    else d.(stored := d.stored[index := BitsNat(b[..7])], on := d.on[index := d.on[index] || b[7]])
  }

  function SetSome(d: Device, buf: seq<Byte>, n: nat): (r: Device)
    requires IsDevice(d) && 2 * n <= |buf|
    ensures IsDevice(r)
  {
    if n == 0 then d else SetOne(SetSome(d, buf, n - 1), BitsNat(buf[2 * n - 2]), buf[2 * n - 1])
  }

  function SetOutputs(d: Device, upper: bool, buf: seq<Byte>): (r: Device)
    requires IsDevice(d) && |buf| == PACKET
    ensures IsDevice(r)
  {
    d.(on := seq(LEDS, i requires 0 <= i < LEDS => if (i >= 32) == upper then buf[i % 32 / 8 + 1][i % 8] else d.on[i]))
  }

  /** The board tells packets apart by the two top bits of the first byte. */
  function Receive(d: Device, buf: seq<Byte>): (r: Device)
    requires IsDevice(d) && |buf| == PACKET
    ensures IsDevice(r)
  {
    if buf[0][7] then SetOutputs(d, buf[0][6], buf)
    else if buf[0][6] then d.(settings := SettingsOf(buf[1]))
    else SetSome(d, buf, 4)
  }

  // ---- what a packet does on the board ---------------------------------------------

  lemma IndexRoundTrip(i: nat)
    requires i < LEDS
    ensures BitsNat(IndexByte(i)) == i && !IndexByte(i)[6] && !IndexByte(i)[7]
  {
    assert Pow2(6) == 64 && Pow2(8) == 256;
    BitsOfNat(i, 8);
    HighBitsZero(i, 8, 6, 6);
    HighBitsZero(i, 8, 6, 7);
  }

  lemma LevelRoundTrip(p: real)
    requires 0.0 <= p <= 100.0
    ensures BitsNat(LevelByte(p)[..7]) == Level(p) && LevelByte(p)[7] == (Level(p) > 0)
  {
    assert Pow2(7) == 128;
    BitsOfNat(Level(p), 7);
    assert LevelByte(p)[..7] == NatBits(Level(p), 7);
  }

  ghost predicate InPercent(powers: Powers, s: seq<nat>) {
    forall k :: 0 <= k < |s| ==> s[k] < LEDS && 0.0 <= powers[s[k]] <= 100.0
  }

  /** The sets reach exactly the LEDs they name. */
  lemma {:induction false} SetsReach(d: Device, indices: seq<nat>, powers: Powers, n: nat, i: nat)
    requires IsDevice(d) && |indices| == 4 && InPercent(powers, indices) && n <= 4 && i < LEDS
    ensures var e := SetSome(d, SetBytes(indices, powers), n);
      if i in indices[..n] then e.stored[i] == Level(powers[i]) && e.on[i] == (d.on[i] || Level(powers[i]) > 0)
      else e.stored[i] == d.stored[i] && e.on[i] == d.on[i]
  {
    hide IndexByte, LevelByte, Level, SetBytes, BitsNat;
    if n > 0 {
      SetsReach(d, indices, powers, n - 1, i);
      var j := indices[n - 1];
      IndexRoundTrip(j);
      LevelRoundTrip(powers[j]);
      assert indices[..n] == indices[..n - 1] + [j];
      SetAt(indices, powers, n);
    }
  }

  lemma SetAt(indices: seq<nat>, powers: Powers, n: nat)
    requires |indices| == 4 && 0 < n <= 4 && forall k :: 0 <= k < 4 ==> indices[k] < LEDS
    ensures var buf := SetBytes(indices, powers);
      buf[2 * n - 2] == IndexByte(indices[n - 1]) && buf[2 * n - 1] == LevelByte(powers[indices[n - 1]])
  {
    hide IndexByte, LevelByte;
  }

  lemma OutputsReach(d: Device, upper: bool, powers: Powers, i: nat)
    requires IsDevice(d) && i < LEDS
    ensures var e := Receive(d, OutputBytes(upper, powers));
      && e.stored == d.stored
      && e.on[i] == if (i >= 32) == upper then powers[i] > 0.0 else d.on[i]
  {
    hide OutputByte;
    var buf := OutputBytes(upper, powers);
    assert buf[0] == OutputType(upper) && buf[0][7] && buf[0][6] == upper;
    assert buf[i % 32 / 8 + 1] == OutputByte(upper, powers, i % 32 / 8);
    if (i >= 32) == upper { OutputBit(upper, powers, i); }
  }

  lemma OutputBit(upper: bool, powers: Powers, i: nat)
    requires i < LEDS && (i >= 32) == upper
    ensures OutputByte(upper, powers, i % 32 / 8)[i % 8] == (powers[i] > 0.0)
  {
    var r := i % 32;
    assert i % 8 == r % 8 && r == 8 * (r / 8) + r % 8;
  }

  // ---- the board shows what was sent ----------------------------------------------

  ghost predicate Percent(p: real) { 0.0 <= p <= 100.0 }

  ghost predicate Sane(b: Board, i: nat)
    requires i < LEDS
  {
    Percent(b.power[i]) && (b.changed[i] ==> Percent(b.next[i]))
  }

  /** The brightness on the board is the last one sent; an LED is on only if it has a brightness, and a
      brightness above zero is the last one sent, with the LED on unless it rounds to nothing. */
  ghost predicate ShowsLed(b: Board, d: Device, i: nat)
    requires IsDevice(d) && i < LEDS
  {
    && d.stored[i] == Level(b.last[i])
    && (d.on[i] && d.stored[i] > 0 ==> b.power[i] > 0.0)
    && (b.power[i] > 0.0 ==> b.power[i] == b.last[i] && (d.on[i] || d.stored[i] == 0))
  }

  ghost predicate Shows(b: Board, d: Device) {
    IsDevice(d) && forall i :: 0 <= i < LEDS ==> Sane(b, i) && ShowsLed(b, d, i)
  }

  /** What is visible is the level of LED_Power, for every LED. */
  lemma ShowsIsVisible(b: Board, d: Device, i: nat)
    requires Shows(b, d) && i < LEDS
    ensures Visible(d, i) == Level(b.power[i])
  {
    hide Level;
    assert ShowsLed(b, d, i) && Sane(b, i);
    assert Level(0.0) == 0;
  }

  lemma OutputsShow(b: Board, d: Device, s: Settings, i: nat)
    requires Counted(b) && Shows(b, d) && i < LEDS && Chosen(Led64Adv, b).Outputs?
    ensures ShowsLed(Sent(Led64Adv, b), Receive(d, Packet(b, s)), i) && Sane(Sent(Led64Adv, b), i)
  {
    hide Level, OutputBytes, Receive, NextIsUpper;
    var upper, t := Chosen(Led64Adv, b).upper, Sent(Led64Adv, b);
    assert Sane(b, i) && ShowsLed(b, d, i);
    OutputsReach(d, upper, t.power, i);
    assert Packet(b, s) == OutputBytes(upper, t.power);
  }

  lemma BrightnessShows(b: Board, d: Device, s: Settings, i: nat)
    requires Counted(b) && Shows(b, d) && i < LEDS && Chosen(Led64Adv, b).Brightness?
    ensures ShowsLed(Sent(Led64Adv, b), Receive(d, Packet(b, s)), i) && Sane(Sent(Led64Adv, b), i)
  {
    hide Level, SetBytes, FirstFour, Indices, Padded4, SetSome, NeedsBrightness, Count;
    var p, t := FirstFour(Lit(b)), Sent(Led64Adv, b);
    assert Sane(b, i) && ShowsLed(b, d, i);
    BrightIndices(b);
    var indices := Padded4(Indices(p));
    PaddedSame(Indices(p), i);
    if p[i] { IndicesAll(p, i); }
    PickedIsLit(b);
    forall k | 0 <= k < |indices| ensures indices[k] < LEDS && 0.0 <= t.power[indices[k]] <= 100.0 {
      PaddedSame(Indices(p), indices[k]);
      assert Sane(b, indices[k]);
    }
    SetsReach(d, indices, t.power, 4, i);
    assert indices[..4] == indices;
    SetBytesType(indices, t.power);
  }

  lemma PickedIsLit(b: Board)
    ensures forall i :: 0 <= i < LEDS && FirstFour(Lit(b))[i] ==> b.changed[i] && b.next[i] != 0.0
  {
  }

  lemma SetBytesType(indices: seq<nat>, powers: Powers)
    requires |indices| == 4 && forall k :: 0 <= k < 4 ==> indices[k] < LEDS
    ensures !SetBytes(indices, powers)[0][7] && !SetBytes(indices, powers)[0][6]
  {
    hide LevelByte, IndexByte;
    IndexRoundTrip(indices[0]);
  }

  /** After every packet, from any history, the board shows LED_Power, although output packets only turn LEDs
      on and off. */
  lemma SentShows(b: Board, d: Device, s: Settings)
    requires Counted(b) && Shows(b, d)
    ensures Shows(Sent(Led64Adv, b), Receive(d, Packet(b, s)))
  {
    hide ShowsLed, Level, Sane;
    var t, e := Sent(Led64Adv, b), Receive(d, Packet(b, s));
    forall i | 0 <= i < LEDS ensures Sane(t, i) && ShowsLed(t, e, i) {
      match Chosen(Led64Adv, b)
      case Control => ControlShows(b, d, s, i);
      case Brightness => BrightnessShows(b, d, s, i);
      case Outputs(_) => OutputsShow(b, d, s, i);
    }
  }

  lemma {:induction false} SetsKeepSettings(d: Device, buf: seq<Byte>, n: nat)
    requires IsDevice(d) && 2 * n <= |buf|
    ensures SetSome(d, buf, n).settings == d.settings
  {
    hide BitsNat;
    if n > 0 { SetsKeepSettings(d, buf, n - 1); }
  }

  /** The control packet brings the settings to the board, and no other packet touches them. */
  lemma SentSettings(b: Board, d: Device, s: Settings)
    requires Counted(b) && IsDevice(d) && Allowed(s)
    ensures Receive(d, Packet(b, s)).settings == if b.controlPacketWaiting then s else d.settings
  {
    hide FirstFour, Indices, Padded4, SetBytes, OutputBytes, SetSome, Count, NeedsBrightness, SettingsOf, ControlByte, Level;
    ControlIff(Led64Adv, b);
    match Chosen(Led64Adv, b)
    case Control =>
      SettingsReadBack(s);
      ControlType(s);
    case Brightness =>
      BrightIndices(b);
      var indices, t := Padded4(Indices(FirstFour(Lit(b)))), Sent(Led64Adv, b);
      forall k | 0 <= k < 4 ensures indices[k] < LEDS { PaddedSame(Indices(FirstFour(Lit(b))), indices[k]); }
      SetBytesType(indices, t.power);
      SetsKeepSettings(d, SetBytes(indices, t.power), 4);
    case Outputs(upper) =>
      OutputsType(upper, Sent(Led64Adv, b).power);
  }

  lemma ControlType(s: Settings)
    ensures var buf := ControlBytes(s); !buf[0][7] && buf[0][6] && buf[1] == ControlByte(s)
  {
  }

  lemma OutputsType(upper: bool, powers: Powers)
    ensures OutputBytes(upper, powers)[0][7]
  {
    assert OutputBytes(upper, powers)[0] == OutputType(upper);
  }

  lemma ControlShows(b: Board, d: Device, s: Settings, i: nat)
    requires Counted(b) && Shows(b, d) && i < LEDS && Chosen(Led64Adv, b).Control?
    ensures ShowsLed(Sent(Led64Adv, b), Receive(d, Packet(b, s)), i) && Sane(Sent(Led64Adv, b), i)
  {
    assert Sane(b, i) && ShowsLed(b, d, i);
  }

  /** A request for a percentage keeps the board in step. */
  lemma RequestedShows(b: Board, d: Device, index: nat, power: real)
    requires Shows(b, d) && index < LEDS && Percent(power)
    ensures Shows(Requested(b, index, power).1, d)
  {
    hide Level;
    var t := Requested(b, index, power).1;
    forall i | 0 <= i < LEDS ensures Sane(t, i) && ShowsLed(t, d, i) {
      assert Sane(b, i) && ShowsLed(b, d, i);
    }
  }

  /** LED_Power, lastLED_Power and the echoed state of the board, as the attach code copies them. */
  function Echo(n: nat): real { n as real / 127.0 * 100.0 }

  function Attached(d: Device): (b: Board)
    requires IsDevice(d)
  {
    Board(seq(LEDS, i requires 0 <= i < LEDS => if d.on[i] then Echo(d.stored[i]) else 0.0),
          seq(LEDS, i requires 0 <= i < LEDS => Echo(d.stored[i])),
          seq(LEDS, i => UNKNOWN), seq(LEDS, i => false), 0, false, 0)
  }

  /** The attach code starts in step with whatever the board shows. */
  lemma AttachedShows(d: Device)
    requires IsDevice(d) && forall i :: 0 <= i < LEDS ==> d.stored[i] <= 127
    ensures Shows(Attached(d), d) && Counted(Attached(d))
  {
    hide Level;
    var b := Attached(d);
    forall i | 0 <= i < LEDS ensures Sane(b, i) && ShowsLed(b, d, i) {
      LevelOfEcho(d.stored[i]);
    }
    CountNone(b.changed);
  }
}
