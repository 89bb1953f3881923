/** LED boards: one pending change per LED, and the choice of the next packet. */
module Led {
  // What each choice keeps is proved for all three boards; packets are in LedPackets.

  const LEDS: nat := 64

  /** PUNK_DBL. */
  const UNKNOWN: real := 1e300

  type Flags = f: seq<bool> | |f| == LEDS witness seq(LEDS, i => false)
  type Powers = p: seq<real> | |p| == LEDS witness seq(LEDS, i => 0.0)

  datatype Kind = Led64 | Led64Adv | Led64M3

  /** The shared state: LED_Power, lastLED_Power, nextLED_Power, changedLED_Power and the counters. */
  datatype Board = Board(
    power: Powers, last: Powers, next: Powers, changed: Flags,
    changeRequests: int, controlPacketWaiting: bool, lastOutputPacket: nat)

  // ---- counting -------------------------------------------------------------------

  function Count(f: seq<bool>): (n: nat)
    ensures n <= |f|
  {
    if |f| == 0 then 0 else Count(f[..|f| - 1]) + if f[|f| - 1] then 1 else 0
  }

  predicate None(f: seq<bool>) { forall i :: 0 <= i < |f| ==> !f[i] }

  lemma {:induction false} CountNone(f: seq<bool>)
    ensures Count(f) == 0 <==> None(f)
  {
    if |f| > 0 { CountNone(f[..|f| - 1]); }
  }

  ghost predicate Within(a: seq<bool>, b: seq<bool>) { |a| == |b| && forall i :: 0 <= i < |a| && a[i] ==> b[i] }

  function Without(b: seq<bool>, a: seq<bool>): (c: seq<bool>)
    requires |a| == |b|
    ensures |c| == |b|
  {
    seq(|b|, i requires 0 <= i < |b| => b[i] && !a[i])
  }

  lemma {:induction false} CountWithout(b: seq<bool>, a: seq<bool>)
    requires Within(a, b)
    ensures Count(Without(b, a)) == Count(b) - Count(a)
  {
    if |b| > 0 {
      var k := |b| - 1;
      CountWithout(b[..k], a[..k]);
      assert Without(b, a)[..k] == Without(b[..k], a[..k]);
    }
  }

  lemma {:induction false} CountUpdate(f: seq<bool>, i: nat)
    requires i < |f| && !f[i]
    ensures Count(f[i := true]) == Count(f) + 1
  {
    var k := |f| - 1;
    if i < k {
      CountUpdate(f[..k], i);
      assert f[i := true][..k] == f[..k][i := true];
    } else {
      assert f[i := true][..k] == f[..k];
    }
  }

  // ---- which changes the next packet takes ----------------------------------------

  /** The first four flags that are set. */
  function FirstFour(f: Flags): (p: Flags) {
    seq(LEDS, i requires 0 <= i < LEDS => f[i] && Count(f[..i]) < 4)
  }

  function Lit(b: Board): (f: Flags) { seq(LEDS, i requires 0 <= i < LEDS => b.changed[i] && b.next[i] != 0.0) }

  function Half(b: Board, upper: bool): (f: Flags) {
    seq(LEDS, i requires 0 <= i < LEDS => b.changed[i] && (i >= 32) == upper)
  }

  /** A change to a new brightness, which an output packet cannot make. */
  predicate NeedsBrightness(b: Board) {
    exists i :: 0 <= i < LEDS && b.changed[i] && b.next[i] != b.last[i] && b.next[i] != 0.0
  }

  /** The halves take turns as long as both have changes. */
  predicate TakesUpper(b: Board, lower: bool, upper: bool) {
    !((b.lastOutputPacket == 0 && lower) || (b.lastOutputPacket != 0 && !upper))
  }

  predicate NextIsUpper(b: Board) { TakesUpper(b, !None(Half(b, false)), !None(Half(b, true))) }

  datatype Choice = Control | Brightness | Outputs(upper: bool) | Four

  function Chosen(kind: Kind, b: Board): (c: Choice) {
    if kind == Led64 then Four
    else if b.controlPacketWaiting then Control
    else if kind == Led64Adv && NeedsBrightness(b) then Brightness
    else Outputs(NextIsUpper(b))
  }

  function Picked(kind: Kind, b: Board): (f: Flags) {
    match Chosen(kind, b)
    case Control => seq(LEDS, i => false)
    case Brightness => FirstFour(Lit(b))
    case Outputs(upper) => Half(b, upper)
    case Four => FirstFour(b.changed)
  }

  /** The changes in p are made. */
  function Made(b: Board, p: Flags): (r: Board) {
    b.(power := seq(LEDS, i requires 0 <= i < LEDS => if p[i] then b.next[i] else b.power[i]),
       next := seq(LEDS, i requires 0 <= i < LEDS => if p[i] then UNKNOWN else b.next[i]),
       changed := Without(b.changed, p),
       changeRequests := b.changeRequests - Count(p))
  }

  /** An output packet of the M3 board takes a brightness that is not known for 0. */
  function Defaulted(kind: Kind, b: Board, upper: bool): (r: Board) {
    b.(power := seq(LEDS, i requires 0 <= i < LEDS =>
      if kind == Led64M3 && (i >= 32) == upper && b.power[i] == UNKNOWN then 0.0 else b.power[i]))
  }

  /** getPacket. */
  function Sent(kind: Kind, b: Board): (r: Board) {
    var p := Picked(kind, b);
    match Chosen(kind, b)
    case Control => b.(controlPacketWaiting := false)
    case Brightness =>
      Made(b, p).(last := seq(LEDS, i requires 0 <= i < LEDS => if p[i] then b.next[i] else b.last[i]))
    case Outputs(upper) => Defaulted(kind, Made(b, p), upper).(lastOutputPacket := if upper then 0 else 1)
    case Four => Made(b, p)
  }

  datatype Answer = Ok | Wait

  /** One pass of sendpacket under the lock: the change is taken, or it has to wait for another one. */
  function Requested(b: Board, index: nat, power: real): (r: (Answer, Board))
    requires index < LEDS
  {
    if b.changed[index] then (if b.next[index] != power then Wait else Ok, b)
    else if b.power[index] != power then
      (Ok, b.(changeRequests := b.changeRequests + 1, changed := b.changed[index := true], next := b.next[index := power]))
    else (Ok, b)
  }

  // ---- the counter ----------------------------------------------------------------

  predicate Counted(b: Board) { b.changeRequests == Count(b.changed) }

  lemma PickedWithin(kind: Kind, b: Board)
    ensures Within(Picked(kind, b), b.changed)
  {
  }

  /** The counter is the number of flags set, after every packet and after every request. */
  lemma SentCounted(kind: Kind, b: Board)
    requires Counted(b)
    ensures Counted(Sent(kind, b))
    ensures Sent(kind, b).changeRequests == b.changeRequests - Count(Picked(kind, b))
  {
    hide Count, Picked;
    PickedWithin(kind, b);
    CountWithout(b.changed, Picked(kind, b));
    if Chosen(kind, b) == Control { CountNone(Picked(kind, b)); assert None(Picked(kind, b)) by { ControlPicksNone(kind, b); } }
  }

  lemma ControlPicksNone(kind: Kind, b: Board)
    requires Chosen(kind, b) == Control
    ensures None(Picked(kind, b))
  {
  }

  lemma RequestedCounted(b: Board, index: nat, power: real)
    requires Counted(b) && index < LEDS
    ensures Counted(Requested(b, index, power).1)
  {
    if !b.changed[index] { CountUpdate(b.changed, index); }
  }

  // ---- progress -------------------------------------------------------------------

  lemma {:induction false} FirstFourSome(f: Flags, n: nat)
    requires n <= LEDS && !None(f[..n])
    ensures !None(FirstFour(f))
  {
    if None(f[..n - 1]) {
      CountNone(f[..n - 1]);
      assert f[n - 1];
      assert FirstFour(f)[n - 1];
    } else {
      FirstFourSome(f, n - 1);
    }
  }

  /** A packet that is not a control packet makes at least one change if there is one. */
  lemma PicksSome(kind: Kind, b: Board)
    requires Chosen(kind, b) != Control && !None(b.changed)
    ensures !None(Picked(kind, b))
  {
    hide FirstFour;
    var i :| 0 <= i < LEDS && b.changed[i];
    match Chosen(kind, b)
    case Brightness =>
      var j :| 0 <= j < LEDS && b.changed[j] && b.next[j] != b.last[j] && b.next[j] != 0.0;
      assert Lit(b)[j] && Lit(b)[..LEDS] == Lit(b);
      FirstFourSome(Lit(b), LEDS);
    case Outputs(upper) =>
      assert Half(b, i >= 32)[i];
    case Four =>
      assert b.changed[..LEDS] == b.changed;
      FirstFourSome(b.changed, LEDS);
  }

  predicate Pending(b: Board) { b.controlPacketWaiting || b.changeRequests > 0 }

  /** Every packet with something to send brings the work to an end: first the control packet goes, then
      there are fewer changes. */
  lemma SentDecreases(kind: Kind, b: Board)
    requires Counted(b) && Pending(b) && (kind == Led64 ==> !b.controlPacketWaiting)
    ensures var t := Sent(kind, b);
      if b.controlPacketWaiting then !t.controlPacketWaiting && t.changeRequests == b.changeRequests
      else !t.controlPacketWaiting && 0 <= t.changeRequests < b.changeRequests
  {
    hide Count, Picked, Chosen;
    SentCounted(kind, b);
    CountNone(b.changed);
    ControlIff(kind, b);
    if !b.controlPacketWaiting {
      PicksSome(kind, b);
      CountNone(Picked(kind, b));
    }
  }

  lemma ControlIff(kind: Kind, b: Board)
    ensures Chosen(kind, b) == Control <==> kind != Led64 && b.controlPacketWaiting
    ensures Sent(kind, b).controlPacketWaiting == (kind == Led64 && b.controlPacketWaiting)
    ensures kind != Led64 && b.controlPacketWaiting ==> Sent(kind, b).changeRequests == b.changeRequests
  {
  }

  /** Two output packets in a row without new requests serve both halves. */
  lemma TwoOutputsServeAll(kind: Kind, b: Board)
    requires Chosen(kind, b).Outputs? && Chosen(kind, Sent(kind, b)).Outputs?
    ensures None(Sent(kind, Sent(kind, b)).changed)
  {
    hide Count;
    var t := Sent(kind, b);
    var upper, then' := Chosen(kind, b).upper, Chosen(kind, t).upper;
    assert None(Half(t, upper));
    if then' == upper {
      if upper { assert None(Half(t, false)); } else { assert None(Half(t, true)); }
    }
    forall i | 0 <= i < LEDS ensures !Sent(kind, t).changed[i] {
      assert Half(t, i >= 32)[i] == t.changed[i];
    }
  }

  // ---- what was asked for ---------------------------------------------------------

  /** Where LED i is going. */
  function Target(b: Board, i: nat): real
    requires i < LEDS
  {
    if b.changed[i] then b.next[i] else b.power[i]
  }

  /** No packet changes where an LED is going, except that an output packet of the M3 board sends the LEDs of
      its half to 0 when that is not known. */
  lemma SentTargets(kind: Kind, b: Board, i: nat)
    requires i < LEDS
    ensures Target(Sent(kind, b), i)
         == if kind == Led64M3 && Target(b, i) == UNKNOWN && Chosen(kind, b) == Outputs(i >= 32) then 0.0
            else Target(b, i)
  {
    hide Count, FirstFour;
    PickedWithin(kind, b);
  }

  /** A request that is taken sets the target of its LED and no other; one that waits changes nothing. */
  lemma RequestedTargets(b: Board, index: nat, power: real, i: nat)
    requires index < LEDS && i < LEDS
    ensures var (a, t) := Requested(b, index, power);
      && Target(t, i) == (if a == Ok && i == index then power else Target(b, i))
      && (a == Wait ==> t == b)
  {
  }

  function SentTimes(kind: Kind, b: Board, n: nat): (r: Board) {
    if n == 0 then b else Sent(kind, SentTimes(kind, b, n - 1))
  }

  function Work(b: Board): int { b.changeRequests + if b.controlPacketWaiting then 1 else 0 }

  /** Where an LED that was going to v may end up: there, or at 0 on an M3 board that does not know it. */
  ghost predicate Settles(kind: Kind, v: real, w: real) { w == v || (kind == Led64M3 && v == UNKNOWN && w == 0.0) }

  /** Without new requests, as many packets as there is work bring every LED to its target. */
  lemma {:induction false} Drains(kind: Kind, b: Board, n: nat)
    requires Counted(b) && (kind == Led64 ==> !b.controlPacketWaiting)
    ensures var t := SentTimes(kind, b, n);
      && Counted(t) && (kind == Led64 ==> !t.controlPacketWaiting)
      && (forall i :: 0 <= i < LEDS ==> Settles(kind, Target(b, i), Target(t, i)))
      && (Work(t) == 0 || Work(t) + n <= Work(b))
      && (n >= Work(b) ==> !t.controlPacketWaiting && None(t.changed))
      && (n >= Work(b) ==> forall i :: 0 <= i < LEDS ==> Settles(kind, Target(b, i), t.power[i]))
  {
    hide Sent, Count;
    CountNone(b.changed);
    if n > 0 {
      Drains(kind, b, n - 1);
      var s := SentTimes(kind, b, n - 1);
      SentCounted(kind, s);
      CountNone(s.changed);
      CountNone(Sent(kind, s).changed);
      ControlIff(kind, s);
      forall i | 0 <= i < LEDS ensures Settles(kind, Target(b, i), Target(Sent(kind, s), i)) {
        SentTargets(kind, s, i);
      }
      if Pending(s) {
        SentDecreases(kind, s);
      } else {
        PickedNothing(kind, s);
      }
    }
  }

  lemma PickedNothing(kind: Kind, b: Board)
    requires Counted(b) && b.changeRequests == 0
    ensures Sent(kind, b).changeRequests == 0
  {
    hide Picked, Sent;
    SentCounted(kind, b);
    CountNone(b.changed);
    PickedWithin(kind, b);
    CountNone(Picked(kind, b));
  }
}
