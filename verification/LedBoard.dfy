/** getPacket and the locked part of sendpacket, on the arrays they update. Each method is proved against the
    functions of Led, LedPackets and LedM3: the pending changes it takes, the packet it builds and the powers it
    records as sent. */
module LedBoard {
  import opened Words
  import opened Led
  import opened LedPackets

  // Only the changes before position n.
  function Upto(p: Flags, n: nat): (r: Flags) {
    seq(LEDS, i requires 0 <= i < LEDS => i < n && p[i])
  }

  /** The changes in p are made, and noted as the last brightness when lit. */
  function MadeLit(b: Board, p: Flags, lit: bool): (r: Board) {
    var m := Made(b, p);
    if lit then m.(last := seq(LEDS, i requires 0 <= i < LEDS => if p[i] then b.next[i] else b.last[i])) else m
  }

  lemma {:induction false} CountUpto(p: Flags, n: nat, m: nat)
    requires n <= m <= LEDS
    ensures Count(Upto(p, n)[..m]) == Count(p[..n])
    decreases m
  {
    if m > n {
      CountUpto(p, n, m - 1);
      assert Upto(p, n)[..m][..m - 1] == Upto(p, n)[..m - 1];
    } else {
      assert Upto(p, n)[..m] == p[..n];
    }
  }

  lemma CountWhole(p: Flags, n: nat)
    requires n <= LEDS
    ensures Count(Upto(p, n)) == Count(p[..n])
  {
    CountUpto(p, n, LEDS);
    assert Upto(p, n)[..LEDS] == Upto(p, n);
  }

  lemma CountNext(f: seq<bool>, i: nat)
    requires i < |f|
    ensures Count(f[..i + 1]) == Count(f[..i]) + if f[i] then 1 else 0
    ensures Indices(f[..i + 1]) == Indices(f[..i]) + if f[i] then [i] else []
  {
    assert f[..i + 1][..i] == f[..i];
  }

  lemma NothingMade(b: Board, p: Flags, lit: bool)
    ensures MadeLit(b, Upto(p, 0), lit) == b
  {
    CountWhole(p, 0);
    assert Upto(p, 0) == seq(LEDS, i => false);
    var m := MadeLit(b, Upto(p, 0), lit);
    assert m.power == b.power && m.next == b.next && m.last == b.last;
    assert m.changed == b.changed;
  }

  lemma AllMade(b: Board, p: Flags, lit: bool)
    ensures MadeLit(b, Upto(p, LEDS), lit) == MadeLit(b, p, lit)
  {
    assert Upto(p, LEDS) == p;
  }

  /** Making change i on top of the ones before it. */
  lemma MakeNext(b: Board, p: Flags, lit: bool, i: nat)
    requires i < LEDS
    ensures var m := MadeLit(b, Upto(p, i), lit);
      && m.changed[i] == b.changed[i] && m.next[i] == b.next[i] && m.power[i] == b.power[i] && m.last[i] == b.last[i]
      && MadeLit(b, Upto(p, i + 1), lit)
         == (if p[i] then
               m.(power := m.power[i := b.next[i]], last := if lit then m.last[i := b.next[i]] else m.last,
                  next := m.next[i := UNKNOWN], changed := m.changed[i := false], changeRequests := m.changeRequests - 1)
             else m)
  {
    CountWhole(p, i);
    CountWhole(p, i + 1);
    CountNext(p, i);
    hide Count;
    var m, n := MadeLit(b, Upto(p, i), lit), MadeLit(b, Upto(p, i + 1), lit);
    PowersNext(b, p, lit, i);
    FlagsNext(b, p, lit, i);
    assert n.changeRequests == m.changeRequests - if p[i] then 1 else 0;
  }

  lemma PowersNext(b: Board, p: Flags, lit: bool, i: nat)
    requires i < LEDS
    ensures var m, n := MadeLit(b, Upto(p, i), lit), MadeLit(b, Upto(p, i + 1), lit);
      && m.power[i] == b.power[i] && m.last[i] == b.last[i]
      && n.power == (if p[i] then m.power[i := b.next[i]] else m.power)
      && n.last == (if p[i] && lit then m.last[i := b.next[i]] else m.last)
  {
    hide Count, Without;
  }

  lemma FlagsNext(b: Board, p: Flags, lit: bool, i: nat)
    requires i < LEDS
    ensures var m, n := MadeLit(b, Upto(p, i), lit), MadeLit(b, Upto(p, i + 1), lit);
      && m.changed[i] == b.changed[i] && m.next[i] == b.next[i]
      && n.next == (if p[i] then m.next[i := UNKNOWN] else m.next)
      && n.changed == (if p[i] then m.changed[i := false] else m.changed)
  {
    hide Count;
  }

  class LedController {
    const power: array<real>
    const last: array<real>
    const next: array<real>
    const changed: array<bool>
    var changeRequests: int
    var controlPacketWaiting: bool
    var lastOutputPacket: nat

    ghost predicate Valid() {
      && power.Length == last.Length == next.Length == changed.Length == LEDS
      && power != last && power != next && last != next
    }

    ghost function Holds(): (b: Board)
      requires Valid()
      reads this, power, last, next, changed
      ensures b.power == power[..] && b.last == last[..] && b.next == next[..] && b.changed == changed[..]
      ensures b.changeRequests == changeRequests && b.controlPacketWaiting == controlPacketWaiting
      ensures b.lastOutputPacket == lastOutputPacket
    {
      Board(power[..], last[..], next[..], changed[..], changeRequests, controlPacketWaiting, lastOutputPacket)
    }

    constructor ()
      ensures Valid() && fresh(power) && fresh(last) && fresh(next) && fresh(changed)
      ensures Holds().changed == seq(LEDS, i => false) && changeRequests == 0 && !controlPacketWaiting
    {
      power := new real[LEDS](i => UNKNOWN);
      last := new real[LEDS](i => UNKNOWN);
      next := new real[LEDS](i => UNKNOWN);
      changed := new bool[LEDS](i => false);
      changeRequests, controlPacketWaiting, lastOutputPacket := 0, false, 0;
    }

    /** The part of sendpacket under the output lock. */
    method Request(index: nat, newPower: real) returns (a: Answer)
      requires Valid() && index < LEDS
      modifies next, changed, this`changeRequests
      ensures (a, Holds()) == Requested(old(Holds()), index, newPower)
    {
      if changed[index] {
        if next[index] != newPower {
          return Wait;
        } else {
          return Ok;
        }
      } else {
        if power[index] != newPower {
          changeRequests := changeRequests + 1;
          changed[index] := true;
          next[index] := newPower;
        }
        return Ok;
      }
    }

    /** The statements that make one change. */
    method MakeChange(i: nat, lit: bool)
      requires Valid() && i < LEDS
      modifies power, last, next, changed, this`changeRequests
      ensures var b := old(Holds());
        Holds() == b.(power := b.power[i := b.next[i]], last := if lit then b.last[i := b.next[i]] else b.last,
                      next := b.next[i := UNKNOWN], changed := b.changed[i := false], changeRequests := b.changeRequests - 1)
    {
      power[i] := next[i];
      if lit {
        last[i] := next[i];
      }
      changed[i] := false;
      next[i] := UNKNOWN;
      changeRequests := changeRequests - 1;
    }

    /** The loops that take up to four changes; numLeds of them were found, in order. */
    method TakeFour(lit: bool) returns (indices: seq<nat>)
      requires Valid()
      modifies power, last, next, changed, this`changeRequests
      ensures var b := old(Holds());
        var p := FirstFour(if lit then Lit(b) else b.changed);
        Holds() == MadeLit(b, p, lit) && indices == Indices(p)
    {
      hide Count, Indices, FirstFour, MadeLit, Holds, Upto;
      ghost var b := Holds();
      ghost var f := if lit then Lit(b) else b.changed;
      ghost var p := FirstFour(f);
      indices := [];
      NothingMade(b, p, lit);
      NoIndices(p);
      for i := 0 to LEDS
        invariant Holds() == MadeLit(b, Upto(p, i), lit) && indices == Indices(p[..i])
      {
        MakeNext(b, p, lit, i);
        CountNext(p, i);
        FourAt(f, i);
        assert |indices| == Count(p[..i]);
        if changed[i] && |indices| < 4 && (!lit || next[i] != 0.0) {
          assert f[i];
          MakeChange(i, lit);
          indices := indices + [i];
        } else {
          assert !p[i];
        }
      }
      AllMade(b, p, lit);
      assert p[..LEDS] == p;
    }

    /** The loop over one half. */
    method TakeHalf(kind: Kind, upper: bool)
      requires Valid() && kind != Led64
      modifies power, next, changed, this`changeRequests
      ensures var b := old(Holds());
        Holds() == Defaulted(kind, Made(b, Half(b, upper)), upper)
    {
      hide Count, Half, Made, Defaulted, Holds;
      ghost var b := Holds();
      ghost var p := Half(b, upper);
      ghost var e := Defaulted(kind, Made(b, p), upper);
      var start := if upper then 32 else 0;
      HalfCounts(b, upper);
      for i := start to start + 32
        invariant forall j :: 0 <= j < LEDS ==> power[j] == if start <= j < i then e.power[j] else b.power[j]
        invariant forall j :: 0 <= j < LEDS ==> next[j] == if start <= j < i then e.next[j] else b.next[j]
        invariant forall j :: 0 <= j < LEDS ==> changed[j] == if start <= j < i then e.changed[j] else b.changed[j]
        invariant changeRequests == b.changeRequests - Count(p[..i])
      {
        CountNext(p, i);
        HalfAt(kind, b, upper, i);
        TakeOne(kind, i);
      }
      forall j | 0 <= j < LEDS ensures power[j] == e.power[j] && next[j] == e.next[j] && changed[j] == e.changed[j] {
        HalfAt(kind, b, upper, j);
      }
      HalfRest(kind, b, upper);
      assert power[..] == e.power && next[..] == e.next && changed[..] == e.changed;
      TakenHolds(b, e);
    }

    // The fields written by TakeHalf, put together.
    lemma TakenHolds(b: Board, e: Board)
      requires Valid() && power[..] == e.power && next[..] == e.next && changed[..] == e.changed && last[..] == b.last == e.last
      requires changeRequests == e.changeRequests
      requires controlPacketWaiting == e.controlPacketWaiting && lastOutputPacket == e.lastOutputPacket
      ensures Holds() == e
    {
    }

    method TakeOne(kind: Kind, i: nat)
      requires Valid() && i < LEDS
      modifies power, next, changed, this`changeRequests
      ensures changeRequests == old(changeRequests) - if old(changed[i]) then 1 else 0
      ensures power[i] == var q := if old(changed[i]) then old(next[i]) else old(power[i]);
        if kind == Led64M3 && q == UNKNOWN then 0.0 else q
      ensures next[i] == (if old(changed[i]) then UNKNOWN else old(next[i])) && !changed[i]
      ensures forall j :: 0 <= j < LEDS && j != i ==>
        power[j] == old(power[j]) && next[j] == old(next[j]) && changed[j] == old(changed[j])
    {
      if changed[i] {
        changeRequests := changeRequests - 1;
        power[i] := next[i];
        changed[i] := false;
        next[i] := UNKNOWN;
      }
      if kind == Led64M3 && power[i] == UNKNOWN {
        power[i] := 0.0;
      }
    }

    /** How much each kind of packet has to do, as the loop before an LED packet finds it. */
    method Survey(kind: Kind) returns (bright: bool, lower: bool, upper: bool)
      requires Valid() && kind != Led64
      ensures var b := Holds();
        && bright == (kind == Led64Adv && NeedsBrightness(b))
        && (!bright ==> lower == !None(Half(b, false)) && upper == !None(Half(b, true)))
    {
      ghost var b := Holds();
      bright, lower, upper := false, false, false;
      for i := 0 to LEDS
        invariant bright == (kind == Led64Adv && exists j :: 0 <= j < i && b.changed[j] && b.next[j] != b.last[j] && b.next[j] != 0.0)
        invariant !bright ==> lower == !None(Half(b, false)[..i])
        invariant !bright ==> upper == !None(Half(b, true)[..i])
      {
        SurveyNext(b, i);
        if changed[i] {
          if kind == Led64Adv && next[i] != last[i] && next[i] != 0.0 {
            bright := true;
          } else if i < 32 {
            lower := true;
          } else {
            upper := true;
          }
        }
      }
      assert Half(b, false)[..LEDS] == Half(b, false) && Half(b, true)[..LEDS] == Half(b, true);
    }

    /** Four sets, with the remaining space filled with the last one. */
    method FillSets(indices: seq<nat>) returns (buf: array<Byte>)
      requires Valid() && 0 < |indices| <= 4 && forall k :: 0 <= k < |indices| ==> indices[k] < LEDS
      ensures fresh(buf) && buf[..] == SetBytes(Padded4(indices), power[..])
    {
      hide IndexByte, LevelByte, SetBytes, Padded4;
      buf := new Byte[PACKET](i => NoBits());
      ghost var s, powers := Padded4(indices), power[..];
      PaddedAt(indices);
      var numLeds := 0;
      while numLeds < |indices|
        invariant numLeds <= |indices| && power[..] == powers
        invariant forall k: nat :: k < numLeds ==> PairIs(buf[..], k, s, powers)
      {
        ghost var before := buf[..];
        buf[numLeds * 2] := IndexByte(indices[numLeds]);
        buf[numLeds * 2 + 1] := LevelByte(power[indices[numLeds]]);
        OtherPairs(before, buf[..], numLeds, s, powers);
        numLeds := numLeds + 1;
      }
      // a repeated set is harmless, a set of zeros would switch off LED 0
      while numLeds < 4
        invariant |indices| <= numLeds <= 4 && power[..] == powers
        invariant forall k: nat :: k < numLeds ==> PairIs(buf[..], k, s, powers)
      {
        assert PairIs(buf[..], numLeds - 1, s, powers) && s[numLeds] == s[numLeds - 1];
        ghost var before := buf[..];
        buf[numLeds * 2] := buf[(numLeds - 1) * 2];
        buf[numLeds * 2 + 1] := buf[(numLeds - 1) * 2 + 1];
        OtherPairs(before, buf[..], numLeds, s, powers);
        numLeds := numLeds + 1;
      }
      AllPairs(buf[..], s, powers);
    }

    /** One bit for each LED of a half that is on, in a cleared buffer. */
    method FillOutputs(upper: bool) returns (buf: array<Byte>)
      requires Valid()
      ensures fresh(buf) && buf[..] == OutputBytes(upper, power[..])
    {
      hide OutputType, OutputBytes, OutputSoFar;
      buf := new Byte[PACKET](i => NoBits());
      buf[0] := OutputType(upper);
      var start := if upper then 32 else 0;
      NothingOut(upper, power[..], buf[..]);
      for i := start to start + 32
        invariant buf[..] == OutputSoFar(upper, power[..], i)
      {
        var at := if upper then i / 8 - 3 else i / 8 + 1;
        OutputNext(upper, power[..], i, at);
        if power[i] > 0.0 {
          ghost var before := buf[..];
          buf[at] := buf[at][i % 8 := true];
          assert buf[..] == before[at := before[at][i % 8 := true]];
        }
      }
      AllOut(upper, power[..]);
    }

    /** getPacket of the LED_64_ADV with its bytes. */
    method GetAdvPacket(settings: Settings) returns (buf: array<Byte>)
      requires Valid() && Counted(Holds())
      modifies this, power, last, next, changed
      ensures Holds() == Sent(Led64Adv, old(Holds())) && fresh(buf) && buf[..] == Packet(old(Holds()), settings)
    {
      hide Count, Indices, FirstFour, Sent, SetBytes, OutputBytes, NeedsBrightness, NextIsUpper, Lit, Padded4;
      ghost var b := Holds();
      var choice, indices := GetPacket(Led64Adv);
      match choice
      case Control =>
        buf := new Byte[PACKET](i => NoBits());
        buf[0], buf[1] := BitByte(6), ControlByte(settings);
        assert buf[..] == ControlBytes(settings);
      case Brightness =>
        BrightIndices(b);
        buf := FillSets(indices);
      case Outputs(upper) =>
        buf := FillOutputs(upper);
    }

    /** getPacket: what it changes is Sent; indices are the LEDs of a packet with brightness sets. */
    method GetPacket(kind: Kind) returns (choice: Choice, indices: seq<nat>)
      requires Valid()
      modifies this, power, last, next, changed
      ensures Holds() == Sent(kind, old(Holds())) && choice == Chosen(kind, old(Holds()))
      ensures choice == Brightness || choice == Four ==> indices == Indices(Picked(kind, old(Holds())))
    {
      hide Count, Indices, FirstFour, Made, Half, Defaulted, NeedsBrightness;
      ghost var b := Holds();
      indices := [];
      if kind == Led64 {
        indices := TakeFour(false);
        return Four, indices;
      }
      if controlPacketWaiting {
        controlPacketWaiting := false;
        return Control, indices;
      }
      var bright, lower, upper := Survey(kind);
      if bright {
        indices := TakeFour(true);
        return Brightness, indices;
      }
      if (lastOutputPacket == 0 && lower) || (lastOutputPacket != 0 && !upper) {
        TakeHalf(kind, false);
        lastOutputPacket := 1;
        choice := Outputs(false);
      } else {
        TakeHalf(kind, true);
        lastOutputPacket := 0;
        choice := Outputs(true);
      }
    }
  }

  // Bit k of byte j of an output packet once the LEDs below n are done.
  predicate OutputBit(upper: bool, powers: Powers, n: nat, j: nat, k: nat)
    requires 1 <= j <= 4 && k < 8
  {
    var i := (if upper then 32 else 0) + 8 * (j - 1) + k;
    i < n && powers[i] > 0.0
  }

  function OutputSoFar(upper: bool, powers: Powers, n: nat): (buf: seq<Byte>)
    ensures |buf| == PACKET
  {
    seq(PACKET, j requires 0 <= j < PACKET => OutputPart(upper, powers, n, j))
  }

  function OutputPart(upper: bool, powers: Powers, n: nat, j: nat): (b: Byte) {
    if j == 0 then OutputType(upper)
    else if j <= 4 then seq(8, k requires 0 <= k < 8 => OutputBit(upper, powers, n, j, k))
    else NoBits()
  }

  lemma NothingOut(upper: bool, powers: Powers, buf: seq<Byte>)
    requires buf == seq(PACKET, j => NoBits())[0 := OutputType(upper)]
    ensures buf == OutputSoFar(upper, powers, if upper then 32 else 0)
  {
    forall j | 0 <= j < PACKET ensures buf[j] == OutputSoFar(upper, powers, if upper then 32 else 0)[j] {
    }
  }

  lemma OutputNext(upper: bool, powers: Powers, i: nat, at: nat)
    requires (if upper then 32 else 0) <= i < (if upper then 64 else 32)
    requires at == if upper then i / 8 - 3 else i / 8 + 1
    ensures 1 <= at <= 4
    ensures var buf := OutputSoFar(upper, powers, i);
      OutputSoFar(upper, powers, i + 1) == if powers[i] > 0.0 then buf[at := buf[at][i % 8 := true]] else buf
  {
    hide OutputType;
    var a, b := OutputSoFar(upper, powers, i), OutputSoFar(upper, powers, i + 1);
    forall j, k | 1 <= j <= 4 && 0 <= k < 8
      ensures OutputBit(upper, powers, i + 1, j, k)
           == (OutputBit(upper, powers, i, j, k) || (powers[i] > 0.0 && j == at && k == i % 8))
    {
    }
    forall j | 0 <= j < PACKET && j != at ensures b[j] == a[j] {
      if 1 <= j <= 4 { assert forall k :: 0 <= k < 8 ==> b[j][k] == OutputBit(upper, powers, i + 1, j, k); }
    }
    if powers[i] > 0.0 {
      assert b[at] == a[at][i % 8 := true];
    } else {
      assert b[at] == a[at];
    }
  }

  lemma AllOut(upper: bool, powers: Powers)
    ensures OutputSoFar(upper, powers, if upper then 64 else 32) == OutputBytes(upper, powers)
  {
    hide OutputType;
    var a, b := OutputSoFar(upper, powers, if upper then 64 else 32), OutputBytes(upper, powers);
    forall j | 0 <= j < PACKET ensures a[j] == b[j] {
      if 1 <= j <= 4 { assert forall k: nat :: k < 8 ==> a[j][k] == OutputByte(upper, powers, j - 1)[k]; }
    }
  }

  ghost predicate PairIs(buf: seq<Byte>, k: nat, s: seq<nat>, powers: Powers)
    requires |buf| == PACKET && k < 4 && |s| == 4 && forall j :: 0 <= j < 4 ==> s[j] < LEDS
  {
    buf[2 * k] == IndexByte(s[k]) && buf[2 * k + 1] == LevelByte(powers[s[k]])
  }

  lemma PaddedAt(indices: seq<nat>)
    requires 0 < |indices| <= 4 && forall k :: 0 <= k < |indices| ==> indices[k] < LEDS
    ensures var s := Padded4(indices);
      && (forall j :: 0 <= j < 4 ==> s[j] < LEDS)
      && (forall j :: 0 <= j < |indices| ==> s[j] == indices[j])
      && (forall j :: |indices| <= j < 4 ==> s[j] == s[j - 1])
  {
  }

  lemma OtherPairs(before: seq<Byte>, after: seq<Byte>, n: nat, s: seq<nat>, powers: Powers)
    requires |before| == |after| == PACKET && n < 4 && |s| == 4 && forall j :: 0 <= j < 4 ==> s[j] < LEDS
    requires forall j :: 0 <= j < 2 * n ==> after[j] == before[j]
    requires forall k: nat :: k < n ==> PairIs(before, k, s, powers)
    ensures forall k: nat :: k < n ==> PairIs(after, k, s, powers)
  {
    hide IndexByte, LevelByte;
    forall k: nat | k < n ensures PairIs(after, k, s, powers) {
      assert PairIs(before, k, s, powers);
    }
  }

  lemma AllPairs(buf: seq<Byte>, s: seq<nat>, powers: Powers)
    requires |buf| == PACKET && |s| == 4 && forall j :: 0 <= j < 4 ==> s[j] < LEDS
    requires forall k: nat :: k < 4 ==> PairIs(buf, k, s, powers)
    ensures buf == SetBytes(s, powers)
  {
    hide IndexByte, LevelByte;
    forall j | 0 <= j < PACKET ensures buf[j] == SetBytes(s, powers)[j] {
      assert PairIs(buf, j / 2, s, powers);
    }
  }

  lemma NoIndices(p: Flags)
    ensures Indices(p[..0]) == [] && Count(p[..0]) == 0
  {
  }

  lemma FourAt(f: Flags, i: nat)
    requires i < LEDS
    ensures FirstFour(f)[i] == (f[i] && Count(FirstFour(f)[..i]) < 4)
  {
    AtMostFour(f, i);
  }

  lemma HalfAt(kind: Kind, b: Board, upper: bool, i: nat)
    requires i < LEDS
    ensures var e := Defaulted(kind, Made(b, Half(b, upper)), upper);
      && Half(b, upper)[i] == (b.changed[i] && (i >= 32) == upper)
      && (if (i >= 32) == upper then
            var q := if b.changed[i] then b.next[i] else b.power[i];
            && e.power[i] == (if kind == Led64M3 && q == UNKNOWN then 0.0 else q)
            && e.next[i] == (if b.changed[i] then UNKNOWN else b.next[i]) && !e.changed[i]
          else e.power[i] == b.power[i] && e.next[i] == b.next[i] && e.changed[i] == b.changed[i])
  {
    hide Count;
  }

  lemma HalfRest(kind: Kind, b: Board, upper: bool)
    ensures var e := Defaulted(kind, Made(b, Half(b, upper)), upper);
      && e.last == b.last && e.changeRequests == b.changeRequests - Count(Half(b, upper))
      && e.controlPacketWaiting == b.controlPacketWaiting && e.lastOutputPacket == b.lastOutputPacket
  {
    hide Count;
  }

  lemma SurveyNext(b: Board, i: nat)
    requires i < LEDS
    ensures None(Half(b, false)[..i + 1]) == (None(Half(b, false)[..i]) && !(b.changed[i] && i < 32))
    ensures None(Half(b, true)[..i + 1]) == (None(Half(b, true)[..i]) && !(b.changed[i] && i >= 32))
  {
    var l, u := Half(b, false), Half(b, true);
    assert l[..i + 1] == l[..i] + [l[i]] && u[..i + 1] == u[..i] + [u[i]];
  }

  lemma {:induction false} CountPrefix(f: seq<bool>, n: nat)
    requires n <= |f| && None(f[n..])
    ensures Count(f) == Count(f[..n])
    decreases |f|
  {
    if n == |f| {
      assert f[..n] == f;
    } else {
      var k := |f| - 1;
      assert f[n..][k - n] == f[k] && f[..k][n..] == f[n..][..k - n] && f[..k][..n] == f[..n];
      CountPrefix(f[..k], n);
    }
  }

  lemma HalfCounts(b: Board, upper: bool)
    ensures Count(Half(b, upper)[..if upper then 32 else 0]) == 0
    ensures Count(Half(b, upper)[..if upper then 64 else 32]) == Count(Half(b, upper))
  {
    var p := Half(b, upper);
    if upper {
      CountNone(p[..32]);
      assert p[..64] == p;
    } else {
      CountPrefix(p, 32);
    }
  }
}
