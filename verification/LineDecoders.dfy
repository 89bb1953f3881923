/** add_manchester_data and add_biphase_data: what one pulse does, and that they invert the line codes. */
module LineDecoders {
  import opened Ring
  import opened Pulses

  /** The state of a line decoder: its flags and its ring of decoded bits. */
  datatype LineState = LineState(lockedIn: bool, shortChange: bool, ring: RingOf<bool>)

  type Line = l: LineState | InRange(l.ring) witness LineState(false, false, RingOf(seq(SIZE, i => false), 0, 0))

  function Queue(l: Line): (q: seq<bool>)
    ensures |q| < SIZE
  {
    Contents(l.ring)
  }

  /** A bit is complete. */
  function Emit(l: Line, b: bool): (r: Line) { LineState(true, false, Push(l.ring, b)) }

  /** Out of sync: the bits so far are dropped. */
  function Drop(l: Line): (r: Line) { l.(ring := l.ring.(readPtr := l.ring.writePtr)) }

  lemma EmitQueue(l: Line, b: bool)
    ensures Queue(Emit(l, b)) == Newest(Queue(l) + [b])
    ensures Queue(Drop(l)) == []
  {
    PushKeepsNewest(l.ring, b);
  }

  ghost predicate Fresh(l: Line) { !l.lockedIn && !l.shortChange && Queue(l) == [] }

  // ---- Manchester -----------------------------------------------------------------

  /** A long pulse is a bit. Two short ones are a bit, the first of them starting at a high pulse. */
  function ManchesterStep(l: Line, p: Pulse, longClocks: nat): (r: Line) {
    if Clocks(p) == longClocks then Emit(if l.shortChange then Drop(l) else l, Polarity(p))
    else if !l.lockedIn then
      if Polarity(p) then l.(shortChange := true, lockedIn := true) else l
    else if l.shortChange then Emit(l, Polarity(p))
    else l.(shortChange := true)
  }

  function ManchesterRun(l: Line, pulses: seq<Pulse>, longClocks: nat): (r: Line) {
    if |pulses| == 0 then l
    else ManchesterStep(ManchesterRun(l, pulses[..|pulses| - 1], longClocks), pulses[|pulses| - 1], longClocks)
  }

  /** Splitting the pulses over two calls changes nothing. */
  lemma {:induction false} ManchesterChunks(l: Line, a: seq<Pulse>, b: seq<Pulse>, longClocks: nat)
    ensures ManchesterRun(l, a + b, longClocks) == ManchesterRun(ManchesterRun(l, a, longClocks), b, longClocks)
  {
    hide ManchesterStep;
    if |b| == 0 {
      assert a + b == a;
    } else {
      ManchesterChunks(l, a, b[..|b| - 1], longClocks);
      assert (a + b)[..|a + b| - 1] == a + b[..|b| - 1];
    }
  }

  ghost predicate Synced(l: Line) { l.lockedIn && !l.shortChange }

  lemma ManchesterBitDecoded(l: Line, a: bool, b: bool, half: nat)
    requires IsRate(half) && (Synced(l) || a != b)
    ensures var e := ManchesterRun(l, ManchesterBit(a, b, half), 2 * half);
      Synced(e) && Queue(e) == Newest((if l.shortChange then [] else Queue(l)) + [b])
  {
    var p := ManchesterBit(a, b, half);
    EmitQueue(l, b);
    EmitQueue(Drop(l), b);
    if a == b {
      assert p[..1] == [p[0]];
      assert ManchesterRun(l, p[..1], 2 * half) == l.(shortChange := true);
      EmitQueue(l.(shortChange := true), b);
    }
  }

  /** From any state, the pulses of a bit string that begins with a long pulse give back exactly its bits,
      behind whatever the ring held unless the decoder was out of sync. */
  lemma {:induction false} ManchesterInverse(l: Line, a: bool, bits: seq<bool>, half: nat)
    requires IsRate(half) && |bits| > 0 && (Synced(l) || bits[0] != a)
    ensures var e := ManchesterRun(l, ManchesterPulses(a, bits, half), 2 * half);
      Synced(e) && Queue(e) == Newest((if l.shortChange then [] else Queue(l)) + bits)
  {
    hide ManchesterStep, ManchesterBit, Queue, Newest, IsRate;
    var k := |bits| - 1;
    var init, kept := bits[..k], if l.shortChange then [] else Queue(l);
    var p := ManchesterPulses(a, init, half);
    ManchesterChunks(l, p, ManchesterBit(Before(a, bits, k), bits[k], half), 2 * half);
    var m := ManchesterRun(l, p, 2 * half);
    if k == 0 {
      assert m == l && bits == [bits[0]];
    } else {
      ManchesterInverse(l, a, init, half);
      NewestOfNewest(kept + init, [bits[k]]);
      assert kept + init + [bits[k]] == kept + bits;
    }
    ManchesterBitDecoded(m, Before(a, bits, k), bits[k], half);
  }

  // ---- biphase --------------------------------------------------------------------

  datatype Outcome = Outcome(ok: bool, line: Line)

  /** A long pulse is a one, two short ones are a zero, anything else is not biphase. */
  function BiphaseStep(l: Line, p: Pulse, shortClocks: nat, longClocks: nat): (r: Outcome) {
    if Clocks(p) == longClocks then Outcome(true, Emit(l, true))
    else if Clocks(p) == shortClocks then
      Outcome(true, if l.lockedIn && l.shortChange then Emit(l, false) else l.(shortChange := true))
    else Outcome(false, Drop(l).(lockedIn := false))
  }

  function BiphaseRun(l: Line, pulses: seq<Pulse>, shortClocks: nat, longClocks: nat): (r: Outcome) {
    if |pulses| == 0 then Outcome(true, l)
    else
      var r := BiphaseRun(l, pulses[..|pulses| - 1], shortClocks, longClocks);
      if r.ok then BiphaseStep(r.line, pulses[|pulses| - 1], shortClocks, longClocks) else r
  }

  /** Splitting the pulses over two calls changes nothing, unless the first call stops at a pulse that
      is not biphase: then it skips the rest of its own pulses only. */
  lemma {:induction false} BiphaseChunks(l: Line, a: seq<Pulse>, b: seq<Pulse>, shortClocks: nat, longClocks: nat)
    ensures var r := BiphaseRun(l, a, shortClocks, longClocks);
      BiphaseRun(l, a + b, shortClocks, longClocks)
        == if r.ok then BiphaseRun(r.line, b, shortClocks, longClocks) else r
  {
    hide BiphaseStep;
    if |b| == 0 {
      assert a + b == a;
    } else {
      BiphaseChunks(l, a, b[..|b| - 1], shortClocks, longClocks);
      assert (a + b)[..|a + b| - 1] == a + b[..|b| - 1];
    }
  }

  /** It stops exactly when some pulse is of neither length. */
  lemma {:induction false} BiphaseStops(l: Line, pulses: seq<Pulse>, shortClocks: nat, longClocks: nat)
    ensures BiphaseRun(l, pulses, shortClocks, longClocks).ok
       <==> forall i :: 0 <= i < |pulses| ==> Clocks(pulses[i]) in {shortClocks, longClocks}
  {
    if |pulses| > 0 {
      var init := pulses[..|pulses| - 1];
      BiphaseStops(l, init, shortClocks, longClocks);
      assert pulses == init + [pulses[|pulses| - 1]];
    }
  }

  lemma BiphaseBitDecoded(l: Line, level: bool, b: bool, half: nat)
    requires IsRate(half) && (Synced(l) || b)
    ensures var e := BiphaseRun(l, BiphaseBit(level, b, half), half, 2 * half);
      e.ok && Synced(e.line) && Queue(e.line) == Newest(Queue(l) + [b])
  {
    var p := BiphaseBit(level, b, half);
    EmitQueue(l, b);
    if !b {
      assert p[..1] == [p[0]];
      var m := l.(shortChange := true);
      assert BiphaseRun(l, p[..1], half, 2 * half) == Outcome(true, m);
      EmitQueue(m, b);
    }
  }

  /** From any state, the pulses of a bit string that begins with a long pulse give back exactly its bits,
      behind whatever the ring held. */
  lemma {:induction false} BiphaseInverse(l: Line, level: bool, bits: seq<bool>, half: nat)
    requires IsRate(half) && |bits| > 0 && (Synced(l) || bits[0])
    ensures exists m :: BiphaseRun(l, BiphasePulses(level, bits, half), half, 2 * half) == Outcome(true, m)
              && Synced(m) && Queue(m) == Newest(Queue(l) + bits)
  {
    hide BiphaseStep, BiphaseBit, Queue, Newest, IsRate;
    var k := |bits| - 1;
    var init := bits[..k];
    var p := BiphasePulses(level, init, half);
    BiphaseChunks(l, p, BiphaseBit(LevelAfter(level, init), bits[k], half), half, 2 * half);
    var m := BiphaseRun(l, p, half, 2 * half);
    if k == 0 {
      assert m == Outcome(true, l) && bits == [bits[0]];
    } else {
      BiphaseInverse(l, level, init, half);
      NewestOfNewest(Queue(l) + init, [bits[k]]);
      assert Queue(l) + init + [bits[k]] == Queue(l) + bits;
    }
    BiphaseBitDecoded(m.line, LevelAfter(level, init), bits[k], half);
  }
}
