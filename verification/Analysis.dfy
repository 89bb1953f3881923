/** analyze_data as a function of what the reader holds: the queued pulses, the measured pulse lengths
    and the two line decoders. */
module Analysis {
  import opened Ring
  import opened Pulses
  import opened LineDecoders
  import Em4100Decoder
  import FdxBDecoder
  import PhidgetsTagDecoder

  datatype Protocol = EM4100 | ISO11785_FDX_B | PHIDGETS

  /** A tag handed to tagEvent. */
  datatype Read = Read(protocol: Protocol, tagString: string)

  datatype State = State(pulses: seq<Pulse>, shortClocks: nat, longClocks: nat, man: Line, biphase: Line)

  // ---- resetValuesFromSpace -------------------------------------------------------

  function Cleared(l: Line): (r: Line) { LineState(false, false, RingOf(l.ring.data, 0, 0)) }

  function Reset(s: State): (r: State) {
    State(s.pulses, 0, 0, Cleared(s.man), Cleared(s.biphase))
  }

  // ---- measuring ------------------------------------------------------------------

  /** How far the pulses fit together, up to a pause or the end, and the two lengths seen. */
  datatype Measure = Measure(fits: bool, n: nat, shortClocks: nat, longClocks: nat)

  function MeasureFrom(pulses: seq<Pulse>, i: nat, shortClocks: nat, longClocks: nat): (m: Measure)
    requires i <= |pulses|
    ensures i <= m.n <= |pulses| && (!m.fits ==> m.n < |pulses|)
    decreases |pulses| - i
  {
    if i == |pulses| || pulses[i].Space? then Measure(true, i, shortClocks, longClocks)
    else
      var clocks := Clocks(pulses[i]);
      if shortClocks == 0 then MeasureFrom(pulses, i + 1, clocks, longClocks)
      else if clocks == shortClocks then MeasureFrom(pulses, i + 1, shortClocks, longClocks)
      else if longClocks == 0 then
        if shortClocks * 2 == clocks || shortClocks / 2 == clocks then MeasureFrom(pulses, i + 1, shortClocks, clocks)
        else Measure(false, i, shortClocks, longClocks)
      else if clocks == longClocks then MeasureFrom(pulses, i + 1, shortClocks, longClocks)
      else Measure(false, i, shortClocks, longClocks)
  }

  // ---- decoding -------------------------------------------------------------------

  /** The entries a tag decoder can see. */
  function Seen(l: Line): (q: seq<bool>) { Held(l.ring.data, l.ring.readPtr, Reach(l.ring.readPtr, l.ring.writePtr)) }

  ghost predicate Empty(l: Line) { l.ring.readPtr == l.ring.writePtr }

  function Consumed(l: Line, n: nat): (r: Line) { l.(ring := l.ring.(readPtr := (l.ring.readPtr + n) % SIZE)) }

  /** The decoders on a ring, and what they take from it. */
  ghost function TakeEM4100(l: Line): (r: (Line, seq<Read>)) {
    match Em4100Decoder.Decoded(Seen(l), Empty(l))
    case NotFound => (l, [])
    case Tag(t) => (Consumed(l, 64), [Read(EM4100, t)])
  }

  ghost function TakePhidgets(l: Line): (r: (Line, seq<Read>)) {
    match PhidgetsTagDecoder.Decoded(Seen(l), Empty(l))
    case NotFound => (l, [])
    case Tag(t) => (Consumed(l, 224), [Read(PHIDGETS, t)])
  }

  ghost function TakeFdxB(l: Line): (r: (Line, seq<Read>)) {
    match FdxBDecoder.Decoded(Seen(l), Empty(l))
    case NotFound => (l, [])
    case Tag(t) => (Consumed(l, 128), [Read(ISO11785_FDX_B, t)])
  }

  ghost function TakeBiphase(r: Outcome): (t: (Line, seq<Read>)) {
    if !r.ok then (r.line, [])
    else
      var (a, first) := TakePhidgets(r.line);
      var (b, second) := TakeFdxB(a);
      (b, first + second)
  }

  /** The first n pulses go into both line decoders, and the tags they complete are read. */
  ghost function Decode(s: State, n: nat): (r: (State, seq<Read>))
    requires n <= |s.pulses|
    ensures r.0.pulses == s.pulses[n..]
    ensures r.0.shortClocks == s.shortClocks && r.0.longClocks == s.longClocks
  {
    var (man, a) := TakeEM4100(ManchesterRun(s.man, s.pulses[..n], s.longClocks));
    var (biphase, b) := TakeBiphase(BiphaseRun(s.biphase, s.pulses[..n], s.shortClocks, s.longClocks));
    (State(s.pulses[n..], s.shortClocks, s.longClocks, man, biphase), a + b)
  }

  // ---- the loop -------------------------------------------------------------------

  function SkipSpaces(s: State): (r: State)
    ensures |r.pulses| <= |s.pulses|
    ensures |r.pulses| > 0 ==> !r.pulses[0].Space?
    ensures |s.pulses| > 0 && !s.pulses[0].Space? ==> r == s
    decreases |s.pulses|
  {
    if |s.pulses| > 0 && s.pulses[0].Space? then SkipSpaces(Reset(s.(pulses := s.pulses[1..]))) else s
  }

  function Ordered(s: State): (r: State) {
    if s.longClocks < s.shortClocks then s.(shortClocks := s.longClocks, longClocks := s.shortClocks) else s
  }

  /** One round from the label start: the new state, the tags read, and whether it goes round again. */
  datatype Round = Round(again: bool, state: State, tags: seq<Read>)

  ghost function OneRound(s0: State): (r: Round)
    ensures r.again ==> |r.state.pulses| < |s0.pulses|
  {
    var s := SkipSpaces(s0);
    var m := MeasureFrom(s.pulses, 0, s.shortClocks, s.longClocks);
    if !m.fits then Round(true, Reset(s.(pulses := s.pulses[1..])), [])
    else
      MeasureAdvances(s.pulses, s.shortClocks, s.longClocks);
      var t := s.(shortClocks := m.shortClocks, longClocks := m.longClocks);
      if t.shortClocks == 0 || t.longClocks == 0 then
        if m.n != |t.pulses| then Round(true, t.(pulses := t.pulses[m.n..]), []) else Round(false, t, [])
      else
        var (u, tags) := Decode(Ordered(t), m.n);
        Round(|u.pulses| > 0, u, tags)
  }

  lemma MeasureAdvances(pulses: seq<Pulse>, shortClocks: nat, longClocks: nat)
    requires MeasureFrom(pulses, 0, shortClocks, longClocks).fits
    ensures |pulses| > 0 && !pulses[0].Space? ==> MeasureFrom(pulses, 0, shortClocks, longClocks).n > 0
  {
  }

  /** analyze_data: every restart leaves fewer pulses queued. */
  ghost function Analyze(s: State): (r: (State, seq<Read>))
    decreases |s.pulses|
  {
    var round := OneRound(s);
    if !round.again then (round.state, round.tags)
    else
      var (t, tags) := Analyze(round.state);
      (t, round.tags + tags)
  }

  /** dataInput with one packet of pulses. */
  ghost function Feed(st: State, packet: seq<Pulse>): (r: (State, seq<Read>)) {
    Analyze(st.(pulses := Newest(st.pulses + packet)))
  }

  // ---- what it leaves behind ------------------------------------------------------

  /** Pulses of at most two lengths, one twice the other; 0 is a length not seen yet. */
  ghost predicate Rates(a: nat, b: nat) {
    && (a == 0 || a in {16, 32, 48, 64, 128})
    && (b == 0 || (a > 0 && b in {16, 32, 48, 64, 128} && (a * 2 == b || b * 2 == a)))
  }

  ghost predicate FitRates(pulses: seq<Pulse>, n: nat, a: nat, b: nat)
    requires n <= |pulses|
  {
    forall i :: 0 <= i < n ==> pulses[i].Edge? && pulses[i].clocks in {a, b}
  }

  lemma {:induction false} MeasureRates(pulses: seq<Pulse>, i: nat, a: nat, b: nat)
    requires i <= |pulses| && Rates(a, b) && FitRates(pulses, i, a, b)
    ensures var m := MeasureFrom(pulses, i, a, b);
      Rates(m.shortClocks, m.longClocks) && FitRates(pulses, m.n, m.shortClocks, m.longClocks)
    decreases |pulses| - i
  {
    if i < |pulses| && !pulses[i].Space? {
      var clocks := Clocks(pulses[i]);
      if a == 0 {
        MeasureRates(pulses, i + 1, clocks, b);
      } else if clocks == a {
        MeasureRates(pulses, i + 1, a, b);
      } else if b == 0 {
        if a * 2 == clocks || a / 2 == clocks { MeasureRates(pulses, i + 1, a, clocks); }
      } else if clocks == b {
        MeasureRates(pulses, i + 1, a, b);
      }
    }
  }

  lemma {:induction false} SkipSpacesRates(s: State)
    requires Rates(s.shortClocks, s.longClocks)
    ensures Rates(SkipSpaces(s).shortClocks, SkipSpaces(s).longClocks)
    decreases |s.pulses|
  {
    if |s.pulses| > 0 && s.pulses[0].Space? { SkipSpacesRates(Reset(s.(pulses := s.pulses[1..]))); }
  }

  /** Every pulse handed to the line decoders is of one of the two measured lengths, so the biphase
      decoder never meets a pulse it must refuse. */
  lemma BiphaseNeverRefuses(s0: State)
    requires Rates(s0.shortClocks, s0.longClocks)
    ensures var s := SkipSpaces(s0);
      var m := MeasureFrom(s.pulses, 0, s.shortClocks, s.longClocks);
      var t := Ordered(s.(shortClocks := m.shortClocks, longClocks := m.longClocks));
      BiphaseRun(s.biphase, s.pulses[..m.n], t.shortClocks, t.longClocks).ok
  {
    hide SkipSpaces, MeasureFrom, BiphaseRun;
    SkipSpacesRates(s0);
    var s := SkipSpaces(s0);
    MeasureRates(s.pulses, 0, s.shortClocks, s.longClocks);
    var m := MeasureFrom(s.pulses, 0, s.shortClocks, s.longClocks);
    var t := Ordered(s.(shortClocks := m.shortClocks, longClocks := m.longClocks));
    BiphaseStops(s.biphase, s.pulses[..m.n], t.shortClocks, t.longClocks);
  }

  /** Nothing is queued, or a run of pulses of one single length. */
  ghost predicate Waiting(s: State) {
    && (|s.pulses| > 0 ==> s.longClocks == 0)
    && FitRates(s.pulses, |s.pulses|, s.shortClocks, s.shortClocks)
  }

  lemma OneRoundRates(s: State)
    requires Rates(s.shortClocks, s.longClocks)
    ensures Rates(OneRound(s).state.shortClocks, OneRound(s).state.longClocks)
    ensures !OneRound(s).again ==> Waiting(OneRound(s).state)
  {
    hide Decode, SkipSpaces, MeasureFrom;
    SkipSpacesRates(s);
    var t := SkipSpaces(s);
    MeasureRates(t.pulses, 0, t.shortClocks, t.longClocks);
    var m := MeasureFrom(t.pulses, 0, t.shortClocks, t.longClocks);
  }

  /** Whatever the pulses, analysis ends with all of them used up, or with a run of pulses of one single
      length that waits for a pulse of another. */
  lemma {:induction false} AnalyzeLeavesOneLength(s: State)
    requires Rates(s.shortClocks, s.longClocks)
    ensures Rates(Analyze(s).0.shortClocks, Analyze(s).0.longClocks) && Waiting(Analyze(s).0)
    decreases |s.pulses|
  {
    hide OneRound;
    OneRoundRates(s);
    var round := OneRound(s);
    if round.again { AnalyzeLeavesOneLength(round.state); }
  }
}
