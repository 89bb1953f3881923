/** An endless biphase stream, heard from anywhere. */
module BiphaseStream {
  // The pulses of a biphase code are those of the Manchester code of its levels: both are long where the level
  // changes and two short ones where it stays. So the streams are the same, and f tells the level after each bit.

  import opened Ring
  import opened Pulses
  import opened LineDecoders
  import opened Stream

  /** The bits whose biphase code has these levels: a one wherever the level changes. */
  function Toggles(f: Bits): (b: Bits) { (n: nat) => n > 0 && f(n) != f(n - 1) }

  /** Between whole bits the stream is what BiphasePulses encodes. */
  lemma {:induction false} PlayedIsBiphase(f: Bits, half: nat, k: nat)
    requires IsRate(half)
    ensures var p := PosAfter(f, Pos(0, false), k);
      && Played(f, half, Pos(0, false), k)
         == BiphasePulses(f(0), Some(Toggles(f), p.n), half) + (if p.mid then [Edge(!f(p.n + 1), half)] else [])
      && LevelAfter(f(0), Some(Toggles(f), p.n)) == f(p.n)
  {
    hide IsRate, BiphasePulses, LevelAfter, Some, Toggles, Played, PosAfter, BiphaseBit;
    if k > 0 {
      PlayedIsBiphase(f, half, k - 1);
      var p := PosAfter(f, Pos(0, false), k - 1);
      PlayedNext(f, half, Pos(0, false), k - 1);
      OneMoreBeat(f, half, p.n);
      BeatsOfBit(f, half, p.n);
      var done, next := BiphasePulses(f(0), Some(Toggles(f), p.n), half), NextPulse(f, half, p);
      if p.mid {
        assert done + [Edge(!f(p.n + 1), half)] + [next] == done + [Edge(!f(p.n + 1), half), next];
      } else {
        assert done + [] + [next] == done + [next];
        assert done + [next] + [] == done + [next];
      }
    } else {
      NoBeats(f, half);
    }
  }

  lemma PlayedNext(f: Bits, half: nat, p: Pos, k: nat)
    requires IsRate(half) && IsPos(f, p)
    ensures Played(f, half, p, k + 1) == Played(f, half, p, k) + [NextPulse(f, half, PosAfter(f, p, k))]
    ensures PosAfter(f, p, k + 1) == NextPos(f, PosAfter(f, p, k))
  {
  }

  lemma BeatsOfBit(f: Bits, half: nat, n: nat)
    requires IsRate(half)
    ensures BiphaseBit(f(n), f(n + 1) != f(n), half)
         == if f(n + 1) != f(n) then [Edge(f(n + 1), 2 * half)] else [Edge(!f(n + 1), half), Edge(f(n + 1), half)]
  {
  }

  lemma NoBeats(f: Bits, half: nat)
    requires IsRate(half)
    ensures BiphasePulses(f(0), Some(Toggles(f), 0), half) == [] && LevelAfter(f(0), Some(Toggles(f), 0)) == f(0)
    ensures Played(f, half, Pos(0, false), 0) == [] && PosAfter(f, Pos(0, false), 0) == Pos(0, false)
  {
  }

  lemma OneMoreBeat(f: Bits, half: nat, n: nat)
    requires IsRate(half) && LevelAfter(f(0), Some(Toggles(f), n)) == f(n)
    ensures BiphasePulses(f(0), Some(Toggles(f), n + 1), half)
         == BiphasePulses(f(0), Some(Toggles(f), n), half) + BiphaseBit(f(n), f(n + 1) != f(n), half)
    ensures LevelAfter(f(0), Some(Toggles(f), n + 1)) == f(n + 1)
  {
    var b := Some(Toggles(f), n + 1);
    assert b[..n] == Some(Toggles(f), n) && b[n] == (f(n + 1) != f(n));
  }

  // ---- the decoder on the stream --------------------------------------------------

  /** In step with the stream: everything in the ring was sent, and the phase is right. */
  ghost predicate OnTheBeat(l: Line, f: Bits, p: Pos) {
    l.lockedIn && l.shortChange == p.mid && Latest(Queue(l), Toggles(f), p.n)
  }

  lemma BeatStep(l: Line, f: Bits, half: nat, p: Pos)
    requires IsRate(half) && IsPos(f, p) && OnTheBeat(l, f, p)
    ensures var o, p' := BiphaseStep(l, NextPulse(f, half, p), half, 2 * half), NextPos(f, p);
      && o.ok && OnTheBeat(o.line, f, p')
      && Queue(o.line) == if p'.n == p.n then Queue(l) else Newest(Queue(l) + [Toggles(f)(p.n + 1)])
  {
    hide Queue, Newest;
    EmitQueue(l, Toggles(f)(p.n + 1));
    LatestNext(Queue(l), Toggles(f), p.n);
    SameQueue(l);
  }

  // What m more pulses do to a decoder on the beat: it stays there and queues every bit.
  ghost predicate KeepsTheBeat(l: Line, f: Bits, half: nat, p: Pos, m: nat)
    requires IsRate(half) && IsPos(f, p)
  {
    var o, p' := BiphaseRun(l, Played(f, half, p, m), half, 2 * half), PosAfter(f, p, m);
    && o.ok && OnTheBeat(o.line, f, p') && p.n <= p'.n <= p.n + m
    && Grown(Queue(l), Queue(o.line), p'.n - p.n)
    && (AllCaught(Queue(l), f, p.n) ==> AllCaught(Queue(o.line), f, p'.n))
  }

  // A queue that grew by n bits, as far as there was room.
  ghost predicate Grown(q: seq<bool>, r: seq<bool>, n: nat) {
    && (|q| > 0 ==> |r| > 0) && |r| <= |q| + n
    && (|q| + n < SIZE ==> |r| == |q| + n && r[..|q|] == q)
  }

  lemma {:induction false} StaysOnTheBeat(l: Line, f: Bits, half: nat, p: Pos, m: nat)
    requires IsRate(half) && IsPos(f, p) && OnTheBeat(l, f, p)
    ensures KeepsTheBeat(l, f, half, p, m)
  {
    hide KeepsTheBeat, IsRate, OnTheBeat, Queue;
    if m == 0 {
      NoMoreBeats(l, f, half, p);
    } else {
      StaysOnTheBeat(l, f, half, p, m - 1);
      NextBeatKept(l, f, half, p, m - 1);
    }
  }

  lemma NoMoreBeats(l: Line, f: Bits, half: nat, p: Pos)
    requires IsRate(half) && IsPos(f, p) && OnTheBeat(l, f, p)
    ensures KeepsTheBeat(l, f, half, p, 0)
  {
    hide IsRate, OnTheBeat, Queue, AllCaught;
    assert Queue(l)[..|Queue(l)|] == Queue(l);
  }

  lemma NextBeatKept(l: Line, f: Bits, half: nat, p: Pos, m: nat)
    requires IsRate(half) && IsPos(f, p) && KeepsTheBeat(l, f, half, p, m)
    ensures KeepsTheBeat(l, f, half, p, m + 1)
  {
    hide Queue, Newest, BiphaseStep, IsRate, NextPulse, OnTheBeat, AllCaught, Grown, Played, PosAfter, BiphaseRun, Toggles, IsPos;
    var p' := PosAfter(f, p, m);
    var e := BiphaseRun(l, Played(f, half, p, m), half, 2 * half).line;
    BiphaseRunNext(l, f, half, p, m);
    BeatStep(e, f, half, p');
    if AllCaught(Queue(e), f, p'.n) { AllCaughtNext(Queue(e), Toggles(f)(p'.n + 1), f, p'.n); }
    GrownNext(Queue(l), Queue(e), p'.n - p.n, Toggles(f)(p'.n + 1));
  }

  lemma BiphaseRunNext(l: Line, f: Bits, half: nat, p: Pos, m: nat)
    requires IsRate(half) && IsPos(f, p)
    ensures PosAfter(f, p, m + 1) == NextPos(f, PosAfter(f, p, m))
    ensures var o := BiphaseRun(l, Played(f, half, p, m), half, 2 * half);
      BiphaseRun(l, Played(f, half, p, m + 1), half, 2 * half)
      == if o.ok then BiphaseStep(o.line, NextPulse(f, half, PosAfter(f, p, m)), half, 2 * half) else o
  {
    hide BiphaseStep, NextPulse, NextPos;
    var pulses := Played(f, half, p, m);
    assert (pulses + [NextPulse(f, half, PosAfter(f, p, m))])[..m] == pulses;
  }

  lemma GrownNext(q: seq<bool>, r: seq<bool>, n: nat, b: bool)
    requires Grown(q, r, n) && |r| < SIZE
    ensures Grown(q, Newest(r + [b]), n + 1)
  {
  }

  /** Before the first one nothing is queued; from it on everything is, and the decoder is on the beat. */
  ghost predicate Hearing(l: Line, f: Bits, p: Pos) {
    if Changed(f, p.n) then
      OnTheBeat(l, f, p) && AllCaught(Queue(l), f, p.n) && |Queue(l)| > 0 && (|Queue(l)| < SIZE - 1 ==> Queue(l)[0])
    else !l.lockedIn && Queue(l) == []
  }

  lemma HearingStep(l: Line, f: Bits, half: nat, p: Pos)
    requires IsRate(half) && IsPos(f, p) && Hearing(l, f, p)
    ensures var o := BiphaseStep(l, NextPulse(f, half, p), half, 2 * half); o.ok && Hearing(o.line, f, NextPos(f, p))
  {
    if Changed(f, p.n) {
      HeardMore(l, f, half, p);
    } else if f(p.n + 1) == f(p.n) {
      hide Queue;
      EmitQueue(l, false);
      SameQueue(l);
      StillUnchanged(f, p.n);
    } else {
      FirstHeard(l, f, half, p);
    }
  }

  lemma HeardMore(l: Line, f: Bits, half: nat, p: Pos)
    requires IsRate(half) && IsPos(f, p) && Hearing(l, f, p) && Changed(f, p.n)
    ensures var o := BiphaseStep(l, NextPulse(f, half, p), half, 2 * half); o.ok && Hearing(o.line, f, NextPos(f, p))
  {
    hide Queue, BiphaseStep, OnTheBeat, AllCaught, NextPulse, Toggles;
    var p', b := NextPos(f, p), Toggles(f)(p.n + 1);
    BeatStep(l, f, half, p);
    AllCaughtNext(Queue(l), b, f, p.n);
    assert Changed(f, p'.n);
    assert |Queue(l) + [b]| > 0;
  }

  lemma FirstHeard(l: Line, f: Bits, half: nat, p: Pos)
    requires IsRate(half) && IsPos(f, p) && Hearing(l, f, p) && !Changed(f, p.n) && f(p.n + 1) != f(p.n)
    ensures var o := BiphaseStep(l, NextPulse(f, half, p), half, 2 * half); o.ok && Hearing(o.line, f, NextPos(f, p))
  {
    hide Queue, AllCaught, Latest, Changed, Push;
    EmitQueue(l, true);
    FirstChange(f, p.n);
    assert [] + [true] == [true];
  }

  lemma FirstChange(f: Bits, n: nat)
    requires !Changed(f, n) && f(n + 1) != f(n)
    ensures Changed(f, n + 1) && AllCaught([true], f, n + 1) && Latest([true], Toggles(f), n + 1)
  {
    assert n > 0 ==> f(n) == f(0);
    assert f(n + 1) != f(0);
  }

  lemma StillUnchanged(f: Bits, n: nat)
    requires !Changed(f, n) && f(n + 1) == f(n)
    ensures !Changed(f, n + 1)
  {
  }

  /** A fresh decoder that starts listening anywhere in a biphase stream, even inside a bit, queues exactly its
      bits from the first one on. */
  lemma {:induction false} HeardFromFirstOne(l: Line, f: Bits, half: nat, mid: bool, k: nat)
    requires IsRate(half) && Fresh(l) && IsPos(f, Pos(0, mid))
    ensures var o := BiphaseRun(l, Played(f, half, Pos(0, mid), k), half, 2 * half);
      o.ok && Hearing(o.line, f, PosAfter(f, Pos(0, mid), k))
  {
    hide IsRate, Queue, BiphaseStep, NextPulse;
    if k > 0 {
      HeardFromFirstOne(l, f, half, mid, k - 1);
      BiphaseRunNext(l, f, half, Pos(0, mid), k - 1);
      hide Hearing, Played, PosAfter, BiphaseRun;
      HearingStep(BiphaseRun(l, Played(f, half, Pos(0, mid), k - 1), half, 2 * half).line, f, half, PosAfter(f, Pos(0, mid), k - 1));
    } else {
      StartsHearing(l, f, mid);
    }
  }

  lemma StartsHearing(l: Line, f: Bits, mid: bool)
    requires Fresh(l)
    ensures Hearing(l, f, Pos(0, mid))
  {
  }
}
