/** The one-packet output queue and its threads. */
module OutputQueue {
  // Any number of threads in sendpacket, and the write thread in CPhidget_write with getPacket: one step for
  // each stretch under the output lock and for each change of an event.

  import opened Words

  type Report = p: seq<Byte> | |p| > 0 witness [seq(8, i => false)]

  /** Where a thread is: not in sendpacket, before the lock, waiting for the written event, or with its
      packet in the queue and about to signal. */
  datatype Sender = Outside | Trying(packet: Report) | Waiting(packet: Report) | Signalling(packet: Report)

  /** Where the write thread is: waiting, between resetting its event and getPacket, or sending what it got. */
  datatype Writer = Idle | Fetching | Sending

  datatype Result = Zero | NotAttached | Unexpected | Timeout

  datatype State = State(
    outputPacket: seq<Byte>,       // empty when outputPacketLen is 0
    writeAvailable: bool,
    writtenEvent: bool,
    attached: bool,
    senders: seq<Sender>,
    writer: Writer,
    // what has happened so far
    accepted: seq<Report>,         // packets put into the queue
    taken: seq<Report>,            // packets that getPacket returned with a length above zero
    zeros: multiset<Report>,       // packets whose sendpacket returned 0
    failures: nat                  // how often it returned something else
  )

  ghost predicate Init(s: State) {
    && s.outputPacket == [] && s.writer == Idle && (forall i :: 0 <= i < |s.senders| ==> s.senders[i] == Outside)
    && s.accepted == [] && s.taken == [] && s.zeros == multiset{} && s.failures == 0
  }

  // ---- sendpacket -----------------------------------------------------------------

  function Returns(s: State, i: nat, r: Result): State
    requires i < |s.senders| && r != Zero
  {
    s.(senders := s.senders[i := Outside], failures := s.failures + 1)
  }

  ghost predicate SenderStep(s: State, t: State, i: nat)
    requires i < |s.senders|
  {
    match s.senders[i]
    case Outside => exists p: Report :: t == s.(senders := s.senders[i := Trying(p)])
    case Trying(p) =>
      if !s.attached then t == Returns(s, i, NotAttached)
      else if s.outputPacket != [] then t == s.(senders := s.senders[i := Waiting(p)])
      else t == s.(outputPacket := p, writtenEvent := false, senders := s.senders[i := Signalling(p)],
                   accepted := s.accepted + [p])
    case Waiting(p) =>
      || (s.writtenEvent && t == s.(senders := s.senders[i := Trying(p)]))
      || t == Returns(s, i, Timeout) || t == Returns(s, i, Unexpected)
    case Signalling(p) =>
      t == s.(writeAvailable := true, senders := s.senders[i := Outside], zeros := s.zeros + multiset{p})
  }

  // ---- CPhidget_write -------------------------------------------------------------

  ghost predicate WriterStep(s: State, t: State) {
    match s.writer
    case Idle => t == s.(writeAvailable := false, writer := Fetching)   // signalled, or after 200 ms
    case Fetching =>
      t == s.(outputPacket := [], writer := Sending, taken := s.taken + if s.outputPacket == [] then [] else [s.outputPacket])
    case Sending => t == s.(writtenEvent := true, writer := Idle)
  }

  ghost predicate Next(s: State, t: State) {
    || (exists i :: 0 <= i < |s.senders| && SenderStep(s, t, i))
    || WriterStep(s, t)
    || t == s.(attached := !s.attached)
  }

  ghost predicate IsRun(run: seq<State>) {
    |run| > 0 && Init(run[0]) && forall i :: 0 <= i < |run| - 1 ==> Next(run[i], run[i + 1])
  }

  // ---- the invariant --------------------------------------------------------------

  function OneOf(s: Sender): (m: multiset<Report>) { if s.Signalling? then multiset{s.packet} else multiset{} }

  /** The packets of threads that have put them into the queue and not returned yet. */
  function Returning(senders: seq<Sender>): (m: multiset<Report>) {
    if |senders| == 0 then multiset{}
    else Returning(senders[..|senders| - 1]) + OneOf(senders[|senders| - 1])
  }

  lemma {:induction false} ReturningUpdate(senders: seq<Sender>, i: nat, s: Sender)
    requires i < |senders|
    ensures Returning(senders[i := s]) + OneOf(senders[i]) == Returning(senders) + OneOf(s)
  {
    hide OneOf;
    var k := |senders| - 1;
    var a, last := Returning(senders[..k]), OneOf(senders[k]);
    if i < k {
      ReturningUpdate(senders[..k], i, s);
      assert senders[i := s][..k] == senders[..k][i := s];
      Exchange(Returning(senders[..k][i := s]), OneOf(senders[i]), a, OneOf(s), last);
    } else {
      assert senders[i := s][..k] == senders[..k];
      Exchange(a, last, a, last, OneOf(s));
    }
  }

  lemma Exchange(a: multiset<Report>, b: multiset<Report>, c: multiset<Report>, d: multiset<Report>, e: multiset<Report>)
    requires a + b == c + d
    ensures (a + e) + b == (c + e) + d
  {
    assert (a + e) + b == (a + b) + e && (c + e) + d == (c + d) + e;
  }

  predicate SomeSignalling(senders: seq<Sender>) { exists i :: 0 <= i < |senders| && senders[i].Signalling? }

  ghost predicate InOrder(s: State) {
    s.accepted == s.taken + if s.outputPacket == [] then [] else [s.outputPacket]
  }

  ghost predicate Inv(s: State) {
    InOrder(s) && Accounted(s) && Woken(s) && Called(s)
  }

  ghost predicate Accounted(s: State) { multiset(s.accepted) == s.zeros + Returning(s.senders) }

  ghost predicate Woken(s: State) {
    s.outputPacket != [] ==> s.writeAvailable || s.writer == Fetching || SomeSignalling(s.senders)
  }

  predicate SomeWaiting(senders: seq<Sender>) { exists i :: 0 <= i < |senders| && senders[i].Waiting? }

  /** A caller that waits although the slot is empty has been called, or will be. */
  ghost predicate Called(s: State) {
    s.outputPacket == [] && SomeWaiting(s.senders) ==> s.writtenEvent || s.writer == Sending
  }

  lemma NothingReturning(senders: seq<Sender>)
    requires forall i :: 0 <= i < |senders| ==> senders[i] == Outside
    ensures Returning(senders) == multiset{}
  {
    if |senders| > 0 { NothingReturning(senders[..|senders| - 1]); }
  }

  lemma InvSender(s: State, t: State, i: nat)
    requires Inv(s) && i < |s.senders| && SenderStep(s, t, i)
    ensures Inv(t)
  {
    hide InOrder, Accounted, Woken, Called, SenderStep, SomeSignalling;
    OrderSender(s, t, i);
    AccountedSender(s, t, i);
    WokenSender(s, t, i);
    CalledSender(s, t, i);
  }

  lemma OrderSender(s: State, t: State, i: nat)
    requires InOrder(s) && i < |s.senders| && SenderStep(s, t, i)
    ensures InOrder(t)
  {
  }

  lemma AccountedSender(s: State, t: State, i: nat)
    requires Accounted(s) && i < |s.senders| && SenderStep(s, t, i)
    ensures Accounted(t)
  {
    hide Returning, OneOf, SenderStep;
    SenderMoves(s, t, i);
    ReturningUpdate(s.senders, i, t.senders[i]);
    Balance(multiset(s.accepted), s.zeros, Returning(s.senders), Returning(t.senders), OneOf(s.senders[i]), OneOf(t.senders[i]));
  }

  lemma Balance(a: multiset<Report>, z: multiset<Report>, r: multiset<Report>, r': multiset<Report>,
                o: multiset<Report>, n: multiset<Report>)
    requires a == z + r && r' + o == r + n
    ensures a + n == (z + o) + r'
  {
    assert (z + o) + r' == z + (r' + o) && z + (r + n) == (z + r) + n;
  }

  // What a step of one sender does to the list of senders and to the books.
  lemma SenderMoves(s: State, t: State, i: nat)
    requires i < |s.senders| && SenderStep(s, t, i)
    ensures |t.senders| == |s.senders| && t.senders == s.senders[i := t.senders[i]]
    ensures t.zeros == s.zeros + OneOf(s.senders[i])
    ensures multiset(t.accepted) == multiset(s.accepted) + OneOf(t.senders[i])
  {
    match s.senders[i]
    case Outside =>
    case Trying(p) =>
      if t.senders[i].Signalling? {
        assert t.accepted == s.accepted + [p];
        assert multiset(t.accepted) == multiset(s.accepted) + multiset{p};
      } else {
        assert t.accepted == s.accepted;
      }
    case Waiting(_) =>
    case Signalling(_) =>
  }

  lemma WokenSender(s: State, t: State, i: nat)
    requires Woken(s) && i < |s.senders| && SenderStep(s, t, i)
    ensures Woken(t)
  {
    hide SomeSignalling;
    StillSignalled(s, t, i);
  }

  lemma StillSignalled(s: State, t: State, i: nat)
    requires i < |s.senders| && SenderStep(s, t, i)
    ensures t.senders[i].Signalling? ==> SomeSignalling(t.senders)
    ensures SomeSignalling(s.senders) ==> t.writeAvailable || SomeSignalling(t.senders)
  {
    if t.senders[i].Signalling? {
    } else if SomeSignalling(s.senders) && !s.senders[i].Signalling? {
      var j :| 0 <= j < |s.senders| && s.senders[j].Signalling?;
      assert t.senders[j].Signalling?;
    }
  }

  lemma CalledSender(s: State, t: State, i: nat)
    requires Called(s) && i < |s.senders| && SenderStep(s, t, i)
    ensures Called(t)
  {
    if t.outputPacket == [] && SomeWaiting(t.senders) {
      var j :| 0 <= j < |t.senders| && t.senders[j].Waiting?;
      assert s.senders[j].Waiting?;
    }
  }

  lemma InvWriter(s: State, t: State)
    requires Inv(s) && WriterStep(s, t)
    ensures Inv(t)
  {
    hide Returning, SomeSignalling, SomeWaiting;
    match s.writer
    case Idle =>
    case Fetching =>
      assert t.accepted == s.accepted == t.taken + [];
    case Sending =>
  }

  lemma {:induction false} InvRun(run: seq<State>, n: nat)
    requires IsRun(run) && n < |run|
    ensures Inv(run[n])
  {
    hide Inv, SenderStep, WriterStep, Init;
    if n == 0 {
      InvInit(run[0]);
    } else {
      InvRun(run, n - 1);
      var s, t := run[n - 1], run[n - 1 + 1];
      assert Next(s, t);
      if i :| 0 <= i < |s.senders| && SenderStep(s, t, i) {
        InvSender(s, t, i);
      } else if WriterStep(s, t) {
        InvWriter(s, t);
      } else {
        InvAttached(s, t);
      }
    }
  }

  lemma InvInit(s: State)
    requires Init(s)
    ensures Inv(s)
  {
    NothingReturning(s.senders);
  }

  lemma InvAttached(s: State, t: State)
    requires Inv(s) && t == s.(attached := !s.attached)
    ensures Inv(t)
  {
  }

  // ---- what holds in every run ----------------------------------------------------

  /** The packets the write thread takes are the packets accepted, in order, none lost and none twice, apart
      from the one still in the queue. */
  lemma TakenInOrder(run: seq<State>, n: nat)
    requires IsRun(run) && n < |run|
    ensures var s := run[n];
      && s.taken <= s.accepted && |s.accepted| <= |s.taken| + 1
      && (|s.accepted| == |s.taken| + 1 <==> s.outputPacket != [])
      && (s.outputPacket != [] ==> s.accepted[|s.taken|] == s.outputPacket)
  {
    hide Returning;
    InvRun(run, n);
  }

  /** When every caller has returned, the packets taken or still queued are exactly those whose sendpacket
      returned 0. */
  lemma ZeroMeansAccepted(run: seq<State>, n: nat)
    requires IsRun(run) && n < |run| && forall i :: 0 <= i < |run[n].senders| ==> run[n].senders[i] == Outside
    ensures var s := run[n];
      multiset(s.taken) + (if s.outputPacket == [] then multiset{} else multiset{s.outputPacket}) == s.zeros
  {
    InvRun(run, n);
    NothingReturning(run[n].senders);
  }

  /** A call that fails leaves the queue and everything taken from it as it was. */
  lemma FailureContributesNothing(s: State, t: State)
    requires Next(s, t) && t.failures != s.failures
    ensures t.outputPacket == s.outputPacket && t.accepted == s.accepted && t.taken == s.taken && t.zeros == s.zeros
  {
    if i :| 0 <= i < |s.senders| && SenderStep(s, t, i) {
    } else {
    }
  }

  /** A packet in the queue is never forgotten: the write thread has been signalled, or will be. */
  lemma NoLostWakeup(run: seq<State>, n: nat)
    requires IsRun(run) && n < |run| && run[n].outputPacket != []
    ensures run[n].writeAvailable || run[n].writer == Fetching || SomeSignalling(run[n].senders)
  {
    hide Returning;
    InvRun(run, n);
  }

  // ---- the way back: callers that wait --------------------------------------------

  /** A caller that waits is never forgotten: when the slot is empty, the written event is set, or the write
      thread is about to set it. */
  lemma NoLostWrittenEvent(run: seq<State>, n: nat)
    requires IsRun(run) && n < |run| && run[n].outputPacket == [] && SomeWaiting(run[n].senders)
    ensures run[n].writtenEvent || run[n].writer == Sending
  {
    hide Returning;
    InvRun(run, n);
  }

  /** So with the write thread back at its wait, every caller that waits for the empty slot can try again, and a
      packet that is tried then is accepted. */
  lemma WaitingCanTry(run: seq<State>, n: nat, i: nat) returns (t: State, u: State)
    requires IsRun(run) && n < |run| && i < |run[n].senders| && run[n].senders[i].Waiting?
    requires run[n].outputPacket == [] && run[n].writer != Sending && run[n].attached
    ensures var p := run[n].senders[i].packet;
      && SenderStep(run[n], t, i) && t.senders[i] == Trying(p)
      && SenderStep(t, u, i) && u.senders[i] == Signalling(p) && u.accepted == run[n].accepted + [p] && u.outputPacket == p
  {
    var s, p := run[n], run[n].senders[i].packet;
    NoLostWrittenEvent(run, n);
    t := s.(senders := s.senders[i := Trying(p)]);
    u := t.(outputPacket := p, writtenEvent := false, senders := t.senders[i := Signalling(p)], accepted := t.accepted + [p]);
  }

  /** How many steps the write thread is away from calling those who wait. */
  function Distance(s: State): (d: nat)
    ensures d <= 4
  {
    if s.outputPacket == [] then (if s.writtenEvent then 0 else 1)
    else match s.writer
      case Fetching => 2
      case Idle => 3
      case Sending => 4
  }

  lemma WriterComesNearer(s: State, t: State)
    requires Inv(s) && SomeWaiting(s.senders) && WriterStep(s, t)
    ensures Distance(t) < Distance(s) || Distance(t) == 0
  {
    hide Returning, SomeSignalling, SomeWaiting;
  }

  lemma OthersKeepDistance(s: State, t: State)
    requires Next(s, t) && t.accepted == s.accepted && !WriterStep(s, t)
    ensures Distance(t) == Distance(s)
  {
    if i :| 0 <= i < |s.senders| && SenderStep(s, t, i) {
      if s.senders[i].Trying? { Longer(s.accepted, s.senders[i].packet); }
    }
  }

  lemma Longer(a: seq<Report>, p: Report)
    ensures a + [p] != a
  {
    assert |a + [p]| == |a| + 1;
  }

  /** The steps of the write thread between two states of a run. */
  ghost function WriterSteps(run: seq<State>, m: nat, n: nat): (c: nat)
    requires m <= n < |run|
  {
    if m == n then 0 else WriterSteps(run, m, n - 1) + if WriterStep(run[n - 1], run[n]) then 1 else 0
  }

  lemma {:induction false} DistanceShrinks(run: seq<State>, m: nat, n: nat, i: nat)
    requires IsRun(run) && m <= n < |run| && run[n].accepted == run[m].accepted
    requires forall k :: m <= k <= n ==> i < |run[k].senders| && run[k].senders[i].Waiting?
    ensures Distance(run[n]) == 0 || Distance(run[n]) + WriterSteps(run, m, n) <= Distance(run[m])
  {
    hide Inv, SenderStep, WriterStep, Init, Distance;
    if m < n {
      var s, t := run[n - 1], run[n - 1 + 1];
      assert Next(s, t);
      AcceptedGrows(run, m, n - 1);
      AcceptedGrows(run, n - 1, n);
      assert s.accepted == t.accepted;
      DistanceShrinks(run, m, n - 1, i);
      InvRun(run, n - 1);
      assert SomeWaiting(s.senders);
      if WriterStep(s, t) { WriterComesNearer(s, t); } else { OthersKeepDistance(s, t); }
    }
  }

  lemma {:induction false} AcceptedGrows(run: seq<State>, m: nat, n: nat)
    requires IsRun(run) && m <= n < |run|
    ensures run[m].accepted <= run[n].accepted
  {
    hide Init, Next;
    if m < n {
      AcceptedGrows(run, m, n - 1);
      AcceptedNext(run[n - 1], run[n - 1 + 1]);
    }
  }

  lemma AcceptedNext(s: State, t: State)
    requires Next(s, t)
    ensures s.accepted <= t.accepted
  {
  }

  /** After four steps of the write thread a caller that still waits finds the slot empty and the event set, unless
      another packet came first. */
  lemma WaitingIsCalled(run: seq<State>, m: nat, n: nat, i: nat)
    requires IsRun(run) && m <= n < |run|
    requires forall k :: m <= k <= n ==> i < |run[k].senders| && run[k].senders[i].Waiting?
    requires WriterSteps(run, m, n) >= 4
    ensures (run[n].outputPacket == [] && run[n].writtenEvent) || |run[n].accepted| > |run[m].accepted|
  {
    AcceptedGrows(run, m, n);
    if |run[n].accepted| == |run[m].accepted| { DistanceShrinks(run, m, n, i); }
  }
}
