/** LED boards with their threads. */
module LedThreads {
  // Callers of sendpacket, one at a time behind the write lock, and the write thread: one step for each stretch
  // under the output lock. Of an LED_64_ADV the board at the other end of the cable is there as well.

  import opened Words
  import opened Led
  import opened LedPackets

  /** Where the caller is: outside, asking for a brightness, waiting for the written event to ask again, or about to
      signal the write thread. */
  datatype Caller = Outside | Asking(index: nat, power: real) | Blocked(index: nat, power: real) | Signalling

  /** Where the write thread is: waiting, between resetting its event and getPacket, sending, or done. */
  datatype Writer = Waiting | Fetching | Sending(buf: seq<Byte>) | Finishing

  datatype State = State(
    board: Board, settings: Settings, device: Device, writeAvailable: bool, writtenEvent: bool, caller: Caller, writer: Writer,
    accepted: Powers   // the brightness last accepted for each LED
  )

  ghost predicate CallerStep(kind: Kind, s: State, t: State) {
    match s.caller
    case Outside =>
      || (exists index: nat, power: real :: index < LEDS && Percent(power) && t == s.(caller := Asking(index, power)))
      // a new current limit or voltage, which the LED_64 does not have
      || (kind != Led64 && exists settings :: Allowed(settings) && t == s.(settings := settings, board := s.board.(controlPacketWaiting := true), caller := Signalling))
    case Asking(index, power) =>
      index < LEDS &&
      var (a, b) := Requested(s.board, index, power);
      if a == Wait then t == s.(caller := Blocked(index, power))
      else
        t == s.(board := b, accepted := s.accepted[index := power], writtenEvent := s.writtenEvent && b == s.board,
                caller := if b == s.board then Outside else Signalling)
    // tries again, or gives up after a timeout
    case Blocked(index, power) => (s.writtenEvent && t == s.(caller := Asking(index, power))) || t == s.(caller := Outside)
    case Signalling => t == s.(writeAvailable := true, caller := Outside)
  }

  ghost predicate WriterStep(kind: Kind, s: State, t: State) {
    match s.writer
    case Waiting => t == s.(writeAvailable := false, writer := Fetching)   // signalled, or after 200 ms
    case Fetching =>
      Counted(s.board) &&
      var b := Sent(kind, s.board);
      t == s.(board := b, writer := Sending(if kind == Led64Adv then Packet(s.board, s.settings) else []),
              writeAvailable := s.writeAvailable || b.changeRequests != 0)
    case Sending(buf) =>
      if kind == Led64Adv then |buf| == PACKET && IsDevice(s.device) && t == s.(device := Receive(s.device, buf), writer := Finishing)
      else t == s.(writer := Finishing)
    case Finishing => t == s.(writtenEvent := true, writer := Waiting)
  }

  ghost predicate Next(kind: Kind, s: State, t: State) { CallerStep(kind, s, t) || WriterStep(kind, s, t) }

  /** Everything starts right after the attach code, from any state of the board: nothing is pending, and
      LED_Power is what was read back, or unknown. */
  ghost predicate Init(kind: Kind, s: State) {
    && None(s.board.changed) && s.board.changeRequests == 0 && !s.board.controlPacketWaiting
    && s.accepted == s.board.power && s.caller == Outside && s.writer == Waiting
    && (kind == Led64Adv ==>
          IsDevice(s.device) && (forall i :: 0 <= i < LEDS ==> s.device.stored[i] <= 127) && s.board == Attached(s.device)
          && Allowed(s.settings) && s.device.settings == s.settings)
  }

  ghost predicate IsRun(kind: Kind, run: seq<State>) {
    |run| > 0 && Init(kind, run[0]) && forall i :: 0 <= i < |run| - 1 ==> Next(kind, run[i], run[i + 1])
  }

  // ---- the invariant --------------------------------------------------------------

  /** The board as it will be when the packet under way has arrived. */
  function Arrived(s: State): (d: Device)
    requires IsDevice(s.device) && (s.writer.Sending? ==> |s.writer.buf| == PACKET)
  {
    if s.writer.Sending? then Receive(s.device, s.writer.buf) else s.device
  }

  ghost predicate Linked(s: State) {
    IsDevice(s.device) && (s.writer.Sending? ==> |s.writer.buf| == PACKET) && Shows(s.board, Arrived(s))
  }

  /** The board has the settings, or a control packet will bring them. */
  ghost predicate Set(s: State) {
    Linked(s) && Allowed(s.settings) && (s.board.controlPacketWaiting || Arrived(s).settings == s.settings)
  }

  ghost predicate Orderly(kind: Kind, s: State) {
    && (s.caller.Asking? || s.caller.Blocked? ==> s.caller.index < LEDS && Percent(s.caller.power))
    && Counted(s.board) && (kind == Led64 ==> !s.board.controlPacketWaiting)
  }

  ghost predicate OnTarget(kind: Kind, s: State) {
    forall i :: 0 <= i < LEDS ==> Settles(kind, s.accepted[i], Target(s.board, i))
  }

  /** Pending work is always known to the write thread, or about to be. */
  ghost predicate Woken(s: State) {
    Pending(s.board) ==> s.writeAvailable || s.writer == Fetching || s.caller == Signalling
  }

  /** The request of the caller need not wait any more. */
  predicate Free(s: State) { s.caller.Blocked? && s.caller.index < LEDS && Requested(s.board, s.caller.index, s.caller.power).0 == Ok }

  /** A caller that waits although it need not has been called, or will be. */
  ghost predicate Called(s: State) { Free(s) ==> s.writtenEvent || s.writer.Sending? || s.writer == Finishing }

  ghost predicate Inv(kind: Kind, s: State) {
    Orderly(kind, s) && OnTarget(kind, s) && Woken(s) && Called(s) && (kind == Led64Adv ==> Set(s))
  }

  lemma InvInit(kind: Kind, s: State)
    requires Init(kind, s)
    ensures Inv(kind, s)
  {
    hide Level, Receive;
    CountNone(s.board.changed);
    if kind == Led64Adv { AttachedShows(s.device); }
  }

  lemma InvCaller(kind: Kind, s: State, t: State)
    requires Inv(kind, s) && CallerStep(kind, s, t)
    ensures Inv(kind, t)
  {
    hide Level, Receive, Shows, Count, Requested, Target, Counted;
    match s.caller
    case Outside =>
      if t.caller == Signalling {
        ControlKeeps(s.board);
        if kind == Led64Adv { ControlShows(s.board, Arrived(s)); }
      }
    case Asking(index, power) =>
      var (a, b) := Requested(s.board, index, power);
      if a == Ok {
        RequestedCounted(s.board, index, power);
        RequestedControl(s.board, index, power);
        if kind == Led64Adv { RequestedShows(s.board, Arrived(s), index, power); }
        forall i | 0 <= i < LEDS ensures Settles(kind, s.accepted[index := power][i], Target(b, i)) {
          RequestedTargets(s.board, index, power, i);
        }
      }
    case Blocked(_, _) =>
    case Signalling =>
  }

  lemma RequestedControl(b: Board, index: nat, power: real)
    requires index < LEDS
    ensures Requested(b, index, power).1.controlPacketWaiting == b.controlPacketWaiting
  {
  }

  lemma ControlKeeps(b: Board)
    requires Counted(b)
    ensures var t := b.(controlPacketWaiting := true);
      Counted(t) && forall i :: 0 <= i < LEDS ==> Target(t, i) == Target(b, i)
  {
  }

  lemma ControlShows(b: Board, d: Device)
    requires Shows(b, d)
    ensures Shows(b.(controlPacketWaiting := true), d)
  {
    hide Level;
    var t := b.(controlPacketWaiting := true);
    forall i | 0 <= i < LEDS ensures Sane(t, i) && ShowsLed(t, d, i) {
      assert Sane(b, i) && ShowsLed(b, d, i);
    }
  }

  lemma InvWriter(kind: Kind, s: State, t: State)
    requires Inv(kind, s) && WriterStep(kind, s, t)
    ensures Inv(kind, t)
  {
    hide Level, Receive, Shows, Count, Sent, Packet, Target, Counted;
    match s.writer
    case Waiting =>
    case Fetching =>
      SentCounted(kind, s.board);
      if kind == Led64Adv {
        SentShows(s.board, s.device, s.settings);
        SentSettings(s.board, s.device, s.settings);
      }
      ControlIff(kind, s.board);
      NotNegative(Sent(kind, s.board));
      forall i | 0 <= i < LEDS ensures Settles(kind, s.accepted[i], Target(t.board, i)) {
        SentTargets(kind, s.board, i);
      }
    case Sending(_) =>
    case Finishing =>
  }

  lemma NotNegative(b: Board)
    requires Counted(b)
    ensures b.changeRequests >= 0
  {
  }

  lemma {:induction false} InvRun(kind: Kind, run: seq<State>, i: nat)
    requires IsRun(kind, run) && i < |run|
    ensures Inv(kind, run[i])
  {
    hide Inv, CallerStep, WriterStep, Init;
    if i == 0 {
      InvInit(kind, run[0]);
    } else {
      InvRun(kind, run, i - 1);
      assert Next(kind, run[i - 1], run[i - 1 + 1]);
      if CallerStep(kind, run[i - 1], run[i]) {
        InvCaller(kind, run[i - 1], run[i]);
      } else {
        InvWriter(kind, run[i - 1], run[i]);
      }
    }
  }

  // ---- what holds in every run ----------------------------------------------------

  /** Whenever no packet is under way an LED_64_ADV shows LED_Power. */
  lemma BoardShowsPower(run: seq<State>, n: nat, i: nat)
    requires IsRun(Led64Adv, run) && n < |run| && !run[n].writer.Sending? && i < LEDS
    ensures IsDevice(run[n].device) && Visible(run[n].device, i) == Level(run[n].board.power[i])
  {
    hide Level;
    InvRun(Led64Adv, run, n);
    ShowsIsVisible(run[n].board, run[n].device, i);
  }

  /** Whenever no control packet waits and no packet is under way it has the current limit and the voltage that were set
      last. */
  lemma BoardHasSettings(run: seq<State>, n: nat)
    requires IsRun(Led64Adv, run) && n < |run| && !run[n].writer.Sending? && !run[n].board.controlPacketWaiting
    ensures run[n].device.settings == run[n].settings
  {
    hide Level, Shows;
    InvRun(Led64Adv, run, n);
  }

  /** On every board: whenever nothing is pending, LED_Power is for every LED the brightness that was last
      accepted for it, or, on an M3 board that was never asked and does not know, 0. */
  lemma QuietPowerIsAccepted(kind: Kind, run: seq<State>, n: nat, i: nat)
    requires IsRun(kind, run) && n < |run| && !Pending(run[n].board) && i < LEDS
    ensures Settles(kind, run[n].accepted[i], run[n].board.power[i])
  {
    hide Settles;
    InvRun(kind, run, n);
    NotNegative(run[n].board);
    CountNone(run[n].board.changed);
    assert Settles(kind, run[n].accepted[i], Target(run[n].board, i));
  }

  /** Whenever nothing is pending and no packet is under way, every LED of an LED_64_ADV shows the brightness
      that was last accepted for it. */
  lemma QuietBoardShowsAccepted(run: seq<State>, n: nat, i: nat)
    requires IsRun(Led64Adv, run) && n < |run| && !Pending(run[n].board) && !run[n].writer.Sending? && i < LEDS
    ensures IsDevice(run[n].device) && Visible(run[n].device, i) == Level(run[n].accepted[i])
  {
    hide Level;
    BoardShowsPower(run, n, i);
    QuietPowerIsAccepted(Led64Adv, run, n, i);
  }

  /** On every board work is never left behind without a signal. */
  lemma NoLostWakeup(kind: Kind, run: seq<State>, n: nat)
    requires IsRun(kind, run) && n < |run| && Pending(run[n].board)
    ensures run[n].writeAvailable || run[n].writer == Fetching || run[n].caller == Signalling
  {
    InvRun(kind, run, n);
  }

  /** A request that times out leaves nothing behind. */
  lemma TimedOutChangesNothing(kind: Kind, s: State, t: State)
    requires CallerStep(kind, s, t) && s.caller.Blocked? && t.caller == Outside
    ensures t.board == s.board && t.accepted == s.accepted && t.device == s.device
  {
  }

  // ---- the way back: a caller that waits ------------------------------------------

  /** When the change that was in its way has been taken, a caller that waits has been called or is about to be. */
  lemma NoLostWrittenEvent(kind: Kind, run: seq<State>, n: nat)
    requires IsRun(kind, run) && n < |run| && Free(run[n])
    ensures run[n].writtenEvent || run[n].writer.Sending? || run[n].writer == Finishing
  {
    InvRun(kind, run, n);
  }

  /** At most so many steps of the write thread until the caller is called and need not wait again. */
  function Distance(s: State): (d: int) {
    var steps := match s.writer
      case Fetching => 0
      case Waiting => 1
      case Finishing => 2
      case Sending(_) => 3;
    if !Free(s) then 4 * Work(s.board) + steps
    else if s.writtenEvent then 0
    else if s.writer == Finishing then 1
    else 2
  }

  lemma WriterComesNearer(kind: Kind, s: State, t: State)
    requires Inv(kind, s) && s.caller.Blocked? && WriterStep(kind, s, t)
    ensures 0 <= Distance(t) && (Distance(t) < Distance(s) || Distance(t) == 0)
  {
    hide Level, Receive, Shows, Count, Sent, Packet, Target, Settles;
    SentCounted(kind, s.board);
    SentCounted(kind, t.board);
    if s.writer == Fetching {
      if Free(s) {
        SentStaysFree(kind, s.board, s.caller.index, s.caller.power);
      } else {
        ChangePending(s.board, s.caller.index);
        SentDecreases(kind, s.board);
      }
    }
    NotNegative(t.board);
  }

  lemma SentStaysFree(kind: Kind, b: Board, i: nat, power: real)
    requires i < LEDS && Requested(b, i, power).0 == Ok
    ensures Requested(Sent(kind, b), i, power).0 == Ok
  {
    hide Picked, Chosen;
    PickedWithin(kind, b);
  }

  lemma ChangePending(b: Board, i: nat)
    requires Counted(b) && i < LEDS && b.changed[i]
    ensures b.changeRequests > 0
  {
    CountNone(b.changed);
  }

  lemma {:induction false} BlockedRun(kind: Kind, run: seq<State>, m: nat, n: nat)
    requires IsRun(kind, run) && m <= n < |run| && forall k :: m <= k <= n ==> run[k].caller.Blocked?
    ensures Distance(run[n]) == 0 || Distance(run[n]) + (n - m) <= Distance(run[m])
    ensures 0 <= Distance(run[n])
  {
    hide Inv, Init, Distance, CallerStep, WriterStep;
    InvRun(kind, run, m);
    if m < n {
      var s, t := run[n - 1], run[n - 1 + 1];
      assert Next(kind, s, t);
      BlockedRun(kind, run, m, n - 1);
      InvRun(kind, run, n - 1);
      OnlyWriterMoves(kind, s, t);
      WriterComesNearer(kind, s, t);
    } else {
      DistanceIsNat(kind, run[m]);
    }
  }

  lemma DistanceIsNat(kind: Kind, s: State)
    requires Inv(kind, s)
    ensures 0 <= Distance(s)
  {
    NotNegative(s.board);
  }

  lemma OnlyWriterMoves(kind: Kind, s: State, t: State)
    requires Next(kind, s, t) && s.caller.Blocked? && t.caller.Blocked?
    ensures WriterStep(kind, s, t)
  {
  }

  /** A caller that goes on waiting is called, and then need not wait again, after four steps of the write thread for
      every change and the control packet that were pending, and three more. */
  lemma BlockedIsCalled(kind: Kind, run: seq<State>, m: nat, n: nat)
    requires IsRun(kind, run) && m <= n < |run| && forall k :: m <= k <= n ==> run[k].caller.Blocked?
    requires n - m >= 4 * Work(run[m].board) + 3
    ensures Free(run[n]) && run[n].writtenEvent
  {
    BlockedRun(kind, run, m, n);
    InvRun(kind, run, n);
    InvRun(kind, run, m);
    NotNegative(run[m].board);
    if !Free(run[n]) { ChangePending(run[n].board, run[n].caller.index); }
  }
}
