/** How the reader thread hands tags to the timer thread. */
module TagEvents {
  // tagEvent and tagTimerThreadFunction as steps over the state they share, one step for each stretch under
  // the lock and for each event fired.

  import opened Analysis

  datatype Tag = Tag(tagString: string, protocol: Protocol, tagData: seq<nat>)

  datatype Presence = Absent | Present | Unknown

  /** Where the reader thread is: in tagEvent with a tag, or not. */
  datatype ReaderAt = Outside | Inside(tag: Tag)

  /** Where the timer thread is: not started, or at the top of its loop, at an event, or under the lock. */
  datatype TimerAt = NotStarted | Top | FireTag | FireTag2 | Commit | CheckLost | FireTagLost | FireTagLost2

  /** A TagLost2 event, and how many tags had been announced by then. */
  datatype Lost = Lost(tag: Tag, announced: nat)

  datatype State = State(
    reader: ReaderAt,
    timer: TimerAt,
    tagPresent: Presence,
    tagEventPending: bool,
    pendingTag: Tag,
    lastTag: Tag,
    lastTagValid: bool,
    // what has happened so far
    queued: seq<Tag>,        // tags put into pendingTag
    gaps: seq<bool>,         // for each of them, whether presence was cleared since the one before
    cleared: bool,           // whether presence was cleared since the last of them
    committed: nat,          // how many were copied to lastTag by the timer thread
    tagEvents: seq<seq<nat>>,// Tag events, with the data of EM4100 tags
    tag2Events: seq<Tag>,    // Tag2 events
    lostEvents: seq<Lost>    // TagLost2 events
  )

  predicate Init(s: State) {
    && s.reader == Outside && s.timer == NotStarted && s.tagPresent == Unknown
    && !s.tagEventPending && !s.lastTagValid
    && s.queued == [] && s.gaps == [] && !s.cleared && s.committed == 0
    && s.tagEvents == [] && s.tag2Events == [] && s.lostEvents == []
  }

  // ---- the reader thread ----------------------------------------------------------

  /** The test of tagEvent: nothing present, or a tag that differs from the last one of its protocol. */
  predicate IsNews(s: State, tag: Tag) {
    s.tagPresent != Present
    || (s.lastTagValid && s.lastTag.tagString != tag.tagString && s.lastTag.protocol == tag.protocol)
  }

  function Queue(s: State, tag: Tag): State {
    s.(reader := Outside, tagPresent := Present, tagEventPending := true, pendingTag := tag,
       queued := s.queued + [tag], gaps := s.gaps + [s.cleared], cleared := false)
  }

  ghost predicate ReaderStep(s: State, t: State) {
    match s.reader
    case Outside => exists tag :: t == s.(reader := Inside(tag))
    case Inside(tag) =>
      if !IsNews(s, tag) then t == s.(reader := Outside, tagPresent := Present)
      else if s.tagEventPending then t == s   // sleeps and tries again
      else t == Queue(s, tag)
  }

  // ---- the timer thread -----------------------------------------------------------

  function Clear(s: State): State { s.(tagPresent := Absent, cleared := true) }

  ghost predicate TimerStep(s: State, t: State) {
    match s.timer
    case NotStarted =>
      // the end of initialisation, before either thread runs
      && s.reader == Outside
      && (t == (if s.tagPresent == Present then s.(timer := Top, lastTag := s.pendingTag, lastTagValid := true)
                else s.(timer := Top))
          || (s.tagPresent == Unknown && t == Clear(s).(timer := Top)))
    case Top => t == s.(timer := if s.tagEventPending then FireTag else CheckLost)
    case FireTag =>
      t == s.(timer := FireTag2,
              tagEvents := s.tagEvents + if s.pendingTag.protocol == EM4100 then [s.pendingTag.tagData] else [])
    case FireTag2 => t == s.(timer := Commit, tag2Events := s.tag2Events + [s.pendingTag])
    case Commit =>
      t == s.(timer := CheckLost, lastTag := s.pendingTag, lastTagValid := true, tagEventPending := false,
              committed := s.committed + 1)
    case CheckLost =>
      // whether 200 ms have passed, and what the antenna does, is left open
      || t == s.(timer := Top)
      || (s.tagPresent == Present && t == Clear(s).(timer := FireTagLost))
      || (s.tagPresent == Unknown && t == Clear(s).(timer := Top))
    case FireTagLost => t == s.(timer := FireTagLost2)
    case FireTagLost2 => t == s.(timer := Top, lostEvents := s.lostEvents + [Lost(s.lastTag, s.committed)])
  }

  ghost predicate Next(s: State, t: State) { ReaderStep(s, t) || TimerStep(s, t) }

  ghost predicate IsRun(run: seq<State>) {
    |run| > 0 && Init(run[0]) && forall i :: 0 <= i < |run| - 1 ==> Next(run[i], run[i + 1])
  }

  // ---- the invariant --------------------------------------------------------------

  function DataOf(tags: seq<Tag>): (d: seq<seq<nat>>) {
    if |tags| == 0 then []
    else DataOf(tags[..|tags| - 1])
         + if tags[|tags| - 1].protocol == EM4100 then [tags[|tags| - 1].tagData] else []
  }

  // How many Tag and Tag2 events are due.
  function Fired(s: State): nat { s.committed + if s.timer in {FireTag2, Commit} then 1 else 0 }

  function Fired2(s: State): nat { s.committed + if s.timer == Commit then 1 else 0 }

  predicate Slot(s: State) {
    && |s.queued| == s.committed + (if s.tagEventPending then 1 else 0)
    && (s.tagEventPending ==> s.pendingTag == s.queued[s.committed])
    && (s.timer in {FireTag, FireTag2, Commit} ==> s.tagEventPending)
  }

  predicate Events(s: State)
    requires Slot(s)
  {
    && s.tag2Events == s.queued[..Fired2(s)]
    && s.tagEvents == DataOf(s.queued[..Fired(s)])
  }

  predicate LastKnown(s: State)
    requires Slot(s)
  {
    && (s.committed > 0 ==> s.lastTagValid && s.lastTag == s.queued[s.committed - 1])
    && (s.committed == 0 && s.lastTagValid ==> s.tagEventPending && s.lastTag == s.pendingTag)
    && (s.tagPresent == Present ==> |s.queued| > 0)
    && (s.timer == NotStarted ==> s.committed == 0 && !s.lastTagValid)
  }

  predicate News(s: State) {
    && |s.gaps| == |s.queued|
    && (|s.queued| > 0 && !s.cleared ==> s.tagPresent == Present)
    && forall i :: 0 < i < |s.queued| && !s.gaps[i] ==> s.queued[i].tagString != s.queued[i - 1].tagString
  }

  predicate LostOk(queued: seq<Tag>, committed: nat, e: Lost) {
    e.announced <= committed <= |queued| && (e.announced > 0 ==> e.tag == queued[e.announced - 1])
  }

  predicate LostKnown(s: State) {
    forall i :: 0 <= i < |s.lostEvents| ==> LostOk(s.queued, s.committed, s.lostEvents[i])
  }

  predicate Inv(s: State) { Slot(s) && Events(s) && LastKnown(s) && News(s) && LostKnown(s) }

  lemma SlotReader(s: State, t: State)
    requires Inv(s) && ReaderStep(s, t)
    ensures Slot(t) && Events(t)
  {
    if s.reader.Inside? && IsNews(s, s.reader.tag) && !s.tagEventPending {
      assert t.queued[..Fired(t)] == s.queued[..Fired(s)];
      assert t.queued[..Fired2(t)] == s.queued[..Fired2(s)];
    }
  }

  lemma InvReader(s: State, t: State)
    requires Inv(s) && ReaderStep(s, t)
    ensures Inv(t)
  {
    hide Events, DataOf;
    SlotReader(s, t);
  }

  lemma EventsTimer(s: State, t: State)
    requires Slot(s) && Events(s) && TimerStep(s, t)
    ensures Slot(t) && Events(t)
  {
    if s.timer == FireTag {
      assert s.queued[..s.committed + 1][..s.committed] == s.queued[..s.committed];
    } else if s.timer == FireTag2 {
      assert s.queued[..s.committed + 1] == s.queued[..s.committed] + [s.pendingTag];
    }
  }

  lemma InvTimer(s: State, t: State)
    requires Inv(s) && TimerStep(s, t)
    ensures Inv(t)
  {
    hide Events, DataOf;
    EventsTimer(s, t);
    LostTimer(s, t);
    assert News(t) && LastKnown(t);
  }

  lemma LostTimer(s: State, t: State)
    requires Slot(s) && LastKnown(s) && LostKnown(s) && TimerStep(s, t)
    ensures LostKnown(t)
  {
    hide LastKnown, LostKnown;
    assert s.queued == t.queued && s.committed <= t.committed;
    if s.timer == FireTagLost2 {
      LostNext(s, t);
    } else {
      LostSame(s, t);
    }
  }

  lemma LostSame(s: State, t: State)
    requires LostKnown(s) && s.lostEvents == t.lostEvents
    requires s.queued == t.queued && s.committed <= t.committed <= |t.queued|
    ensures LostKnown(t)
  {
  }

  lemma LostNext(s: State, t: State)
    requires Slot(s) && LastKnown(s) && LostKnown(s) && s.queued == t.queued && s.committed == t.committed
    requires t.lostEvents == s.lostEvents + [Lost(s.lastTag, s.committed)]
    ensures LostKnown(t)
  {
  }

  lemma {:induction false} InvRun(run: seq<State>, i: nat)
    requires IsRun(run) && i < |run|
    ensures Inv(run[i])
  {
    hide Inv, ReaderStep, TimerStep;
    if i == 0 {
      InvInit(run[0]);
    } else {
      InvRun(run, i - 1);
      assert Next(run[i - 1], run[i - 1 + 1]);
      if ReaderStep(run[i - 1], run[i]) {
        InvReader(run[i - 1], run[i]);
      } else {
        InvTimer(run[i - 1], run[i]);
      }
    }
  }

  lemma InvInit(s: State)
    requires Init(s)
    ensures Inv(s)
  {
  }

  // ---- what holds in every run ----------------------------------------------------

  /** Tags are announced in the order they were queued, none twice, and at most one is not announced yet:
      the pending one. */
  lemma AnnouncedOnceInOrder(run: seq<State>, i: nat)
    requires IsRun(run) && i < |run|
    ensures var s := run[i];
      && |s.tag2Events| <= |s.queued| <= |s.tag2Events| + 1
      && s.tag2Events == s.queued[..|s.tag2Events|]
      && (|s.tag2Events| < |s.queued| ==> s.tagEventPending && s.pendingTag == s.queued[|s.tag2Events|])
  {
    InvRun(run, i);
  }

  /** The two kinds of event agree: whenever nothing is pending, the Tag events carry the data of the EM4100
      tags among the Tag2 events, in order. */
  lemma EventsAgree(run: seq<State>, i: nat)
    requires IsRun(run) && i < |run| && !run[i].tagEventPending
    ensures run[i].tag2Events == run[i].queued && run[i].tagEvents == DataOf(run[i].tag2Events)
  {
    InvRun(run, i);
    assert run[i].queued[..|run[i].queued|] == run[i].queued;
  }

  /** The pending tag never changes while it is pending, so both events and the copy see the same tag. */
  lemma PendingTagIsStable(s: State, t: State)
    requires s.tagEventPending && Next(s, t)
    ensures t.pendingTag == s.pendingTag
  {
  }

  /** The tag copied to lastTag is the one announced just before. */
  lemma CommitsTheAnnounced(run: seq<State>, i: nat)
    requires IsRun(run) && i + 1 < |run| && run[i].tagEventPending && !run[i + 1].tagEventPending
    ensures var t := run[i + 1];
      && |t.tag2Events| > 0 && t.lastTagValid
      && t.lastTag == run[i].pendingTag == t.tag2Events[|t.tag2Events| - 1]
  {
    InvRun(run, i);
    CommitStep(run[i], run[i + 1]);
  }

  lemma CommitStep(s: State, t: State)
    requires Inv(s) && Next(s, t) && s.tagEventPending && !t.tagEventPending
    ensures t.lastTag == s.pendingTag && t.lastTagValid && t.tag2Events == s.queued[..s.committed + 1]
    ensures s.queued[s.committed] == s.pendingTag
  {
    hide News, LostKnown, LastKnown, DataOf;
    assert s.timer == Commit;
  }

  /** The last tag is the one announced last, or before the first announcement the one that is pending. */
  lemma LastTagWasAnnounced(run: seq<State>, i: nat)
    requires IsRun(run) && i < |run| && run[i].lastTagValid
    ensures var s := run[i];
      if s.committed == 0 then s.tagEventPending && s.lastTag == s.pendingTag
      else s.committed <= |s.tag2Events| <= s.committed + 1 && s.lastTag == s.tag2Events[s.committed - 1]
  {
    InvRun(run, i);
  }

  /** The same tag is never queued twice in a row unless it was found absent in between. */
  lemma NoRepeatWithoutGap(run: seq<State>, i: nat, k: nat)
    requires IsRun(run) && i < |run| && 0 < k < |run[i].queued|
    requires run[i].queued[k].tagString == run[i].queued[k - 1].tagString
    ensures k < |run[i].gaps| && run[i].gaps[k]
  {
    InvRun(run, i);
  }

  /** A lost event names the tag announced last. */
  lemma LostWasAnnounced(run: seq<State>, i: nat, k: nat)
    requires IsRun(run) && i < |run| && k < |run[i].lostEvents| && run[i].lostEvents[k].announced > 0
    ensures var e := run[i].lostEvents[k];
      e.announced <= |run[i].tag2Events| && e.tag == run[i].tag2Events[e.announced - 1]
  {
    InvRun(run, i);
  }

  /** When tagEvent returns, its tag has been queued, or it is not news: another tag is present, and either none was
      announced yet, or the last one announced has the same string or another protocol. */
  lemma QueuedUnlessKnown(run: seq<State>, i: nat)
    requires IsRun(run) && i + 1 < |run| && run[i].reader.Inside? && run[i + 1].reader == Outside
    ensures run[i].committed <= |run[i].tag2Events| && (run[i].committed > 0 ==> run[i].lastTagValid)
    ensures var s, t, tag := run[i], run[i + 1], run[i].reader.tag;
      var last := if s.committed == 0 then s.pendingTag else s.tag2Events[s.committed - 1];
      && (t.queued == s.queued + [tag] <==>
            s.tagPresent != Present || (s.lastTagValid && last.tagString != tag.tagString && last.protocol == tag.protocol))
      && (t.queued == s.queued + [tag] || t.queued == s.queued)
  {
    InvRun(run, i);
    var s, t := run[i], run[i + 1];
    if s.lastTagValid { LastTagWasAnnounced(run, i); }
    assert Next(s, t);
    LongerQueue(s.queued, s.reader.tag);
  }

  lemma LongerQueue(q: seq<Tag>, tag: Tag)
    ensures q + [tag] != q
  {
    assert |q + [tag]| == |q| + 1;
  }

  /** So a tag that differs from the one announced last is announced: it is queued at once, or as soon as the slot is
      free. */
  lemma OtherTagIsQueued(run: seq<State>, i: nat)
    requires IsRun(run) && i + 1 < |run| && run[i].reader.Inside? && run[i + 1].reader == Outside && run[i].committed > 0
    requires var s := run[i]; |s.tag2Events| >= s.committed && s.tag2Events[s.committed - 1].protocol == s.reader.tag.protocol
    requires var s := run[i]; s.tag2Events[s.committed - 1].tagString != s.reader.tag.tagString
    ensures run[i + 1].queued == run[i].queued + [run[i].reader.tag]
  {
    QueuedUnlessKnown(run, i);
  }

  // ---- progress -------------------------------------------------------------------

  /** Steps of the timer thread until a pending tag is committed. */
  function Distance(t: TimerAt): nat {
    match t
    case Commit => 0
    case FireTag2 => 1
    case FireTag => 2
    case Top => 3
    case FireTagLost2 => 4
    case FireTagLost => 5
    case CheckLost => 6
    case NotStarted => 4
  }

  /** A tag that tagEvent waits for is out of the way after at most seven steps of the timer thread,
      whatever the reader thread does in between. */
  lemma PendingIsServed(s: State, t: State)
    requires Inv(s) && s.tagEventPending
    ensures TimerStep(s, t) ==> !t.tagEventPending || Distance(t.timer) < Distance(s.timer)
    ensures ReaderStep(s, t) ==> t.tagEventPending && t.timer == s.timer
  {
  }
}
