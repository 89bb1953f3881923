/** What a reader reports when it is fed the repeated frame of a biphase tag. */
module TagReads {
  import opened Pulses
  import opened LineDecoders
  import opened Stream
  import opened BiphaseStream
  import opened Analysis
  import opened Feeding
  import opened BiphaseTracking
  import opened DoubleTags
  import opened CrossTalk
  import PhidgetsTag

  // ---- such a stream --------------------------------------------------------------

  ghost predicate LevelAfter(x: Sender, rot: nat, first: bool, n: nat)
    requires Sendable(x)
  {
    if n == 0 then first else LevelAfter(x, rot, first, n - 1) != SentBit(x, Place(x, n + rot))
  }

  /** Every tag can be heard from any of its bits on and from either level. */
  lemma CanBeHeard(x: Sender, rot: nat, first: bool) returns (f: Bits)
    requires Sendable(x)
    ensures TagBits(f, x, rot) && f(0) == first
  {
    f := (n: nat) => LevelAfter(x, rot, first, n);
  }

  // ---- the levels repeat ----------------------------------------------------------

  lemma TogglesRepeat(f: Bits, x: Sender, rot: nat, i: nat)
    requires TagBits(f, x, rot) && i > 0
    ensures Toggles(f)(i + Period(x)) == Toggles(f)(i)
  {
    hide Toggles, SentBit, Place;
    OnePeriodOn(x, i + rot);
    assert Period(x) + (i + rot) == i + Period(x) + rot;
  }

  // After a frame all levels are the same as before, or all of them are the opposite.
  ghost predicate Follows(f: Bits, n: nat, i: nat) { (f(i + n) == f(i)) == (f(n) == f(0)) }

  lemma FollowsNext(f: Bits, n: nat, i: nat)
    requires Follows(f, n, i) && Toggles(f)(i + 1 + n) == Toggles(f)(i + 1)
    ensures Follows(f, n, i + 1)
  {
    assert Toggles(f)(i + 1) == (f(i + 1) != f(i)) && Toggles(f)(i + 1 + n) == (f(i + 1 + n) != f(i + n));
  }

  lemma {:induction false} SameOrOpposite(f: Bits, x: Sender, rot: nat, i: nat)
    requires TagBits(f, x, rot)
    ensures Follows(f, Period(x), i)
  {
    hide TagBits, Toggles, Follows, Period;
    if i > 0 {
      SameOrOpposite(f, x, rot, i - 1);
      TogglesRepeat(f, x, rot, i);
      FollowsNext(f, Period(x), i - 1);
    } else {
      FollowsItself(f, Period(x));
    }
  }

  lemma FollowsItself(f: Bits, n: nat)
    ensures Follows(f, n, 0)
  {
  }

  lemma LevelsRepeat(f: Bits, x: Sender, rot: nat, i: nat)
    requires TagBits(f, x, rot)
    ensures f(i + 2 * Period(x)) == f(i)
  {
    hide TagBits;
    SameOrOpposite(f, x, rot, i);
    SameOrOpposite(f, x, rot, i + Period(x));
    assert i + Period(x) + Period(x) == i + 2 * Period(x);
  }

  lemma FrameRepeats(f: Bits, x: Sender, rot: nat, k: nat)
    requires TagBits(f, x, rot)
    ensures FrameAt(f, k + 2 * Period(x)) == FrameAt(f, k)
  {
    hide TagBits;
    forall i: nat | i < 64 ensures Levels(f, k + 2 * Period(x))[i] == Levels(f, k)[i] {
      LevelsRepeat(f, x, rot, k + 1 + i);
      assert k + 1 + i + 2 * Period(x) == k + 2 * Period(x) + 1 + i;
    }
    assert Levels(f, k + 2 * Period(x)) == Levels(f, k);
  }

  lemma {:induction false} FrameOfFirstLevels(f: Bits, x: Sender, rot: nat, k: nat) returns (j: nat)
    requires TagBits(f, x, rot) && FrameAt(f, k)
    ensures j < 2 * Period(x) && FrameAt(f, j)
    decreases k
  {
    hide TagBits, FrameAt;
    if k < 2 * Period(x) {
      j := k;
    } else {
      FrameRepeats(f, x, rot, k - 2 * Period(x));
      j := FrameOfFirstLevels(f, x, rot, k - 2 * Period(x));
    }
  }

  /** Some 64 levels in a row of the repeated frame, which repeat after two frames at the latest, are an EM4100
      frame. */
  ghost predicate FrameInside(f: Bits, x: Sender) { exists k: nat :: k < 2 * Period(x) && FrameAt(f, k) }

  lemma ChangesSoon(f: Bits, x: Sender, rot: nat) returns (j: nat)
    requires TagBits(f, x, rot)
    ensures 0 < j <= Period(x) && f(j) != f(0)
  {
    hide TagBits;
    var z, o := ZeroAndOne(f, x, rot);
    j := if f(o) != f(0) then o else o - 1;
  }

  lemma HeardIffInside(f: Bits, x: Sender, rot: nat, n: nat)
    requires TagBits(f, x, rot)
    ensures FrameHeard(f, n) ==> FrameInside(f, x)
    ensures n >= 5 * Period(x) && FrameInside(f, x) ==> FrameHeard(f, n)
  {
    hide TagBits, FrameAt;
    if FrameHeard(f, n) {
      var k: nat :| k + 64 <= n && Heard(f, k);
      var j := FrameOfFirstLevels(f, x, rot, k);
    }
    if FrameInside(f, x) && n >= 5 * Period(x) {
      var k: nat :| k < 2 * Period(x) && FrameAt(f, k);
      FrameRepeats(f, x, rot, k);
      var j := ChangesSoon(f, x, rot);
      assert Heard(f, k + 2 * Period(x));
    }
  }

  // ---- a whole run ----------------------------------------------------------------

  ghost predicate Start(st: State) {
    st.pulses == [] && st.shortClocks == 0 && st.longClocks == 0 && Fresh(st.man) && Fresh(st.biphase)
  }

  lemma EnoughCaught(q: seq<bool>, f: Bits, x: Sender, rot: nat, n: nat)
    requires TagBits(f, x, rot) && AllCaught(q, f, n) && n >= 3 * Period(x)
    ensures |q| > 2 * Period(x)
  {
    hide TagBits;
    var j := ChangesSoon(f, x, rot);
  }

  /** The tags of the two biphase types that are read. */
  lemma BiphaseTagsRead(st: State, f: Bits, half: nat, mid: bool, ms: seq<nat>, x: Sender, rot: nat)
    requires IsRate(half) && IsPos(f, Pos(0, mid)) && TagBits(f, x, rot) && Packets(ms) && Start(st)
    ensures var tags := Only(FeedAll(st, f, half, Pos(0, mid), ms).1, false);
      var n := PosAfter(f, Pos(0, mid), Total(ms)).n;
      && (Ordinary(x) ==> AllOf(tags, x))
      && (!Ordinary(x) && tags != [] ==> tags[0] == Read(ISO11785_FDX_B, HiddenTag(x.s)))
      && (n >= 3 * Period(x) ==> tags != [])
  {
    assert Sendable(x);
    hide IsRate, TagBits, Sendable, ManchesterAll, BiphaseAll, Played, FeedAll, Only, PosAfter, Queue, OnTheBeat, AllCaught,
      FirstDecoded, Lively, LooksLikeFdx, HiddenTag, PhidgetsTag.TextData, PhidgetsTag.TagText, FirstFdx;
    BiphaseLively(f, half, mid, x, rot);
    var merged := RunSplits(st, f, half, mid, ms, 1, 0x3F);
    var p := PosAfter(f, Pos(0, mid), Total(ms));
    if merged == [] {
      BothSoon(f, half, mid, Total(ms), FeedAll(st, f, half, Pos(0, mid), ms).0.shortClocks, x, rot);
      NoneRead();
    } else {
      var (l, tags) := BiphaseAll(st.biphase, f, half, Pos(0, mid), merged);
      if Ordinary(x) {
        TracksAll(st.biphase, f, half, mid, merged, x, rot);
      } else {
        HiddenAll(st.biphase, f, half, mid, merged, x.s, rot);
      }
      if tags == [] && p.n >= 3 * Period(x) { EnoughCaught(Queue(l), f, x, rot, p.n); }
    }
  }

  lemma NoneRead()
    ensures Only([], false) == []
  {
  }

  /** Besides its own tags a tag of the two biphase types is reported as EM4100 tags, too, if and only if its
      levels hold an EM4100 frame. */
  lemma ReadsEM4100IffInside(st: State, f: Bits, half: nat, mid: bool, ms: seq<nat>, x: Sender, rot: nat)
    requires IsRate(half) && IsPos(f, Pos(0, mid)) && TagBits(f, x, rot) && Packets(ms) && Start(st)
    ensures var tags := FeedAll(st, f, half, Pos(0, mid), ms).1;
      && (SomeEM4100(tags) ==> FrameInside(f, x))
      && (PosAfter(f, Pos(0, mid), Total(ms)).n >= 5 * Period(x) && FrameInside(f, x) ==> SomeEM4100(tags))
  {
    hide IsRate, TagBits, FeedAll, SomeEM4100, FrameHeard, SaidFirst, FrameInside, PosAfter, Lively;
    BiphaseLively(f, half, mid, x, rot);
    ReadsEM4100IffHeard(st, f, half, mid, ms);
    HeardIffInside(f, x, rot, PosAfter(f, Pos(0, mid), Total(ms)).n);
  }

  lemma OtherTags(tags: seq<Read>, x: Sender)
    ensures AllOf(tags, x) <==> AllOf(Only(tags, false), x) && !SomeEM4100(tags)
    ensures tags == [] <==> Only(tags, false) == [] && !SomeEM4100(tags)
  {
    hide Only;
    OnlyMeans(tags, false);
    assert |tags| > 0 ==> tags[0] in tags;
    forall i | 0 <= i < |tags| && !SomeEM4100(tags) ensures tags[i] in Only(tags, false) {
      assert tags[i] in tags;
    }
    assert |Only(tags, false)| > 0 ==> Only(tags, false)[0] in tags;
    forall r | r in Only(tags, false) && AllOf(tags, x) ensures r == ReadOf(x) {
      assert r in tags;
    }
  }

  lemma NotItsOwn(s: string, tags: seq<Read>)
    requires PhidgetsTag.TagText(s) && tags != [] && tags[0] == Read(ISO11785_FDX_B, HiddenTag(s))
    ensures !AllOf(tags, Phidgets(s))
  {
  }

  /** A reset reader that is fed the biphase pulses of a tag's repeated frame for long enough, from any point of
      any bit on and in packets of any size, reports that tag and no other if and only if the frame is not an
      FDX-B frame besides and its levels hold no EM4100 frame. */
  lemma ReadsOnlyTheTagIff(st: State, f: Bits, half: nat, mid: bool, ms: seq<nat>, x: Sender, rot: nat)
    requires IsRate(half) && IsPos(f, Pos(0, mid)) && TagBits(f, x, rot) && Packets(ms) && Start(st)
    ensures var tags := FeedAll(st, f, half, Pos(0, mid), ms).1;
      && (Ordinary(x) && !FrameInside(f, x) ==> AllOf(tags, x))
      && (PosAfter(f, Pos(0, mid), Total(ms)).n >= 5 * Period(x) ==>
            tags != [] && (AllOf(tags, x) <==> Ordinary(x) && !FrameInside(f, x)))
  {
    assert Sendable(x);
    hide IsRate, TagBits, Sendable, FeedAll, Only, SomeEM4100, FrameInside, PosAfter, AllOf, LooksLikeFdx, HiddenTag,
      PhidgetsTag.TextData, PhidgetsTag.TagText;
    BiphaseTagsRead(st, f, half, mid, ms, x, rot);
    ReadsEM4100IffInside(st, f, half, mid, ms, x, rot);
    var tags := FeedAll(st, f, half, Pos(0, mid), ms).1;
    OtherTags(tags, x);
    if !Ordinary(x) && Only(tags, false) != [] { NotItsOwn(x.s, Only(tags, false)); }
  }

  // ---- PhidgetsTAGs that are FDX-B tags besides -----------------------------------

  ghost predicate SomeOther(tags: seq<Read>, s: string) {
    exists i :: 0 <= i < |tags| && tags[i].protocol != EM4100 && tags[i] != Read(PHIDGETS, s)
  }

  lemma OtherInOnly(tags: seq<Read>, s: string)
    ensures SomeOther(tags, s) <==> !AllOf(Only(tags, false), Phidgets(s))
  {
    hide Only;
    OnlyMeans(tags, false);
    if SomeOther(tags, s) {
      var i :| 0 <= i < |tags| && tags[i].protocol != EM4100 && tags[i] != Read(PHIDGETS, s);
      assert tags[i] in Only(tags, false);
    }
    if !AllOf(Only(tags, false), Phidgets(s)) {
      var i :| 0 <= i < |Only(tags, false)| && Only(tags, false)[i] != ReadOf(Phidgets(s));
      assert Only(tags, false)[i] in tags;
    }
  }

  /** For every text: the biphase decoders report another tag than the PhidgetsTAG that is held in front of the
      reader if and only if its frame is an FDX-B frame besides, and that FDX-B tag is what they report first. */
  lemma ReadsAnotherTagIff(st: State, f: Bits, half: nat, mid: bool, ms: seq<nat>, s: string, rot: nat)
    requires IsRate(half) && IsPos(f, Pos(0, mid)) && TagBits(f, Phidgets(s), rot) && Packets(ms) && Start(st)
    ensures var tags := FeedAll(st, f, half, Pos(0, mid), ms).1;
      && PhidgetsTag.TagText(s)
      && (SomeOther(tags, s) ==> LooksLikeFdx(PhidgetsTag.TextData(s)))
      && (PosAfter(f, Pos(0, mid), Total(ms)).n >= 672 && LooksLikeFdx(PhidgetsTag.TextData(s)) ==>
            SomeOther(tags, s) && Only(tags, false) != [] && Only(tags, false)[0] == Read(ISO11785_FDX_B, HiddenTag(s)))
  {
    assert Sendable(Phidgets(s)) && PhidgetsTag.TagText(s);
    hide IsRate, TagBits, Sendable, FeedAll, Only, PosAfter, AllOf, SomeOther, LooksLikeFdx, HiddenTag, PhidgetsTag.TextData,
      PhidgetsTag.TagText;
    BiphaseTagsRead(st, f, half, mid, ms, Phidgets(s), rot);
    var tags := FeedAll(st, f, half, Pos(0, mid), ms).1;
    OtherInOnly(tags, s);
    if !Ordinary(Phidgets(s)) && Only(tags, false) != [] { NotItsOwn(s, Only(tags, false)); }
  }

  /** Of such a PhidgetsTAG only the FDX-B tag is read when the packets are small: each tag that is read takes away
      the beginning of the longer frame. */
  lemma NeverReadsDoubleTag(st: State, f: Bits, half: nat, mid: bool, ms: seq<nat>, s: string, rot: nat)
    requires IsRate(half) && IsPos(f, Pos(0, mid)) && TagBits(f, Phidgets(s), rot) && Start(st)
    requires Double(s) && Sized(ms, 2, SMALL)
    ensures var tags := FeedAll(st, f, half, Pos(0, mid), ms).1;
      forall i :: 0 <= i < |tags| ==> tags[i].protocol != PHIDGETS
  {
    hide IsRate, TagBits, ManchesterAll, BiphaseAll, Played, FeedAll, Only, PosAfter, FirstDecoded, Lively, Double, Behind;
    BiphaseLively(f, half, mid, Phidgets(s), rot);
    var merged := RunSplits(st, f, half, mid, ms, 2, SMALL);
    if merged != [] {
      BehindAll(st.biphase, f, half, mid, merged, s, rot);
      NoPhidgets(FeedAll(st, f, half, Pos(0, mid), ms).1);
    }
  }

  lemma NoPhidgets(tags: seq<Read>)
    requires AllFdx(Only(tags, false))
    ensures forall i :: 0 <= i < |tags| ==> tags[i].protocol != PHIDGETS
  {
    hide Only;
    OnlyMeans(tags, false);
    forall i | 0 <= i < |tags| ensures tags[i].protocol != PHIDGETS {
      assert tags[i].protocol != EM4100 ==> tags[i] in Only(tags, false);
    }
  }
}
