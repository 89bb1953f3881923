/** The reader itself: its three rings, its flags, and the methods that move data through them. Each method is
    proved against the function of Analysis or LineDecoders for its step, on the entries queued in the rings,
    whatever the read and write positions are. */
module Reader {
  import opened Ring
  import opened Pulses
  import opened LineDecoders
  import opened Analysis
  import Em4100Decoder
  import FdxBDecoder
  import PhidgetsTagDecoder

  class RfidReader {
    const dataBuffer: array<Pulse>
    var dataReadPtr: nat
    var dataWritePtr: nat
    var shortClocks: nat
    var longClocks: nat

    const manBuffer: array<bool>
    var manReadPtr: nat
    var manWritePtr: nat
    var manLockedIn: bool
    var manShortChange: bool

    const biphaseBuffer: array<bool>
    var biphaseReadPtr: nat
    var biphaseWritePtr: nat
    var biphaseLockedIn: bool
    var biphaseShortChange: bool

    ghost predicate Valid()
      reads this
    {
      && dataBuffer.Length == manBuffer.Length == biphaseBuffer.Length == SIZE
      && manBuffer != biphaseBuffer
      && dataReadPtr < SIZE && dataWritePtr < SIZE
      && manReadPtr < SIZE && manWritePtr < SIZE
      && biphaseReadPtr < SIZE && biphaseWritePtr < SIZE
    }

    ghost function Data(): (r: RingOf<Pulse>)
      requires Valid()
      reads this, dataBuffer
      ensures InRange(r)
    {
      RingOf(dataBuffer[..], dataReadPtr, dataWritePtr)
    }

    ghost function Man(): (l: Line)
      requires Valid()
      reads this, manBuffer
    {
      LineState(manLockedIn, manShortChange, RingOf(manBuffer[..], manReadPtr, manWritePtr))
    }

    ghost function Biphase(): (l: Line)
      requires Valid()
      reads this, biphaseBuffer
    {
      LineState(biphaseLockedIn, biphaseShortChange, RingOf(biphaseBuffer[..], biphaseReadPtr, biphaseWritePtr))
    }

    ghost function Holds(): (s: State)
      requires Valid()
      reads this, dataBuffer, manBuffer, biphaseBuffer
      ensures s.shortClocks == shortClocks && s.longClocks == longClocks
      ensures |s.pulses| == Queued(dataReadPtr, dataWritePtr)
    {
      State(Contents(Data()), shortClocks, longClocks, Man(), Biphase())
    }

    /** CPhidgetRFID initialisation: all pointers and flags cleared. */
    constructor ()
      ensures Valid() && fresh(dataBuffer) && fresh(manBuffer) && fresh(biphaseBuffer)
      ensures Holds().pulses == [] && shortClocks == 0 && longClocks == 0
      ensures Fresh(Man()) && Fresh(Biphase())
    {
      dataBuffer := new Pulse[SIZE](i => Space);
      manBuffer := new bool[SIZE](i => false);
      biphaseBuffer := new bool[SIZE](i => false);
      dataReadPtr, dataWritePtr := 0, 0;
      shortClocks, longClocks := 0, 0;
      manReadPtr, manWritePtr, manLockedIn, manShortChange := 0, 0, false, false;
      biphaseReadPtr, biphaseWritePtr, biphaseLockedIn, biphaseShortChange := 0, 0, false, false;
    }

    // ---- dataInput ----------------------------------------------------------------

    method WriteEntry(p: Pulse)
      requires Valid()
      modifies dataBuffer, this`dataReadPtr, this`dataWritePtr
      ensures Valid() && Data() == Push(old(Data()), p)
    {
      dataBuffer[dataWritePtr] := p;
      dataWritePtr := (dataWritePtr + 1) % SIZE;
      // a full ring gives up its oldest entry
      if dataWritePtr == dataReadPtr {
        dataReadPtr := (dataReadPtr + 1) % SIZE;
      }
    }

    /** A packet of at most 63 pulses is queued behind what is there; the oldest entries make room. */
    method WriteEntries(bytes: seq<nat>)
      requires Valid() && |bytes| <= 0x3F && forall i :: 0 <= i < |bytes| ==> bytes[i] < 256
      modifies dataBuffer, this`dataReadPtr, this`dataWritePtr
      ensures Valid()
      ensures Holds() == old(Holds()).(pulses := Newest(old(Holds()).pulses + Classified(bytes)))
    {
      hide Classify, Push, Newest, Contents;
      ghost var was := Contents(Data());
      NothingQueued(was);
      for i := 0 to |bytes|
        invariant Valid()
        invariant Contents(Data()) == Newest(was + Classified(bytes[..i]))
      {
        ghost var before := Data();
        WriteEntry(Classify(bytes[i]));
        PushKeepsNewest(before, Classify(bytes[i]));
        NewestOfNewest(was + Classified(bytes[..i]), [Classify(bytes[i])]);
        assert was + Classified(bytes[..i + 1]) == was + Classified(bytes[..i]) + [Classify(bytes[i])];
      }
      assert bytes[..|bytes|] == bytes;
    }

    // ---- the line decoders --------------------------------------------------------

    method AddManchesterData(readToPtr: nat)
      requires Valid() && readToPtr < SIZE
      modifies manBuffer, this`manReadPtr, this`manWritePtr, this`manLockedIn, this`manShortChange
      ensures Valid()
      ensures Man() == ManchesterRun(old(Man()), Held(dataBuffer[..], dataReadPtr, Queued(dataReadPtr, readToPtr)), longClocks)
    {
      hide ManchesterRun, Held;
      ghost var l, n := Man(), Queued(dataReadPtr, readToPtr);
      ghost var pulses := Held(dataBuffer[..], dataReadPtr, n);
      var myReadPtr := dataReadPtr;
      ghost var i: nat := 0;
      NothingRun(l, pulses, longClocks);
      while myReadPtr != readToPtr
        invariant Valid() && i <= n && myReadPtr == (dataReadPtr + i) % SIZE
        invariant myReadPtr == readToPtr <==> i == n
        invariant Man() == ManchesterRun(l, pulses[..i], longClocks)
        decreases n - i
      {
        HeldAt(dataBuffer[..], dataReadPtr, n, i);
        AddManchesterPulse(dataBuffer[myReadPtr]);
        ManchesterNext(l, pulses, i, longClocks);
        WalkTo(dataReadPtr, readToPtr, i);
        AdvancePointer(dataBuffer[..], dataReadPtr, i, 0);
        myReadPtr := (myReadPtr + 1) % SIZE;
        i := i + 1;
      }
      assert pulses[..n] == pulses;
    }

    method AddManchesterPulse(p: Pulse)
      requires Valid()
      modifies manBuffer, this`manReadPtr, this`manWritePtr, this`manLockedIn, this`manShortChange
      ensures Valid() && Man() == ManchesterStep(old(Man()), p, longClocks)
    {
      var clocks, polarity := Clocks(p), Polarity(p);
      if clocks == longClocks {
        // half a bit off until now
        if manShortChange {
          manReadPtr := manWritePtr;
        }
        PushManchester(polarity);
        manLockedIn := true;
        manShortChange := false;
      } else {
        if !manLockedIn {
          if polarity {
            manShortChange := true;
            manLockedIn := true;
          }
        } else if manShortChange {
          PushManchester(polarity);
          manShortChange := false;
        } else {
          manShortChange := true;
        }
      }
    }

    method PushManchester(bit: bool)
      requires Valid()
      modifies manBuffer, this`manReadPtr, this`manWritePtr
      ensures Valid() && Man() == old(Man()).(ring := Push(old(Man()).ring, bit))
    {
      manBuffer[manWritePtr] := bit;
      manWritePtr := (manWritePtr + 1) % SIZE;
      if manWritePtr == manReadPtr {
        manReadPtr := (manReadPtr + 1) % SIZE;
      }
    }

    method AddBiphaseData(readToPtr: nat) returns (ok: bool)
      requires Valid() && readToPtr < SIZE
      modifies biphaseBuffer, this`biphaseReadPtr, this`biphaseWritePtr, this`biphaseLockedIn, this`biphaseShortChange
      ensures Valid()
      ensures Outcome(ok, Biphase())
           == BiphaseRun(old(Biphase()), Held(dataBuffer[..], dataReadPtr, Queued(dataReadPtr, readToPtr)), shortClocks, longClocks)
    {
      hide BiphaseRun, Held;
      ghost var l, n := Biphase(), Queued(dataReadPtr, readToPtr);
      ghost var pulses := Held(dataBuffer[..], dataReadPtr, n);
      var myReadPtr := dataReadPtr;
      ghost var i: nat := 0;
      NothingBiphase(l, pulses, shortClocks, longClocks);
      while myReadPtr != readToPtr
        invariant Valid() && i <= n && myReadPtr == (dataReadPtr + i) % SIZE
        invariant myReadPtr == readToPtr <==> i == n
        invariant Outcome(true, Biphase()) == BiphaseRun(l, pulses[..i], shortClocks, longClocks)
        decreases n - i
      {
        HeldAt(dataBuffer[..], dataReadPtr, n, i);
        var fine := AddBiphasePulse(dataBuffer[myReadPtr]);
        BiphaseNext(l, pulses, i, shortClocks, longClocks);
        if !fine {
          BiphaseSticks(l, pulses, i + 1, shortClocks, longClocks);
          return false;
        }
        WalkTo(dataReadPtr, readToPtr, i);
        AdvancePointer(dataBuffer[..], dataReadPtr, i, 0);
        myReadPtr := (myReadPtr + 1) % SIZE;
        i := i + 1;
      }
      assert pulses[..n] == pulses;
      ok := true;
    }

    method AddBiphasePulse(p: Pulse) returns (fine: bool)
      requires Valid()
      modifies biphaseBuffer, this`biphaseReadPtr, this`biphaseWritePtr, this`biphaseLockedIn, this`biphaseShortChange
      ensures Valid() && Outcome(fine, Biphase()) == BiphaseStep(old(Biphase()), p, shortClocks, longClocks)
    {
      var clocks := Clocks(p);
      if clocks == longClocks {
        PushBiphase(true);
        biphaseLockedIn := true;
        biphaseShortChange := false;
      } else if clocks == shortClocks {
        if biphaseLockedIn && biphaseShortChange {
          PushBiphase(false);
          biphaseShortChange := false;
        } else {
          biphaseShortChange := true;
        }
      } else {
        biphaseLockedIn := false;
        biphaseReadPtr := biphaseWritePtr;
        return false;
      }
      return true;
    }

    method PushBiphase(bit: bool)
      requires Valid()
      modifies biphaseBuffer, this`biphaseReadPtr, this`biphaseWritePtr
      ensures Valid() && Biphase() == old(Biphase()).(ring := Push(old(Biphase()).ring, bit))
    {
      biphaseBuffer[biphaseWritePtr] := bit;
      biphaseWritePtr := (biphaseWritePtr + 1) % SIZE;
      if biphaseWritePtr == biphaseReadPtr {
        biphaseReadPtr := (biphaseReadPtr + 1) % SIZE;
      }
    }

    // ---- the tag decoders ---------------------------------------------------------

    method ReadEM4100() returns (tags: seq<Read>)
      requires Valid()
      modifies this`manReadPtr
      ensures Valid() && (Man(), tags) == TakeEM4100(old(Man()))
    {
      hide Em4100Decoder.Decoded, Held;
      var r, start := Em4100Decoder.DecodeEM4100(manBuffer, manReadPtr, manWritePtr);
      manReadPtr := start;
      tags := if r.Tag? then [Read(EM4100, r.tagString)] else [];
    }

    method ReadPhidgets() returns (tags: seq<Read>)
      requires Valid()
      modifies this`biphaseReadPtr
      ensures Valid() && (Biphase(), tags) == TakePhidgets(old(Biphase()))
    {
      hide PhidgetsTagDecoder.Decoded, Held;
      var r, start := PhidgetsTagDecoder.DecodePhidgetsTag(biphaseBuffer, biphaseReadPtr, biphaseWritePtr);
      biphaseReadPtr := start;
      tags := if r.Tag? then [Read(PHIDGETS, r.tagString)] else [];
    }

    method ReadFdxB() returns (tags: seq<Read>)
      requires Valid()
      modifies this`biphaseReadPtr
      ensures Valid() && (Biphase(), tags) == TakeFdxB(old(Biphase()))
    {
      hide FdxBDecoder.Decoded, Held;
      var r, start := FdxBDecoder.DecodeFdxB(biphaseBuffer, biphaseReadPtr, biphaseWritePtr);
      biphaseReadPtr := start;
      tags := if r.Tag? then [Read(ISO11785_FDX_B, r.tagString)] else [];
    }

    // ---- analyze_data -------------------------------------------------------------

    method ResetValuesFromSpace()
      requires Valid()
      modifies this`shortClocks, this`longClocks
      modifies this`manReadPtr, this`manWritePtr, this`manLockedIn, this`manShortChange
      modifies this`biphaseReadPtr, this`biphaseWritePtr, this`biphaseLockedIn, this`biphaseShortChange
      ensures Valid() && Holds() == Reset(old(Holds()))
    {
      hide Held, Queued;
      shortClocks, longClocks := 0, 0;
      manLockedIn := false;
      manReadPtr, manWritePtr := 0, 0;
      biphaseReadPtr, biphaseWritePtr := 0, 0;
      manShortChange, biphaseShortChange := false, false;
      biphaseLockedIn := false;
    }

    method DropPulse()
      requires Valid() && dataReadPtr != dataWritePtr
      modifies this`dataReadPtr
      ensures Valid() && Holds() == old(Holds()).(pulses := old(Holds()).pulses[1..])
    {
      SkipDrops(Data(), 1);
      dataReadPtr := (dataReadPtr + 1) % SIZE;
    }

    method SkipPauses()
      requires Valid()
      modifies this`dataReadPtr, this`shortClocks, this`longClocks
      modifies this`manReadPtr, this`manWritePtr, this`manLockedIn, this`manShortChange
      modifies this`biphaseReadPtr, this`biphaseWritePtr, this`biphaseLockedIn, this`biphaseShortChange
      ensures Valid() && Holds() == SkipSpaces(old(Holds()))
    {
      hide Reset;
      while dataReadPtr != dataWritePtr
        invariant Valid() && SkipSpaces(Holds()) == SkipSpaces(old(Holds()))
        decreases |Holds().pulses|
      {
        assert dataBuffer[dataReadPtr] == Holds().pulses[0];
        if dataBuffer[dataReadPtr].Space? {
          DropPulse();
          ResetValuesFromSpace();
        } else {
          break;
        }
      }
    }

    /** Reads until there is a pause, a pulse that does not fit, or no more data. */
    method MeasurePulses() returns (fits: bool, myReadPtr: nat, bytesRead: nat)
      requires Valid()
      modifies this`shortClocks, this`longClocks
      ensures Valid()
      ensures var s := old(Holds());
        && Measure(fits, bytesRead, shortClocks, longClocks) == MeasureFrom(s.pulses, 0, s.shortClocks, s.longClocks)
        && myReadPtr == (dataReadPtr + bytesRead) % SIZE
        && Holds() == s.(shortClocks := shortClocks, longClocks := longClocks)
    {
      hide Held, MeasureFrom;
      ghost var pulses := Holds().pulses;
      bytesRead := 0;
      myReadPtr := dataReadPtr;
      while myReadPtr != dataWritePtr
        invariant Valid() && bytesRead <= |pulses| && myReadPtr == (dataReadPtr + bytesRead) % SIZE
        invariant myReadPtr == dataWritePtr <==> bytesRead == |pulses|
        invariant MeasureFrom(pulses, bytesRead, shortClocks, longClocks)
               == MeasureFrom(pulses, 0, old(shortClocks), old(longClocks))
        decreases |pulses| - bytesRead
      {
        HeldAt(dataBuffer[..], dataReadPtr, |pulses|, bytesRead);
        MeasureHere(pulses, bytesRead, shortClocks, longClocks);
        if dataBuffer[myReadPtr].Space? {
          break;
        }
        var clocks := Clocks(dataBuffer[myReadPtr]);
        if shortClocks == 0 {
          shortClocks := clocks;
        } else if clocks != shortClocks {
          if longClocks == 0 {
            if shortClocks * 2 == clocks || shortClocks / 2 == clocks {
              longClocks := clocks;
            } else {
              return false, myReadPtr, bytesRead;
            }
          } else if clocks != longClocks {
            return false, myReadPtr, bytesRead;
          }
        }
        WalkTo(dataReadPtr, dataWritePtr, bytesRead);
        AdvancePointer(dataBuffer[..], dataReadPtr, bytesRead, 0);
        myReadPtr := (myReadPtr + 1) % SIZE;
        bytesRead := bytesRead + 1;
      }
      if bytesRead == |pulses| { MeasureEnd(pulses, shortClocks, longClocks); }
      fits := true;
    }

    /** Shifts the data up to a pointer into the line decoders, reads the tags, and moves the read pointer. */
    method DecodePulses(myReadPtr: nat, ghost n: nat) returns (tags: seq<Read>)
      requires Valid() && n <= |Holds().pulses| && myReadPtr == (dataReadPtr + n) % SIZE
      modifies manBuffer, biphaseBuffer, this`dataReadPtr
      modifies this`manReadPtr, this`manWritePtr, this`manLockedIn, this`manShortChange
      modifies this`biphaseReadPtr, this`biphaseWritePtr, this`biphaseLockedIn, this`biphaseShortChange
      ensures Valid() && (Holds(), tags) == Decode(old(Holds()), n)
    {
      hide ManchesterRun, BiphaseRun, TakeEM4100, TakePhidgets, TakeFdxB, Held, Queued;
      ghost var s := Holds();
      StretchHeld(dataBuffer[..], dataReadPtr, |s.pulses|, 0, dataReadPtr, n);
      WalkBack(dataReadPtr, dataWritePtr, n);
      AddManchesterData(myReadPtr);
      assert Man() == ManchesterRun(s.man, s.pulses[..n], longClocks);
      tags := ReadEM4100();
      ghost var man := (Man(), tags);
      assert man == TakeEM4100(ManchesterRun(s.man, s.pulses[..n], longClocks));
      var ok := AddBiphaseData(myReadPtr);
      assert Outcome(ok, Biphase()) == BiphaseRun(s.biphase, s.pulses[..n], shortClocks, longClocks);
      ghost var outcome := Outcome(ok, Biphase());
      var more := [];
      if ok {
        var first := ReadPhidgets();
        var second := ReadFdxB();
        more := first + second;
      }
      assert (Biphase(), more) == TakeBiphase(outcome);
      tags := tags + more;
      SkipTo(myReadPtr, n);
    }

    method SkipTo(myReadPtr: nat, ghost n: nat)
      requires Valid() && n <= |Holds().pulses| && myReadPtr == (dataReadPtr + n) % SIZE
      modifies this`dataReadPtr
      ensures Valid() && dataReadPtr == myReadPtr && Holds() == old(Holds()).(pulses := old(Holds()).pulses[n..])
    {
      hide Held, Queued;
      SkipDrops(Data(), n);
      dataReadPtr := myReadPtr;
    }

    method OrderClocks()
      requires Valid()
      modifies this`shortClocks, this`longClocks
      ensures Valid() && Holds() == Ordered(old(Holds()))
    {
      if longClocks < shortClocks {
        longClocks, shortClocks := shortClocks, longClocks;
      }
    }

    method Restart()
      requires Valid() && dataReadPtr != dataWritePtr
      modifies this`dataReadPtr, this`shortClocks, this`longClocks
      modifies this`manReadPtr, this`manWritePtr, this`manLockedIn, this`manShortChange
      modifies this`biphaseReadPtr, this`biphaseWritePtr, this`biphaseLockedIn, this`biphaseShortChange
      ensures Valid() && Holds() == Reset(old(Holds()).(pulses := old(Holds()).pulses[1..]))
    {
      DropPulse();
      ResetValuesFromSpace();
    }

    /** From the label start to the next jump back to it, or to the return. */
    method AnalyzeOnce() returns (again: bool, tags: seq<Read>)
      requires Valid()
      modifies manBuffer, biphaseBuffer, this`dataReadPtr, this`shortClocks, this`longClocks
      modifies this`manReadPtr, this`manWritePtr, this`manLockedIn, this`manShortChange
      modifies this`biphaseReadPtr, this`biphaseWritePtr, this`biphaseLockedIn, this`biphaseShortChange
      ensures Valid() && Round(again, Holds(), tags) == OneRound(old(Holds()))
    {
      hide SkipSpaces, MeasureFrom, Decode, Held, Holds, Data, Man, Biphase, Ordered;
      SkipPauses();
      var bytesToRead: int := dataWritePtr - dataReadPtr;
      if dataReadPtr > dataWritePtr {
        bytesToRead := bytesToRead + SIZE;
      }
      var fits, myReadPtr, bytesRead := MeasurePulses();
      if !fits {
        Restart();
        return true, [];
      }
      // only one length so far
      if shortClocks == 0 || longClocks == 0 {
        if bytesRead != bytesToRead {
          SkipTo(myReadPtr, bytesRead);
          return dataReadPtr != dataWritePtr, [];
        }
        return false, [];
      }
      OrderClocks();
      tags := DecodePulses(myReadPtr, bytesRead);
      again := dataReadPtr != dataWritePtr;
    }

    /** analyze_data. It ends from every state of the rings. */
    method AnalyzeData() returns (tags: seq<Read>)
      requires Valid()
      modifies manBuffer, biphaseBuffer, this`dataReadPtr, this`shortClocks, this`longClocks
      modifies this`manReadPtr, this`manWritePtr, this`manLockedIn, this`manShortChange
      modifies this`biphaseReadPtr, this`biphaseWritePtr, this`biphaseLockedIn, this`biphaseShortChange
      ensures Valid() && (Holds(), tags) == Analyze(old(Holds()))
    {
      hide OneRound;
      tags := [];
      ghost var s := Holds();
      while true
        invariant Valid()
        invariant Analyze(s).0 == Analyze(Holds()).0
        invariant Analyze(s).1 == tags + Analyze(Holds()).1
        decreases |Holds().pulses|
      {
        ghost var seen := tags;
        var again, more := AnalyzeOnce();
        tags := tags + more;
        if !again {
          return;
        }
        assert seen + (more + Analyze(Holds()).1) == tags + Analyze(Holds()).1;
      }
    }

    /** dataInput: a packet with data is queued and analysed at once. */
    method DataInput(bytes: seq<nat>) returns (tags: seq<Read>)
      requires Valid() && |bytes| <= 0x3F && forall i :: 0 <= i < |bytes| ==> bytes[i] < 256
      modifies dataBuffer, manBuffer, biphaseBuffer, this
      ensures Valid()
      ensures (Holds(), tags) == if |bytes| > 0 then Feed(old(Holds()), Classified(bytes)) else (old(Holds()), [])
    {
      hide Analyze, Newest;
      tags := [];
      if |bytes| > 0 {
        WriteEntries(bytes);
        tags := AnalyzeData();
      }
    }
  }

  // One step of measuring.
  lemma MeasureHere(pulses: seq<Pulse>, i: nat, a: nat, b: nat)
    requires i < |pulses|
    ensures var clocks := Clocks(pulses[i]);
      MeasureFrom(pulses, i, a, b)
      == if pulses[i].Space? then Measure(true, i, a, b)
         else if a == 0 then MeasureFrom(pulses, i + 1, clocks, b)
         else if clocks == a || (b > 0 && clocks == b) then MeasureFrom(pulses, i + 1, a, b)
         else if b == 0 && (a * 2 == clocks || a / 2 == clocks) then MeasureFrom(pulses, i + 1, a, clocks)
         else Measure(false, i, a, b)
  {
  }

  lemma MeasureEnd(pulses: seq<Pulse>, a: nat, b: nat)
    ensures MeasureFrom(pulses, |pulses|, a, b) == Measure(true, |pulses|, a, b)
  {
  }

  lemma NothingQueued(q: seq<Pulse>)
    requires |q| < SIZE
    ensures Newest(q + Classified([])) == q
  {
  }

  lemma WalkBack(start: nat, to: nat, n: nat)
    requires start < SIZE && to < SIZE && n <= Queued(start, to)
    ensures Queued(start, (start + n) % SIZE) == n
  {
  }

  function Classified(bytes: seq<nat>): (p: seq<Pulse>)
    requires forall i :: 0 <= i < |bytes| ==> bytes[i] < 256
  {
    seq(|bytes|, i requires 0 <= i < |bytes| => Classify(bytes[i]))
  }

  // ---- walking from the read pointer to a later one ----------------------------------

  lemma HeldAt<T>(data: seq<T>, start: nat, n: nat, i: nat)
    requires |data| == SIZE && i < n
    ensures Held(data, start, n)[i] == data[(start + i) % SIZE]
  {
  }

  lemma WalkTo(start: nat, to: nat, i: nat)
    requires start < SIZE && to < SIZE && i < Queued(start, to)
    ensures ((start + i) % SIZE + 1) % SIZE == to <==> i + 1 == Queued(start, to)
  {
  }

  lemma NothingRun(l: Line, pulses: seq<Pulse>, longClocks: nat)
    ensures ManchesterRun(l, pulses[..0], longClocks) == l
  {
  }

  lemma ManchesterNext(l: Line, pulses: seq<Pulse>, i: nat, longClocks: nat)
    requires i < |pulses|
    ensures ManchesterRun(l, pulses[..i + 1], longClocks)
         == ManchesterStep(ManchesterRun(l, pulses[..i], longClocks), pulses[i], longClocks)
  {
    assert pulses[..i + 1][..i] == pulses[..i];
  }

  lemma NothingBiphase(l: Line, pulses: seq<Pulse>, shortClocks: nat, longClocks: nat)
    ensures BiphaseRun(l, pulses[..0], shortClocks, longClocks) == Outcome(true, l)
  {
  }

  lemma BiphaseNext(l: Line, pulses: seq<Pulse>, i: nat, shortClocks: nat, longClocks: nat)
    requires i < |pulses|
    ensures var r := BiphaseRun(l, pulses[..i], shortClocks, longClocks);
      r.ok ==> BiphaseRun(l, pulses[..i + 1], shortClocks, longClocks)
                 == BiphaseStep(r.line, pulses[i], shortClocks, longClocks)
  {
    assert pulses[..i + 1][..i] == pulses[..i];
  }

  lemma BiphaseSticks(l: Line, pulses: seq<Pulse>, i: nat, shortClocks: nat, longClocks: nat)
    requires i <= |pulses| && !BiphaseRun(l, pulses[..i], shortClocks, longClocks).ok
    ensures BiphaseRun(l, pulses, shortClocks, longClocks) == BiphaseRun(l, pulses[..i], shortClocks, longClocks)
  {
    BiphaseChunks(l, pulses[..i], pulses[i..], shortClocks, longClocks);
    assert pulses[..i] + pulses[i..] == pulses;
  }
}
