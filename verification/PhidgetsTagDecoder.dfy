/** decodePHIDGETS_TAG on the ring itself. */
module PhidgetsTagDecoder {
  import opened Words
  import opened Crc
  import opened Ring
  import opened PhidgetsTag

  /** What the decoder returns for the entries it can see. A non-empty queue is searched from its
      front. An empty queue skips the search for the header, so the stale entries at the pointer are
      tried as a frame without one. */
  function Decoded(q: seq<bool>, empty: bool): (r: Found)
    requires empty ==> |q| == SIZE
  {
    if !empty then Scan(q, 0, Zero())
    else if Passes(Window(q, 0), Zero()) then Tag(CString(TextOf(Window(q, 0))))
    else Scan(q, 15, Collected(Window(q, 0), Zero()))
  }

  method HeaderAt(data: array<bool>, myReadPtr: nat) returns (foundStart: bool)
    requires data.Length == SIZE
    ensures foundStart <==> Header(Held(data[..], myReadPtr, 224))
  {
    ghost var w := Held(data[..], myReadPtr, 224);
    foundStart := true;
    for i := 0 to 13
      invariant foundStart
      invariant forall k :: 0 <= k < i ==> !w[k]
    {
      if data[(myReadPtr + i) % SIZE] {
        assert w[i];
        foundStart := false;
        break;
      }
    }
    if !data[(myReadPtr + 13) % SIZE] {
      assert !w[13];
      foundStart := false;
    }
  }

  method SearchHeader(data: array<bool>, from: nat, endPtr: nat, stale: Crc16,
                      ghost start: nat, ghost n: nat, ghost off0: nat)
    returns (found: bool, myReadPtr: nat, ghost off: nat)
    requires data.Length == SIZE && from < SIZE && endPtr < SIZE && start < SIZE && off0 < n <= SIZE
    requires from == (start + off0) % SIZE && (from != endPtr ==> Queued(from, endPtr) == n - off0)
    ensures from == endPtr ==> found && off == off0
    ensures off0 <= off <= n && myReadPtr == (start + off) % SIZE
    ensures var q := Held(data[..], start, n);
      from != endPtr ==>
        && Scan(q, off0, stale) == (if found then Scan(q, off, stale) else NotFound)
        && (found ==> off + 224 <= n && Header(Window(q, off)))
  {
    hide Header, Passes, CString, TextOf, Collected;
    ghost var q := Held(data[..], start, n);
    off := off0;
    myReadPtr := from;
    var bytesInQueue: int := endPtr - myReadPtr;
    if myReadPtr > endPtr {
      bytesInQueue := bytesInQueue + SIZE;
    }
    while myReadPtr != endPtr
      invariant off0 <= off < n && myReadPtr == (start + off) % SIZE
      invariant if from == endPtr then off == off0 else bytesInQueue == n - off && myReadPtr != endPtr
      invariant from != endPtr ==> Scan(q, off0, stale) == Scan(q, off, stale)
      decreases n - off
    {
      if bytesInQueue < 224 {
        return false, myReadPtr, off;
      }
      var foundStart := HeaderAt(data, myReadPtr);
      StretchHeld(data[..], start, n, off, myReadPtr, 224);
      if foundStart {
        return true, myReadPtr, off;
      }
      PointersApart(start, off, from, off0, endPtr, n);
      AdvancePointer(data[..], start, off, 0);
      myReadPtr := (myReadPtr + 1) % SIZE;
      bytesInQueue := bytesInQueue - 1;
      off := off + 1;
    }
    return true, myReadPtr, off;
  }

  // The register once the first i checksum bits are or-ed in.
  function Register(w: Win, stale: Crc16, i: nat): Crc16 {
    seq(16, k requires 0 <= k < 16 => stale[k] || (k + i >= 16 && ChecksumOf(w)[k]))
  }

  lemma RegisterStep(w: Win, stale: Crc16, i: nat, reg: Crc16)
    requires i < 16 && reg == Register(w, stale, i)
    ensures reg[15 - i := reg[15 - i] || w[14 + i + i / 8]] == Register(w, stale, i + 1)
  {
  }

  lemma RegisterEnds(w: Win, stale: Crc16)
    ensures Register(w, stale, 0) == stale
    ensures Register(w, stale, 8) == Or(stale, UpperChecksum(w))
    ensures Register(w, stale, 16) == Or(stale, ChecksumOf(w))
  {
  }

  /** Or-s the checksum behind a header into the register; w is the frame with its header. */
  method ReadChecksum(data: array<bool>, myReadPtr: nat, stale: Crc16, ghost start: nat)
    returns (ok: bool, crcRead: Crc16)
    requires data.Length == SIZE && myReadPtr == (start + 14) % SIZE
    ensures var w := Held(data[..], start, 224); (ok <==> w[22] && w[31]) && crcRead == Collected(w, stale)
  {
    hide Register, ChecksumOf, UpperChecksum;
    ghost var w := Held(data[..], start, 224);
    forall k: nat | k < 18 ensures Peek(data[..], myReadPtr, k) == w[14 + k] {
      AdvancePointer(data[..], start, 14, k);
    }
    RegisterEnds(w, stale);
    var k := 0;
    crcRead := stale;
    for i := 0 to 16
      invariant k == if i == 0 then 0 else i + (i - 1) / 8
      invariant i > 8 ==> w[22]
      invariant crcRead == Register(w, stale, i)
    {
      if i > 0 && i % 8 == 0 {
        if !data[(myReadPtr + k) % SIZE] {
          assert k == 8 && !Peek(data[..], myReadPtr, 8);
          return false, crcRead;
        }
        assert k == 8 && Peek(data[..], myReadPtr, 8);
        k := k + 1;
      }
      assert Peek(data[..], myReadPtr, k) == w[14 + i + i / 8];
      RegisterStep(w, stale, i, crcRead);
      crcRead := crcRead[15 - i := crcRead[15 - i] || data[(myReadPtr + k) % SIZE]];
      k := k + 1;
    }
    ok := data[(myReadPtr + k) % SIZE];
    assert k == 17 && ok == Peek(data[..], myReadPtr, 17);
  }

  // Bit b of character c once the first i data positions are read.
  predicate TextBit(w: Win, i: nat, c: nat, b: nat)
    requires c < 24 && b < 8
  {
    b < 7 && 8 * c + 6 - b < i && w[32 + 8 * c + 6 - b]
  }

  function TextSoFar(w: Win, i: nat): (d: Text) {
    seq(24, c requires 0 <= c < 24 => seq(8, b requires 0 <= b < 8 => TextBit(w, i, c, b)))
  }

  lemma TextStep(w: Win, i: nat, d: Text)
    requires i < 192 && d == TextSoFar(w, i)
    ensures i % 8 == 7 ==> d == TextSoFar(w, i + 1)
    ensures i % 8 < 7 ==>
      d[i / 8 := d[i / 8][6 - i % 8 := d[i / 8][6 - i % 8] || w[32 + i]]] == TextSoFar(w, i + 1)
  {
    forall c, b | 0 <= c < 24 && 0 <= b < 8
      ensures TextBit(w, i + 1, c, b) == (TextBit(w, i, c, b) || (c == i / 8 && b == 6 - i % 8 && w[32 + i]))
    {
    }
    forall c | 0 <= c < 24 && (c != i / 8 || i % 8 == 7) ensures d[c] == TextSoFar(w, i + 1)[c] {
      forall b | 0 <= b < 8 ensures d[c][b] == TextSoFar(w, i + 1)[c][b] {
        assert TextBit(w, i + 1, c, b) == TextBit(w, i, c, b);
      }
    }
    if i % 8 < 7 {
      var c, x := i / 8, 6 - i % 8;
      var row: Byte := d[c][x := d[c][x] || w[32 + i]];
      forall b | 0 <= b < 8 ensures row[b] == TextSoFar(w, i + 1)[c][b] {
        assert TextBit(w, i + 1, c, b) == (TextBit(w, i, c, b) || (b == x && w[32 + i]));
      }
      assert row == TextSoFar(w, i + 1)[c];
      assert d[c := row] == TextSoFar(w, i + 1);
    }
  }

  lemma TextEnds(w: Win)
    ensures TextSoFar(w, 192) == TextOf(w)
  {
    forall c | 0 <= c < 24 ensures TextSoFar(w, 192)[c] == TextOf(w)[c] {
      assert forall b :: 0 <= b < 8 ==> TextSoFar(w, 192)[c][b] == TextOf(w)[c][b];
    }
  }

  method ReadText(data: array<bool>, myReadPtr: nat, ghost start: nat) returns (ok: bool, tagData: Text)
    requires data.Length == SIZE && myReadPtr == (start + 14) % SIZE
    ensures var w := Held(data[..], start, 224); (ok <==> DataControls(w)) && (ok ==> tagData == TextOf(w))
  {
    hide TextSoFar, TextOf;
    ghost var w := Held(data[..], start, 224);
    var k := 18;
    tagData := seq(24, i => seq(8, b => false));
    StartEmpty(w, tagData);
    for i := 0 to 192
      invariant k == 18 + i
      invariant forall g :: 0 <= g < i / 8 ==> w[39 + 8 * g]
      invariant tagData == TextSoFar(w, i)
    {
      AdvancePointer(data[..], start, 14, k);
      assert data[(myReadPtr + k) % SIZE] == w[32 + i];
      TextStep(w, i, tagData);
      if (i + 1) % 8 == 0 {
        if !data[(myReadPtr + k) % SIZE] {
          assert !w[39 + 8 * (i / 8)];
          return false, tagData;
        }
      } else {
        var row: Byte := tagData[i / 8][6 - i % 8 := tagData[i / 8][6 - i % 8] || data[(myReadPtr + k) % SIZE]];
        tagData := tagData[i / 8 := row];
      }
      k := k + 1;
    }
    TextEnds(w);
    ok := true;
  }

  lemma StartEmpty(w: Win, d: Text)
    requires d == seq(24, i => seq(8, b => false))
    ensures d == TextSoFar(w, 0)
  {
    forall c | 0 <= c < 24 ensures d[c] == TextSoFar(w, 0)[c] {
      assert forall b :: 0 <= b < 8 ==> d[c][b] == TextSoFar(w, 0)[c][b];
    }
  }

  method TryFrame(data: array<bool>, myReadPtr: nat, stale: Crc16, ghost start: nat)
    returns (pass: bool, d: Text, crcRead: Crc16)
    requires data.Length == SIZE && myReadPtr == (start + 14) % SIZE
    ensures var w := Held(data[..], start, 224);
      && (pass <==> Passes(w, stale))
      && (pass ==> d == TextOf(w))
      && crcRead == Collected(w, stale)
  {
    hide MessageCrc, Collected, TextOf, Held;
    pass := false;
    d := seq(24, i => seq(8, b => false));
    pass, crcRead := ReadChecksum(data, myReadPtr, stale, start);
    if pass {
      pass, d := ReadText(data, myReadPtr, start);
    }
    if pass {
      var crcCalc := Checksum(d);
      pass := crcCalc == crcRead;
    }
  }

  /** decodePHIDGETS_TAG: returns the tag of the first frame its search comes by that passes. Only a
      success moves the read pointer, by one frame. */
  method DecodePhidgetsTag(data: array<bool>, startPtr: nat, endPtr: nat) returns (r: Found, newStart: nat)
    requires data.Length == SIZE && startPtr < SIZE && endPtr < SIZE
    ensures r == Decoded(Held(data[..], startPtr, Reach(startPtr, endPtr)), startPtr == endPtr)
    ensures newStart == if r.Tag? then (startPtr + 224) % SIZE else startPtr
    ensures startPtr != endPtr && r.Tag? ==>
      Queued(startPtr, endPtr) >= 224 && Queued(newStart, endPtr) == Queued(startPtr, endPtr) - 224
  {
    hide Passes, Header, CString, TextOf, Collected, Held, Queued;
    ghost var n, empty := Reach(startPtr, endPtr), startPtr == endPtr;
    ghost var q := Held(data[..], startPtr, n);
    ghost var off: nat := 0;
    var myReadPtr := startPtr;
    var crcRead := Zero();
    while true
      invariant off < n && myReadPtr == (startPtr + off) % SIZE
      invariant off > 0 || !empty ==> myReadPtr != endPtr && Queued(myReadPtr, endPtr) == n - off
      invariant if off == 0 then crcRead == Zero() else Decoded(q, empty) == Scan(q, off, crcRead)
      decreases n - off
    {
      var found: bool;
      found, myReadPtr, off := SearchHeader(data, myReadPtr, endPtr, crcRead, startPtr, n, off);
      if !found {
        return NotFound, startPtr;
      }
      StretchHeld(data[..], startPtr, n, off, myReadPtr, 224);
      ghost var before := myReadPtr;
      myReadPtr := (myReadPtr + 14) % SIZE;
      var pass, d;
      pass, d, crcRead := TryFrame(data, myReadPtr, crcRead, before);
      if pass {
        if !empty { QueuedAfter(startPtr, endPtr, 224); }
        return Tag(CString(d)), (startPtr + 224) % SIZE;
      }
      StillWithinReach(startPtr, endPtr, off, before, 15);
      ModTwice(before + 14, 1);
      myReadPtr := (myReadPtr + 1) % SIZE;
      off := off + 15;
    }
  }

  /** From any ring position, 447 queued bits of a repeated frame are enough to read its tag. */
  lemma RingSelfSynchronising(data: seq<bool>, startPtr: nat, endPtr: nat, s: string, rot: nat)
    requires |data| == SIZE && startPtr < SIZE && endPtr < SIZE && Queued(startPtr, endPtr) >= 447
    requires TagText(s) && Repeated(Held(data, startPtr, Queued(startPtr, endPtr)), TextData(s), rot)
    ensures Decoded(Held(data, startPtr, Reach(startPtr, endPtr)), startPtr == endPtr) == Tag(s)
  {
    hide Repeated, TextData;
    SelfSynchronising(s, Held(data, startPtr, Queued(startPtr, endPtr)), rot);
  }
}
