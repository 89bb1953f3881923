/** decodeISO11785_FDX_B on the ring itself. */
module FdxBDecoder {
  import opened Crc
  import opened Ring
  import opened FdxB

  /** What the decoder returns for the entries it can see. A non-empty queue is searched from its
      front. An empty queue skips the search for the header, so the stale entries at the pointer are
      tried as a frame without one. */
  function Decoded(q: seq<bool>, empty: bool): (r: Found)
    requires empty ==> |q| == SIZE
  {
    if !empty then Scan(q, 0)
    else if Passes(Window(q, 0)) then Tag(TagOf(DataOf(Window(q, 0))))
    else Scan(q, 12)
  }

  method HeaderAt(data: array<bool>, myReadPtr: nat) returns (foundStart: bool)
    requires data.Length == SIZE
    ensures foundStart <==> Header(Held(data[..], myReadPtr, 128))
  {
    ghost var w := Held(data[..], myReadPtr, 128);
    foundStart := true;
    for i := 0 to 10
      invariant foundStart
      invariant forall k :: 0 <= k < i ==> !w[k]
    {
      if data[(myReadPtr + i) % SIZE] {
        assert w[i];
        foundStart := false;
        break;
      }
    }
    if !data[(myReadPtr + 10) % SIZE] {
      assert !w[10];
      foundStart := false;
    }
  }

  method SearchHeader(data: array<bool>, from: nat, endPtr: nat, ghost start: nat, ghost n: nat, ghost off0: nat)
    returns (found: bool, myReadPtr: nat, ghost off: nat)
    requires data.Length == SIZE && from < SIZE && endPtr < SIZE && start < SIZE && off0 < n <= SIZE
    requires from == (start + off0) % SIZE && (from != endPtr ==> Queued(from, endPtr) == n - off0)
    ensures from == endPtr ==> found && off == off0
    ensures off0 <= off <= n && myReadPtr == (start + off) % SIZE
    ensures var q := Held(data[..], start, n);
      from != endPtr ==>
        && Scan(q, off0) == (if found then Scan(q, off) else NotFound)
        && (found ==> off + 128 <= n && Header(Window(q, off)))
  {
    hide Header, Passes, TagOf;
    ghost var q := Held(data[..], start, n);
    off := off0;
    myReadPtr := from;
    var bytesInQueue: int := endPtr - myReadPtr;
    if myReadPtr > endPtr {
      bytesInQueue := bytesInQueue + SIZE;
    }
    while myReadPtr != endPtr
      invariant off0 <= off < n && myReadPtr == (start + off) % SIZE
      invariant if from == endPtr then off == off0 else bytesInQueue == n - off && myReadPtr != endPtr
      invariant from != endPtr ==> Scan(q, off0) == Scan(q, off)
      decreases n - off
    {
      if bytesInQueue < 128 {
        return false, myReadPtr, off;
      }
      var foundStart := HeaderAt(data, myReadPtr);
      StretchHeld(data[..], start, n, off, myReadPtr, 128);
      if foundStart {
        return true, myReadPtr, off;
      }
      PointersApart(start, off, from, off0, endPtr, n);
      AdvancePointer(data[..], start, off, 0);
      myReadPtr := (myReadPtr + 1) % SIZE;
      bytesInQueue := bytesInQueue - 1;
      off := off + 1;
    }
    return true, myReadPtr, off;
  }

  // Entries consumed with the first i bits of groups of eight, each group after the first opened by the
  // control bit of the one before.
  function Consumed(i: nat): nat { if i == 0 then 0 else i + (i - 1) / 8 }

  /** Reads count bits in groups of eight that are closed by ones, as the loops of the decoder do. */
  method ReadGroups(data: array<bool>, myReadPtr: nat, first: nat, count: nat) returns (ok: bool, bits: seq<bool>)
    requires data.Length == SIZE && 0 < count && count % 8 == 0
    ensures ok <==> forall g :: 0 <= g < count / 8 ==> Peek(data[..], myReadPtr, first + 8 + 9 * g)
    ensures ok ==> |bits| == count
    ensures ok ==> forall i :: 0 <= i < count ==> bits[i] == Peek(data[..], myReadPtr, first + i + i / 8)
  {
    var k := first;
    bits := [];
    ok := false;
    for i := 0 to count
      invariant k == first + Consumed(i) && |bits| == i
      invariant forall g :: 0 <= g < (if i == 0 then 0 else (i - 1) / 8) ==> Peek(data[..], myReadPtr, first + 8 + 9 * g)
      invariant forall j :: 0 <= j < i ==> bits[j] == Peek(data[..], myReadPtr, first + j + j / 8)
    {
      if i > 0 && i % 8 == 0 {
        assert k == first + 8 + 9 * (i / 8 - 1);
        if !data[(myReadPtr + k) % SIZE] {
          assert !Peek(data[..], myReadPtr, first + 8 + 9 * (i / 8 - 1));
          return;
        }
        k := k + 1;
      }
      bits := bits + [data[(myReadPtr + k) % SIZE]];
      k := k + 1;
    }
    assert k == first + 8 + 9 * (count / 8 - 1);
    if !data[(myReadPtr + k) % SIZE] {
      assert !Peek(data[..], myReadPtr, first + 8 + 9 * (count / 8 - 1));
      return;
    }
    ok := true;
  }

  /** Reads the frame behind a header; w is the frame with its header. */
  method TryFrame(data: array<bool>, myReadPtr: nat, ghost start: nat) returns (pass: bool, d: Data)
    requires data.Length == SIZE && myReadPtr == (start + 11) % SIZE
    ensures pass <==> Passes(Held(data[..], start, 128))
    ensures pass ==> d == DataOf(Held(data[..], start, 128))
  {
    hide MessageCrc, Crc.Update;
    ghost var w := Held(data[..], start, 128);
    d := seq(64, i => false);
    pass := false;
    forall k: nat | k < 117 ensures Peek(data[..], myReadPtr, k) == w[11 + k] {
      AdvancePointer(data[..], start, 11, k);
    }
    var ok, bits := ReadGroups(data, myReadPtr, 0, 64);
    FirstControls(data[..], myReadPtr, w);
    if !ok {
      return;
    }
    var sum: seq<bool>;
    ok, sum := ReadGroups(data, myReadPtr, 72, 16);
    LastControls(data[..], myReadPtr, w);
    if !ok {
      return;
    }
    var iso11785checksum: Crc16 := seq(16, k requires 0 <= k < 16 => sum[15 - k]);
    assert iso11785checksum == ChecksumOf(w);
    d := bits;
    assert d == DataOf(w);
    var crc := Checksum(DataBytes(d));
    pass := crc == iso11785checksum;
    SplitControls(w);
  }

  predicate DataControls(w: seq<bool>)
    requires |w| == 128
  {
    forall g :: 0 <= g < 8 ==> w[19 + 9 * g]
  }

  lemma SplitControls(w: seq<bool>)
    requires |w| == 128
    ensures Controls(w) <==> DataControls(w) && w[91] && w[100]
  {
    assert Controls(w) ==> w[19 + 9 * 8] && w[19 + 9 * 9];
  }

  lemma FirstControls(data: seq<bool>, p: nat, w: seq<bool>)
    requires |data| == SIZE && |w| == 128 && forall k: nat :: k < 117 ==> Peek(data, p, k) == w[11 + k]
    ensures (forall g :: 0 <= g < 64 / 8 ==> Peek(data, p, 0 + 8 + 9 * g)) <==> DataControls(w)
    ensures !DataControls(w) ==> !Controls(w)
  {
    forall g | 0 <= g < 8 ensures Peek(data, p, 0 + 8 + 9 * g) == w[19 + 9 * g] {
    }
  }

  lemma LastControls(data: seq<bool>, p: nat, w: seq<bool>)
    requires |data| == SIZE && |w| == 128 && forall k: nat :: k < 117 ==> Peek(data, p, k) == w[11 + k]
    ensures (forall g :: 0 <= g < 16 / 8 ==> Peek(data, p, 72 + 8 + 9 * g)) <==> w[91] && w[100]
    ensures !(w[91] && w[100]) ==> !Controls(w)
  {
    SplitControls(w);
    assert Peek(data, p, 72 + 8 + 9 * 0) == w[91] && Peek(data, p, 72 + 8 + 9 * 1) == w[100];
  }

  /** decodeISO11785_FDX_B: returns the tag of the first valid frame its search comes by. Only a success
      moves the read pointer, by one frame. */
  method DecodeFdxB(data: array<bool>, startPtr: nat, endPtr: nat) returns (r: Found, newStart: nat)
    requires data.Length == SIZE && startPtr < SIZE && endPtr < SIZE
    ensures r == Decoded(Held(data[..], startPtr, Reach(startPtr, endPtr)), startPtr == endPtr)
    ensures newStart == if r.Tag? then (startPtr + 128) % SIZE else startPtr
    ensures startPtr != endPtr && r.Tag? ==>
      Queued(startPtr, endPtr) >= 128 && Queued(newStart, endPtr) == Queued(startPtr, endPtr) - 128
  {
    hide Passes, Header, TagOf, DataOf, Held, Queued;
    ghost var n, empty := Reach(startPtr, endPtr), startPtr == endPtr;
    ghost var q := Held(data[..], startPtr, n);
    ghost var off: nat := 0;
    var myReadPtr := startPtr;
    while true
      invariant off < n && myReadPtr == (startPtr + off) % SIZE
      invariant off > 0 || !empty ==> myReadPtr != endPtr && Queued(myReadPtr, endPtr) == n - off
      invariant Decoded(q, empty) == if off == 0 then Decoded(q, empty) else Scan(q, off)
      decreases n - off
    {
      var found: bool;
      found, myReadPtr, off := SearchHeader(data, myReadPtr, endPtr, startPtr, n, off);
      if !found {
        return NotFound, startPtr;
      }
      StretchHeld(data[..], startPtr, n, off, myReadPtr, 128);
      ghost var before := myReadPtr;
      myReadPtr := (myReadPtr + 11) % SIZE;
      var pass, d := TryFrame(data, myReadPtr, before);
      if pass {
        if !empty { QueuedAfter(startPtr, endPtr, 128); }
        return Tag(TagOf(d)), (startPtr + 128) % SIZE;
      }
      StillWithinReach(startPtr, endPtr, off, before, 12);
      ModTwice(before + 11, 1);
      myReadPtr := (myReadPtr + 1) % SIZE;
      off := off + 12;
    }
  }

  /** From any ring position, 255 queued bits of a repeated frame are enough to read its tag. */
  lemma RingSelfSynchronising(data: seq<bool>, startPtr: nat, endPtr: nat, s: string, rot: nat)
    requires |data| == SIZE && startPtr < SIZE && endPtr < SIZE && Queued(startPtr, endPtr) >= 255
    requires TagDigits(s) && Repeated(Held(data, startPtr, Queued(startPtr, endPtr)), TagData(s), rot)
    ensures Decoded(Held(data, startPtr, Reach(startPtr, endPtr)), startPtr == endPtr) == Tag(s)
  {
    hide Repeated, TagData;
    SelfSynchronising(s, Held(data, startPtr, Queued(startPtr, endPtr)), rot, 0);
  }
}
