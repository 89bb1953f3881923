/** decodeEM4100 on the ring itself. */
module Em4100Decoder {
  import opened Words
  import opened Ring
  import opened Em4100

  /** What the decoder returns for the entries it can see. A non-empty queue is searched from its
      front. An empty queue skips the search for the header: the 64 stale entries at the pointer
      are checked without one, and then the whole ring is searched. */
  function Decoded(q: seq<bool>, empty: bool): (r: Found)
    requires empty ==> |q| == SIZE
  {
    if !empty then FirstTag(q, 0)
    else if Checks(Window(q, 0)) then Tag(TagOf(Window(q, 0)))
    else FirstTag(q, 1)
  }

  method NineOnesAt(data: array<bool>, myReadPtr: nat) returns (foundStart: bool)
    requires data.Length == SIZE
    ensures foundStart <==> forall i :: 0 <= i < 9 ==> Peek(data[..], myReadPtr, i)
  {
    foundStart := true;
    for i := 0 to 9
      invariant foundStart
      invariant forall k :: 0 <= k < i ==> Peek(data[..], myReadPtr, k)
    {
      if !data[(myReadPtr + i) % SIZE] {
        assert !Peek(data[..], myReadPtr, i);
        foundStart := false;
        break;
      }
    }
  }

  method RowsPass(em: array<bool>) returns (ok: bool)
    requires em.Length == 64
    ensures ok <==> forall i :: 0 <= i < 10 ==> RowOk(em[..], i)
  {
    for i := 0 to 10
      invariant forall j :: 0 <= j < i ==> RowOk(em[..], j)
    {
      var rowParity := false;
      for k := 0 to 4
        invariant rowParity == Parity(RowOf(em[..], i, k))
      {
        assert RowOf(em[..], i, k + 1)[..k] == RowOf(em[..], i, k);
        rowParity := rowParity != em[9 + i * 5 + k];
      }
      if rowParity != em[9 + i * 5 + 4] {
        assert !RowOk(em[..], i);
        return false;
      }
    }
    return true;
  }

  method ColumnsPass(em: array<bool>) returns (ok: bool)
    requires em.Length == 64
    ensures ok <==> forall i :: 0 <= i < 4 ==> ColumnOk(em[..], i)
  {
    for i := 0 to 4
      invariant forall j :: 0 <= j < i ==> ColumnOk(em[..], j)
    {
      var colParity := false;
      for k := 0 to 10
        invariant colParity == Parity(ColumnOf(em[..], i, k))
      {
        assert ColumnOf(em[..], i, k + 1)[..k] == ColumnOf(em[..], i, k);
        colParity := colParity != em[9 + i + k * 5];
      }
      if colParity != em[9 + i + 10 * 5] {
        assert !ColumnOk(em[..], i);
        return false;
      }
    }
    return true;
  }

  /** Strips the data bits out, eight to a byte, skipping the parity bits, and prints them with %02x. */
  method StripData(em: array<bool>) returns (tagString: string)
    requires em.Length == 64
    ensures tagString == TagOf(em[..])
  {
    hide Weight, HexDigit;
    tagString := [];
    var j := 9;
    for i := 0 to 5
      invariant j == 9 + 10 * i
      invariant tagString == TagOf(em[..])[..2 * i]
    {
      var high := Weight(em[j], 8) + Weight(em[j + 1], 4) + Weight(em[j + 2], 2) + Weight(em[j + 3], 1);
      var low := Weight(em[j + 5], 8) + Weight(em[j + 6], 4) + Weight(em[j + 7], 2) + Weight(em[j + 8], 1);
      assert high == DigitOf(em[..], 2 * i) && low == DigitOf(em[..], 2 * i + 1);
      tagString := tagString + [HexDigit(high), HexDigit(low)];
      j := j + 10;
    }
  }

  // The search loop: the first header from myReadPtr on with a whole frame of entries behind it.
  // When the read pointer already stands at endPtr the loop is not entered.
  method SearchHeader(data: array<bool>, from: nat, endPtr: nat, ghost start: nat, ghost n: nat, ghost off0: nat)
    returns (found: bool, myReadPtr: nat, ghost off: nat)
    requires data.Length == SIZE && from < SIZE && endPtr < SIZE && start < SIZE && off0 < n <= SIZE
    requires from == (start + off0) % SIZE && (from != endPtr ==> Queued(from, endPtr) == n - off0)
    ensures from == endPtr ==> found && off == off0
    ensures off0 <= off <= n && myReadPtr == (start + off) % SIZE
    ensures var q := Held(data[..], start, n);
      from != endPtr ==>
        && FirstTag(q, off0) == (if found then FirstTag(q, off) else NotFound)
        && (found ==> off + 64 <= n && Header(Window(q, off)))
  {
    hide Header, Checks;
    ghost var q := Held(data[..], start, n);
    off := off0;
    myReadPtr := from;
    var bytesInQueue: int := endPtr - myReadPtr;
    if myReadPtr > endPtr {
      bytesInQueue := bytesInQueue + SIZE;
    }
    while myReadPtr != endPtr
      invariant off0 <= off < n && myReadPtr == (start + off) % SIZE
      invariant if from == endPtr then off == off0 else bytesInQueue == n - off && myReadPtr != endPtr
      invariant from != endPtr ==> FirstTag(q, off0) == FirstTag(q, off)
      decreases n - off
    {
      if bytesInQueue < 64 {
        return false, myReadPtr, off;
      }
      var foundStart := NineOnesAt(data, myReadPtr);
      HeaderInRing(data[..], start, n, off, myReadPtr);
      if foundStart {
        return true, myReadPtr, off;
      }
      PointersApart(start, off, from, off0, endPtr, n);
      AdvancePointer(data[..], start, off, 0);
      myReadPtr := (myReadPtr + 1) % SIZE;
      bytesInQueue := bytesInQueue - 1;
      off := off + 1;
    }
    return true, myReadPtr, off;
  }

  /** The window at a pointer, copied out of the ring, and whether it passes every check. */
  method ReadWindow(data: array<bool>, myReadPtr: nat) returns (pass: bool, em4103data: array<bool>)
    requires data.Length == SIZE
    ensures em4103data.Length == 64 && em4103data[..] == Held(data[..], myReadPtr, 64)
    ensures pass <==> Checks(em4103data[..])
  {
    hide RowOk, ColumnOk;
    ghost var d := data[..];
    em4103data := new bool[64];
    for i := 0 to 64
      invariant data[..] == d
      invariant forall k :: 0 <= k < i ==> em4103data[k] == Peek(d, myReadPtr, k)
    {
      em4103data[i] := data[(myReadPtr + i) % SIZE];
    }
    pass := !em4103data[63];
    if pass {
      pass := RowsPass(em4103data);
    }
    if pass {
      pass := ColumnsPass(em4103data);
    }
  }

  lemma HeaderInRing(data: seq<bool>, start: nat, n: nat, off: nat, p: nat)
    requires |data| == SIZE && off + 64 <= n && p == (start + off) % SIZE
    ensures (forall i :: 0 <= i < 9 ==> Peek(data, p, i)) <==> Header(Window(Held(data, start, n), off))
  {
    StretchHeld(data, start, n, off, p, 64);
    assert forall i :: 0 <= i < 9 ==> Held(data, p, 64)[i] == Peek(data, p, i);
  }

  /** decodeEM4100: searches forward one entry at a time, whatever the reason of a failure, and
      returns the tag of the first window that passes every check. Only a success moves the read
      pointer, by one frame. */
  method DecodeEM4100(data: array<bool>, startPtr: nat, endPtr: nat) returns (r: Found, newStart: nat)
    requires data.Length == SIZE && startPtr < SIZE && endPtr < SIZE
    ensures r == Decoded(Held(data[..], startPtr, Reach(startPtr, endPtr)), startPtr == endPtr)
    ensures newStart == if r.Tag? then (startPtr + 64) % SIZE else startPtr
    ensures startPtr != endPtr && r.Tag? ==>
      Queued(startPtr, endPtr) >= 64 && Queued(newStart, endPtr) == Queued(startPtr, endPtr) - 64
  {
    hide Checks, Header, TagOf, Held, Queued;
    ghost var n, empty := Reach(startPtr, endPtr), startPtr == endPtr;
    ghost var d := data[..];
    ghost var q := Held(d, startPtr, n);
    ghost var off: nat := 0;
    var myReadPtr := startPtr;
    while true
      invariant data[..] == d
      invariant off < n && myReadPtr == (startPtr + off) % SIZE
      invariant off > 0 || !empty ==> myReadPtr != endPtr && Queued(myReadPtr, endPtr) == n - off
      invariant Decoded(q, empty) == if off == 0 then Decoded(q, empty) else FirstTag(q, off)
      decreases n - off
    {
      var found: bool;
      ghost var off0 := off;
      found, myReadPtr, off := SearchHeader(data, myReadPtr, endPtr, startPtr, n, off);
      if !found {
        return NotFound, startPtr;
      }
      StretchHeld(d, startPtr, n, off, myReadPtr, 64);
      var pass, em4103data := ReadWindow(data, myReadPtr);
      if pass {
        var tagString := StripData(em4103data);
        if !empty { QueuedAfter(startPtr, endPtr, 64); }
        return Tag(tagString), (startPtr + 64) % SIZE;
      }
      StillWithinReach(startPtr, endPtr, off, myReadPtr, 1);
      myReadPtr := (myReadPtr + 1) % SIZE;
      off := off + 1;
    }
  }

  /** From any ring position, 127 queued bits of a repeated frame are enough to read its tag. */
  lemma RingSelfSynchronising(data: seq<bool>, startPtr: nat, endPtr: nat, s: string, rot: nat)
    requires |data| == SIZE && startPtr < SIZE && endPtr < SIZE && Queued(startPtr, endPtr) >= 127
    requires TagDigits(s) && Repeated(Held(data, startPtr, Queued(startPtr, endPtr)), s, rot)
    ensures var r := Decoded(Held(data, startPtr, Reach(startPtr, endPtr)), startPtr == endPtr);
      r.Tag? && |r.tagString| == |s| && forall i :: 0 <= i < |s| ==> r.tagString[i] == LowerCase(s[i])
  {
    SelfSynchronising(s, Held(data, startPtr, Queued(startPtr, endPtr)), rot, 0);
  }
}
