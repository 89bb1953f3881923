/** codeInfoToRawData: the loops that turn a code into packet bytes. Header, bits, trail and gap go to a packer
    one time after the other; the methods are proved against the list of times of a code, for every encoding,
    and against its packed bytes. */
module IrEncoder {
  import opened IrTimes
  import opened IrCode
  import opened Words

  /** The times of a code; pulse codes still have the space behind their last pulse. */
  function CodeTimes(info: CodeInfo, bits: seq<bool>): (t: seq<nat>)
    requires |bits| > 0
  {
    HeaderTimes(info)
    + match info.encoding
      case Space => Marks(info, bits) + [info.trail]
      case Pulse => Marks(info, bits)
      case Biphase => BiphaseTimes(info, bits)
      case RC5 => BiphaseTimes(info, bits)
      case RC6 => BiphaseTimes(info, bits)
      case Unknown => []
  }

  /** The space removed behind a pulse code, chosen by the lowest bit of the first byte. */
  function RemovedSpace(info: CodeInfo, code: seq<Byte>): nat
    requires |code| > 0
  {
    if code[0][0] then info.one1 else info.zero1
  }

  lemma Regroup(before: seq<nat>, times: seq<nat>, after: seq<nat>, j: nat)
    requires j < |times|
    ensures before + times[..j] + [times[j]] == before + times[..j + 1]
    ensures before + times[..j + 1] + (times[j + 1..] + after) == before + times + after
  {
    assert times[..j + 1] + times[j + 1..] == times;
  }

  method PutAll(times: seq<nat>, packer: Packer, ghost before: seq<nat>, ghost after: seq<nat>) returns (s: Status)
    requires packer.Valid() && packer.sent == before
    modifies packer, packer.rawData
    ensures s != Ok ==> s == Outcome(before + times + after, packer.length)
    ensures s == Ok ==> packer.Valid() && packer.sent == before + times
  {
    hide Outcome, Packer.Valid;
    for j := 0 to |times|
      invariant packer.Valid() && packer.sent == before + times[..j]
    {
      Regroup(before, times, after, j);
      s := packer.Put(times[j]);
      if s != Ok {
        FirstFailureStays(before + times[..j + 1], times[j + 1..] + after, packer.length);
        return;
      }
    }
    assert times[..|times|] == times;
    s := Ok;
  }

  lemma MarksNext(info: CodeInfo, bits: seq<bool>, n: nat)
    requires n < |bits|
    ensures Marks(info, bits[..n + 1]) == Marks(info, bits[..n]) + MarkOf(info, bits[n])
  {
    assert bits[..n + 1][..n] == bits[..n];
  }

  lemma {:induction false} MarksSplit(info: CodeInfo, bits: seq<bool>, n: nat) returns (rest: seq<nat>)
    requires n <= |bits|
    ensures Marks(info, bits) == Marks(info, bits[..n]) + rest
    decreases |bits| - n
  {
    if n == |bits| {
      assert bits[..n] == bits;
      rest := [];
    } else {
      MarksNext(info, bits, n);
      rest := MarksSplit(info, bits, n + 1);
      rest := MarkOf(info, bits[n]) + rest;
    }
  }

  /** The loop for space and pulse codes. */
  method PutMarks(code: seq<Byte>, info: CodeInfo, packer: Packer, ghost before: seq<nat>, ghost after: seq<nat>) returns (s: Status)
    requires ByteCount(info.bitCount) <= |code|
    requires packer.Valid() && packer.sent == before
    modifies packer, packer.rawData
    ensures var bits := CodeBits(code, info.bitCount);
      && (s != Ok ==> s == Outcome(before + Marks(info, bits) + after, packer.length))
      && (s == Ok ==> packer.Valid() && packer.sent == before + Marks(info, bits))
  {
    hide Outcome, Marks, Packer.Valid;
    ghost var bits := CodeBits(code, info.bitCount);
    NoMarks(info, bits);
    var j: int, k := info.bitCount - 1, Pad(info.bitCount);
    ghost var n: nat := 0;
    while j >= 0
      invariant n <= |bits| && j == info.bitCount - 1 - n && k == n + Pad(info.bitCount)
      invariant packer.Valid() && packer.sent == before + Marks(info, bits[..n])
    {
      BitPlace(info.bitCount, n);
      var times := if code[k / 8][j % 8] then [info.one0, info.one1] else [info.zero0, info.zero1];
      assert times == MarkOf(info, bits[n]);
      ghost var done := before + Marks(info, bits[..n]);
      ghost var rest := MarksSplit(info, bits, n + 1);
      MarksNext(info, bits, n);
      s := PutAll(times, packer, done, rest + after);
      assert done + times == before + Marks(info, bits[..n + 1]);
      if s != Ok {
        assert done + times + (rest + after) == before + Marks(info, bits) + after;
        return;
      }
      j, k := j - 1, k + 1;
      n := n + 1;
    }
    assert bits[..n] == bits;
    s := Ok;
  }

  lemma NoMarks(info: CodeInfo, bits: seq<bool>)
    ensures Marks(info, bits[..0]) == []
  {
  }

  lemma HalfTimesStep(info: CodeInfo, bits: seq<bool>, n: nat)
    requires 0 < n < |bits|
    ensures HalfTimes(info, bits[..n + 1]) == HalfTimes(info, bits[..n]) + Between(info, bits, n)
  {
    hide FirstOf, SecondOf;
    var p := bits[..n + 1];
    assert p[..n] == bits[..n];
    assert FirstOf(info, p, n) == FirstOf(info, bits, n) && SecondOf(info, p, n - 1) == SecondOf(info, bits, n - 1) by {
      SameHalves(info, bits, n);
    }
  }

  lemma SameHalves(info: CodeInfo, bits: seq<bool>, n: nat)
    requires 0 < n < |bits|
    ensures FirstOf(info, bits[..n + 1], n) == FirstOf(info, bits, n)
    ensures SecondOf(info, bits[..n + 1], n - 1) == SecondOf(info, bits, n - 1)
  {
  }

  /** What one turn of the loop for biphase codes sends. */
  function Between(info: CodeInfo, bits: seq<bool>, n: nat): seq<nat>
    requires 0 < n < |bits|
  {
    if bits[n] == bits[n - 1] then [SecondOf(info, bits, n - 1), FirstOf(info, bits, n)]
    else [SecondOf(info, bits, n - 1) + FirstOf(info, bits, n)]
  }

  lemma {:induction false} HalfTimesSplit(info: CodeInfo, bits: seq<bool>, n: nat) returns (rest: seq<nat>)
    requires 0 < n <= |bits|
    ensures HalfTimes(info, bits) == HalfTimes(info, bits[..n]) + rest
    decreases |bits| - n
  {
    if n == |bits| {
      assert bits[..n] == bits;
      rest := [];
    } else {
      HalfTimesStep(info, bits, n);
      rest := HalfTimesSplit(info, bits, n + 1);
      rest := Between(info, bits, n) + rest;
    }
  }

  function Piece(info: CodeInfo, last: bool, b: bool, n: nat): seq<nat>
    requires 0 < n
  {
    var x, y := Stretched(info, n - 1, Second(info, last)), Stretched(info, n, First(info, b));
    if b == last then [x, y] else [x + y]
  }

  lemma BetweenIsPiece(info: CodeInfo, bits: seq<bool>, n: nat)
    requires 0 < n < |bits|
    ensures Between(info, bits, n) == Piece(info, bits[n - 1], bits[n], n)
  {
  }

  /** One turn of that loop, with the double times of RC-6. */
  method BitTimes(info: CodeInfo, one: bool, lastbit: bool, bit: nat) returns (times: seq<nat>)
    requires 0 < bit
    ensures times == Piece(info, lastbit, one, bit)
  {
    var rc6 := info.encoding == RC6;
    if one {
      if lastbit {
        times := [if rc6 && bit == 5 then info.one1 * 2 else info.one1, if rc6 && bit == 4 then info.one0 * 2 else info.one0];
      } else {
        times := [if rc6 && bit == 4 then info.zero1 + info.one0 * 2
                  else if rc6 && bit == 5 then info.zero1 * 2 + info.one0
                  else info.zero1 + info.one0];
      }
    } else {
      if lastbit {
        times := [if rc6 && bit == 4 then info.one1 + info.zero0 * 2
                  else if rc6 && bit == 5 then info.one1 * 2 + info.zero0
                  else info.one1 + info.zero0];
      } else {
        times := [if rc6 && bit == 5 then info.zero1 * 2 else info.zero1, if rc6 && bit == 4 then info.zero0 * 2 else info.zero0];
      }
    }
  }

  /** The loop for biphase codes. */
  method PutHalves(code: seq<Byte>, info: CodeInfo, packer: Packer, first: bool, ghost before: seq<nat>, ghost end: seq<nat>)
    returns (s: Status, lastbit: bool)
    requires 0 < info.bitCount && ByteCount(info.bitCount) <= |code|
    requires first == CodeBits(code, info.bitCount)[0]
    requires packer.Valid() && packer.sent == before + HalfTimes(info, CodeBits(code, info.bitCount)[..1])
    modifies packer, packer.rawData
    ensures var bits := CodeBits(code, info.bitCount);
      && (s != Ok ==> s == Outcome(before + HalfTimes(info, bits) + end, packer.length))
      && (s == Ok ==> packer.Valid() && packer.sent == before + HalfTimes(info, bits) && lastbit == bits[|bits| - 1])
  {
    hide Outcome, HalfTimes, FirstOf, SecondOf, Stretched, Piece, Between, Packer.Valid;
    ghost var bits := CodeBits(code, info.bitCount);
    lastbit := first;
    var j: int, k := info.bitCount - 2, Pad(info.bitCount) + 1;
    ghost var n: nat := 1;
    while j >= 0
      invariant 0 < n <= |bits| && j == info.bitCount - 1 - n && k == n + Pad(info.bitCount)
      invariant lastbit == bits[n - 1]
      invariant packer.Valid() && packer.sent == before + HalfTimes(info, bits[..n])
    {
      var bit := info.bitCount - j - 1;
      BitPlace(info.bitCount, n);
      var one := code[k / 8][j % 8];
      var times := BitTimes(info, one, lastbit, bit);
      BetweenIsPiece(info, bits, n);
      ghost var done := before + HalfTimes(info, bits[..n]);
      ghost var rest := HalfTimesSplit(info, bits, n + 1);
      HalfTimesStep(info, bits, n);
      s := PutAll(times, packer, done, rest + end);
      assert done + times == before + HalfTimes(info, bits[..n + 1]);
      if s != Ok {
        assert done + times + (rest + end) == before + HalfTimes(info, bits) + end;
        return;
      }
      lastbit := one;
      j, k := j - 1, k + 1;
      n := n + 1;
    }
    assert bits[..n] == bits;
    s := Ok;
  }

  /** The part for biphase codes. */
  method PutBiphase(code: seq<Byte>, info: CodeInfo, packer: Packer, ghost before: seq<nat>) returns (s: Status)
    requires 0 < info.bitCount && ByteCount(info.bitCount) <= |code|
    requires packer.Valid() && packer.sent == before
    modifies packer, packer.rawData
    ensures var times := before + BiphaseTimes(info, CodeBits(code, info.bitCount));
      && s == Outcome(times, packer.length)
      && (s == Ok ==> packer.Valid() && packer.sent == times)
  {
    hide Outcome, HalfTimes, Packer.Valid;
    ghost var bits := CodeBits(code, info.bitCount);
    ghost var last := bits[|bits| - 1];
    ghost var end := if last != (info.encoding == RC6) then [Second(info, last)] else [];
    assert before + BiphaseTimes(info, bits) == before + HalfTimes(info, bits) + end;
    var j, k := info.bitCount - 1, Pad(info.bitCount);
    BitPlace(info.bitCount, 0);
    var lastbit := code[k / 8][j % 8];
    var first := if lastbit then (if info.encoding == RC6 then [info.one0] else [])
                 else (if info.encoding != RC6 then [info.zero0] else []);
    FirstHalf(info, bits);
    ghost var rest := HalfTimesSplit(info, bits, 1);
    s := PutAll(first, packer, before, rest + end);
    if s != Ok {
      assert before + first + (rest + end) == before + HalfTimes(info, bits) + end;
      return;
    }
    s, lastbit := PutHalves(code, info, packer, lastbit, before, end);
    if s != Ok {
      return;
    }
    ghost var done := before + HalfTimes(info, bits);
    var final := if lastbit && info.encoding != RC6 then [info.one1]
                 else if !lastbit && info.encoding == RC6 then [info.zero1] else [];
    s := PutAll(final, packer, done, []);
    assert done + final + [] == done + final;
    if s == Ok { packer.StaysOk(); }
  }

  lemma FirstHalf(info: CodeInfo, bits: seq<bool>)
    requires |bits| > 0
    ensures HalfTimes(info, bits[..1]) == if bits[0] == (info.encoding == RC6) then [First(info, bits[0])] else []
  {
  }

  /** codeInfoToRawData: a repeat code as it is, else the header and the code in its encoding. */
  method CodeInfoToRawData(code: seq<Byte>, info: CodeInfo, packer: Packer, repeat: bool) returns (s: Status)
    requires 0 < info.bitCount && ByteCount(info.bitCount) <= |code|
    requires packer.Valid() && packer.sent == []
    modifies packer, packer.rawData
    ensures repeat && info.repeat != [] ==>
      s == Outcome(info.repeat, packer.length) && (s == Ok ==> packer.Valid() && packer.sent == info.repeat)
    ensures !(repeat && info.repeat != []) ==>
      var times := CodeTimes(info, CodeBits(code, info.bitCount));
      && (s == if info.encoding == Unknown && Outcome(times, packer.length) == Ok then InvalidArg
               else Outcome(times, packer.length))
      && (s == Ok && info.encoding != Pulse ==> packer.Valid() && packer.sent == times)
      && (s == Ok && info.encoding == Pulse ==>
           var removed := RemovedSpace(info, code);
           && packer.index == |Pack(times)| - (if removed > 1270 then 2 else 1)
           && packer.rawData[..packer.index] == Pack(times)[..packer.index]
           && packer.time == Sum(times) - removed)
  {
    hide Outcome, Marks, BiphaseTimes, Packer.Valid;
    NothingSent(packer.length);
    if repeat && info.repeat != [] {
      s := PutAll(info.repeat, packer, [], []);
      assert [] + info.repeat + [] == [] + info.repeat == info.repeat;
      if s == Ok { packer.StaysOk(); }
      return;
    }
    ghost var bits := CodeBits(code, info.bitCount);
    ghost var header := HeaderTimes(info);
    ghost var body := CodeTimes(info, bits)[|header|..];
    assert CodeTimes(info, bits) == header + body;
    assert [] + header == header && header + [] == header;
    if info.header0 != 0 {
      s := PutAll([info.header0, info.header1], packer, [], body);
      if s != Ok {
        return;
      }
    }
    assert packer.Valid() && packer.sent == header;
    match info.encoding
    case Space =>
      s := PutMarks(code, info, packer, header, [info.trail]);
      assert header + Marks(info, bits) + [info.trail] == header + body;
      if s != Ok {
        return;
      }
      s := PutAll([info.trail], packer, header + Marks(info, bits), []);
      assert header + Marks(info, bits) + [info.trail] + [] == header + body;
      if s == Ok { packer.StaysOk(); }
    case Pulse =>
      s := PutMarks(code, info, packer, header, []);
      assert header + Marks(info, bits) + [] == header + body;
      if s != Ok {
        return;
      }
      packer.StaysOk();
      assert packer.sent == header + body;
      RemoveSpace(code, info, packer);
    case Biphase =>
      s := PutBiphase(code, info, packer, header);
    case RC5 =>
      s := PutBiphase(code, info, packer, header);
    case RC6 =>
      s := PutBiphase(code, info, packer, header);
    case Unknown =>
      packer.StaysOk();
      s := InvalidArg;
  }

  lemma NothingSent(length: nat)
    ensures Outcome([], length) == Ok
  {
  }

  /** Deletes the last space of a pulse code. */
  method RemoveSpace(code: seq<Byte>, info: CodeInfo, packer: Packer)
    requires |code| > 0 && packer.Valid() && |packer.sent| >= 2
    modifies packer
    ensures var removed := RemovedSpace(info, code);
      && packer.index == |Pack(old(packer.sent))| - (if removed > 1270 then 2 else 1)
      && packer.rawData[..packer.index] == Pack(old(packer.sent))[..packer.index]
      && packer.time == Sum(old(packer.sent)) - removed
  {
    packer.StaysOk();
    PackGrows(packer.sent);
    if code[0][0] {
      if info.one1 > 1270 {
        packer.index := packer.index - 1;
      }
      packer.index := packer.index - 1;
      packer.time := packer.time - info.one1;
    } else {
      if info.zero1 > 1270 {
        packer.index := packer.index - 1;
      }
      packer.index := packer.index - 1;
      packer.time := packer.time - info.zero1;
    }
    assert packer.rawData[..packer.index] == old(packer.rawData[..packer.index])[..packer.index];
  }

  /** The bytes of a pulse code end with its last pulse exactly when the space removed takes as many bytes as
      the space of the last bit; the time is right exactly when they are equally long. */
  lemma PulseCodeEndsWithPulse(info: CodeInfo, code: seq<Byte>)
    requires 0 < info.bitCount && ByteCount(info.bitCount) <= |code| && info.encoding == Pulse
    requires var bits := CodeBits(code, info.bitCount); InRange(CodeTimes(info, bits)) && RemovedSpace(info, code) <= MAX_US
    ensures var bits := CodeBits(code, info.bitCount);
      var times, last := CodeTimes(info, bits), Second(info, bits[info.bitCount - 1]);
      var n := |Pack(times)| - |PackTime(RemovedSpace(info, code))|;
      && times[|times| - 1] == last
      && n >= 0
      && (Pack(times)[..n] == Pack(times[..|times| - 1]) <==> |PackTime(RemovedSpace(info, code))| == |PackTime(last)|)
      && (Sum(times) - RemovedSpace(info, code) == Sum(times[..|times| - 1]) <==> RemovedSpace(info, code) == last)
  {
    hide Marks, PackTime, Pack, Sum;
    var bits := CodeBits(code, info.bitCount);
    var times, removed := CodeTimes(info, bits), RemovedSpace(info, code);
    MarksEnd(info, bits);
    PackGrows(times);
    LastTime(times);
    CutAppended(Pack(times[..|times| - 1]), PackTime(times[|times| - 1]), |Pack(times)| - |PackTime(removed)|);
  }

  lemma MarksEnd(info: CodeInfo, bits: seq<bool>)
    requires |bits| > 0
    ensures |Marks(info, bits)| >= 2
    ensures Marks(info, bits)[|Marks(info, bits)| - 1] == Second(info, bits[|bits| - 1])
  {
  }

  lemma LastTime(times: seq<nat>)
    requires |times| > 0 && InRange(times)
    ensures Pack(times) == Pack(times[..|times| - 1]) + PackTime(times[|times| - 1])
    ensures Sum(times) == Sum(times[..|times| - 1]) + times[|times| - 1]
  {
  }

  lemma CutAppended(a: seq<nat>, b: seq<nat>, n: nat)
    requires n <= |a + b|
    ensures (a + b)[..n] == a <==> n == |a|
  {
  }

  /** Up to eight bits the space removed is the space of the last bit. */
  lemma ShortPulseCodes(info: CodeInfo, code: seq<Byte>)
    requires 0 < info.bitCount <= 8 && |code| > 0
    ensures RemovedSpace(info, code) == Second(info, CodeBits(code, info.bitCount)[info.bitCount - 1])
  {
    BitPlace(info.bitCount, info.bitCount - 1);
  }

  lemma {:induction false} MarksInRange(info: CodeInfo, bits: seq<bool>)
    requires info.one0 <= MAX_US && info.one1 <= MAX_US && info.zero0 <= MAX_US && info.zero1 <= MAX_US
    ensures InRange(Marks(info, bits))
  {
    if |bits| > 0 { MarksInRange(info, bits[..|bits| - 1]); }
  }

  /** From nine bits on it need not be: with the first byte odd, the last bit a zero and only the space of a
      zero longer than 1270 us, one byte of that space stays behind the last pulse, and the time is wrong. */
  lemma HalfASpaceStays(info: CodeInfo, code: seq<Byte>)
    requires info.bitCount == 9 && info.encoding == Pulse && |code| == 2 && code[0][0] && !code[1][0]
    requires info.header0 == 0 && info.one0 <= MAX_US && info.zero0 <= MAX_US
    requires info.one1 <= 1270 < info.zero1 <= MAX_US
    ensures var times := CodeTimes(info, CodeBits(code, 9));
      && InRange(times) && |Pack(times)| > 0
      && Pack(times)[..|Pack(times)| - |PackTime(RemovedSpace(info, code))|]
         == Pack(times[..|times| - 1]) + [PackTime(info.zero1)[0]]
      && Sum(times) - RemovedSpace(info, code) != Sum(times[..|times| - 1])
  {
    hide Marks, Pack, Sum;
    var bits := CodeBits(code, 9);
    var times := CodeTimes(info, bits);
    MarksInRange(info, bits);
    assert times == Marks(info, bits);
    MarksEnd(info, bits);
    assert !bits[8];
    LastTime(times);
  }

  /** Such a code: 600 us everywhere, except for the space of a zero. */
  lemma HalfASpaceStaysHere() returns (info: CodeInfo, code: seq<Byte>)
    ensures info == CodeInfo(9, Pulse, 0, 0, 0, 600, 600, 600, 1800, [])
    ensures code == [seq(8, k => k == 0), seq(8, k => false)]
    ensures var times := CodeTimes(info, CodeBits(code, 9));
      InRange(times) && |Pack(times)| > 0
      && Pack(times)[..|Pack(times)| - 1] == Pack(times[..17]) + [0x80]
  {
    hide Pack, Sum, CodeBits;
    info := CodeInfo(9, Pulse, 0, 0, 0, 600, 600, 600, 1800, []);
    code := [seq(8, k => k == 0), seq(8, k => false)];
    HalfASpaceStays(info, code);
    assert PackTime(600) == [60] && PackTime(1800) == [0x80, 180];
  }
}
