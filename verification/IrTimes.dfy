/** TIME_TO_PACKET: the byte code for pulse and space times, in tens of microseconds. A time takes one byte or
    two, told apart by the top bit; times that are too long, and packets that are full, are refused, and the
    first refusal stays. */
module IrTimes {

  datatype Status = Ok | NoMemory | InvalidArg

  const MAX_US: nat := 327670

  /** One byte up to 1270 us, else two: seven high bits marked by the top bit, then eight low bits. */
  function PackTime(us: nat): (p: seq<nat>)
    requires us <= MAX_US
    ensures 1 <= |p| <= 2 && forall i :: 0 <= i < |p| ==> p[i] < 256
  {
    if us > 1270 then [us / 10 / 256 + 0x80, us / 10 % 256] else [us / 10 % 256]
  }

  ghost predicate InRange(times: seq<nat>) { forall i :: 0 <= i < |times| ==> times[i] <= MAX_US }

  function Pack(times: seq<nat>): (p: seq<nat>)
    requires InRange(times)
    ensures forall i :: 0 <= i < |p| ==> p[i] < 256
  {
    if |times| == 0 then [] else Pack(times[..|times| - 1]) + PackTime(times[|times| - 1])
  }

  function Sum(times: seq<nat>): (t: nat) {
    if |times| == 0 then 0 else Sum(times[..|times| - 1]) + times[|times| - 1]
  }

  lemma {:induction false} PackGrows(times: seq<nat>)
    requires InRange(times)
    ensures |times| <= |Pack(times)|
  {
    if |times| > 0 { PackGrows(times[..|times| - 1]); }
  }

  function Tens(times: seq<nat>): (t: seq<nat>) { seq(|times|, i requires 0 <= i < |times| => times[i] / 10) }

  /** How the receiving end reads the bytes. */
  function Unpack(p: seq<nat>): (t: seq<nat>) {
    if |p| == 0 then []
    else if p[0] < 0x80 then [p[0]] + Unpack(p[1..])
    else if |p| == 1 then [p[0]]
    else [(p[0] - 0x80) * 256 + p[1]] + Unpack(p[2..])
  }

  lemma {:induction false} PackCons(us: nat, times: seq<nat>)
    requires us <= MAX_US && InRange(times)
    ensures InRange([us] + times) && Pack([us] + times) == PackTime(us) + Pack(times)
  {
    hide PackTime;
    var all := [us] + times;
    if |times| == 0 {
      assert all[..0] == [] && all[0] == us;
    } else {
      var k := |times| - 1;
      PackCons(us, times[..k]);
      assert all[..|all| - 1] == [us] + times[..k];
      assert PackTime(us) + Pack(times[..k]) + PackTime(times[k]) == PackTime(us) + (Pack(times[..k]) + PackTime(times[k]));
    }
  }

  /** The byte stream determines every time, in tens of microseconds. */
  lemma {:induction false} UnpackPack(times: seq<nat>)
    requires InRange(times)
    ensures Unpack(Pack(times)) == Tens(times)
  {
    if |times| > 0 {
      var us, rest := times[0], times[1..];
      assert times == [us] + rest;
      PackCons(us, rest);
      UnpackPack(rest);
      UnpackHead(us, Pack(rest));
      assert Tens(times) == [us / 10] + Tens(rest);
    }
  }

  function Tenfold(times: seq<nat>): (t: seq<nat>) { seq(|times|, i requires 0 <= i < |times| => 10 * times[i]) }

  /** Times that are whole tens of microseconds survive the packet unchanged. */
  lemma WholeTensSurvive(times: seq<nat>)
    requires InRange(times) && forall i :: 0 <= i < |times| ==> times[i] % 10 == 0
    ensures Tenfold(Unpack(Pack(times))) == times
  {
    hide Pack, Unpack;
    UnpackPack(times);
  }

  lemma UnpackHead(us: nat, rest: seq<nat>)
    requires us <= MAX_US
    ensures Unpack(PackTime(us) + rest) == [us / 10] + Unpack(rest)
  {
    var t, p := us / 10, PackTime(us) + rest;
    if us > 1270 {
      assert t == t / 256 * 256 + t % 256;
      assert p[2..] == rest;
    } else {
      assert p[1..] == rest;
    }
  }

  /** What happens to a list of times in a buffer of the given length: the first time that does not fit
      or is too long ends it. */
  function Outcome(times: seq<nat>, length: nat): (s: Status)
    ensures s == Ok ==> InRange(times)
  {
    if |times| == 0 then Ok
    else
      var s := Outcome(times[..|times| - 1], length);
      if s != Ok then s
      else if |Pack(times[..|times| - 1])| + 2 >= length then NoMemory
      else if times[|times| - 1] > MAX_US then InvalidArg
      else Ok
  }

  /** Times are accepted exactly when none is too long and the last one still finds room for two bytes and one more. */
  lemma {:induction false} AcceptedIff(times: seq<nat>, length: nat)
    ensures Outcome(times, length) == Ok
       <==> InRange(times) && (|times| > 0 ==> |Pack(times[..|times| - 1])| + 2 < length)
  {
    hide PackTime;
    if |times| > 0 {
      var init, last := times[..|times| - 1], times[|times| - 1];
      AcceptedIff(init, length);
      assert times == init + [last];
      if InRange(init) && |init| > 0 {
        assert |Pack(init)| == |Pack(init[..|init| - 1])| + |PackTime(init[|init| - 1])|;
      }
    }
  }

  /** The first time that is too long is an invalid argument, unless there was no room for it or before it. */
  lemma RefusedAt(times: seq<nat>, length: nat, k: nat)
    requires k < |times| && Outcome(times[..k], length) == Ok && Outcome(times[..k + 1], length) != Ok
    ensures Outcome(times, length) == if |Pack(times[..k])| + 2 >= length then NoMemory else InvalidArg
  {
    hide Pack;
    assert times == times[..k + 1] + times[k + 1..] && times[..k + 1][..k] == times[..k];
    FirstFailureStays(times[..k + 1], times[k + 1..], length);
  }

  /** An outcome other than Ok stays. */
  lemma {:induction false} FirstFailureStays(a: seq<nat>, b: seq<nat>, length: nat)
    requires Outcome(a, length) != Ok
    ensures Outcome(a + b, length) == Outcome(a, length)
  {
    if |b| == 0 {
      assert a + b == a;
    } else {
      FirstFailureStays(a, b[..|b| - 1], length);
      assert (a + b)[..|a + b| - 1] == a + b[..|b| - 1];
    }
  }

  /** A buffer being filled, with the index of the next entry and the time so far. */
  class Packer {
    const rawData: array<nat>
    const length: nat
    var index: nat
    var time: int
    ghost var sent: seq<nat>

    ghost predicate Valid()
      reads this, rawData
    {
      && length <= rawData.Length && index <= length
      && Outcome(sent, length) == Ok && rawData[..index] == Pack(sent) && time == Sum(sent)
    }

    constructor (rawData: array<nat>, length: nat)
      requires length <= rawData.Length
      ensures Valid() && this.rawData == rawData && this.length == length && sent == []
    {
      this.rawData, this.length := rawData, length;
      index, time, sent := 0, 0, [];
    }

    lemma StaysOk()
      requires Valid()
      ensures Outcome(sent, length) == Ok
    {
    }

    /** TIME_TO_PACKET. */
    method Put(us: nat) returns (s: Status)
      requires Valid()
      modifies this, rawData
      ensures s == Outcome(old(sent) + [us], length)
      ensures s == Ok ==> Valid() && sent == old(sent) + [us]
    {
      ghost var all := sent + [us];
      assert all[..|all| - 1] == sent;
      if index + 2 >= length {
        return NoMemory;
      }
      if us > MAX_US {
        return InvalidArg;
      }
      ghost var was := rawData[..index];
      if us > 1270 {
        rawData[index] := us / 10 / 256 + 0x80;
        index := index + 1;
      }
      rawData[index] := us / 10 % 256;
      index := index + 1;
      assert rawData[..index] == was + PackTime(us);
      time := time + us;
      sent := all;
      s := Ok;
    }
  }

  /** RawTimeDataToRawData. */
  method RawTimeDataToRawData(rawTimeData: seq<nat>, packer: Packer) returns (s: Status)
    requires packer.Valid() && packer.sent == []
    modifies packer, packer.rawData
    ensures s == Outcome(rawTimeData, packer.length)
    ensures s == Ok ==> packer.Valid() && packer.sent == rawTimeData
  {
    for j := 0 to |rawTimeData|
      invariant packer.Valid() && packer.sent == rawTimeData[..j]
    {
      assert rawTimeData[..j] + [rawTimeData[j]] == rawTimeData[..j + 1];
      s := packer.Put(rawTimeData[j]);
      if s != Ok {
        FirstFailureStays(rawTimeData[..j + 1], rawTimeData[j + 1..], packer.length);
        assert rawTimeData[..j + 1] + rawTimeData[j + 1..] == rawTimeData;
        return;
      }
    }
    assert rawTimeData[..|rawTimeData|] == rawTimeData;
    s := Ok;
  }
}
