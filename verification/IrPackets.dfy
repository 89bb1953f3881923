/** Codes as they travel in a packet: what codeInfoToRawData sends, read back and decoded. */
module IrPackets {
  // Times are sent in tens of microseconds, so the receiving end hears them cut to whole tens.

  import opened Words
  import opened IrTimes
  import opened IrCode
  import opened IrDecoder
  import opened IrEncoder
  import IrRoundTrip
  import IrSpaceCode
  import IrPulseCode
  import IrRc6

  function Cut(t: nat): (c: nat) { 10 * (t / 10) }

  function CutAll(times: seq<nat>): (c: seq<nat>)
    ensures |c| == |times|
  {
    seq(|times|, i requires 0 <= i < |times| => Cut(times[i]))
  }

  /** The times in a packet, in microseconds. */
  function Heard(p: seq<nat>): (t: seq<nat>) { Tenfold(Unpack(p)) }

  lemma HeardIsCut(times: seq<nat>)
    requires InRange(times)
    ensures Heard(Pack(times)) == CutAll(times)
  {
    hide Pack, Unpack;
    UnpackPack(times);
  }

  /** The code without its header, its timings cut. */
  function Body(info: CodeInfo): CodeInfo {
    info.(header0 := 0, trail := Cut(info.trail),
          one0 := Cut(info.one0), one1 := Cut(info.one1), zero0 := Cut(info.zero0), zero1 := Cut(info.zero1))
  }

  function HeaderLength(info: CodeInfo): nat { if info.header0 != 0 then 2 else 0 }

  /** What is heard behind the header. */
  function BehindHeader(info: CodeInfo, p: seq<nat>): (t: seq<nat>)
    requires HeaderLength(info) <= |Heard(p)|
  {
    Heard(p)[HeaderLength(info)..]
  }

  /** The pulse of the header comes first, and then its space. */
  ghost predicate StartsWithHeader(info: CodeInfo, p: seq<nat>) {
    info.header0 != 0 ==> |Unpack(p)| >= 2 && Unpack(p)[0] == info.header0 / 10 && Unpack(p)[1] == info.header1 / 10
  }

  lemma HeaderFirst(info: CodeInfo, body: seq<nat>)
    requires InRange(HeaderTimes(info) + body)
    ensures var p := Pack(HeaderTimes(info) + body);
      StartsWithHeader(info, p) && HeaderLength(info) <= |Heard(p)| && BehindHeader(info, p) == CutAll(body)
  {
    hide Pack, Unpack;
    var times := HeaderTimes(info) + body;
    UnpackPack(times);
    HeardIsCut(times);
    assert |HeaderTimes(info)| == HeaderLength(info);
    if info.header0 != 0 { assert times[0] == info.header0 && times[1] == info.header1; }
    assert CutAll(times)[HeaderLength(info)..] == CutAll(body);
  }

  lemma {:induction false} MarksCut(info: CodeInfo, bits: seq<bool>)
    ensures CutAll(Marks(info, bits)) == Marks(Body(info), bits)
  {
    if |bits| > 0 {
      MarksCut(info, bits[..|bits| - 1]);
    }
  }

  // ---- space codes ----------------------------------------------------------------

  /** What is behind the header of a space code comes back, code and timings, the trail last, exactly when both kinds
      of bits occur, 4 to 128 of them, and the times are not read as a biphase code. */
  lemma SpaceThroughPacket(info: CodeInfo, code: seq<Byte>, rx: CodeInfo)
    requires info.encoding == Space && info.bitCount > 0 && |code| == ByteCount(info.bitCount) && UnusedBitsZero(code, info.bitCount)
    requires InRange(CodeTimes(info, CodeBits(code, info.bitCount))) && IrSpaceCode.SpaceTimings(Body(info))
    ensures var bits := CodeBits(code, info.bitCount);
      var p := Pack(CodeTimes(info, bits));
      && StartsWithHeader(info, p) && HeaderLength(info) <= |Heard(p)|
      && (Decode(BehindHeader(info, p), 16, rx)
            == Decoded.Decoded(code, IrSpaceCode.SpaceInfo(Body(info), rx).(bitCount := info.bitCount))
          <==> true in bits && false in bits && info.bitCount <= MAX_BITS && 4 <= info.bitCount
               && IrSpaceCode.NotReadAsBiphase(Body(info), bits))
  {
    hide Marks, Decode, Pack, Unpack, CodeBytes, CodeBits, IrSpaceCode.NotReadAsBiphase, IrSpaceCode.SpaceTimings, IrSpaceCode.SpaceInfo,
      Heard, StartsWithHeader;
    var bits := CodeBits(code, info.bitCount);
    BytesOfBits(code, info.bitCount);
    HeaderFirst(info, Marks(info, bits) + [info.trail]);
    MarksCut(info, bits);
    assert CutAll(Marks(info, bits) + [info.trail]) == Marks(Body(info), bits) + [Body(info).trail];
    IrSpaceCode.ComesBackIff(Body(info), bits, rx);
  }

  // ---- pulse codes ----------------------------------------------------------------

  /** The bytes of a pulse code once the last space is removed. */
  function PulseBytes(info: CodeInfo, code: seq<Byte>): (p: seq<nat>)
    requires info.bitCount > 0 && ByteCount(info.bitCount) <= |code|
    requires InRange(CodeTimes(info, CodeBits(code, info.bitCount))) && RemovedSpace(info, code) <= MAX_US
  {
    var all := Pack(CodeTimes(info, CodeBits(code, info.bitCount)));
    var n := |all| - |PackTime(RemovedSpace(info, code))|;
    if n < 0 then [] else all[..n]
  }

  /** With one space width it is the last space that is removed, and a pulse code comes back exactly when both kinds of
      bits occur, 4 to 128 of them, and it begins with a one or is not read as a biphase code. */
  lemma PulseThroughPacket(info: CodeInfo, code: seq<Byte>, rx: CodeInfo)
    requires info.encoding == Pulse && info.bitCount > 0 && |code| == ByteCount(info.bitCount) && UnusedBitsZero(code, info.bitCount)
    requires InRange(CodeTimes(info, CodeBits(code, info.bitCount))) && RemovedSpace(info, code) <= MAX_US
    requires info.one1 == info.zero1 && IrPulseCode.PulseTimings(Body(info))
    ensures var bits, p := CodeBits(code, info.bitCount), PulseBytes(info, code);
      && StartsWithHeader(info, p) && HeaderLength(info) <= |Heard(p)|
      && (Decode(BehindHeader(info, p), 16, rx)
            == Decoded.Decoded(code, IrPulseCode.PulseInfo(Body(info), rx).(bitCount := info.bitCount))
          <==> true in bits && false in bits && 4 <= info.bitCount <= MAX_BITS
               && (bits[0] || IrSpaceCode.NotReadAsBiphase(IrPulseCode.Exchanged(Body(info)), bits)))
  {
    hide Marks, Decode, Pack, PackTime, Unpack, CodeBytes, CodeBits, IrSpaceCode.NotReadAsBiphase, IrPulseCode.PulseTimings,
      IrPulseCode.PulseInfo, Heard, StartsWithHeader, IrPulseCode.Exchanged;
    var bits := CodeBits(code, info.bitCount);
    BytesOfBits(code, info.bitCount);
    PulseCodeEndsWithPulse(info, code);
    MarksEnd(info, bits);
    var m := Marks(info, bits);
    var body := m[..|m| - 1];
    assert CodeTimes(info, bits)[..|CodeTimes(info, bits)| - 1] == HeaderTimes(info) + body;
    HeaderFirst(info, body);
    MarksCut(info, bits);
    assert CutAll(body) == CutAll(m)[..|m| - 1];
    assert |m| == 2 * |bits|;
    IrPulseCode.ComesBackIff(Body(info), bits, rx);
  }

  // ---- biphase codes --------------------------------------------------------------

  lemma {:induction false} DriveCut(data: seq<nat>, half: nat)
    requires IrRoundTrip.OneOrTwo(data, half, 2 * half) && IrRoundTrip.Twice(Cut(half), Cut(2 * half))
    ensures Drive(Start(), CutAll(data), Cut(half)) == Drive(Start(), data, half)
  {
    hide Near, Write, Cut, IrRoundTrip.Twice;
    if |data| > 0 {
      var init := data[..|data| - 1];
      DriveCut(init, half);
      assert CutAll(data)[..|data| - 1] == CutAll(init);
      NotNothing(half);
      IrRoundTrip.NearHalves(half);
      IrRoundTrip.NearTwice(Cut(half), Cut(2 * half));
    }
  }

  lemma NotNothing(half: nat)
    requires IrRoundTrip.Twice(Cut(half), Cut(2 * half))
    ensures half > 0
  {
  }

  lemma TimesCut(data: seq<nat>, half: nat)
    requires IrRoundTrip.OneOrTwo(data, half, 2 * half) && half > 0
    requires IrRoundTrip.FirstDoubleIsPulse(data, half, 2 * half) || IrRoundTrip.AllShort(data, half)
    ensures IrRoundTrip.OneOrTwo(CutAll(data), Cut(half), Cut(2 * half))
    ensures IrRoundTrip.FirstDoubleIsPulse(CutAll(data), Cut(half), Cut(2 * half)) || IrRoundTrip.AllShort(CutAll(data), Cut(half))
  {
    hide Cut;
    var c := CutAll(data);
    if IrRoundTrip.FirstDoubleIsPulse(data, half, 2 * half) {
      var j :| 0 <= j < |data| && j % 2 == 0 && data[j] == 2 * half && forall i :: 0 <= i < j ==> data[i] == half;
      assert c[j] == Cut(2 * half) && forall i :: 0 <= i < j ==> c[i] == Cut(half);
    }
  }

  /** A biphase or RC-5 code whose first two bits are ones comes back behind any header with 4 to 127 bits, or 128 of
      which the last is zero, as long as two halves, cut to whole tens, still pass for twice a half. */
  lemma BiphaseThroughPacket(info: CodeInfo, half: nat, code: seq<Byte>, rx: CodeInfo)
    requires IrRoundTrip.EvenHalves(info, half) && IrRoundTrip.IsPlain(info) && IrRoundTrip.Twice(Cut(half), Cut(2 * half))
    requires info.bitCount >= 2 && |code| == ByteCount(info.bitCount) && UnusedBitsZero(code, info.bitCount)
    requires InRange(CodeTimes(info, CodeBits(code, info.bitCount)))
    requires var bits := CodeBits(code, info.bitCount); bits[0] && bits[1]
    ensures var bits := CodeBits(code, info.bitCount);
      var p, n := Pack(CodeTimes(info, bits)), info.bitCount;
      && StartsWithHeader(info, p) && HeaderLength(info) <= |Heard(p)|
      && Decode(BehindHeader(info, p), 16, rx)
         == if n < 4 then Failed
            else if n < MAX_BITS || (n == MAX_BITS && !bits[n - 1]) then Decoded.Decoded(code, IrRoundTrip.Returned(rx, Cut(half), n))
            else OutOfBounds
  {
    hide BiphaseTimes, Drive, End, Decode, Pack, Unpack, CodeBytes, CodeBits, Heard, StartsWithHeader, Cut, Near, IrRoundTrip.Returned,
      IrRoundTrip.FirstDoubleIsPulse, IrRoundTrip.Complete, IrRoundTrip.Twice;
    var bits := CodeBits(code, info.bitCount);
    BytesOfBits(code, info.bitCount);
    var data := BiphaseTimes(info, bits);
    HeaderFirst(info, data);
    IrRoundTrip.TimesShape(info, half, bits);
    IrRoundTrip.MachineDecodes(info, half, bits);
    TimesCut(data, half);
    DriveCut(data, half);
    IrRoundTrip.DecodedByMachine(CutAll(data), Cut(half), Cut(2 * half), bits, rx);
  }

  /** That is so for every half of at least 50 microseconds. */
  lemma CutHalves(half: nat)
    requires half >= 50
    ensures IrRoundTrip.Twice(Cut(half), Cut(2 * half))
  {
  }

  // ---- RC-6 codes -----------------------------------------------------------------

  lemma {:induction false} DriveCut6(data: seq<nat>, half: nat)
    requires half > 0 && IrRc6.UpToThree(data, half, 2 * half, 3 * half) && IrRc6.Thrice(Cut(half), Cut(2 * half), Cut(3 * half))
    ensures Drive(Start(), CutAll(data), Cut(half)) == Drive(Start(), data, half)
  {
    hide Near, Write, Cut, IrRc6.Thrice;
    if |data| > 0 {
      var init := data[..|data| - 1];
      DriveCut6(init, half);
      assert CutAll(data)[..|data| - 1] == CutAll(init);
      IrRc6.NearThirds(half);
      NearCuts(half);
    }
  }

  lemma NearCuts(half: nat)
    requires IrRc6.Thrice(Cut(half), Cut(2 * half), Cut(3 * half))
    ensures var a, b, c := Cut(half), Cut(2 * half), Cut(3 * half);
      && Near(b, 2 * a, 2) && !Near(b, 3 * a, 2) && Near(c, 3 * a, 2) && !Near(a, 2 * a, 2) && !Near(a, 3 * a, 2)
  {
  }

  /** An RC-6 code comes back behind any header when the cut times have the right shape and the first double one of them
      is a space. */
  lemma Rc6ThroughPacket(info: CodeInfo, half: nat, code: seq<Byte>, rx: CodeInfo)
    requires IrRc6.LongFifth(info, half) && IrRc6.Thrice(Cut(half), Cut(2 * half), Cut(3 * half))
    requires info.bitCount >= 5 && |code| == ByteCount(info.bitCount) && UnusedBitsZero(code, info.bitCount)
    requires InRange(CodeTimes(info, CodeBits(code, info.bitCount)))
    requires var bits := CodeBits(code, info.bitCount);
      var data := CutAll(BiphaseTimes(info, bits));
      bits[0] && IrRc6.RightShape(data) && !StartSpace(data, Cut(half), 0)
    ensures var bits := CodeBits(code, info.bitCount);
      var p, h := Pack(CodeTimes(info, bits)), Cut(half);
      && StartsWithHeader(info, p) && HeaderLength(info) <= |Heard(p)|
      && Decode(BehindHeader(info, p), 16, rx)
         == if IrRc6.Fits(bits) then
              Decoded.Decoded(code, rx.(one0 := h, one1 := h, zero0 := h, zero1 := h, bitCount := info.bitCount, encoding := RC6))
            else OutOfBounds
  {
    hide BiphaseTimes, Drive, End, Decode, Pack, Unpack, CodeBytes, CodeBits, Heard, StartsWithHeader, Cut, Near, StartSpace,
      IrRc6.RightShape, IrRc6.Complete6, IrRc6.Thrice;
    var bits := CodeBits(code, info.bitCount);
    BytesOfBits(code, info.bitCount);
    var data := BiphaseTimes(info, bits);
    HeaderFirst(info, data);
    IrRc6.AllTimes(info, half, bits);
    IrRc6.MachineDecodes6(info, half, bits);
    DriveCut6(data[1..], half);
    assert CutAll(data)[1..] == CutAll(data[1..]);
    IrRc6.DecodedAsRc6(CutAll(data), Cut(half), Cut(2 * half), Cut(3 * half), bits, rx);
  }

  /** These lengths are those of one, two and three halves for every half of at least 50 microseconds. */
  lemma CutThirds(half: nat)
    requires half >= 50
    ensures IrRc6.Thrice(Cut(half), Cut(2 * half), Cut(3 * half))
  {
  }
}
