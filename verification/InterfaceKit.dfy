/** dataInput of the interface kit: analog samples of several channels, interleaved and packed three bytes
    for two, with a count for each channel. */
module InterfaceKit {

  const MAX_SENSORS: nat := 8
  const MAX_DATA_PER_PACKET: nat := 16

  type Octets = b: seq<nat> | forall i :: 0 <= i < |b| ==> b[i] < 256

  // ---- the order of the samples ---------------------------------------------------

  function Min(a: nat, b: nat): nat { if a < b then a else b }

  function Total(c: seq<nat>): (t: nat) { if |c| == 0 then 0 else Total(c[..|c| - 1]) + c[|c| - 1] }

  /** How many samples are sent before sample j of channel i: the channels take turns, each round one sample
      of every channel that has one left. */
  function Rank(c: seq<nat>, i: nat, j: nat): (k: nat) {
    if |c| == 0 then 0
    else
      var last := |c| - 1;
      Rank(c[..last], i, j) + Min(c[last], j) + if last < i && c[last] > j then 1 else 0
  }

  lemma {:induction false} RankNext(c: seq<nat>, i: nat, j: nat)
    requires i < |c|
    ensures Rank(c, i + 1, j) == Rank(c, i, j) + if c[i] > j then 1 else 0
  {
    var last := |c| - 1;
    if i < last {
      RankNext(c[..last], i, j);
    } else {
      RankBeyond(c[..last], i, i + 1, j);
    }
  }

  lemma {:induction false} RankBeyond(c: seq<nat>, i: nat, i': nat, j: nat)
    requires |c| <= i && |c| <= i'
    ensures Rank(c, i, j) == Rank(c, i', j)
  {
    if |c| > 0 { RankBeyond(c[..|c| - 1], i, i', j); }
  }

  lemma {:induction false} RankRound(c: seq<nat>, i: nat, j: nat)
    requires |c| <= i
    ensures Rank(c, i, j) == Rank(c, 0, j + 1)
  {
    if |c| > 0 { RankRound(c[..|c| - 1], i, j); }
  }

  lemma {:induction false} RankStart(c: seq<nat>)
    ensures Rank(c, 0, 0) == 0
  {
    if |c| > 0 { RankStart(c[..|c| - 1]); }
  }

  lemma {:induction false} RankBounded(c: seq<nat>, i: nat, j: nat)
    ensures Rank(c, i, j) <= Total(c)
    ensures i < |c| && c[i] > j ==> Rank(c, i, j) < Total(c)
  {
    if |c| > 0 { RankBounded(c[..|c| - 1], i, j); }
  }

  /** The order is complete exactly when every channel is exhausted. */
  lemma {:induction false} RankComplete(c: seq<nat>, j: nat)
    ensures Rank(c, 0, j) == Total(c) <==> forall i :: 0 <= i < |c| ==> c[i] <= j
  {
    if |c| > 0 {
      var last := |c| - 1;
      RankComplete(c[..last], j);
      RankBounded(c[..last], 0, j);
      assert forall i :: 0 <= i < last ==> c[..last][i] == c[i];
    }
  }

  lemma {:induction false} RankMonotone(c: seq<nat>, i: nat, i': nat, j: nat)
    requires i <= i'
    ensures Rank(c, i, j) <= Rank(c, i', j)
  {
    if |c| > 0 { RankMonotone(c[..|c| - 1], i, i', j); }
  }

  lemma {:induction false} RankLater(c: seq<nat>, i: nat, j: nat, j': nat)
    requires j < j'
    ensures Rank(c, i, j) <= Rank(c, 0, j')
  {
    if |c| > 0 { RankLater(c[..|c| - 1], i, j, j'); }
  }

  /** No two samples are sent at the same place. */
  lemma RanksDiffer(c: seq<nat>, i: nat, j: nat, i': nat, j': nat)
    requires i < |c| && j < c[i] && i' < |c| && j' < c[i'] && (j < j' || (j == j' && i < i'))
    ensures Rank(c, i, j) < Rank(c, i', j') < Total(c)
  {
    RankNext(c, i, j);
    RankBounded(c, i', j');
    if j < j' {
      RankLater(c, i + 1, j, j');
      RankMonotone(c, 0, i', j');
    } else {
      RankMonotone(c, i + 1, i', j);
    }
  }

  // ---- packing --------------------------------------------------------------------

  /** Sample k of a packed stream: two samples share the byte between their low bytes. */
  function Sample(buf: Octets, start: nat, k: nat): (v: nat)
    requires start + 3 * (k / 2) + k % 2 + 1 < |buf|
    ensures v < 4096
  {
    var p := start + 3 * (k / 2);
    if k % 2 == 0 then buf[p] + buf[p + 1] / 16 * 256 else buf[p + 2] + buf[p + 1] % 16 * 256
  }

  /** Bytes that k samples take. */
  function Size(k: nat): (n: nat) { 3 * (k / 2) + 2 * (k % 2) }

  ghost predicate Samples(s: seq<nat>) { forall k :: 0 <= k < |s| ==> s[k] < 4096 }

  function SampleOr0(s: seq<nat>, k: nat): nat { if k < |s| then s[k] else 0 }

  /** Byte p of the packed form of a stream of 12-bit samples. */
  function PackedByte(s: seq<nat>, p: nat): (b: nat)
    requires Samples(s)
    ensures b < 256
  {
    var a, b := SampleOr0(s, 2 * (p / 3)), SampleOr0(s, 2 * (p / 3) + 1);
    if p % 3 == 0 then a % 256 else if p % 3 == 1 then a / 256 * 16 + b / 256 else b % 256
  }

  ghost predicate HoldsPacked(buf: Octets, start: nat, s: seq<nat>) {
    Samples(s) && start + Size(|s|) <= |buf| && forall p: nat :: p < Size(|s|) ==> buf[start + p] == PackedByte(s, p)
  }

  /** Unpacking gives back the samples. */
  lemma UnpackPack(buf: Octets, start: nat, s: seq<nat>, k: nat)
    requires HoldsPacked(buf, start, s) && k < |s|
    ensures start + 3 * (k / 2) + k % 2 + 1 < |buf| && Sample(buf, start, k) == s[k]
  {
    var h := k / 2;
    SizeGrows(k + 1, |s|);
    assert start + Size(|s|) <= |buf|;
    if k % 2 == 0 {
      EvenPacked(s, h);
      assert buf[start + 3 * h] == PackedByte(s, 3 * h) && buf[start + (3 * h + 1)] == PackedByte(s, 3 * h + 1);
    } else {
      OddPacked(s, h);
      assert buf[start + (3 * h + 1)] == PackedByte(s, 3 * h + 1) && buf[start + (3 * h + 2)] == PackedByte(s, 3 * h + 2);
    }
  }

  lemma EvenPacked(s: seq<nat>, h: nat)
    requires Samples(s) && 2 * h < |s|
    ensures PackedByte(s, 3 * h) + PackedByte(s, 3 * h + 1) / 16 * 256 == s[2 * h]
  {
    Thirds(h);
    Nibbles(s[2 * h], SampleOr0(s, 2 * h + 1));
  }

  lemma OddPacked(s: seq<nat>, h: nat)
    requires Samples(s) && 2 * h + 1 < |s|
    ensures PackedByte(s, 3 * h + 2) + PackedByte(s, 3 * h + 1) % 16 * 256 == s[2 * h + 1]
  {
    Thirds(h);
    Nibbles(s[2 * h], s[2 * h + 1]);
  }

  lemma Thirds(h: nat)
    ensures 3 * h / 3 == h && 3 * h % 3 == 0
    ensures (3 * h + 1) / 3 == h && (3 * h + 1) % 3 == 1
    ensures (3 * h + 2) / 3 == h && (3 * h + 2) % 3 == 2
  {
  }

  lemma Nibbles(a: nat, b: nat)
    requires a < 4096 && b < 4096
    ensures (a / 256 * 16 + b / 256) / 16 == a / 256 && (a / 256 * 16 + b / 256) % 16 == b / 256
    ensures a % 256 + a / 256 * 256 == a && b % 256 + b / 256 * 256 == b
  {
  }

  lemma SizeGrows(a: nat, b: nat)
    requires a <= b
    ensures Size(a) <= Size(b)
  {
  }

  // ---- scaling --------------------------------------------------------------------

  /** round(v * 1.001), capped at 0xfff. */
  function Compensated(v: nat): (r: nat)
    ensures r <= 0xfff
  {
    Min((v * 1001 + 500) / 1000, 0xfff)
  }

  /** round(v / 4.095). */
  function Scaled(v: nat): (r: nat)
    ensures v <= 0xfff ==> r <= 1000
  {
    (v * 2000 + 4095) / 8190
  }

  /** The whole number nearest to v. */
  ghost predicate Rounds(v: real, n: nat) { n as real - 0.5 <= v < n as real + 0.5 }

  /** A sample is raised by one in a thousand, to the nearest whole number or at most to full scale. */
  lemma CompensatedIsNearest(v: nat)
    ensures Rounds(v as real * 1.001, Compensated(v)) || (Compensated(v) == 0xfff && v as real * 1.001 >= 4095.5)
    ensures v >= 0xfff ==> Compensated(v) == 0xfff
  {
    var n := (v * 1001 + 500) / 1000;
    assert 1000 * n <= v * 1001 + 500 < 1000 * n + 1000;
    assert v as real * 1.001 == (v * 1001) as real / 1000.0;
  }

  /** And scaled to thousandths of full scale, to the nearest whole number: zero stays zero, and full scale is 1000. */
  lemma ScaledIsNearest(v: nat)
    ensures Rounds(v as real / 4.095, Scaled(v))
    ensures Scaled(0) == 0 && Scaled(0xfff) == 1000
  {
    var n := Scaled(v);
    assert 8190 * n <= v * 2000 + 4095 < 8190 * n + 8190;
    assert v as real / 4.095 == (v * 2000) as real / 8190.0;
  }

  // ---- dataInput ------------------------------------------------------------------

  /** The counts, two to a byte. */
  method ReadCounts(buffer: Octets, overrunPtr: nat, numSensors: nat)
    returns (channelCount: seq<nat>, countPtr: nat, datacount: nat)
    requires numSensors <= MAX_SENSORS && overrunPtr + (numSensors + 1) / 2 <= |buffer|
    ensures |channelCount| == numSensors && countPtr == overrunPtr + numSensors / 2 && datacount == Total(channelCount)
    ensures forall i :: 0 <= i < numSensors ==>
      channelCount[i] == (if i % 2 == 0 then buffer[overrunPtr + i / 2] / 16 else buffer[overrunPtr + i / 2] % 16)
      && channelCount[i] <= 15
  {
    channelCount, countPtr, datacount := [], overrunPtr, 0;
    for i := 0 to numSensors
      invariant |channelCount| == i && countPtr == overrunPtr + i / 2 && datacount == Total(channelCount)
      invariant forall k :: 0 <= k < i ==>
        channelCount[k] == (if k % 2 == 0 then buffer[overrunPtr + k / 2] / 16 else buffer[overrunPtr + k / 2] % 16)
        && channelCount[k] <= 15
    {
      var count;
      if i % 2 == 1 {
        count := buffer[countPtr] % 16;
        countPtr := countPtr + 1;
      } else {
        count := buffer[countPtr] / 16;
      }
      channelCount := channelCount + [count];
      assert channelCount[..i] == channelCount[..|channelCount| - 1];
      datacount := datacount + count;
    }
  }

  ghost predicate Tables(raw: array2<nat>, value: array2<nat>, dataCount: array<nat>) {
    && raw.Length0 == value.Length0 == dataCount.Length == MAX_SENSORS
    && raw.Length1 == value.Length1 == MAX_DATA_PER_PACKET
    && raw != value
  }

  /** What the tables hold for sample j of channel i. */
  ghost predicate Filled(buffer: Octets, start: nat, c: seq<nat>, raw: array2<nat>, value: array2<nat>, i: nat, j: nat)
    requires raw.Length0 == value.Length0 == MAX_SENSORS && raw.Length1 == value.Length1 == MAX_DATA_PER_PACKET
    requires i < |c| <= MAX_SENSORS && j < c[i] <= 15
    reads raw, value
  {
    var k := Rank(c, i, j);
    && start + 3 * (k / 2) + k % 2 + 1 < |buffer|
    && raw[i, j] == Compensated(Sample(buffer, start, k)) && value[i, j] == Scaled(raw[i, j])
  }

  // All samples before sample j of channel i in the order are in the tables.
  ghost predicate FilledTo(buffer: Octets, start: nat, c: seq<nat>, raw: array2<nat>, value: array2<nat>, i: nat, j: nat)
    requires raw.Length0 == value.Length0 == MAX_SENSORS && raw.Length1 == value.Length1 == MAX_DATA_PER_PACKET
    requires |c| <= MAX_SENSORS && forall k :: 0 <= k < |c| ==> c[k] <= 15
    reads raw, value
  {
    forall i': nat, j': nat :: i' < |c| && j' < c[i'] && (j' < j || (j' == j && i' < i)) ==>
      Filled(buffer, start, c, raw, value, i', j')
  }

  /** Every channel gets exactly its samples, each of them the one at its place in the order, and nothing is
      left over. */
  method ReadSamples(buffer: Octets, start: nat, channelCount: seq<nat>, total: nat,
                     raw: array2<nat>, value: array2<nat>, dataCount: array<nat>)
    returns (datacount: int)
    requires |channelCount| <= MAX_SENSORS && forall i :: 0 <= i < |channelCount| ==> channelCount[i] <= 15
    requires total == Total(channelCount) && start + Size(total) <= |buffer|
    requires Tables(raw, value, dataCount) && forall i :: 0 <= i < MAX_SENSORS ==> dataCount[i] == 0
    modifies raw, value, dataCount
    ensures datacount == 0
    ensures forall i :: 0 <= i < |channelCount| ==> dataCount[i] == channelCount[i]
    ensures forall i: nat, j: nat :: i < |channelCount| && j < channelCount[i] ==>
      Filled(buffer, start, channelCount, raw, value, i, j)
  {
    hide Rank, Filled;
    datacount := total;
    var j, flip, bufindx := 0, 0, start;
    ghost var k: nat := 0;
    RankStart(channelCount);
    while datacount > 0
      invariant k == Rank(channelCount, 0, j) <= total && datacount == total - k
      invariant flip == k % 2 && bufindx == start + Size(k) && j <= 15
      invariant forall i :: 0 <= i < |channelCount| ==> dataCount[i] == Min(channelCount[i], j)
      invariant FilledTo(buffer, start, channelCount, raw, value, 0, j)
      decreases datacount
    {
      RankComplete(channelCount, j);
      datacount, flip, bufindx, k := ReadRound(buffer, start, channelCount, total, raw, value, dataCount, datacount, j, flip, bufindx, k);
      j := j + 1;
      RankComplete(channelCount, j);
      RankBounded(channelCount, 0, j);
    }
    RankComplete(channelCount, j);
  }

  // The counters when the channels below i have had their turn in round j.
  ghost predicate Counts(counts: seq<nat>, c: seq<nat>, i: nat, j: nat) {
    |c| <= |counts| && forall n :: 0 <= n < |c| ==> counts[n] == Min(c[n], if n < i then j + 1 else j)
  }

  lemma CountsNext(counts: seq<nat>, c: seq<nat>, i: nat, j: nat)
    requires i < |c| && Counts(counts, c, i, j)
    ensures Counts(if c[i] > j then counts[i := counts[i] + 1] else counts, c, i + 1, j)
  {
  }

  ghost predicate AnyLeft(c: seq<nat>, i: nat, j: nat) { exists n :: 0 <= n < i && n < |c| && c[n] > j }

  lemma AnyLeftNext(c: seq<nat>, i: nat, j: nat)
    requires i < |c|
    ensures AnyLeft(c, i + 1, j) <==> AnyLeft(c, i, j) || c[i] > j
  {
  }

  /** The for loop: one sample of every channel that has one left. */
  method ReadRound(buffer: Octets, start: nat, channelCount: seq<nat>, ghost total: nat,
                   raw: array2<nat>, value: array2<nat>, dataCount: array<nat>,
                   datacount0: int, j: nat, flip0: nat, bufindx0: nat, ghost k0: nat)
    returns (datacount: int, flip: nat, bufindx: nat, ghost k: nat)
    requires |channelCount| <= MAX_SENSORS && forall i :: 0 <= i < |channelCount| ==> channelCount[i] <= 15
    requires total == Total(channelCount) && start + Size(total) <= |buffer| && Tables(raw, value, dataCount)
    requires k0 == Rank(channelCount, 0, j) && datacount0 == total - k0 && j <= 15
    requires flip0 == k0 % 2 && bufindx0 == start + Size(k0)
    requires forall i :: 0 <= i < |channelCount| ==> dataCount[i] == Min(channelCount[i], j)
    requires exists i :: 0 <= i < |channelCount| && channelCount[i] > j
    requires FilledTo(buffer, start, channelCount, raw, value, 0, j)
    modifies raw, value, dataCount
    ensures k == Rank(channelCount, 0, j + 1) && datacount == total - k && datacount < datacount0
    ensures flip == k % 2 && bufindx == start + Size(k)
    ensures forall i :: 0 <= i < |channelCount| ==> dataCount[i] == Min(channelCount[i], j + 1)
    ensures FilledTo(buffer, start, channelCount, raw, value, 0, j + 1)
  {
    hide Rank, Sample, Filled, FilledTo, Size, Total, Counts, AnyLeft, Min;
    RoundStarts(dataCount[..], channelCount, j);
    datacount, flip, bufindx, k := datacount0, flip0, bufindx0, k0;
    for i := 0 to |channelCount|
      invariant k == Rank(channelCount, i, j) && datacount == total - k && datacount0 >= datacount
      invariant flip == k % 2 && bufindx == start + Size(k)
      invariant AnyLeft(channelCount, i, j) ==> datacount0 > datacount
      invariant Counts(dataCount[..], channelCount, i, j)
      invariant FilledTo(buffer, start, channelCount, raw, value, i, j)
    {
      RankNext(channelCount, i, j);
      AnyLeftNext(channelCount, i, j);
      CountsNext(dataCount[..], channelCount, i, j);
      if channelCount[i] > j {
        RankBounded(channelCount, i, j);
        SizeGrows(k + 1, total);
        bufindx := TakeTurn(buffer, start, channelCount, raw, value, dataCount, i, j, flip, bufindx, k);
        flip := 1 - flip;
        datacount := datacount - 1;
        k := k + 1;
      } else {
        NothingToFill(buffer, start, channelCount, raw, value, i, j);
      }
    }
    RankRound(channelCount, |channelCount|, j);
    RoundFilled(buffer, start, channelCount, raw, value, j);
    RoundCounted(dataCount[..], channelCount, j);
  }

  lemma RoundStarts(counts: seq<nat>, c: seq<nat>, j: nat)
    requires |c| <= |counts| && forall i :: 0 <= i < |c| ==> counts[i] == Min(c[i], j)
    requires exists i :: 0 <= i < |c| && c[i] > j
    ensures Counts(counts, c, 0, j) && !AnyLeft(c, 0, j) && AnyLeft(c, |c|, j)
  {
  }

  lemma RoundCounted(counts: seq<nat>, c: seq<nat>, j: nat)
    requires Counts(counts, c, |c|, j)
    ensures forall i :: 0 <= i < |c| ==> counts[i] == Min(c[i], j + 1)
  {
  }

  // One sample for channel i.
  method TakeTurn(buffer: Octets, start: nat, ghost c: seq<nat>, raw: array2<nat>, value: array2<nat>, dataCount: array<nat>,
                  i: nat, j: nat, flip: nat, bufindx: nat, ghost k: nat)
    returns (next: nat)
    requires |c| <= MAX_SENSORS && forall n :: 0 <= n < |c| ==> c[n] <= 15
    requires Tables(raw, value, dataCount) && i < |c| && j < c[i]
    requires FilledTo(buffer, start, c, raw, value, i, j) && k == Rank(c, i, j)
    requires flip == k % 2 && bufindx == start + Size(k) && start + Size(k + 1) <= |buffer|
    modifies raw, value, dataCount
    ensures FilledTo(buffer, start, c, raw, value, i + 1, j) && next == start + Size(k + 1)
    ensures dataCount[..] == old(dataCount[..])[i := old(dataCount[i]) + 1]
  {
    hide Rank, Sample, Filled, FilledTo, Size;
    var v: nat;
    v, next := TakeSample(buffer, start, bufindx, flip, k);
    StoreSample(buffer, start, c, raw, value, i, j, v);
    dataCount[i] := dataCount[i] + 1;
  }

  method StoreSample(ghost buffer: Octets, ghost start: nat, ghost c: seq<nat>, raw: array2<nat>, value: array2<nat>,
                     i: nat, j: nat, v: nat)
    requires raw.Length0 == value.Length0 == MAX_SENSORS && raw.Length1 == value.Length1 == MAX_DATA_PER_PACKET && raw != value
    requires |c| <= MAX_SENSORS && forall k :: 0 <= k < |c| ==> c[k] <= 15
    requires i < |c| && j < c[i] && FilledTo(buffer, start, c, raw, value, i, j)
    requires var k := Rank(c, i, j); start + 3 * (k / 2) + k % 2 + 1 < |buffer| && v == Sample(buffer, start, k)
    modifies raw, value
    ensures FilledTo(buffer, start, c, raw, value, i + 1, j)
  {
    hide Rank, Sample, Compensated, Scaled;
    label before:
    raw[i, j] := Compensated(v);
    value[i, j] := Scaled(raw[i, j]);
    forall i': nat, j': nat | i' < |c| && j' < c[i'] && (j' < j || (j' == j && i' < i + 1))
      ensures Filled(buffer, start, c, raw, value, i', j')
    {
      if i' != i || j' != j { assert old@before(Filled(buffer, start, c, raw, value, i', j')); }
    }
  }

  lemma NothingToFill(buffer: Octets, start: nat, c: seq<nat>, raw: array2<nat>, value: array2<nat>, i: nat, j: nat)
    requires raw.Length0 == value.Length0 == MAX_SENSORS && raw.Length1 == value.Length1 == MAX_DATA_PER_PACKET
    requires |c| <= MAX_SENSORS && forall k :: 0 <= k < |c| ==> c[k] <= 15
    requires i < |c| && c[i] <= j && FilledTo(buffer, start, c, raw, value, i, j)
    ensures FilledTo(buffer, start, c, raw, value, i + 1, j)
  {
    hide Filled;
  }

  lemma RoundFilled(buffer: Octets, start: nat, c: seq<nat>, raw: array2<nat>, value: array2<nat>, j: nat)
    requires raw.Length0 == value.Length0 == MAX_SENSORS && raw.Length1 == value.Length1 == MAX_DATA_PER_PACKET
    requires |c| <= MAX_SENSORS && forall k :: 0 <= k < |c| ==> c[k] <= 15
    requires FilledTo(buffer, start, c, raw, value, |c|, j)
    ensures FilledTo(buffer, start, c, raw, value, 0, j + 1)
  {
    hide Filled;
  }

  /** One sample, from the byte at bufindx and the byte it shares. */
  method TakeSample(buffer: Octets, start: nat, bufindx: nat, flip: nat, ghost k: nat) returns (v: nat, next: nat)
    requires flip == k % 2 && bufindx == start + Size(k) && start + Size(k + 1) <= |buffer|
    ensures start + 3 * (k / 2) + k % 2 + 1 < |buffer| && v == Sample(buffer, start, k)
    ensures next == start + Size(k + 1)
  {
    if flip == 0 {
      v := buffer[bufindx] + buffer[bufindx + 1] / 16 * 256;
      next := bufindx + 2;
    } else {
      v := buffer[bufindx] + buffer[bufindx - 1] % 16 * 256;
      next := bufindx + 1;
    }
  }

  /** When the samples of each channel were packed in this order, every channel gets its own samples back. */
  lemma ChannelsComeBack(buffer: Octets, start: nat, c: seq<nat>, s: seq<nat>, data: seq<seq<nat>>, i: nat, j: nat)
    requires HoldsPacked(buffer, start, s) && |s| == Total(c) && |data| == |c|
    requires forall i': nat, j': nat :: i' < |c| && j' < c[i'] ==> c[i'] == |data[i']| && Rank(c, i', j') < |s| && s[Rank(c, i', j')] == data[i'][j']
    requires i < |c| && j < c[i]
    ensures var k := Rank(c, i, j);
      start + 3 * (k / 2) + k % 2 + 1 < |buffer| && Sample(buffer, start, k) == data[i][j]
  {
    hide Rank, Sample, HoldsPacked;
    RankBounded(c, i, j);
    UnpackPack(buffer, start, s, Rank(c, i, j));
  }
}
