/**
 * The IMU producer: reading the BerryIMU's accelerometer, gyroscope and
 * magnetometer registers over I2C, assembling 22-byte samples (18 register
 * bytes and a 4-byte big-endian timestamp), packing each sample into two
 * telemetry packets for the main process, and supervising the child
 * process that does this.
 *
 * The I2C bus enters as what it returns: whether a sensor could be selected,
 * the words and blocks the reads deliver.  fork, waitpid and the pipe writes
 * enter as their results.
 */
module Imu {
  import opened Bytes
  import Text
  import Packets

  /** Block reads deliver six bytes: x, y, z, each low byte first. */
  const BlockSize := 6
  /** Register bytes in a sample: accelerometer, gyroscope, magnetometer. */
  const RegisterBytes := 18
  const SampleSize := 22
  /** Offset of the timestamp in a sample. */
  const TimeAt := 18
  /** Measurements per backup file. */
  const PerFile := 100
  /** SIGTERMs sent before giving up and sending SIGKILL. */
  const Attempts := 5

  /*
   * Register bytes
   */

  /**
   * The 16-bit value of one axis: `lo | hi << 8`.  The two operands occupy
   * disjoint bits, so the OR is the sum `lo + 256 * hi`.
   */
  function Word(lo: byte, hi: byte): (w: uint16)
    ensures LittleEndian16(w) == [lo, hi]
  {
    FromLittleEndian16(lo, hi)
  }

  /** readAcc / readGyr / readMag: x, y and z from a six-byte block. */
  function Words(block: seq<byte>): (ws: seq<uint16>)
    requires |block| == BlockSize
    ensures |ws| == 3
    ensures forall k :: 0 <= k < 3 ==> LittleEndian16(ws[k]) == block[2 * k..2 * k + 2]
  {
    [Word(block[0], block[1]), Word(block[2], block[3]), Word(block[4], block[5])]
  }

  /** The block that carries three words, low byte first. */
  function Block(ws: seq<uint16>): (block: seq<byte>)
    requires |ws| == 3
    ensures |block| == BlockSize
  {
    LittleEndian16(ws[0]) + LittleEndian16(ws[1]) + LittleEndian16(ws[2])
  }

  lemma WordsBlock(ws: seq<uint16>)
    requires |ws| == 3
    ensures Words(Block(ws)) == ws
  {
    LittleEndian16RoundTrip(ws[0]);
    LittleEndian16RoundTrip(ws[1]);
    LittleEndian16RoundTrip(ws[2]);
  }

  lemma BlockWords(block: seq<byte>)
    requires |block| == BlockSize
    ensures Block(Words(block)) == block
  {
    var ws := Words(block);
    assert LittleEndian16(ws[0]) == block[0..2];
    assert LittleEndian16(ws[1]) == block[2..4];
    assert LittleEndian16(ws[2]) == block[4..6];
    assert block == block[0..2] + block[2..4] + block[4..6];
  }

  /** readAcc / readGyr / readMag writing x, y and z into `data[0..3)`. */
  method ReadVector(block: seq<byte>, data: array<uint16>)
    requires |block| == BlockSize && data.Length >= 3
    modifies data
    ensures data[..3] == Words(block)
    ensures data[3..] == old(data[3..])
  {
    data[0] := Word(block[0], block[1]);
    data[1] := Word(block[2], block[3]);
    data[2] := Word(block[4], block[5]);
  }

  /** Conversion of an `int` to `uint8_t`: the low eight bits (an error result -1 becomes 0xFF). */
  function Truncate8(x: int): byte
  {
    x % 0x100
  }

  /**
   * readAccAxis / readGyrAxis / readMagAxis: 0 unless the bus is active,
   * the sensor is selected and the axis is 1, 2 or 3; otherwise the low
   * eight bits of each word read, the low register's first.  `low` and
   * `high` are what the word reads of that axis's two output registers
   * return.
   */
  function ReadAxis(busActive: bool, selected: bool, axis: int, low: int, high: int): (r: uint16)
    ensures !busActive || !selected || axis < 1 || axis > 3 ==> r == 0
    ensures busActive && selected && 1 <= axis <= 3 ==> LittleEndian16(r) == [Truncate8(low), Truncate8(high)]
  {
    if !busActive || !selected then 0
    else if axis != 1 && axis != 2 && axis != 3 then 0
    else Word(Truncate8(low), Truncate8(high))
  }

  /** A failed word read (-1) contributes 0xFF: an axis whose reads both fail reads 0xFFFF. */
  lemma FailedReadsShowAsOnes(axis: int)
    requires 1 <= axis <= 3
    ensures ReadAxis(true, true, axis, -1, -1) == 0xFFFF
  {
  }

  /*
   * Timestamp
   */

  /**
   * `0xFF & time >> s` for s = 24, 16, 8, 0, stored at offsets 18..21.  The
   * shift of a negative `int32_t` is arithmetic, a floor division by 2^s,
   * which is what Dafny's `/` computes for a positive divisor.
   */
  function TimestampBytes(time: int32): (b: seq<byte>)
    ensures |b| == 4
  {
    [time / 0x100_0000 % 0x100, time / 0x1_0000 % 0x100, time / 0x100 % 0x100, time % 0x100]
  }

  /** Reading the four bytes back most significant first gives the time modulo 2^32. */
  lemma TimestampRoundTrip(time: int32)
    ensures FromBigEndian32(TimestampBytes(time)) == time % 0x1_0000_0000
    ensures time >= 0 ==> FromBigEndian32(TimestampBytes(time)) == time
  {
    var b0, q1 := time % 0x100, time / 0x100;
    var b1, q2 := q1 % 0x100, q1 / 0x100;
    var b2, q3 := q2 % 0x100, q2 / 0x100;
    var b3, q4 := q3 % 0x100, q3 / 0x100;
    assert time == q2 * 0x1_0000 + (b1 * 0x100 + b0);
    DivModUnique(time, 0x1_0000, q2, b1 * 0x100 + b0);
    assert time == q3 * 0x100_0000 + ((b2 * 0x100 + b1) * 0x100 + b0);
    DivModUnique(time, 0x100_0000, q3, (b2 * 0x100 + b1) * 0x100 + b0);
    var w := ((b3 * 0x100 + b2) * 0x100 + b1) * 0x100 + b0;
    assert TimestampBytes(time) == [b3, b2, b1, b0];
    assert time == q4 * 0x1_0000_0000 + w;
    DivModUnique(time, 0x1_0000_0000, q4, w);
    if time >= 0 {
      DivModUnique(time, 0x1_0000_0000, 0, time);
    }
  }

  /** Distinct 32-bit times give distinct timestamp bytes. */
  lemma TimestampInjective(s: int32, t: int32)
    requires TimestampBytes(s) == TimestampBytes(t)
    ensures s == t
  {
    TimestampRoundTrip(s);
    TimestampRoundTrip(t);
    if s < 0 {
      DivModUnique(s, 0x1_0000_0000, -1, s + 0x1_0000_0000);
    } else {
      DivModUnique(s, 0x1_0000_0000, 0, s);
    }
    if t < 0 {
      DivModUnique(t, 0x1_0000_0000, -1, t + 0x1_0000_0000);
    } else {
      DivModUnique(t, 0x1_0000_0000, 0, t);
    }
  }

  /** The four timestamp assignments, into offsets 21, 20, 19, 18. */
  method StampTime(data: array<byte>, time: int32)
    requires data.Length == SampleSize
    modifies data
    ensures data[..] == old(data[..TimeAt]) + TimestampBytes(time)
  {
    data[21] := time % 0x100;
    data[20] := time / 0x100 % 0x100;
    data[19] := time / 0x1_0000 % 0x100;
    data[18] := time / 0x100_0000 % 0x100;
    assert data[..] == data[..TimeAt] + data[TimeAt..];
  }

  /*
   * Packets, indices and file names
   */

  /** byte2_t index = 5 * j + i, truncated to 16 bits. */
  function PacketIndex(j: nat, i: nat): (r: uint16)
    ensures 5 * j + i < 0x1_0000 ==> r == 5 * j + i
    ensures 5 * j + i >= 0x1_0000 ==> r < 5 * j + i
  {
    (5 * j + i) % 0x1_0000
  }

  /** Within one file the 100 measurements get distinct indices. */
  lemma IndicesDistinctWithinFile(j: nat, i: nat, i': nat)
    requires i < i' < PerFile
    ensures PacketIndex(j, i) != PacketIndex(j, i')
  {
    var a, d := 5 * j + i, i' - i;
    var q, r := a / 0x1_0000, a % 0x1_0000;
    if r + d < 0x1_0000 {
      DivModUnique(a + d, 0x1_0000, q, r + d);
    } else {
      DivModUnique(a + d, 0x1_0000, q + 1, r + d - 0x1_0000);
    }
  }

  /** Files overlap: measurement i of file j + 1 reuses the index of measurement i + 5 of file j. */
  lemma ConsecutiveFilesCollide(j: nat, i: nat)
    requires i + 5 < PerFile
    ensures PacketIndex(j + 1, i) == PacketIndex(j, i + 5)
  {
  }

  lemma IndexCollisionExample()
    ensures PacketIndex(0, 5) == PacketIndex(1, 0)
  {
    ConsecutiveFilesCollide(0, 0);
  }

  /** filename + "_" + start + "_" + j as at least four digits, zero-filled + ".txt". */
  function BackupName(filename: string, start: string, j: nat): (n: string)
    ensures |filename| + 2 + |start| + 4 + 4 <= |n|
    ensures n[..|filename|] == filename && n[|filename|] == '_'
    ensures n[|n| - 4..] == ".txt"
  {
    filename + "_" + start + "_" + Text.ZeroPadded(j, 4) + ".txt"
  }

  /** Each file of one collection run gets its own name; below 10000 the number takes four digits. */
  lemma BackupNamesDistinct(filename: string, start: string, j: nat, k: nat)
    requires j != k
    ensures BackupName(filename, start, j) != BackupName(filename, start, k)
    ensures j < 10000 ==> |BackupName(filename, start, j)| == |filename| + |start| + 10
  {
    NumberOfName(filename, start, j);
    NumberOfName(filename, start, k);
    DecimalBelow(j);
  }

  /** Where the file number sits in a backup name. */
  lemma NumberOfName(filename: string, start: string, j: nat)
    ensures var at := |filename| + |start| + 2;
      |BackupName(filename, start, j)| == at + |Text.ZeroPadded(j, 4)| + 4
      && BackupName(filename, start, j)[at..at + |Text.ZeroPadded(j, 4)|] == Text.ZeroPadded(j, 4)
  {
  }

  lemma DecimalBelow(n: nat)
    ensures n < 10 ==> |Text.Decimal(n)| <= 1
    ensures n < 100 ==> |Text.Decimal(n)| <= 2
    ensures n < 1000 ==> |Text.Decimal(n)| <= 3
    ensures n < 10000 ==> |Text.Decimal(n)| <= 4
  {
    if n >= 10 {
      DecimalBelow(n / 10);
    }
  }

  /** A 22-byte sample as the child assembles it. */
  function SampleBytes(acc: seq<byte>, gyr: seq<byte>, mag: seq<byte>, time: int32): (s: seq<byte>)
    requires |acc| == BlockSize && |gyr| == BlockSize && |mag| == BlockSize
    ensures |s| == SampleSize
  {
    acc + gyr + mag + TimestampBytes(time)
  }

  /**
   * The two packets of a sample: ID_DATA1 carries its first 12 bytes,
   * ID_DATA2 the 10 from offset 12, under the same index.  Unpacking both
   * gives back the whole sample.
   */
  lemma SamplePacketsRoundTrip(sample: seq<byte>, index: uint16)
    requires |sample| == SampleSize
    ensures Packets.LengthById(Packets.IdData1) == 12 && Packets.LengthById(Packets.IdData2) == 10
    ensures Packets.Unpack(Packets.Frame(Packets.IdData1, index, sample))
      == Packets.Unpacked(Packets.Fields(Packets.IdData1, index, sample[..12] + Packets.Zeros(4)))
    ensures Packets.Unpack(Packets.Frame(Packets.IdData2, index, sample[12..]))
      == Packets.Unpacked(Packets.Fields(Packets.IdData2, index, sample[12..] + Packets.Zeros(6)))
    ensures (sample[..12] + Packets.Zeros(4))[..12] + (sample[12..] + Packets.Zeros(6))[..10] == sample
  {
    Packets.DataLengths();
    Packets.UnpackFrame(Packets.IdData1, index, sample);
    Packets.UnpackFrame(Packets.IdData2, index, sample[12..]);
    assert sample[12..][..10] == sample[12..];
    assert (sample[..12] + Packets.Zeros(4))[..12] == sample[..12];
    assert (sample[12..] + Packets.Zeros(6))[..10] == sample[12..];
  }

  /*
   * The child's measurement loop
   */

  /**
   * What the environment does during one measurement: whether the
   * accelerometer could be selected, the three register blocks, the
   * elapsed time, and whether each of the two pipe writes succeeded.
   */
  datatype Measurement = Measurement(accSelected: bool, acc: seq<byte>, gyr: seq<byte>, mag: seq<byte>,
                                     time: int32, firstWritten: bool, secondWritten: bool)

  predicate WellFormed(m: Measurement)
  {
    |m.acc| == BlockSize && |m.gyr| == BlockSize && |m.mag| == BlockSize
  }

  /** The measurements of a run are all well formed. */
  predicate AllWellFormed(ms: seq<Measurement>)
  {
    forall q :: 0 <= q < |ms| ==> WellFormed(ms[q])
  }

  /** How far one measurement gets: how many of its two packets are written and, when it fails, the exit code. */
  datatype Attempted = Attempted(count: nat, failure: Option<int>)

  /**
   * One measurement: readRegisters throws -1 when the bus is inactive or
   * the accelerometer cannot be selected; a failed pipe write throws -2,
   * after any packet written before it.
   */
  function Attempt(busActive: bool, m: Measurement): (a: Attempted)
    ensures a.count <= 2
    ensures a.failure.None? <==> a.count == 2
    ensures a.failure == Some(-1) <==> !busActive || !m.accSelected
  {
    if !busActive || !m.accSelected then Attempted(0, Some(-1))
    else if !m.firstWritten then Attempted(0, Some(-2))
    else if !m.secondWritten then Attempted(1, Some(-2))
    else Attempted(2, None)
  }

  /** The sample a well-formed measurement yields. */
  function SampleOf(m: Measurement): (s: seq<byte>)
    requires WellFormed(m)
    ensures |s| == SampleSize
  {
    SampleBytes(m.acc, m.gyr, m.mag, m.time)
  }

  /** The two packets of measurement i of file j, both under index 5 * j + i. */
  function SamplePackets(m: Measurement, j: nat, i: nat): (ps: seq<seq<byte>>)
    requires WellFormed(m)
    ensures |ps| == 2
  {
    var sample := SampleOf(m);
    var index := PacketIndex(j, i);
    Packets.DataLengths();
    [Packets.Frame(Packets.IdData1, index, sample), Packets.Frame(Packets.IdData2, index, sample[12..])]
  }

  /** Packet h of measurement q of a run: h = 0 is its ID_DATA1 packet, h = 1 its ID_DATA2 packet. */
  datatype Slot = Slot(q: nat, h: nat)

  /** The first `count` packets of measurement q. */
  function Slots(q: nat, count: nat): (ss: seq<Slot>)
    requires count <= 2
    ensures |ss| == count && forall s :: s in ss ==> s.q == q && s.h < 2
  {
    [Slot(q, 0), Slot(q, 1)][..count]
  }

  /** A whole run from measurement n on: the packets that reach the pipe, the exit code, and where it stopped. */
  datatype ChildRun = ChildRun(written: seq<Slot>, failure: Option<int>, stop: nat)

  function Collect(busActive: bool, ms: seq<Measurement>, n: nat): (r: ChildRun)
    requires n <= |ms|
    ensures n <= r.stop <= |ms|
    ensures r.failure.None? ==> r.stop == |ms|
    ensures forall s :: s in r.written ==> n <= s.q < |ms| && s.h < 2
    decreases |ms| - n
  {
    if n == |ms| then ChildRun([], None, n)
    else
      var a := Attempt(busActive, ms[n]);
      if a.failure.Some? then ChildRun(Slots(n, a.count), a.failure, n)
      else
        var rest := Collect(busActive, ms, n + 1);
        ChildRun(Slots(n, 2) + rest.written, rest.failure, rest.stop)
  }

  /**
   * A run stops at its first failing measurement, with that measurement's
   * exit code; every measurement before it wrote both packets, and the
   * failing one wrote only those before the failed write.
   */
  lemma {:induction false} CollectStops(busActive: bool, ms: seq<Measurement>, n: nat)
    requires n <= |ms|
    ensures var r := Collect(busActive, ms, n);
      (forall q :: n <= q < r.stop ==> Attempt(busActive, ms[q]).failure.None?)
      && (r.failure.Some? ==> r.stop < |ms| && r.failure == Attempt(busActive, ms[r.stop]).failure)
      && |r.written| == 2 * (r.stop - n) + (if r.failure.Some? then Attempt(busActive, ms[r.stop]).count else 0)
    decreases |ms| - n
  {
    if n < |ms| && Attempt(busActive, ms[n]).failure.None? {
      CollectStops(busActive, ms, n + 1);
    }
  }

  /** The two packets of one measurement. */
  datatype Pair<T> = Pair(first: T, second: T)

  /** Packet h of a pair: 0 the first, 1 the second. */
  function Pick<T>(p: Pair<T>, h: nat): T
  {
    if h == 0 then p.first else p.second
  }

  /** Entry q: the two packets of measurement q of a run, the i-th of file j for q = 100 * j + i. */
  function Table(ms: seq<Measurement>): (t: seq<Pair<seq<byte>>>)
    requires AllWellFormed(ms)
    ensures |t| == |ms|
  {
    seq(|ms|, (q: int) requires 0 <= q < |ms| && WellFormed(ms[q]) =>
      var ps := SamplePackets(ms[q], q / PerFile, q % PerFile); Pair(ps[0], ps[1]))
  }

  /** The slots all name a packet of the table. */
  predicate InTable<T>(table: seq<Pair<T>>, slots: seq<Slot>)
  {
    forall s :: s in slots ==> s.q < |table| && s.h < 2
  }

  /** The packets a list of slots names, in order. */
  function Frames<T>(table: seq<Pair<T>>, slots: seq<Slot>): (fs: seq<T>)
    requires InTable(table, slots)
    ensures |fs| == |slots|
  {
    if slots == [] then [] else [Pick(table[slots[0].q], slots[0].h)] + Frames(table, slots[1..])
  }

  lemma {:induction false} FramesConcat<T>(table: seq<Pair<T>>, a: seq<Slot>, b: seq<Slot>)
    requires InTable(table, a + b)
    ensures InTable(table, a) && InTable(table, b)
    ensures Frames(table, a + b) == Frames(table, a) + Frames(table, b)
    decreases |a|
  {
    assert forall s :: s in a ==> s in a + b;
    assert forall s :: s in b ==> s in a + b;
    if a == [] {
      assert a + b == b;
    } else {
      assert (a + b)[0] == a[0] && (a + b)[1..] == a[1..] + b;
      FramesConcat(table, a[1..], b);
      ConcatAssoc([Pick(table[a[0].q], a[0].h)], Frames(table, a[1..]), Frames(table, b));
    }
  }

  /** Entry k of the packets is the one slot k names. */
  lemma {:induction false} FramesIndex<T>(table: seq<Pair<T>>, slots: seq<Slot>, k: nat)
    requires InTable(table, slots) && k < |slots|
    ensures slots[k] in slots
    ensures Frames(table, slots)[k] == Pick(table[slots[k].q], slots[k].h)
    decreases k
  {
    if k > 0 {
      assert slots[k] == slots[1..][k - 1];
      FramesIndex(table, slots[1..], k - 1);
    }
  }

  /** Entry q of the table holds the two packets of measurement q, the i-th of file j for q = 100 * j + i. */
  ghost predicate Agrees(table: seq<Pair<seq<byte>>>, ms: seq<Measurement>, q: nat)
    requires AllWellFormed(ms) && |table| == |ms| && q < |ms|
  {
    table[q] == Pair(SamplePackets(ms[q], q / PerFile, q % PerFile)[0], SamplePackets(ms[q], q / PerFile, q % PerFile)[1])
  }

  lemma TableAgrees(ms: seq<Measurement>)
    requires AllWellFormed(ms)
    ensures forall q :: 0 <= q < |ms| ==> Agrees(Table(ms), ms, q)
  {
  }

  /** The first `count` packets of measurement k = 100 * j + i are those of measurement i of file j. */
  lemma FramesOfSlots(table: seq<Pair<seq<byte>>>, ms: seq<Measurement>, k: nat, count: nat, j: nat, i: nat)
    requires AllWellFormed(ms) && |table| == |ms| && k < |ms| && count <= 2
    requires k == PerFile * j + i && i < PerFile
    requires Agrees(table, ms, k)
    ensures InTable(table, Slots(k, count))
    ensures Frames(table, Slots(k, count)) == SamplePackets(ms[k], j, i)[..count]
  {
    DivModUnique(k, PerFile, j, i);
    var t, ps := table, SamplePackets(ms[k], j, i);
    assert t[k] == Pair(ps[0], ps[1]);
    var ss := Slots(k, count);
    if count == 1 {
      assert ss[1..] == [];
    } else if count == 2 {
      assert ss[1..][1..] == [];
    }
  }

  /** `frame` unpacks to the given fields. */
  predicate DecodesTo(frame: seq<byte>, id: byte, index: uint16, data: seq<byte>)
  {
    |frame| == Packets.FrameSize && Packets.Unpack(frame) == Packets.Unpacked(Packets.Fields(id, index, data))
  }

  /** `frame` is the ID_DATA1 packet of measurement number q. */
  predicate FirstHalf(frame: seq<byte>, m: Measurement, q: nat)
    requires WellFormed(m)
  {
    DecodesTo(frame, Packets.IdData1, PacketIndex(q / PerFile, q % PerFile), SampleOf(m)[..12] + Packets.Zeros(4))
  }

  /** `frame` is the ID_DATA2 packet of measurement number q. */
  predicate SecondHalf(frame: seq<byte>, m: Measurement, q: nat)
    requires WellFormed(m)
  {
    DecodesTo(frame, Packets.IdData2, PacketIndex(q / PerFile, q % PerFile), SampleOf(m)[12..] + Packets.Zeros(6))
  }

  /** Both packets of a measurement decode to their halves of its sample. */
  lemma SamplePacketsDecode(m: Measurement, q: nat)
    requires WellFormed(m)
    ensures FirstHalf(SamplePackets(m, q / PerFile, q % PerFile)[0], m, q)
    ensures SecondHalf(SamplePackets(m, q / PerFile, q % PerFile)[1], m, q)
  {
    SamplePacketsRoundTrip(SampleOf(m), PacketIndex(q / PerFile, q % PerFile));
  }

  /**
   * The packets of a run, in order: from measurement n, packet 2 * (q - n) + h
   * is packet h of measurement q.
   */
  lemma {:induction false} CollectedPackets(busActive: bool, ms: seq<Measurement>, n: nat, q: nat, h: nat)
    requires n <= |ms|
    requires n <= q && h < 2 && 2 * (q - n) + h < |Collect(busActive, ms, n).written|
    ensures q < |ms|
    ensures Collect(busActive, ms, n).written[2 * (q - n) + h] == Slot(q, h)
    decreases |ms| - n
  {
    var a := Attempt(busActive, ms[n]);
    var run := Collect(busActive, ms, n);
    if q > n {
      var rest := Collect(busActive, ms, n + 1);
      var k := 2 * (q - n) + h;
      assert run.written[k] == rest.written[k - 2];
      assert k - 2 == 2 * (q - (n + 1)) + h;
      CollectedPackets(busActive, ms, n + 1, q, h);
    }
  }

  /**
   * Every packet a run writes decodes: the one in slot (q, 0) to the first
   * half of the sample of measurement q, the one in slot (q, 1) to its
   * second half, both under index 5 * j + i for file j, position i.
   */
  lemma CollectedPacketsDecode(busActive: bool, ms: seq<Measurement>, n: nat, k: nat)
    requires n <= |ms| && AllWellFormed(ms)
    requires k < |Collect(busActive, ms, n).written|
    ensures var s := Collect(busActive, ms, n).written[k];
      var packet := Frames(Table(ms), Collect(busActive, ms, n).written)[k];
      s.q < |ms|
      && (s.h == 0 ==> FirstHalf(packet, ms[s.q], s.q))
      && (s.h == 1 ==> SecondHalf(packet, ms[s.q], s.q))
  {
    var written := Collect(busActive, ms, n).written;
    var s := written[k];
    assert s in written;
    FramesIndex(Table(ms), written, k);
    SamplePacketsDecode(ms[s.q], s.q);
  }

  /** The files a run opens: one per block of 100 measurements it started. */
  function Names(filename: string, start: string, count: nat): (ns: seq<string>)
    ensures |ns| == count
  {
    seq(count, (j: int) requires 0 <= j => BackupName(filename, start, j))
  }

  /** Opening one more file appends its name. */
  lemma NamesSnoc(filename: string, start: string, count: nat)
    ensures Names(filename, start, count + 1) == Names(filename, start, count) + [BackupName(filename, start, count)]
  {
    var ns, ms := Names(filename, start, count + 1), Names(filename, start, count) + [BackupName(filename, start, count)];
    assert forall q :: 0 <= q < count + 1 ==> ns[q] == ms[q];
  }

  /** Signals sent to the child. */
  datatype Signal = Term | Kill

  /** What waitpid(_pid, WNOHANG) returns on attempt i; 0 (still running) past the end of the list. */
  function Wait(waits: seq<int>, i: nat): int
  {
    if i < |waits| then waits[i] else 0
  }

  /** The first attempt from `i` at which waitpid reaps the child, or 5 if none does. */
  function FirstReap(pid: int, waits: seq<int>, i: nat): (r: nat)
    requires i <= Attempts
    ensures i <= r <= Attempts
    ensures r < Attempts ==> Wait(waits, r) == pid
    ensures forall q :: i <= q < r ==> Wait(waits, q) != pid
    decreases Attempts - i
  {
    if i == Attempts then Attempts
    else if Wait(waits, i) == pid then i
    else FirstReap(pid, waits, i + 1)
  }

  function Repeat(s: Signal, n: nat): (r: seq<Signal>)
    ensures |r| == n && forall k :: 0 <= k < n ==> r[k] == s
  {
    seq(n, _ => s)
  }

  /** SIGTERM until reaped, at most five times; SIGKILL if none of the five reaped. */
  function Escalation(pid: int, waits: seq<int>): (s: seq<Signal>)
    ensures 1 <= |s| <= Attempts + 1 && s[0] == Term
  {
    var r := FirstReap(pid, waits, 0);
    if r < Attempts then Repeat(Term, r + 1) else Repeat(Term, Attempts) + [Kill]
  }

  /**
   * At most five SIGTERMs, the last of them the one after which waitpid
   * reaped; SIGKILL exactly when no attempt reaped, and then last.
   */
  lemma EscalationShape(pid: int, waits: seq<int>)
    ensures 1 <= |Escalation(pid, waits)| <= Attempts + 1
    ensures Kill in Escalation(pid, waits) <==> forall q :: 0 <= q < Attempts ==> Wait(waits, q) != pid
    ensures Kill in Escalation(pid, waits) ==> Escalation(pid, waits) == Repeat(Term, Attempts) + [Kill]
    ensures Kill !in Escalation(pid, waits) ==>
      var n := |Escalation(pid, waits)|;
      Wait(waits, n - 1) == pid && forall q :: 0 <= q < n - 1 ==> Wait(waits, q) != pid
  {
    var r := FirstReap(pid, waits, 0);
    if r < Attempts {
      assert Kill !in Repeat(Term, r + 1);
    } else {
      assert Escalation(pid, waits)[Attempts] == Kill;
    }
  }

  /** The loop of stopDataCollection: SIGTERM, wait, check, while not died and fewer than five tries. */
  method Escalate(pid: int, waits: seq<int>) returns (sent: seq<Signal>, died: bool)
    ensures sent == Escalation(pid, waits)
    ensures died <==> exists q :: 0 <= q < Attempts && Wait(waits, q) == pid
  {
    sent := [];
    died := false;
    var i := 0;
    while !died && i < Attempts
      invariant 0 <= i <= Attempts
      invariant sent == Repeat(Term, i)
      invariant !died ==> FirstReap(pid, waits, 0) == FirstReap(pid, waits, i)
      invariant died ==> i >= 1 && FirstReap(pid, waits, 0) == i - 1
      decreases Attempts - i, !died
    {
      sent := sent + [Term];
      if Wait(waits, i) == pid {
        died := true;
      }
      i := i + 1;
    }
    if !died {
      sent := sent + [Kill];
    }
  }

  /**
   * Part way through the run from measurement n, at measurement k: what has
   * reached the pipe since pipe0, followed by what the run from k writes,
   * is what the whole run writes; and the run from k ends as the whole run does.
   */
  ghost predicate OnTrack(table: seq<Pair<seq<byte>>>, busActive: bool, ms: seq<Measurement>, n: nat, k: nat,
                          pipe0: seq<seq<byte>>, pipe: seq<seq<byte>>)
    requires AllWellFormed(ms) && |table| == |ms| && n <= k <= |ms|
  {
    Collect(busActive, ms, k).failure == Collect(busActive, ms, n).failure
    && Collect(busActive, ms, k).stop == Collect(busActive, ms, n).stop
    && pipe + Frames(table, Collect(busActive, ms, k).written) == pipe0 + Frames(table, Collect(busActive, ms, n).written)
  }

  /** The run from measurement n has ended at k with its exit code, having written all its packets after pipe0. */
  ghost predicate Finished(table: seq<Pair<seq<byte>>>, busActive: bool, ms: seq<Measurement>, n: nat, k: nat,
                           pipe0: seq<seq<byte>>, pipe: seq<seq<byte>>, failure: Option<int>)
    requires AllWellFormed(ms) && |table| == |ms| && n <= |ms|
  {
    pipe == pipe0 + Frames(table, Collect(busActive, ms, n).written)
    && failure == Collect(busActive, ms, n).failure && k == Collect(busActive, ms, n).stop
  }

  /** At the end of the measurements the run is finished. */
  lemma AtEnd(table: seq<Pair<seq<byte>>>, busActive: bool, ms: seq<Measurement>, n: nat, pipe0: seq<seq<byte>>, pipe: seq<seq<byte>>)
    requires AllWellFormed(ms) && |table| == |ms| && n <= |ms| && OnTrack(table, busActive, ms, n, |ms|, pipe0, pipe)
    ensures Finished(table, busActive, ms, n, |ms|, pipe0, pipe, None)
  {
    assert pipe + [] == pipe;
  }

  /** The outcome of startDataCollection in this process. */
  datatype Started = Parent | Exited(code: int) | ChildHalted

  /** The RPi_IMU object: the bus state, the child's pid and its pipes. */
  class RpiImu {
    var busActive: bool
    var pid: int
    var pipesOpen: bool
    /** Signals sent to the child, in order. */
    var signals: seq<Signal>
    /** Packets written to the pipe, in order. */
    var pipe: seq<seq<byte>>
    /** Backup files opened, in order. */
    var files: seq<string>

    constructor (busActive: bool)
      ensures this.busActive == busActive && pid == 0 && !pipesOpen
      ensures signals == [] && pipe == [] && files == []
    {
      this.busActive := busActive;
      pid := 0;
      pipesOpen := false;
      signals := [];
      pipe := [];
      files := [];
    }

    /**
     * readRegisters: throws -1 unless the bus is active and the
     * accelerometer can be selected; otherwise the accelerometer, gyroscope
     * and magnetometer blocks land at offsets 0, 6 and 12.
     */
    method ReadRegisters(data: array<byte>, accSelected: bool, acc: seq<byte>, gyr: seq<byte>, mag: seq<byte>)
        returns (thrown: bool)
      requires data.Length >= RegisterBytes
      requires |acc| == BlockSize && |gyr| == BlockSize && |mag| == BlockSize
      modifies data
      ensures thrown <==> !busActive || !accSelected
      ensures thrown ==> data[..] == old(data[..])
      ensures !thrown ==> data[..] == acc + gyr + mag + old(data[RegisterBytes..])
    {
      if !busActive || !accSelected {
        return true;
      }
      ghost var rest := data[RegisterBytes..];
      CopyInto(data, 0, acc);
      assert data[..BlockSize] == acc && data[2 * BlockSize..] == old(data[2 * BlockSize..]);
      CopyInto(data, BlockSize, gyr);
      assert data[..2 * BlockSize] == acc + gyr && data[RegisterBytes..] == rest;
      CopyInto(data, 2 * BlockSize, mag);
      assert data[..] == data[..2 * BlockSize] + mag + data[RegisterBytes..];
      thrown := false;
    }

    /** One pass of the inner loop: read, stamp, pack twice, write both packets. */
    method Measure(data: array<byte>, p1: Packets.Packet, p2: Packets.Packet, m: Measurement, j: nat, i: nat)
        returns (failure: Option<int>)
      requires data.Length == SampleSize && p1.Valid() && p2.Valid()
      requires data != p1.raw && data != p2.raw && p1.raw != p2.raw
      requires WellFormed(m)
      modifies this, data, p1.raw, p2.raw
      ensures pipe == old(pipe) + SamplePackets(m, j, i)[..Attempt(busActive, m).count]
      ensures failure == Attempt(busActive, m).failure
      ensures pipesOpen == (old(pipesOpen) && failure.None?)
      ensures busActive == old(busActive) && pid == old(pid) && signals == old(signals) && files == old(files)
    {
      ghost var ps := SamplePackets(m, j, i);
      var thrown := PackSample(data, p1, p2, m, j, i);
      if thrown {
        pipesOpen := false;
        return Some(-1);
      }
      if !m.firstWritten {
        pipesOpen := false;
        return Some(-2);
      }
      pipe := pipe + [p1.raw[..]];
      if !m.secondWritten {
        assert ps[..1] == [p1.raw[..]];
        pipesOpen := false;
        return Some(-2);
      }
      pipe := pipe + [p2.raw[..]];
      assert ps[..2] == [p1.raw[..], p2.raw[..]];
      failure := None;
    }

    /** The read, the time stamp and the two pack calls of one pass; the pipe is not touched. */
    method PackSample(data: array<byte>, p1: Packets.Packet, p2: Packets.Packet, m: Measurement, j: nat, i: nat)
        returns (thrown: bool)
      requires data.Length == SampleSize && p1.Valid() && p2.Valid()
      requires data != p1.raw && data != p2.raw && p1.raw != p2.raw
      requires WellFormed(m)
      modifies data, p1.raw, p2.raw
      ensures thrown <==> Attempt(busActive, m).failure == Some(-1)
      ensures !thrown ==> p1.raw[..] == SamplePackets(m, j, i)[0] && p2.raw[..] == SamplePackets(m, j, i)[1]
    {
      thrown := ReadRegisters(data, m.accSelected, m.acc, m.gyr, m.mag);
      if thrown {
        return;
      }
      StampTime(data, m.time);
      ghost var sample := SampleBytes(m.acc, m.gyr, m.mag, m.time);
      assert data[..] == sample;
      var index := PacketIndex(j, i);
      Packets.DataLengths();
      var _ := Packets.Pack(p1, Packets.IdData1, index, data[..]);
      var _ := Packets.Pack(p2, Packets.IdData2, index, data[12..]);
    }

    /** Measurement k of the run from n, the i-th of file j. */
    method MeasureNext(data: array<byte>, p1: Packets.Packet, p2: Packets.Packet, ms: seq<Measurement>,
                       ghost table: seq<Pair<seq<byte>>>, ghost n: nat, k: nat, j: nat, i: nat, ghost pipe0: seq<seq<byte>>)
        returns (failure: Option<int>)
      requires data.Length == SampleSize && p1.Valid() && p2.Valid()
      requires data != p1.raw && data != p2.raw && p1.raw != p2.raw
      requires n <= k < |ms| && AllWellFormed(ms)
      requires |table| == |ms| && forall q :: 0 <= q < |ms| ==> Agrees(table, ms, q)
      requires k == PerFile * j + i && i < PerFile
      requires OnTrack(table, busActive, ms, n, k, pipe0, pipe)
      modifies this, data, p1.raw, p2.raw
      ensures failure.Some? ==> Finished(table, busActive, ms, n, k, pipe0, pipe, failure)
      ensures failure.None? ==> OnTrack(table, busActive, ms, n, k + 1, pipe0, pipe)
      ensures pipesOpen == (old(pipesOpen) && failure.None?)
      ensures busActive == old(busActive) && pid == old(pid) && signals == old(signals) && files == old(files)
    {
      var a := Attempt(busActive, ms[k]);
      FramesOfSlots(table, ms, k, a.count, j, i);
      failure := Measure(data, p1, p2, ms[k], j, i);
      if failure.None? {
        var rest := Collect(busActive, ms, k + 1).written;
        FramesConcat(table, Slots(k, 2), rest);
        ConcatAssoc(old(pipe), Frames(table, Slots(k, 2)), Frames(table, rest));
      }
    }

    /**
     * The inner loop for backup file j: measurements 100 * j onwards, until
     * 100 are taken, one fails, or they run out.  Returns the number of the
     * next measurement.
     */
    method FillFile(data: array<byte>, p1: Packets.Packet, p2: Packets.Packet, ms: seq<Measurement>,
                    ghost table: seq<Pair<seq<byte>>>, ghost n: nat, j: nat, ghost pipe0: seq<seq<byte>>)
        returns (k: nat, failure: Option<int>)
      requires data.Length == SampleSize && p1.Valid() && p2.Valid()
      requires data != p1.raw && data != p2.raw && p1.raw != p2.raw
      requires n <= PerFile * j <= |ms| && AllWellFormed(ms)
      requires |table| == |ms| && forall q :: 0 <= q < |ms| ==> Agrees(table, ms, q)
      requires OnTrack(table, busActive, ms, n, PerFile * j, pipe0, pipe)
      modifies this, data, p1.raw, p2.raw
      ensures PerFile * j <= k <= |ms| && k <= PerFile * (j + 1)
      ensures failure.Some? ==> k < PerFile * (j + 1)
      ensures failure.Some? || k < PerFile * (j + 1) ==> Finished(table, busActive, ms, n, k, pipe0, pipe, failure)
      ensures failure.None? ==> OnTrack(table, busActive, ms, n, k, pipe0, pipe)
      ensures pipesOpen == (old(pipesOpen) && failure.None?)
      ensures busActive == old(busActive) && pid == old(pid) && signals == old(signals) && files == old(files)
    {
      k := PerFile * j;
      failure := None;
      for i := 0 to PerFile
        invariant k == PerFile * j + i && k <= |ms|
        invariant OnTrack(table, busActive, ms, n, k, pipe0, pipe)
        invariant pipesOpen == old(pipesOpen) && failure.None?
        invariant busActive == old(busActive) && pid == old(pid) && signals == old(signals) && files == old(files)
        invariant p1.Valid() && p2.Valid()
      {
        if k == |ms| {
          AtEnd(table, busActive, ms, n, pipe0, pipe);
          return;
        }
        failure := MeasureNext(data, p1, p2, ms, table, n, k, j, i, pipe0);
        if failure.Some? {
          return;
        }
        k := k + 1;
      }
    }

    /** Open backup file j and fill it. */
    method NextFile(data: array<byte>, p1: Packets.Packet, p2: Packets.Packet,
                    filename: string, start: string, ms: seq<Measurement>, j: nat,
                    ghost table: seq<Pair<seq<byte>>>, ghost before: seq<string>, ghost pipe0: seq<seq<byte>>)
        returns (k: nat, failure: Option<int>)
      requires data.Length == SampleSize && p1.Valid() && p2.Valid()
      requires data != p1.raw && data != p2.raw && p1.raw != p2.raw
      requires PerFile * j <= |ms| && AllWellFormed(ms)
      requires |table| == |ms| && forall q :: 0 <= q < |ms| ==> Agrees(table, ms, q)
      requires OnTrack(table, busActive, ms, 0, PerFile * j, pipe0, pipe)
      requires files == before + Names(filename, start, j)
      modifies this, data, p1.raw, p2.raw
      ensures PerFile * j <= k <= |ms| && k <= PerFile * (j + 1)
      ensures files == before + Names(filename, start, j + 1)
      ensures failure.Some? || k < PerFile * (j + 1) ==>
        Finished(table, busActive, ms, 0, k, pipe0, pipe, failure) && k / PerFile == j
      ensures failure.None? ==> OnTrack(table, busActive, ms, 0, k, pipe0, pipe)
      ensures pipesOpen == (old(pipesOpen) && failure.None?)
      ensures busActive == old(busActive) && pid == old(pid) && signals == old(signals)
    {
      files := files + [BackupName(filename, start, j)];
      NamesSnoc(filename, start, j);
      ConcatAssoc(before, Names(filename, start, j), [BackupName(filename, start, j)]);
      k, failure := FillFile(data, p1, p2, ms, table, 0, j, pipe0);
      if failure.Some? || k < PerFile * (j + 1) {
        DivModUnique(k, PerFile, j, k - PerFile * j);
      }
    }

    /**
     * The child's loop: for each j open backup file j, then take 100
     * measurements.  Stops at the first failure with its exit code, or
     * when the measurements run out.
     */
    method CollectSamples(filename: string, start: string, ms: seq<Measurement>) returns (failure: Option<int>)
      requires AllWellFormed(ms)
      modifies this
      ensures pipe == old(pipe) + Frames(Table(ms), Collect(old(busActive), ms, 0).written)
      ensures failure == Collect(old(busActive), ms, 0).failure
      ensures files == old(files) + Names(filename, start, Collect(old(busActive), ms, 0).stop / PerFile + 1)
      ensures pipesOpen == (old(pipesOpen) && failure.None?)
      ensures busActive == old(busActive) && pid == old(pid) && signals == old(signals)
    {
      var data := new byte[SampleSize];
      var p1 := new Packets.Packet(Packets.Zeros(Packets.FrameSize));
      var p2 := new Packets.Packet(Packets.Zeros(Packets.FrameSize));
      TableAgrees(ms);
      failure := FileLoop(data, p1, p2, filename, start, ms, Table(ms));
    }

    /** The loop of collectSamples over the backup files, with its buffers. */
    method FileLoop(data: array<byte>, p1: Packets.Packet, p2: Packets.Packet,
                    filename: string, start: string, ms: seq<Measurement>, ghost table: seq<Pair<seq<byte>>>)
        returns (failure: Option<int>)
      requires data.Length == SampleSize && p1.Valid() && p2.Valid()
      requires data != p1.raw && data != p2.raw && p1.raw != p2.raw
      requires AllWellFormed(ms) && |table| == |ms| && forall q :: 0 <= q < |ms| ==> Agrees(table, ms, q)
      modifies this, data, p1.raw, p2.raw
      ensures pipe == old(pipe) + Frames(table, Collect(busActive, ms, 0).written)
      ensures failure == Collect(busActive, ms, 0).failure
      ensures files == old(files) + Names(filename, start, Collect(busActive, ms, 0).stop / PerFile + 1)
      ensures pipesOpen == (old(pipesOpen) && failure.None?)
      ensures busActive == old(busActive) && pid == old(pid) && signals == old(signals)
    {
      var k := 0;
      var j := 0;
      while true
        invariant 0 <= k <= |ms| && k == PerFile * j
        invariant OnTrack(table, busActive, ms, 0, k, old(pipe), pipe)
        invariant files == old(files) + Names(filename, start, j)
        invariant pipesOpen == old(pipesOpen)
        invariant busActive == old(busActive) && pid == old(pid) && signals == old(signals)
        invariant p1.Valid() && p2.Valid()
        decreases |ms| - k
      {
        var next;
        next, failure := NextFile(data, p1, p2, filename, start, ms, j, table, old(files), old(pipe));
        if failure.Some? || next < PerFile * (j + 1) {
          return;
        }
        k, j := next, j + 1;
      }
    }

    /**
     * startDataCollection: open the pipes and fork.  The parent records the
     * child's pid and returns; a failed fork exits with -3 after closing the
     * pipes; the child runs the measurement loop and exits with its code.
     */
    method StartDataCollection(forkResult: int, filename: string, start: string, ms: seq<Measurement>)
        returns (outcome: Started)
      requires AllWellFormed(ms)
      modifies this
      ensures pid == forkResult
      ensures forkResult > 0 ==> outcome == Parent && pipesOpen && pipe == old(pipe) && files == old(files)
      ensures forkResult < 0 ==> outcome == Exited(-3) && !pipesOpen && pipe == old(pipe) && files == old(files)
      ensures forkResult == 0 ==>
        var run := Collect(old(busActive), ms, 0);
        pipe == old(pipe) + Frames(Table(ms), run.written) && files == old(files) + Names(filename, start, run.stop / PerFile + 1)
        && outcome == (if run.failure.Some? then Exited(run.failure.value) else ChildHalted)
        && pipesOpen == run.failure.None?
      ensures busActive == old(busActive) && signals == old(signals)
    {
      pipesOpen := true;
      pid := forkResult;
      if forkResult == 0 {
        var failure := CollectSamples(filename, start, ms);
        outcome := if failure.Some? then Exited(failure.value) else ChildHalted;
      } else if forkResult > 0 {
        outcome := Parent;
      } else {
        pipesOpen := false;
        outcome := Exited(-3);
      }
    }

    /**
     * status: false when no child is recorded; otherwise true exactly when
     * waitpid(WNOHANG) reports it still running (0), false when it reaped it
     * or failed.
     */
    method Status(result: int) returns (alive: bool)
      ensures alive <==> pid != 0 && result == 0
    {
      if pid != 0 {
        if result == 0 {
          alive := true;
        } else if result == pid {
          alive := false;
        } else {
          alive := false;
        }
      } else {
        alive := false;
      }
    }

    /**
     * stopDataCollection: with a child recorded, escalate from SIGTERM to
     * SIGKILL, forget the pid and close the pipes; always 0.
     */
    method StopDataCollection(waits: seq<int>) returns (rc: int)
      modifies this
      ensures rc == 0 && pid == 0
      ensures old(pid) == 0 ==> pipesOpen == old(pipesOpen) && signals == old(signals)
      ensures old(pid) != 0 ==> !pipesOpen && signals == old(signals) + Escalation(old(pid), waits)
      ensures busActive == old(busActive) && pipe == old(pipe) && files == old(files)
    {
      if pid != 0 {
        var sent, died := Escalate(pid, waits);
        signals := signals + sent;
        pid := 0;
        pipesOpen := false;
      }
      rc := 0;
    }
  }
}
