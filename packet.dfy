/**
 * The telemetry packet codec: a packed 24-byte frame
 *
 *   offset  0      sync (0)
 *   offset  1      COBS overhead byte
 *   offset  2      ID
 *   offset  3..4   index (host order: little-endian)
 *   offset  5..20  data (16 bytes)
 *   offset 21..22  checksum (host order: little-endian)
 *   offset 23      end of packet (0)
 *
 * `pack` fills the fields, zero-pads the data to 16 bytes, computes the
 * CRC16 over the 19 bytes from ID through data, and then COBS-stuffs the 23
 * bytes from the overhead byte through the end-of-packet byte in place.
 * `unpack` undoes the stuffing in place, checks the CRC and copies out.
 */
module Packets {
  import opened Bytes
  import Crc16
  import Cobs

  /** Generator polynomial for the packet checksum. */
  const CrcPoly: uint16 := 0x724E

  const IdMsg1: byte := 0x90     // 0b10010000, message from Pi 1
  const IdMsg2: byte := 0xA0     // 0b10100000, message from Pi 2
  const IdStatus1: byte := 0x50  // 0b01010000, status from Pi 1
  const IdStatus2: byte := 0x60  // 0b01100000, status from Pi 2
  const IdData1: byte := 0x10    // 0b00010000, acc/gyr from Pi 1
  const IdData2: byte := 0x11    // 0b00010001, mag/time from Pi 1
  const IdData3: byte := 0x20    // 0b00100000, acc/gyr from Pi 2
  const IdData4: byte := 0x22    // 0b00100010, mag/time from Pi 2

  const FrameSize := 24
  const DataSize := 16
  /** Offset of the ID field, where the checksummed range begins. */
  const IdAt := 2
  /** Offset of the data field. */
  const DataAt := 5
  /** Offset of the checksum field. */
  const ChecksumAt := 21
  /** Length of the checksummed range: ID, index and data. */
  const CrcLength := 19
  /** Offset of the overhead byte, where the stuffed span begins. */
  const OhbAt := 1
  /** Length of the stuffed span: overhead byte through end of packet. */
  const CobsLength := 23

  /**
   * lengthByID as written: how many data bytes a packet with this ID
   * carries; 0 marks an invalid ID.  Status, message and command IDs (top
   * two bits not both zero) carry 16; for measurement IDs the low six bits
   * select the length.  The fourth case label is written in hexadecimal,
   * 0x00100001, a value no 6-bit mask can produce, so that case never
   * matches.
   */
  function LengthByIdAsWritten(id: byte): (n: nat)
    ensures n == 0 || n == 10 || n == 12 || n == 16
  {
    if (id as bv8) & 0xC0 != 0 then 16
    else
      match ((id as bv8) & 0x3F) as int
      case 0x10 => 12
      case 0x20 => 12
      case 0x11 => 10
      case 0x00100001 => 12
      case _ => 0
  }

  /**
   * lengthByID with the fourth case as its comment describes it: Pi 2's
   * mag/time packets (ID_DATA4) carry 12 bytes.
   */
  function LengthById(id: byte): (n: nat)
    ensures n == 0 || n == 10 || n == 12 || n == 16
  {
    if (id as bv8) & 0xC0 != 0 then 16
    else
      match ((id as bv8) & 0x3F) as int
      case 0x10 => 12
      case 0x20 => 12
      case 0x11 => 10
      case 0x22 => 12
      case _ => 0
  }

  /** The length table written out: which ids are valid and what they carry. */
  lemma LengthByIdTable(id: byte)
    ensures id >= 0x40 ==> LengthById(id) == DataSize
    ensures id < 0x40 ==> LengthById(id) == (if id == 0x10 || id == 0x20 || id == 0x22 then 12 else if id == 0x11 then 10 else 0)
  {
  }

  /**
   * The dead hexadecimal case label rejects Pi 2's mag/time id, the one
   * the case was written for, and 0b00100001, the value its digits spell
   * in binary; on every id but ID_DATA4 the two tables agree.
   */
  lemma DeadCaseLabel(id: byte)
    ensures LengthByIdAsWritten(IdData4) == 0 && LengthById(IdData4) == 12
    ensures LengthByIdAsWritten(0x21) == 0
    ensures id != IdData4 ==> LengthByIdAsWritten(id) == LengthById(id)
  {
  }

  /**
   * The lengths of the ids the flight software sends, in the corrected
   * table and in the table as written, which differ only on ID_DATA4.
   */
  lemma DataLengths()
    ensures LengthById(IdData1) == 12 && LengthById(IdData2) == 10
    ensures LengthById(IdData3) == 12 && LengthById(IdData4) == 12
    ensures LengthById(IdMsg1) == 16 && LengthById(IdMsg2) == 16
    ensures LengthById(IdStatus1) == 16 && LengthById(IdStatus2) == 16
    ensures LengthByIdAsWritten(IdData1) == 12 && LengthByIdAsWritten(IdData2) == 10
    ensures LengthByIdAsWritten(IdData3) == 12 && LengthByIdAsWritten(IdData4) == 0
    ensures LengthByIdAsWritten(IdMsg1) == 16 && LengthByIdAsWritten(IdMsg2) == 16
    ensures LengthByIdAsWritten(IdStatus1) == 16 && LengthByIdAsWritten(IdStatus2) == 16
  {
  }

  /** Zero bytes. */
  function Zeros(n: nat): (z: seq<byte>)
    ensures |z| == n && forall i :: 0 <= i < n ==> z[i] == 0
  {
    seq(n, _ => 0)
  }

  /** The 16 data bytes pack stores: the first `n` caller bytes, then zeros. */
  function Padded(payload: seq<byte>, n: nat): (d: seq<byte>)
    requires n <= DataSize && n <= |payload|
    ensures |d| == DataSize
  {
    payload[..n] + Zeros(DataSize - n)
  }

  /** The 19 checksummed bytes: ID, index, data. */
  function CrcRange(id: byte, index: uint16, data: seq<byte>): (r: seq<byte>)
    requires |data| == DataSize
    ensures |r| == CrcLength
  {
    [id] + LittleEndian16(index) + data
  }

  /**
   * The frame pack produces for a valid id: sync 0, then the stuffed span
   * of ID, index, padded data and checksum, ending in the 0 end marker.
   */
  function Frame(id: byte, index: uint16, payload: seq<byte>): (f: seq<byte>)
    requires LengthById(id) != 0 && LengthById(id) <= |payload|
    ensures |f| == FrameSize
  {
    var body := CrcRange(id, index, Padded(payload, LengthById(id)));
    var crc := Crc16.Crc(body, CrcPoly);
    [0] + Cobs.EncodeSpan([0] + body + LittleEndian16(crc) + [0])
  }

  /** The fields unpack hands back. */
  datatype Fields = Fields(id: byte, index: uint16, data: seq<byte>)

  /** unpack's outcomes: 0, -1 (COBS decode failure), -2 (CRC mismatch). */
  datatype Unpacked = Unpacked(fields: Fields) | CobsFailure | CrcMismatch
  {
    function Code(): int
    {
      match this
      case Unpacked(_) => 0
      case CobsFailure => -1
      case CrcMismatch => -2
    }
  }

  /** The frame after cobsDecode in place has succeeded with these data bytes. */
  function Destuffed(frame: seq<byte>, inner: seq<byte>): (g: seq<byte>)
    requires |frame| == FrameSize && |inner| == CobsLength - 2
    ensures |g| == FrameSize
  {
    frame[..OhbAt + 1] + inner + frame[OhbAt + CobsLength - 1..]
  }

  /** What unpack makes of a received frame, whatever its bytes. */
  function Unpack(frame: seq<byte>): (r: Unpacked)
    requires |frame| == FrameSize
    ensures r.CobsFailure? <==> Cobs.DecodeSpan(frame[OhbAt..OhbAt + CobsLength]).None?
    ensures r.Unpacked? ==> |r.fields.data| == DataSize && r.fields.id == Destuffed(frame, Cobs.DecodeSpan(frame[OhbAt..OhbAt + CobsLength]).value)[IdAt]
  {
    match Cobs.DecodeSpan(frame[OhbAt..OhbAt + CobsLength])
    case None => CobsFailure
    case Some(inner) =>
      var g := Destuffed(frame, inner);
      if Crc16.Crc(g[IdAt..IdAt + CrcLength], CrcPoly) != FromLittleEndian16(g[ChecksumAt], g[ChecksumAt + 1]) then CrcMismatch
      else Unpacked(Fields(g[IdAt], FromLittleEndian16(g[3], g[4]), g[DataAt..DataAt + DataSize]))
  }

  /**
   * Layout of a packed frame: sync and end marker are 0, no byte between
   * them is 0, and destuffing the span gives back ID, index, the padded
   * data and the checksum of those 19 bytes, in that order.
   */
  lemma FrameLayout(id: byte, index: uint16, payload: seq<byte>)
    requires LengthById(id) != 0 && LengthById(id) <= |payload|
    ensures Frame(id, index, payload)[0] == 0 && Frame(id, index, payload)[FrameSize - 1] == 0
    ensures forall i :: 1 <= i < FrameSize - 1 ==> Frame(id, index, payload)[i] != 0
    ensures Cobs.DecodeSpan(Frame(id, index, payload)[OhbAt..]) ==
      var body := CrcRange(id, index, Padded(payload, LengthById(id)));
      Some(body + LittleEndian16(Crc16.Crc(body, CrcPoly)))
  {
    var body := CrcRange(id, index, Padded(payload, LengthById(id)));
    var span := [0] + body + LittleEndian16(Crc16.Crc(body, CrcPoly)) + [0];
    FrameSpan(id, index, payload);
    Cobs.EncodeNoZero(span);
    Cobs.DecodeEncode(span);
    assert span[1..|span| - 1] == body + LittleEndian16(Crc16.Crc(body, CrcPoly));
  }

  /** From the overhead byte on, a packed frame is the encoding of the unstuffed span. */
  lemma FrameSpan(id: byte, index: uint16, payload: seq<byte>)
    requires LengthById(id) != 0 && LengthById(id) <= |payload|
    ensures var body := CrcRange(id, index, Padded(payload, LengthById(id)));
      Frame(id, index, payload)[0] == 0 &&
      Frame(id, index, payload)[OhbAt..] == Cobs.EncodeSpan([0] + body + LittleEndian16(Crc16.Crc(body, CrcPoly)) + [0])
  {
  }

  /**
   * Round trip: unpacking what pack produced succeeds and gives back the id,
   * the index and the caller's data zero-padded to 16 bytes.
   */
  lemma UnpackFrame(id: byte, index: uint16, payload: seq<byte>)
    requires LengthById(id) != 0 && LengthById(id) <= |payload|
    ensures Unpack(Frame(id, index, payload)) == Unpacked(Fields(id, index, Padded(payload, LengthById(id))))
  {
    var f := Frame(id, index, payload);
    var data := Padded(payload, LengthById(id));
    var body := CrcRange(id, index, data);
    var crc := Crc16.Crc(body, CrcPoly);
    var inner := body + LittleEndian16(crc);
    FrameLayout(id, index, payload);
    assert f[OhbAt..OhbAt + CobsLength] == f[OhbAt..];
    UnpackAccepts(f, inner, id, index, data, crc);
  }

  /** Unpack of a frame whose span destuffs to a consistent ID, index, data and checksum. */
  lemma UnpackAccepts(f: seq<byte>, inner: seq<byte>, id: byte, index: uint16, data: seq<byte>, crc: uint16)
    requires |f| == FrameSize && |data| == DataSize
    requires Cobs.DecodeSpan(f[OhbAt..OhbAt + CobsLength]) == Some(inner)
    requires inner == CrcRange(id, index, data) + LittleEndian16(crc)
    requires crc == Crc16.Crc(CrcRange(id, index, data), CrcPoly)
    ensures Unpack(f) == Unpacked(Fields(id, index, data))
  {
    var g := Destuffed(f, inner);
    assert g[IdAt..IdAt + CrcLength] == CrcRange(id, index, data);
    assert g[ChecksumAt] == LittleEndian16(crc)[0] && g[ChecksumAt + 1] == LittleEndian16(crc)[1];
    assert g[IdAt] == id;
    assert g[3] == LittleEndian16(index)[0] && g[4] == LittleEndian16(index)[1];
    assert g[DataAt..DataAt + DataSize] == data;
  }

  /**
   * The packed frame depends on the caller's bytes only through the first
   * LengthById(id) of them: what lies beyond never reaches the wire.
   */
  lemma FrameIgnoresExcess(id: byte, index: uint16, payload: seq<byte>, other: seq<byte>)
    requires LengthById(id) != 0 && LengthById(id) <= |payload| && LengthById(id) <= |other|
    requires payload[..LengthById(id)] == other[..LengthById(id)]
    ensures Frame(id, index, payload) == Frame(id, index, other)
  {
    assert Padded(payload, LengthById(id)) == Padded(other, LengthById(id));
  }

  /** The in-memory packet: the packed struct is exactly its 24 bytes. */
  class Packet {
    var raw: array<byte>

    ghost predicate Valid()
      reads this
    {
      raw.Length == FrameSize
    }

    /** A packet whose memory holds `bytes` (C leaves a fresh one uninitialised). */
    constructor (bytes: seq<byte>)
      requires |bytes| == FrameSize
      ensures Valid() && fresh(raw) && raw[..] == bytes
    {
      raw := new byte[FrameSize](i requires 0 <= i < FrameSize => bytes[i]);
    }

    function Sync(): byte
      requires Valid()
      reads this, raw
    {
      raw[0]
    }

    function Id(): byte
      requires Valid()
      reads this, raw
    {
      raw[IdAt]
    }

    function Index(): uint16
      requires Valid()
      reads this, raw
    {
      FromLittleEndian16(raw[3], raw[4])
    }

    function Data(): seq<byte>
      requires Valid()
      reads this, raw
    {
      raw[DataAt..DataAt + DataSize]
    }

    function Checksum(): uint16
      requires Valid()
      reads this, raw
    {
      FromLittleEndian16(raw[ChecksumAt], raw[ChecksumAt + 1])
    }

    function Eop(): byte
      requires Valid()
      reads this, raw
    {
      raw[FrameSize - 1]
    }
  }

  /**
   * pack, over lengthByID as written: -1 for an id that table rejects
   * (ID_DATA4 among them), leaving the packet untouched; otherwise 0, with
   * the packet holding the frame for (id, index, payload), which starts
   * with the sync byte and ends with the end marker.  For every id it
   * accepts, the corrected table gives the same length.
   */
  method Pack(p: Packet, id: byte, index: uint16, payload: seq<byte>) returns (rc: int)
    requires p.Valid()
    requires LengthByIdAsWritten(id) <= |payload|
    modifies p.raw
    ensures rc == (if LengthByIdAsWritten(id) == 0 then -1 else 0)
    ensures id == IdData4 ==> rc == -1
    ensures rc == -1 ==> p.raw[..] == old(p.raw[..])
    ensures rc == 0 ==> LengthById(id) == LengthByIdAsWritten(id) && p.raw[..] == Frame(id, index, payload)
    ensures rc == 0 ==> p.Sync() == 0 && p.Eop() == 0
  {
    var n := LengthByIdAsWritten(id);
    DeadCaseLabel(id);
    if n == 0 {
      return -1;
    }
    ghost var body := CrcRange(id, index, Padded(payload, n));
    var crc := WriteBody(p, id, index, payload);
    StuffBody(p, body, crc);
    rc := 0;
  }

  /** pack's cobsEncode step: stuffs the 21 bytes after the sync byte, between the overhead and end slots. */
  method StuffBody(p: Packet, ghost body: seq<byte>, crc: uint16)
    requires p.Valid() && |body| == CrcLength
    requires p.raw[0] == 0 && p.raw[IdAt..ChecksumAt + 2] == body + LittleEndian16(crc)
    modifies p.raw
    ensures p.raw[..] == [0] + Cobs.EncodeSpan([0] + body + LittleEndian16(crc) + [0])
  {
    ghost var before := p.raw[..];
    Cobs.EncodeInPlace(p.raw, OhbAt, CobsLength);
    ghost var span := before[OhbAt..OhbAt + CobsLength];
    ghost var want := [0] + body + LittleEndian16(crc) + [0];
    assert span[1..|span| - 1] == before[IdAt..ChecksumAt + 2];
    assert want[1..|want| - 1] == body + LittleEndian16(crc);
    assert Cobs.EncodeSpan(span) == Cobs.EncodeSpan(want);
  }

  /** The steps of pack before stuffing: sync, id, index, padded payload, then the CRC over id to data. */
  method WriteBody(p: Packet, id: byte, index: uint16, payload: seq<byte>) returns (crc: uint16)
    requires p.Valid()
    requires LengthById(id) != 0 && LengthById(id) <= |payload|
    modifies p.raw
    ensures crc == Crc16.Crc(CrcRange(id, index, Padded(payload, LengthById(id))), CrcPoly)
    ensures p.raw[0] == 0
    ensures p.raw[IdAt..ChecksumAt + 2] == CrcRange(id, index, Padded(payload, LengthById(id))) + LittleEndian16(crc)
  {
    var n := LengthById(id);
    WriteHeader(p, id, index);
    WriteData(p, payload, n);
    ghost var body := p.raw[..ChecksumAt];
    SliceSplit(p.raw[..], IdAt, DataAt, ChecksumAt);
    assert p.raw[IdAt..ChecksumAt] == CrcRange(id, index, Padded(payload, n));
    crc := Crc16.Crc(p.raw[IdAt..ChecksumAt], CrcPoly);
    CopyInto(p.raw, ChecksumAt, LittleEndian16(crc));
    assert p.raw[IdAt..ChecksumAt + 2] == body[IdAt..] + LittleEndian16(crc);
  }

  /** The sync byte, the ID and the little-endian index. */
  method WriteHeader(p: Packet, id: byte, index: uint16)
    requires p.Valid()
    modifies p.raw
    ensures p.raw[0] == 0 && p.raw[IdAt..DataAt] == [id] + LittleEndian16(index)
  {
    p.raw[0] := 0;
    p.raw[IdAt] := id;
    CopyInto(p.raw, 3, LittleEndian16(index));
  }

  /** The first `n` caller bytes, then zeros up to the 16-byte data field; the header stays. */
  method WriteData(p: Packet, payload: seq<byte>, n: nat)
    requires p.Valid() && n <= DataSize && n <= |payload|
    modifies p.raw
    ensures p.raw[..DataAt] == old(p.raw[..DataAt])
    ensures p.raw[DataAt..ChecksumAt] == Padded(payload, n)
  {
    CopyInto(p.raw, DataAt, payload[..n]);
    ghost var mid := p.raw[..];
    CopyInto(p.raw, DataAt + n, Zeros(DataSize - n));
    assert p.raw[DataAt..DataAt + n] == mid[DataAt..DataAt + n];
    SliceSplit(p.raw[..], DataAt, DataAt + n, ChecksumAt);
  }

  /**
   * unpack: destuffs `p` in place and checks its CRC.  The return code and,
   * on success, the id, index and 16 data bytes are those Unpack gives for
   * the received frame; on failure the caller's id, index and buffer keep
   * their values.
   */
  method UnpackPacket(p: Packet, id0: byte, index0: uint16, out: array<byte>)
      returns (rc: int, id: byte, index: uint16)
    requires p.Valid() && out.Length >= DataSize && out != p.raw
    modifies p.raw, out
    ensures rc == Unpack(old(p.raw[..])).Code()
    ensures rc == 0 ==> Unpack(old(p.raw[..])).fields == Fields(id, index, out[..DataSize])
    ensures rc == 0 ==> out[DataSize..] == old(out[DataSize..])
    ensures rc == 0 ==> id == p.Id() && index == p.Index() && out[..DataSize] == p.Data()
    ensures rc == 0 ==> p.Checksum() == Crc16.Crc(p.raw[IdAt..IdAt + CrcLength], CrcPoly)
    ensures rc != 0 ==> id == id0 && index == index0 && out[..] == old(out[..])
    ensures rc == -1 ==> p.raw[..] == old(p.raw[..])
    ensures rc != -1 ==> Cobs.DecodeSpan(old(p.raw[OhbAt..OhbAt + CobsLength])).Some?
    ensures rc != -1 ==> p.raw[..] == Destuffed(old(p.raw[..]), Cobs.DecodeSpan(old(p.raw[OhbAt..OhbAt + CobsLength])).value)
  {
    id, index := id0, index0;
    ghost var frame := p.raw[..];
    assert frame[OhbAt..OhbAt + CobsLength] == p.raw[OhbAt..OhbAt + CobsLength];
    var ok := Cobs.DecodeInPlace(p.raw, OhbAt, CobsLength);
    if !ok {
      return -1, id, index;
    }
    ghost var inner := Cobs.DecodeSpan(frame[OhbAt..OhbAt + CobsLength]).value;
    ghost var g := Destuffed(frame, inner);
    assert p.raw[..] == g;
    var computed := Crc16.Crc(p.raw[IdAt..IdAt + CrcLength], CrcPoly);
    var stored := p.Checksum();
    assert computed == Crc16.Crc(g[IdAt..IdAt + CrcLength], CrcPoly);
    assert stored == FromLittleEndian16(g[ChecksumAt], g[ChecksumAt + 1]);
    if computed != stored {
      assert Unpack(frame) == CrcMismatch;
      return -2, id, index;
    }
    id := p.Id();
    index := p.Index();
    CopyInto(out, 0, p.Data());
    assert Unpack(frame) == Unpacked(Fields(g[IdAt], FromLittleEndian16(g[3], g[4]), g[DataAt..DataAt + DataSize]));
    rc := 0;
  }
}
