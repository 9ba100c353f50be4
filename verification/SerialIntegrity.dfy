/** The envelope the host and the firmware put around a datagram on the serial line:
    magic, length and CRC-32 of the payload, all big-endian, then the payload. */
module SerialIntegrity {
  import opened Words
  import Registers
  import Crc32

  const SERIAL_INTEGRITY_MAGIC: uint16 := 0x8AC1
  const SERIAL_INTEGRITY_HDR_LEN: nat := 8

  datatype Header = Header(magic: uint16, payloadLen: uint16, payloadCrc: bv32)

  // ---- big-endian fields ----

  function WriteBe16(v: uint16): (b: Bytes)
    ensures |b| == 2
  {
    [v / 0x100, v % 0x100]
  }

  function ReadBe16(hi: byte, lo: byte): uint16 {
    0x100 * hi + lo
  }

  function Reversed4(b: Bytes): (r: Bytes)
    requires |b| == 4
    ensures |r| == 4
  {
    [b[3], b[2], b[1], b[0]]
  }

  function WriteBe32(v: bv32): (b: Bytes)
    ensures |b| == 4
  {
    Reversed4(Registers.WriteLe32(v))
  }

  function ReadBe32(b: Bytes): bv32
    requires |b| == 4
  {
    Registers.ReadLe32(Reversed4(b))
  }

  lemma Be16RoundTrip(v: uint16)
    ensures ReadBe16(WriteBe16(v)[0], WriteBe16(v)[1]) == v
  {}

  lemma Be16Canonical(hi: byte, lo: byte)
    ensures WriteBe16(ReadBe16(hi, lo)) == [hi, lo]
  {}

  lemma Be32RoundTrip(v: bv32)
    ensures ReadBe32(WriteBe32(v)) == v
  {
    hide Registers.WriteLe32, Registers.ReadLe32;
    Registers.Le32RoundTrip(v);
    var w := Registers.WriteLe32(v);
    assert Reversed4(Reversed4(w)) == w;
  }

  lemma Be32Canonical(b: Bytes)
    requires |b| == 4
    ensures WriteBe32(ReadBe32(b)) == b
  {
    hide Registers.WriteLe32, Registers.ReadLe32;
    Registers.Le32Canonical(Reversed4(b));
    assert Reversed4(Reversed4(b)) == b;
  }

  // ---- the envelope ----

  function BuildHeader(payloadLen: uint16, crc: bv32): (b: Bytes)
    ensures |b| == SERIAL_INTEGRITY_HDR_LEN
  {
    WriteBe16(SERIAL_INTEGRITY_MAGIC) + WriteBe16(payloadLen) + WriteBe32(crc)
  }

  function ParseHeader(data: Bytes): Option<Header> {
    if |data| < SERIAL_INTEGRITY_HDR_LEN then None
    else Some(Header(ReadBe16(data[0], data[1]), ReadBe16(data[2], data[3]), ReadBe32(data[4..8])))
  }

  /** `payload.len() as u16` keeps the low 16 bits of the length. */
  function Wrap(payload: Bytes): Bytes {
    BuildHeader(|payload| % 0x1_0000, Crc32.Checksum(payload)) + payload
  }

  /** What the firmware and the host accept, and the payload they take from it. */
  function Unwrap(frame: Bytes): Option<Bytes> {
    match ParseHeader(frame)
    case None => None
    case Some(h) =>
      var payload := frame[SERIAL_INTEGRITY_HDR_LEN..];
      if h.magic == SERIAL_INTEGRITY_MAGIC && h.payloadLen == |payload| && Crc32.Checksum(payload) == h.payloadCrc
      then Some(payload) else None
  }

  /** The envelope's fields on the wire: 0x8AC1, then length and CRC, each high octet first. */
  lemma HeaderLayout(payloadLen: uint16, crc: bv32)
    ensures var b := BuildHeader(payloadLen, crc);
            && b[0] == 0x8A && b[1] == 0xC1 && 0x100 * (b[2] as int) + b[3] as int == payloadLen
            && [b[7], b[6], b[5], b[4]] == Registers.WriteLe32(crc)
  {
    hide Registers.WriteLe32;
    assert WriteBe16(SERIAL_INTEGRITY_MAGIC) == [0x8A, 0xC1];
  }

  lemma HeaderRoundTrip(payloadLen: uint16, crc: bv32, rest: Bytes)
    ensures ParseHeader(BuildHeader(payloadLen, crc) + rest) == Some(Header(SERIAL_INTEGRITY_MAGIC, payloadLen, crc))
  {
    Be16RoundTrip(SERIAL_INTEGRITY_MAGIC);
    Be16RoundTrip(payloadLen);
    Be32RoundTrip(crc);
    hide ReadBe16, WriteBe16, ReadBe32, WriteBe32;
    var f := BuildHeader(payloadLen, crc) + rest;
    assert f[4..8] == WriteBe32(crc);
  }

  lemma HeaderCanonical(frame: Bytes)
    requires |frame| >= SERIAL_INTEGRITY_HDR_LEN && ReadBe16(frame[0], frame[1]) == SERIAL_INTEGRITY_MAGIC
    ensures BuildHeader(ReadBe16(frame[2], frame[3]), ReadBe32(frame[4..8])) == frame[..8]
  {
    Be16Canonical(frame[0], frame[1]);
    Be16Canonical(frame[2], frame[3]);
    Be32Canonical(frame[4..8]);
    hide ReadBe16, WriteBe16, ReadBe32, WriteBe32;
    assert frame[..8] == [frame[0], frame[1]] + [frame[2], frame[3]] + frame[4..8];
  }

  /** A frame is accepted, and yields p, exactly when it is what wrapping p gives and the length of p
      fits its field: the envelope round-trips, and nothing else is ever taken for one. */
  lemma UnwrapExactly(frame: Bytes, p: Bytes)
    ensures Unwrap(frame) == Some(p) <==> frame == Wrap(p) && |p| < 0x1_0000
  {
    hide Crc32.Checksum, ReadBe16, ReadBe32, BuildHeader;
    if frame == Wrap(p) && |p| < 0x1_0000 {
      HeaderRoundTrip(|p|, Crc32.Checksum(p), p);
      assert frame[8..] == p;
    }
    if Unwrap(frame) == Some(p) {
      HeaderCanonical(frame);
      assert frame == frame[..8] + frame[8..];
    }
  }

  /** Changing at most four consecutive payload bytes of a wrapped frame always has it dropped. */
  lemma BurstDropped(before: Bytes, a: Bytes, b: Bytes, after: Bytes)
    requires |before + a + after| < 0x1_0000 && |a| == |b| <= 4 && a != b
    ensures Unwrap(BuildHeader(|before + a + after|, Crc32.Checksum(before + a + after)) + (before + b + after)) == None
  {
    hide Crc32.Checksum, BuildHeader;
    var p, q := before + a + after, before + b + after;
    Crc32.BurstDetected(before, a, b, after);
    HeaderRoundTrip(|p|, Crc32.Checksum(p), q);
    var frame := BuildHeader(|p|, Crc32.Checksum(p)) + q;
    assert frame[8..] == q;
  }

  // ---- in place ----

  method BuildInto(out: array<byte>, payloadLen: uint16, crc: bv32)
    requires out.Length >= SERIAL_INTEGRITY_HDR_LEN
    modifies out
    ensures out[..8] == BuildHeader(payloadLen, crc)
    ensures out[8..] == old(out[8..])
  {
    hide Registers.WriteLe32;
    var field := WriteBe32(crc);
    out[0], out[1] := SERIAL_INTEGRITY_MAGIC / 0x100, SERIAL_INTEGRITY_MAGIC % 0x100;
    out[2], out[3] := payloadLen / 0x100, payloadLen % 0x100;
    out[4], out[5], out[6], out[7] := field[0], field[1], field[2], field[3];
    hide WriteBe32;
    assert out[..8] == WriteBe16(SERIAL_INTEGRITY_MAGIC) + WriteBe16(payloadLen) + field;
  }

  /** `wrap_payload` of the host: the vector is cleared and extended. */
  method WrapPayload(payload: Bytes) returns (out: Bytes)
    ensures out == Wrap(payload)
  {
    hide Crc32.Checksum, WriteBe32;
    var crc := Crc32.ComputeCrc32(payload);
    out := WriteBe16(SERIAL_INTEGRITY_MAGIC);
    out := out + WriteBe16(|payload| % 0x1_0000);
    out := out + WriteBe32(crc);
    out := out + payload;
  }
}
