/** Wire format v3: fragment geometry, the four packet types, their builders and parsers. */
module FramingV3 {
  import opened Words
  import Registers
  import Crc32

  const PACKET_MAX_LEN: nat := 127
  const V3_VERSION: nat := 3
  const V3_MAX_NIBBLE: nat := 15
  const V3_MAX_DATAGRAM: nat := 1280
  const V3_MAX_FRAGS: nat := 12
  const V3_DATA_HDR_LEN: nat := 12
  const V3_ACK_LEN: nat := 11
  const V3_CONTROL_LEN: nat := 6
  const V3_MGMT_HDR_LEN: nat := 2
  const V3_CRC_LEN: nat := 4
  const V3_DATA_FLAG_ROUND_END: nat := 1
  const V3_FRAGMENT_PAYLOAD_MAX: nat := 115
  const V3_MGMT_PAYLOAD_MAX: nat := 121

  datatype PacketType = DATA | ACK | CONTROL | MGMT

  datatype ControlSubtype = HEARTBEAT | HEARTBEAT_ACK | LINK_STATE | GRANT_RESERVED | PROFILE_SWITCH_RESERVED

  datatype FailureStatus =
    | NONE | RESET | RETRY_EXHAUSTED | SATURATION | MALFORMED_INPUT | CREDIT_WITHDRAWAL | ALLOCATION_FAILURE

  datatype ParseError =
    | TRUNCATED | VERSION_MISMATCH | UNKNOWN_TYPE | WRONG_TYPE | BAD_LENGTH | BAD_FRAGMENT | BAD_VALUE | BAD_CRC
    | OUTPUT_TOO_SMALL

  /** A radio packet: the fixed buffer and the length the radio reported, which may exceed it. */
  datatype RawPacket = RawPacket(data: Bytes, len: byte)
  type Packet = p: RawPacket | |p.data| == 127 witness RawPacket(Zeros(127), 0)

  datatype DataHeader = DataHeader(flags: byte, queueDepthHint: byte, datagramId: uint16, fragmentIndex: byte,
                                   fragmentCount: byte, datagramLength: uint16, payloadLen: byte)

  datatype AckFrame = AckFrame(datagramId: uint16, fragmentBitmap: Bitmap, receiverCredits: byte,
                               failure: FailureStatus)

  /** What a well-formed packet says. */
  datatype Frame =
    | DataFrame(header: DataHeader, payload: Bytes)
    | Ack(ack: AckFrame)
    | ControlFrame(subtype: ControlSubtype)
    | MgmtFrame(opaquePayload: Bytes)

  // ---- fragment geometry ----

  // 115 is V3_FRAGMENT_PAYLOAD_MAX, written out to keep the arithmetic linear.

  function FragmentOffset(index: nat): nat {
    115 * index
  }

  function ExpectedFragmentCount(length: uint16): byte {
    if length == 0 || length > V3_MAX_DATAGRAM then 0
    else (length + 115 - 1) / 115
  }

  function ExpectedFragmentPayloadLen(length: uint16, index: byte, count: byte): (n: byte)
    ensures n <= V3_FRAGMENT_PAYLOAD_MAX
  {
    if length == 0 || length > V3_MAX_DATAGRAM || count == 0 || count > V3_MAX_FRAGS || index >= count
       || count != ExpectedFragmentCount(length)
    then 0
    else if index < count - 1 then V3_FRAGMENT_PAYLOAD_MAX
    else length - FragmentOffset(index)
  }

  predicate ValidateDataHeader(h: DataHeader) {
    && h.flags <= V3_MAX_NIBBLE && h.queueDepthHint <= V3_MAX_NIBBLE
    && 0 < h.datagramLength <= V3_MAX_DATAGRAM
    && 0 < h.fragmentCount <= V3_MAX_FRAGS
    && h.fragmentCount == ExpectedFragmentCount(h.datagramLength)
    && h.fragmentIndex < h.fragmentCount
    && h.payloadLen == ExpectedFragmentPayloadLen(h.datagramLength, h.fragmentIndex, h.fragmentCount)
  }

  /** Every valid fragment carries between one byte and a full payload. */
  lemma PayloadLenBounds(h: DataHeader)
    requires ValidateDataHeader(h)
    ensures 1 <= h.payloadLen <= V3_FRAGMENT_PAYLOAD_MAX
  {}

  // ---- numbers of the enumerations ----

  function TypeCode(t: PacketType): byte {
    match t case DATA => 0 case ACK => 1 case CONTROL => 2 case MGMT => 3
  }

  function TypeOf(code: byte): Option<PacketType> {
    if code == 0 then Some(DATA) else if code == 1 then Some(ACK) else if code == 2 then Some(CONTROL)
    else if code == 3 then Some(MGMT) else None
  }

  function SubtypeCode(s: ControlSubtype): byte {
    match s
    case HEARTBEAT => 0x01
    case HEARTBEAT_ACK => 0x02
    case LINK_STATE => 0x03
    case GRANT_RESERVED => 0x10
    case PROFILE_SWITCH_RESERVED => 0x20
  }

  function SubtypeOf(code: byte): Option<ControlSubtype> {
    if code == 0x01 then Some(HEARTBEAT) else if code == 0x02 then Some(HEARTBEAT_ACK)
    else if code == 0x03 then Some(LINK_STATE) else if code == 0x10 then Some(GRANT_RESERVED)
    else if code == 0x20 then Some(PROFILE_SWITCH_RESERVED) else None
  }

  function FailureCode(f: FailureStatus): byte {
    match f
    case NONE => 0
    case RESET => 1
    case RETRY_EXHAUSTED => 2
    case SATURATION => 3
    case MALFORMED_INPUT => 4
    case CREDIT_WITHDRAWAL => 5
    case ALLOCATION_FAILURE => 6
  }

  function FailureOf(code: byte): Option<FailureStatus> {
    if code == 0 then Some(NONE) else if code == 1 then Some(RESET) else if code == 2 then Some(RETRY_EXHAUSTED)
    else if code == 3 then Some(SATURATION) else if code == 4 then Some(MALFORMED_INPUT)
    else if code == 5 then Some(CREDIT_WITHDRAWAL) else if code == 6 then Some(ALLOCATION_FAILURE) else None
  }

  function EncodeVersionType(t: PacketType): byte {
    Nibbles(V3_VERSION, TypeCode(t))
  }

  // ---- what each packet puts before its CRC field ----

  function DataPrefix(h: DataHeader): (b: Bytes)
    requires h.flags <= V3_MAX_NIBBLE && h.queueDepthHint <= V3_MAX_NIBBLE
    ensures |b| == 8
  {
    [EncodeVersionType(DATA), Nibbles(h.queueDepthHint, h.flags)] + WriteLe16(h.datagramId)
    + [h.fragmentIndex, h.fragmentCount] + WriteLe16(h.datagramLength)
  }

  function AckPrefix(a: AckFrame): (b: Bytes)
    ensures |b| == 7
  {
    [EncodeVersionType(ACK)] + WriteLe16(a.datagramId) + WriteLe16(BitsWord(a.fragmentBitmap))
    + [a.receiverCredits, FailureCode(a.failure)]
  }

  // ---- the CRC field ----

  /** The checksum of data[..len] with the four bytes at offset read as zero. */
  function CrcWithZeroedField(data: Bytes, len: nat, offset: nat): bv32
    requires offset + V3_CRC_LEN <= len <= |data|
  {
    Crc32.Checksum(data[..offset] + Zeros(4) + data[offset + 4..len])
  }

  method ComputeCrcWithZeroedField(data: Bytes, len: nat, offset: nat) returns (crc: bv32)
    requires offset + V3_CRC_LEN <= len <= |data|
    ensures crc == CrcWithZeroedField(data, len, offset)
  {
    hide Crc32.Update, Crc32.Fold;
    crc := Crc32.INITIAL;
    crc := Crc32.UpdateBytes(crc, data[..offset]);
    assert data[..offset] + Zeros(0) == data[..offset];
    for i := 0 to V3_CRC_LEN
      invariant crc == Crc32.Fold(Crc32.INITIAL, data[..offset] + Zeros(i))
    {
      assert data[..offset] + Zeros(i + 1) == (data[..offset] + Zeros(i)) + [0];
      Crc32.FoldAppend(Crc32.INITIAL, data[..offset] + Zeros(i), 0);
      crc := Crc32.UpdateByte(crc, 0);
    }
    Crc32.FoldConcat(Crc32.INITIAL, data[..offset] + Zeros(4), data[offset + 4..len]);
    crc := Crc32.UpdateBytes(crc, data[offset + 4..len]);
    crc := !crc;
  }

  function Seal(prefix: Bytes, rest: Bytes): (b: Bytes)
    ensures |b| == |prefix| + V3_CRC_LEN + |rest|
  {
    prefix + Registers.WriteLe32(Crc32.Checksum(prefix + Zeros(4) + rest)) + rest
  }

  predicate CrcMatches(data: Bytes, len: nat, offset: nat)
    requires offset + V3_CRC_LEN <= len <= |data|
  {
    Registers.ReadLe32(data[offset..offset + 4]) == CrcWithZeroedField(data, len, offset)
  }

  /** Whatever follows a sealed packet, its CRC field verifies. */
  lemma SealVerifies(prefix: Bytes, rest: Bytes, data: Bytes)
    requires Seal(prefix, rest) <= data
    ensures CrcMatches(data, |Seal(prefix, rest)|, |prefix|)
    ensures data[..|prefix|] == prefix
    ensures data[|prefix| + 4..|Seal(prefix, rest)|] == rest
  {
    hide Crc32.Checksum, Registers.WriteLe32, Registers.ReadLe32;
    var n, k := |Seal(prefix, rest)|, |prefix|;
    var crc := Crc32.Checksum(prefix + Zeros(4) + rest);
    assert data[..n] == prefix + Registers.WriteLe32(crc) + rest;
    assert data[..k] == data[..n][..k] == prefix;
    assert data[k + 4..n] == data[..n][k + 4..] == rest;
    assert data[k..k + 4] == data[..n][k..k + 4] == Registers.WriteLe32(crc);
    Registers.Le32RoundTrip(crc);
  }

  /** A verifying CRC field holds exactly the bytes the builder would have written. */
  lemma MatchIsSeal(data: Bytes, len: nat, offset: nat)
    requires offset + V3_CRC_LEN <= len <= |data|
    requires CrcMatches(data, len, offset)
    ensures Seal(data[..offset], data[offset + 4..len]) == data[..len]
  {
    hide Crc32.Checksum, Registers.WriteLe32, Registers.ReadLe32;
    Registers.Le32Canonical(data[offset..offset + 4]);
    assert data[..len] == data[..offset] + data[offset..offset + 4] + data[offset + 4..len];
  }

  /** Two packets of one length whose CRC fields hold the same four bytes cannot both verify when
      the covered bytes differ only inside a run of at most four. */
  lemma BurstNotAccepted(p: Bytes, q: Bytes, len: nat, offset: nat, before: Bytes, a: Bytes, b: Bytes, after: Bytes)
    requires offset + V3_CRC_LEN <= len <= |p| && len <= |q|
    requires p[offset..offset + 4] == q[offset..offset + 4]
    requires p[..offset] + Zeros(4) + p[offset + 4..len] == before + a + after
    requires q[..offset] + Zeros(4) + q[offset + 4..len] == before + b + after
    requires |a| == |b| <= 4 && a != b
    ensures !(CrcMatches(p, len, offset) && CrcMatches(q, len, offset))
  {
    hide Crc32.Checksum, Registers.ReadLe32;
    Crc32.BurstDetected(before, a, b, after);
  }

  // ---- encoding ----

  /** A frame some builder accepts. */
  predicate Buildable(f: Frame) {
    match f
    case DataFrame(h, payload) => ValidateDataHeader(h) && |payload| == h.payloadLen
    case Ack(_) => true
    case ControlFrame(_) => true
    case MgmtFrame(payload) => |payload| <= V3_MGMT_PAYLOAD_MAX
  }

  /** The bytes the CRC protects, CRC included, without the padding. */
  function Logical(f: Frame): (b: Bytes)
    requires Buildable(f)
    ensures |b| <= PACKET_MAX_LEN
  {
    match f
    case DataFrame(h, payload) => Seal(DataPrefix(h), payload)
    case Ack(a) => Seal(AckPrefix(a), [])
    case ControlFrame(s) => Seal([EncodeVersionType(CONTROL), SubtypeCode(s)], [])
    case MgmtFrame(payload) => Seal([EncodeVersionType(MGMT), |payload|] + payload, [])
  }

  /** Builders pad every packet with zeros to the full radio frame. */
  function Encode(f: Frame): (p: Packet)
    requires Buildable(f)
  {
    RawPacket(Logical(f) + Zeros(PACKET_MAX_LEN - |Logical(f)|), PACKET_MAX_LEN)
  }

  // ---- parsing ----

  function ParsePacketType(p: Packet): Result<PacketType, ParseError> {
    if p.len < 1 then Failure(TRUNCATED)
    else if p.data[0] / 16 != V3_VERSION then Failure(VERSION_MISMATCH)
    else match TypeOf(p.data[0] % 16)
      case None => Failure(UNKNOWN_TYPE)
      case Some(t) => Success(t)
  }

  function ValidateCommon(p: Packet, expected: PacketType): Option<ParseError> {
    match ParsePacketType(p)
    case Failure(e) => Some(e)
    case Success(t) => if t != expected then Some(WRONG_TYPE) else None
  }

  function ParseDataPacket(p: Packet): (r: Result<Frame, ParseError>)
    ensures r.Success? ==> r.value.DataFrame?
  {
    var common := ValidateCommon(p, DATA);
    if common.Some? then Failure(common.value)
    else if p.len < V3_DATA_HDR_LEN then Failure(TRUNCATED)
    else
      var id := ReadLe16(p.data[2], p.data[3]);
      var index, count := p.data[4], p.data[5];
      var length := ReadLe16(p.data[6], p.data[7]);
      if length == 0 || length > V3_MAX_DATAGRAM then Failure(BAD_LENGTH)
      else if count == 0 || count > V3_MAX_FRAGS || count != ExpectedFragmentCount(length) || index >= count
      then Failure(BAD_FRAGMENT)
      else
        var payloadLen := ExpectedFragmentPayloadLen(length, index, count);
        var expectedLen := V3_DATA_HDR_LEN + payloadLen;
        if p.len < expectedLen then Failure(TRUNCATED)
        else if !CrcMatches(p.data, expectedLen, 8) then Failure(BAD_CRC)
        else Success(DataFrame(DataHeader(p.data[1] % 16, p.data[1] / 16, id, index, count, length, payloadLen),
                               p.data[V3_DATA_HDR_LEN..expectedLen]))
  }

  function ParseAckPacket(p: Packet): (r: Result<Frame, ParseError>)
    ensures r.Success? ==> r.value.Ack?
  {
    var common := ValidateCommon(p, ACK);
    if common.Some? then Failure(common.value)
    else if p.len < V3_ACK_LEN then Failure(TRUNCATED)
    else match FailureOf(p.data[6])
      case None => Failure(BAD_VALUE)
      case Some(status) =>
        if !CrcMatches(p.data, V3_ACK_LEN, 7) then Failure(BAD_CRC)
        else Success(Ack(AckFrame(ReadLe16(p.data[1], p.data[2]), WordBits(ReadLe16(p.data[3], p.data[4])),
                                  p.data[5], status)))
  }

  function ParseControlPacket(p: Packet): Result<Frame, ParseError> {
    var common := ValidateCommon(p, CONTROL);
    if common.Some? then Failure(common.value)
    else if p.len < V3_CONTROL_LEN then Failure(TRUNCATED)
    else match SubtypeOf(p.data[1])
      case None => Failure(BAD_VALUE)
      case Some(s) => if !CrcMatches(p.data, V3_CONTROL_LEN, 2) then Failure(BAD_CRC) else Success(ControlFrame(s))
  }

  function ParseMgmtPacket(p: Packet, capacity: nat): Result<Frame, ParseError> {
    var common := ValidateCommon(p, MGMT);
    if common.Some? then Failure(common.value)
    else if p.len < V3_MGMT_HDR_LEN + V3_CRC_LEN then Failure(TRUNCATED)
    else
      var n := p.data[1];
      if n > V3_MGMT_PAYLOAD_MAX then Failure(BAD_LENGTH)
      else if p.len < V3_MGMT_HDR_LEN + n + V3_CRC_LEN then Failure(TRUNCATED)
      else if !CrcMatches(p.data, V3_MGMT_HDR_LEN + n + V3_CRC_LEN, V3_MGMT_HDR_LEN + n) then Failure(BAD_CRC)
      else if n > capacity then Failure(OUTPUT_TOO_SMALL)
      else Success(MgmtFrame(p.data[V3_MGMT_HDR_LEN..V3_MGMT_HDR_LEN + n]))
  }

  /** The parser the packet's own type octet selects. */
  function Decode(p: Packet): Result<Frame, ParseError> {
    match ParsePacketType(p)
    case Failure(e) => Failure(e)
    case Success(DATA) => ParseDataPacket(p)
    case Success(ACK) => ParseAckPacket(p)
    case Success(CONTROL) => ParseControlPacket(p)
    case Success(MGMT) => ParseMgmtPacket(p, V3_MGMT_PAYLOAD_MAX)
  }

  // ---- exactly what the parsers accept ----

  lemma PrefixIndex(b: Bytes, data: Bytes, n: nat)
    requires n <= |data| && b == data[..n]
    ensures forall i :: 0 <= i < n ==> data[i] == b[i]
  {}

  lemma PrefixFields(h: DataHeader, d: Bytes)
    requires h.flags <= V3_MAX_NIBBLE && h.queueDepthHint <= V3_MAX_NIBBLE
    requires 8 <= |d| && d[..8] == DataPrefix(h)
    ensures d[0] == EncodeVersionType(DATA)
    ensures d[1] % 16 == h.flags && d[1] / 16 == h.queueDepthHint
    ensures ReadLe16(d[2], d[3]) == h.datagramId
    ensures d[4] == h.fragmentIndex && d[5] == h.fragmentCount
    ensures ReadLe16(d[6], d[7]) == h.datagramLength
  {
    NibblesRoundTrip(h.queueDepthHint, h.flags);
    Le16RoundTrip(h.datagramId);
    Le16RoundTrip(h.datagramLength);
    hide Nibbles, ReadLe16;
    PrefixIndex(DataPrefix(h), d, 8);
  }

  lemma DataSealParses(p: Packet, f: Frame)
    requires f.DataFrame? && Buildable(f) && |Logical(f)| <= p.len && Logical(f) <= p.data
    ensures ParseDataPacket(p) == Success(f)
  {
    var n := V3_DATA_HDR_LEN + f.header.payloadLen;
    assert n <= p.len && CrcMatches(p.data, n, 8)
           && p.data[..8] == DataPrefix(f.header) && p.data[12..n] == f.payload by {
      hide Seal, CrcMatches, DataPrefix;
      SealVerifies(DataPrefix(f.header), f.payload, p.data);
    }
    hide Seal, CrcMatches, DataPrefix, Logical, ReadLe16, ExpectedFragmentCount, ExpectedFragmentPayloadLen;
    PrefixFields(f.header, p.data);
  }

  lemma FieldsPrefix(h: DataHeader, d: Bytes)
    requires 8 <= |d| && d[0] == EncodeVersionType(DATA)
    requires h.flags == d[1] % 16 && h.queueDepthHint == d[1] / 16
    requires h.datagramId == ReadLe16(d[2], d[3])
    requires h.fragmentIndex == d[4] && h.fragmentCount == d[5]
    requires h.datagramLength == ReadLe16(d[6], d[7])
    ensures h.flags <= V3_MAX_NIBBLE && h.queueDepthHint <= V3_MAX_NIBBLE && DataPrefix(h) == d[..8]
  {
    NibblesCanonical(d[1]);
    Le16Canonical(d[2], d[3]);
    Le16Canonical(d[6], d[7]);
    hide Nibbles, ReadLe16, WriteLe16;
  }

  lemma FirstOctet(p: Packet, t: PacketType)
    requires ParsePacketType(p) == Success(t)
    ensures p.data[0] == EncodeVersionType(t)
  {
    NibblesCanonical(p.data[0]);
  }

  lemma ParsedPrefix(p: Packet, f: Frame)
    requires ParseDataPacket(p) == Success(f)
    ensures f.DataFrame? && Buildable(f) && DataPrefix(f.header) == p.data[..8]
  {
    hide CrcMatches, ReadLe16, ExpectedFragmentCount, ExpectedFragmentPayloadLen;
    FirstOctet(p, DATA);
    hide EncodeVersionType, DataPrefix;
    FieldsPrefix(f.header, p.data);
  }

  lemma DataParsedIsSeal(p: Packet, f: Frame)
    requires ParseDataPacket(p) == Success(f)
    ensures f.DataFrame? && Buildable(f) && |Logical(f)| <= p.len && Logical(f) <= p.data
  {
    ParsedPrefix(p, f);
    var n := V3_DATA_HDR_LEN + f.header.payloadLen;
    assert n <= p.len && CrcMatches(p.data, n, 8) && f.payload == p.data[12..n] by {
      hide CrcMatches, ExpectedFragmentPayloadLen, ExpectedFragmentCount;
    }
    hide Seal, CrcMatches, DataPrefix, ParseDataPacket, Buildable;
    MatchIsSeal(p.data, n, 8);
  }

  lemma DataExactly(p: Packet, f: Frame)
    ensures ParseDataPacket(p) == Success(f) <==>
            f.DataFrame? && Buildable(f) && |Logical(f)| <= p.len && Logical(f) <= p.data
  {
    hide Logical, ParseDataPacket, Buildable;
    if ParseDataPacket(p) == Success(f) {
      DataParsedIsSeal(p, f);
    } else if f.DataFrame? && Buildable(f) && |Logical(f)| <= p.len && Logical(f) <= p.data {
      DataSealParses(p, f);
    }
  }

  lemma AckPrefixFields(a: AckFrame, d: Bytes)
    requires 7 <= |d| && d[..7] == AckPrefix(a)
    ensures d[0] == EncodeVersionType(ACK)
    ensures ReadLe16(d[1], d[2]) == a.datagramId
    ensures WordBits(ReadLe16(d[3], d[4])) == a.fragmentBitmap
    ensures d[5] == a.receiverCredits && d[6] == FailureCode(a.failure)
  {
    Le16RoundTrip(a.datagramId);
    Le16RoundTrip(BitsWord(a.fragmentBitmap));
    BitmapRoundTrip(a.fragmentBitmap);
    hide ReadLe16, WordBits, BitsWord;
    PrefixIndex(AckPrefix(a), d, 7);
  }

  lemma AckSealParses(p: Packet, f: Frame)
    requires f.Ack? && |Logical(f)| <= p.len && Logical(f) <= p.data
    ensures ParseAckPacket(p) == Success(f)
  {
    assert V3_ACK_LEN <= p.len && CrcMatches(p.data, V3_ACK_LEN, 7) && p.data[..7] == AckPrefix(f.ack) by {
      hide Seal, CrcMatches, AckPrefix;
      SealVerifies(AckPrefix(f.ack), [], p.data);
    }
    hide Seal, CrcMatches, AckPrefix, Logical, ReadLe16, WordBits;
    AckPrefixFields(f.ack, p.data);
  }

  lemma FieldsAckPrefix(a: AckFrame, d: Bytes)
    requires 7 <= |d| && d[0] == EncodeVersionType(ACK)
    requires a.datagramId == ReadLe16(d[1], d[2])
    requires a.fragmentBitmap == WordBits(ReadLe16(d[3], d[4]))
    requires a.receiverCredits == d[5] && FailureCode(a.failure) == d[6]
    ensures AckPrefix(a) == d[..7]
  {
    Le16Canonical(d[1], d[2]);
    Le16Canonical(d[3], d[4]);
    WordRoundTrip(ReadLe16(d[3], d[4]));
    hide ReadLe16, WriteLe16, WordBits, BitsWord;
  }

  lemma ParsedAckPrefix(p: Packet, f: Frame)
    requires ParseAckPacket(p) == Success(f)
    ensures f.Ack? && AckPrefix(f.ack) == p.data[..7] && CrcMatches(p.data, V3_ACK_LEN, 7) && V3_ACK_LEN <= p.len
  {
    hide CrcMatches, ReadLe16, WordBits;
    FirstOctet(p, ACK);
    hide EncodeVersionType, AckPrefix;
    FieldsAckPrefix(f.ack, p.data);
  }

  lemma AckParsedIsSeal(p: Packet, f: Frame)
    requires ParseAckPacket(p) == Success(f)
    ensures f.Ack? && |Logical(f)| <= p.len && Logical(f) <= p.data
  {
    hide Seal, CrcMatches, AckPrefix, ParseAckPacket;
    ParsedAckPrefix(p, f);
    MatchIsSeal(p.data, V3_ACK_LEN, 7);
    assert p.data[11..11] == [];
  }

  lemma AckExactly(p: Packet, f: Frame)
    ensures ParseAckPacket(p) == Success(f) <==> f.Ack? && |Logical(f)| <= p.len && Logical(f) <= p.data
  {
    hide Logical, ParseAckPacket;
    if ParseAckPacket(p) == Success(f) {
      AckParsedIsSeal(p, f);
    } else if f.Ack? && |Logical(f)| <= p.len && Logical(f) <= p.data {
      AckSealParses(p, f);
    }
  }

  lemma ControlExactly(p: Packet, f: Frame)
    ensures ParseControlPacket(p) == Success(f) <==>
            f.ControlFrame? && |Logical(f)| <= p.len && Logical(f) <= p.data
  {
    hide Seal, CrcMatches, Crc32.Checksum;
    if f.ControlFrame? && |Logical(f)| <= p.len && Logical(f) <= p.data {
      var prefix := [EncodeVersionType(CONTROL), SubtypeCode(f.subtype)];
      SealVerifies(prefix, [], p.data);
      PrefixIndex(prefix, p.data, 2);
    }
    if ParseControlPacket(p) == Success(f) {
      MatchIsSeal(p.data, V3_CONTROL_LEN, 2);
      assert [EncodeVersionType(CONTROL), SubtypeCode(f.subtype)] == p.data[..2];
      assert p.data[6..6] == [];
    }
  }

  lemma MgmtExactly(p: Packet, f: Frame)
    ensures ParseMgmtPacket(p, V3_MGMT_PAYLOAD_MAX) == Success(f) <==>
            f.MgmtFrame? && Buildable(f) && |Logical(f)| <= p.len && Logical(f) <= p.data
  {
    hide Seal, CrcMatches, Crc32.Checksum;
    if f.MgmtFrame? && Buildable(f) && |Logical(f)| <= p.len && Logical(f) <= p.data {
      var prefix := [EncodeVersionType(MGMT), |f.opaquePayload|] + f.opaquePayload;
      SealVerifies(prefix, [], p.data);
      PrefixIndex(prefix, p.data, |prefix|);
      assert p.data[2..2 + |f.opaquePayload|] == f.opaquePayload;
    }
    if ParseMgmtPacket(p, V3_MGMT_PAYLOAD_MAX) == Success(f) {
      var n := p.data[1];
      MatchIsSeal(p.data, V3_MGMT_HDR_LEN + n + V3_CRC_LEN, V3_MGMT_HDR_LEN + n);
      assert [EncodeVersionType(MGMT), n] + f.opaquePayload == p.data[..2 + n];
      assert p.data[2 + n + 4..2 + n + 4] == [];
    }
  }

  /** A packet decodes to a frame exactly when it starts with the bytes the frame's builder seals
      and the radio reported at least that many bytes: the padding never matters, no other bytes
      are ever accepted, and no packet decodes to two frames. */
  lemma DecodeExactly(p: Packet, f: Frame)
    ensures Decode(p) == Success(f) <==> Buildable(f) && |Logical(f)| <= p.len && Logical(f) <= p.data
  {
    hide Seal, CrcMatches, Crc32.Checksum, BitsWord, WordBits;
    DataExactly(p, f);
    AckExactly(p, f);
    ControlExactly(p, f);
    MgmtExactly(p, f);
    if Buildable(f) && |Logical(f)| <= p.len && Logical(f) <= p.data {
      FirstByte(f);
      assert p.data[0] == Logical(f)[0];
    }
  }

  function FrameType(f: Frame): PacketType {
    match f case DataFrame(_, _) => DATA case Ack(_) => ACK case ControlFrame(_) => CONTROL case MgmtFrame(_) => MGMT
  }

  lemma FirstByte(f: Frame)
    requires Buildable(f)
    ensures |Logical(f)| > 0 && Logical(f)[0] == EncodeVersionType(FrameType(f))
  {
    hide Crc32.Checksum, Registers.WriteLe32;
  }

  /** Parse after build is the identity for every frame a builder accepts. */
  lemma CodecRoundTrip(f: Frame)
    requires Buildable(f)
    ensures Decode(Encode(f)) == Success(f)
  {
    hide Logical, Decode;
    DecodeExactly(Encode(f), f);
  }

  /** A number on the wire, low octet first. */
  predicate Number(low: int, high: int, v: int) {
    v == low + 0x100 * high
  }

  /** Where each field of a packet is: version 3 and the type in the first octet, numbers low octet first, the
      CRC of everything else over a zeroed field, and zeros to the end of the radio frame. */
  predicate LaidOut(d: Bytes, f: Frame)
    requires |d| == PACKET_MAX_LEN && Buildable(f)
  {
    match f
    case DataFrame(h, payload) =>
      && d[0] == 0x30 && d[1] == 0x10 * h.queueDepthHint + h.flags && Number(d[2], d[3], h.datagramId)
      && d[4] == h.fragmentIndex && d[5] == h.fragmentCount && Number(d[6], d[7], h.datagramLength)
      && d[12..12 + |payload|] == payload && Sealed(d, 8, 12 + |payload|)
    case Ack(a) =>
      && d[0] == 0x31 && Number(d[1], d[2], a.datagramId) && Number(d[3], d[4], BitsWord(a.fragmentBitmap))
      && d[5] == a.receiverCredits && d[6] == FailureCode(a.failure) && Sealed(d, 7, 11)
    case ControlFrame(subtype) => d[0] == 0x32 && d[1] == SubtypeCode(subtype) && Sealed(d, 2, 6)
    case MgmtFrame(payload) =>
      && d[0] == 0x33 && d[1] == |payload| && d[2..2 + |payload|] == payload && Sealed(d, 2 + |payload|, 6 + |payload|)
  }

  lemma WireLayout(f: Frame)
    requires Buildable(f)
    ensures LaidOut(Encode(f).data, f)
  {
    var d := Encode(f).data;
    hide Encode, Logical, BitsWord, Sealed, DataPrefix, AckPrefix, Number, ValidateDataHeader, EncodeVersionType;
    hide FailureCode, SubtypeCode;
    LogicalIsSealed(f);
    match f
    case DataFrame(h, _) =>
      NibbleBounds(h);
      DataPrefixOctets(h, d);
    case Ack(a) => AckPrefixOctets(a, d);
    case ControlFrame(subtype) => ControlPrefixOctets(subtype, d);
    case MgmtFrame(payload) => MgmtPrefixOctets(payload, d);
  }

  lemma NibbleBounds(h: DataHeader)
    requires ValidateDataHeader(h)
    ensures h.flags <= V3_MAX_NIBBLE && h.queueDepthHint <= V3_MAX_NIBBLE
  {}

  lemma ControlPrefixOctets(subtype: ControlSubtype, d: Bytes)
    requires 2 <= |d| && d[..2] == [EncodeVersionType(CONTROL), SubtypeCode(subtype)]
    ensures d[0] == 0x32 && d[1] == SubtypeCode(subtype)
  {
    PrefixIndex([EncodeVersionType(CONTROL), SubtypeCode(subtype)], d, 2);
  }

  lemma MgmtPrefixOctets(payload: Bytes, d: Bytes)
    requires |payload| < 0x100 && 2 + |payload| <= |d| && d[..2 + |payload|] == [EncodeVersionType(MGMT),
             |payload|] + payload
    ensures d[0] == 0x33 && d[1] == |payload| && d[2..2 + |payload|] == payload
  {
    PrefixIndex([EncodeVersionType(MGMT), |payload|] + payload, d, 2 + |payload|);
  }

  lemma DataPrefixOctets(h: DataHeader, d: Bytes)
    requires h.flags <= V3_MAX_NIBBLE && h.queueDepthHint <= V3_MAX_NIBBLE && 8 <= |d| && d[..8] == DataPrefix(h)
    ensures d[0] == 0x30 && d[1] == 0x10 * h.queueDepthHint + h.flags && Number(d[2], d[3], h.datagramId)
    ensures d[4] == h.fragmentIndex && d[5] == h.fragmentCount && Number(d[6], d[7], h.datagramLength)
  {
    PrefixIndex(DataPrefix(h), d, 8);
  }

  lemma AckPrefixOctets(a: AckFrame, d: Bytes)
    requires 7 <= |d| && d[..7] == AckPrefix(a)
    ensures d[0] == 0x31 && Number(d[1], d[2], a.datagramId) && Number(d[3], d[4], BitsWord(a.fragmentBitmap))
    ensures d[5] == a.receiverCredits && d[6] == FailureCode(a.failure)
  {
    hide BitsWord;
    PrefixIndex(AckPrefix(a), d, 7);
  }

  /** The CRC field at `offset` covers the n octets of the packet, and only zeros follow. */
  predicate Sealed(d: Bytes, offset: nat, n: nat) {
    && offset + 4 <= n <= |d|
    && d[offset..offset + 4] == Registers.WriteLe32(Crc32.Checksum(d[..offset] + [0, 0, 0, 0] + d[offset + 4..n]))
    && forall k :: n <= k < |d| ==> d[k] == 0
  }

  lemma LogicalIsSealed(f: Frame)
    requires Buildable(f)
    ensures var d := Encode(f).data;
            match f
            case DataFrame(h, payload) => d[..8] == DataPrefix(h) && d[12..12 + |payload|] == payload
                                          && Sealed(d, 8, 12 + |payload|)
            case Ack(a) => d[..7] == AckPrefix(a) && Sealed(d, 7, 11)
            case ControlFrame(subtype) => d[..2] == [EncodeVersionType(CONTROL), SubtypeCode(subtype)] && Sealed(d,
                2, 6)
            case MgmtFrame(payload) => d[..2 + |payload|] == [EncodeVersionType(MGMT), |payload|] + payload
                                       && Sealed(d, 2 + |payload|, 6 + |payload|)
  {
    hide Crc32.Checksum, Registers.WriteLe32, DataPrefix, AckPrefix, EncodeVersionType, Seal, Sealed;
    var d := Encode(f).data;
    match f
    case DataFrame(h, payload) => SealIsSealed(DataPrefix(h), payload, d);
    case Ack(a) => SealIsSealed(AckPrefix(a), [], d);
    case ControlFrame(subtype) => SealIsSealed([EncodeVersionType(CONTROL), SubtypeCode(subtype)], [], d);
    case MgmtFrame(payload) => SealIsSealed([EncodeVersionType(MGMT), |payload|] + payload, [], d);
  }

  lemma SealIsSealed(prefix: Bytes, rest: Bytes, d: Bytes)
    requires |Seal(prefix, rest)| <= |d| && d[..|Seal(prefix, rest)|] == Seal(prefix, rest)
    requires forall k :: |Seal(prefix, rest)| <= k < |d| ==> d[k] == 0
    ensures Sealed(d, |prefix|, |prefix| + 4 + |rest|)
    ensures d[..|prefix|] == prefix && d[|prefix| + 4..|prefix| + 4 + |rest|] == rest
  {
    hide Crc32.Checksum, Registers.WriteLe32;
    var n, k := |Seal(prefix, rest)|, |prefix|;
    var field := Registers.WriteLe32(Crc32.Checksum(prefix + Zeros(4) + rest));
    assert Zeros(4) == [0, 0, 0, 0];
    assert d[..n] == prefix + field + rest;
    assert d[..k] == d[..n][..k] == prefix;
    assert d[k..k + 4] == d[..n][k..k + 4] == field;
    assert d[k + 4..n] == d[..n][k + 4..] == rest;
  }

  /** q is p with the bytes a at position `at` replaced by the bytes b. */
  predicate Spliced(p: Bytes, q: Bytes, at: nat, a: Bytes, b: Bytes) {
    && |p| == |q| && |a| == |b| && at + |a| <= |p|
    && q[..at] == p[..at]
    && p[at..at + |a|] == a && q[at..at + |a|] == b
    && q[at + |a|..] == p[at + |a|..]
  }

  lemma SliceInThree(p: Bytes, lo: nat, at: nat, to: nat, hi: nat)
    requires lo <= at <= to <= hi <= |p|
    ensures p[lo..hi] == p[lo..at] + p[at..to] + p[to..hi]
  {}

  lemma SliceOfTake(p: Bytes, lo: nat, hi: nat, at: nat)
    requires lo <= hi <= at <= |p|
    ensures p[..at][lo..hi] == p[lo..hi]
  {
    forall i | 0 <= i < hi - lo ensures p[..at][lo..hi][i] == p[lo..hi][i] {}
  }

  lemma SliceOfDrop(p: Bytes, to: nat, lo: nat, hi: nat)
    requires to <= lo <= hi <= |p|
    ensures p[to..][lo - to..hi - to] == p[lo..hi]
  {
    forall i | 0 <= i < hi - lo ensures p[to..][lo - to..hi - to][i] == p[lo..hi][i] {}
  }

  lemma SplicedSlice(p: Bytes, q: Bytes, at: nat, a: Bytes, b: Bytes, lo: nat, hi: nat)
    requires Spliced(p, q, at, a, b) && lo <= hi <= |p|
    ensures hi <= at || at + |a| <= lo ==> q[lo..hi] == p[lo..hi]
    ensures lo <= at && at + |a| <= hi ==>
              && p[lo..hi] == p[lo..at] + a + p[at + |a|..hi]
              && q[lo..hi] == p[lo..at] + b + p[at + |a|..hi]
  {
    hide Spliced;
    if hi <= at || at + |a| <= lo {
      SplicedAside(p, q, at, a, b, lo, hi);
    }
    if lo <= at && at + |a| <= hi {
      SplicedWithin(p, q, at, a, b, lo, hi);
    }
  }

  lemma SplicedAside(p: Bytes, q: Bytes, at: nat, a: Bytes, b: Bytes, lo: nat, hi: nat)
    requires Spliced(p, q, at, a, b) && lo <= hi <= |p| && (hi <= at || at + |a| <= lo)
    ensures |q| == |p| && q[lo..hi] == p[lo..hi]
  {
    var to := at + |a|;
    if hi <= at {
      SliceOfTake(p, lo, hi, at);
      SliceOfTake(q, lo, hi, at);
    } else {
      SliceOfDrop(p, to, lo, hi);
      SliceOfDrop(q, to, lo, hi);
    }
  }

  lemma SplicedWithin(p: Bytes, q: Bytes, at: nat, a: Bytes, b: Bytes, lo: nat, hi: nat)
    requires Spliced(p, q, at, a, b) && lo <= at && at + |a| <= hi <= |p|
    ensures |q| == |p|
    ensures p[lo..hi] == p[lo..at] + a + p[at + |a|..hi] && q[lo..hi] == p[lo..at] + b + p[at + |a|..hi]
  {
    var to := at + |a|;
    SliceInThree(p, lo, at, to, hi);
    SliceInThree(q, lo, at, to, hi);
    SplicedAside(p, q, at, a, b, lo, at);
    SplicedAside(p, q, at, a, b, to, hi);
  }

  lemma Regroup(x: Bytes, y: Bytes, z: Bytes, u: Bytes, v: Bytes)
    ensures x + y + (z + u + v) == (x + y + z) + u + v
    ensures (z + u + v) + x + y == z + u + (v + x + y)
  {}

  /** A burst on either side of the CRC field breaks it. */
  lemma BurstBreaksCrc(p: Bytes, q: Bytes, len: nat, offset: nat, at: nat, a: Bytes, b: Bytes)
    requires offset + V3_CRC_LEN <= len <= |p| && Spliced(p, q, at, a, b)
    requires |a| <= 4 && a != b
    requires at + |a| <= offset || (offset + V3_CRC_LEN <= at && at + |a| <= len)
    requires CrcMatches(p, len, offset)
    ensures |q| == |p| && !CrcMatches(q, len, offset)
  {
    hide CrcMatches;
    assert |q| == |p|;
    SplicedSlice(p, q, at, a, b, 0, offset);
    SplicedSlice(p, q, at, a, b, offset, offset + 4);
    SplicedSlice(p, q, at, a, b, offset + 4, len);
    hide Spliced;
    assert p[..offset] == p[0..offset] && q[..offset] == q[0..offset];
    if at + |a| <= offset {
      var before, after := p[0..at], p[at + |a|..offset];
      var tail := p[offset + 4..len];
      Regroup(Zeros(4), tail, before, a, after);
      Regroup(Zeros(4), tail, before, b, after);
      BurstNotAccepted(p, q, len, offset, before, a, b, after + Zeros(4) + tail);
    } else {
      var before, after := p[offset + 4..at], p[at + |a|..len];
      Regroup(p[..offset], Zeros(4), before, a, after);
      Regroup(p[..offset], Zeros(4), before, b, after);
      BurstNotAccepted(p, q, len, offset, p[..offset] + Zeros(4) + before, a, b, after);
    }
  }

  /** Changing at most four consecutive payload bytes of an accepted DATA packet, and nothing
      else, always turns the verdict into BAD_CRC. */
  lemma PayloadBurstIsBadCrc(p: Packet, q: Packet, f: Frame, at: nat, a: Bytes, b: Bytes)
    requires ParseDataPacket(p) == Success(f)
    requires |a| <= 4 && a != b
    requires V3_DATA_HDR_LEN <= at && at + |a| <= V3_DATA_HDR_LEN + f.header.payloadLen
    requires q.len == p.len && Spliced(p.data, q.data, at, a, b)
    ensures ParseDataPacket(q) == Failure(BAD_CRC)
  {
    hide ParseDataPacket, CrcMatches;
    PayloadLenOfParsed(p, f);
    SplicedSlice(p.data, q.data, at, a, b, 0, 8);
    hide Spliced;
    BurstBreaksCrc(p.data, q.data, V3_DATA_HDR_LEN + f.header.payloadLen, 8, at, a, b);
    PrefixIndex(p.data[0..8], p.data, 8);
    PrefixIndex(q.data[0..8], q.data, 8);
    SameLengthsBadCrc(p, q, f);
  }

  /** The same holds of a change to the hint, the flags and the datagram id. */
  lemma HeaderBurstIsBadCrc(p: Packet, q: Packet, f: Frame, at: nat, a: Bytes, b: Bytes)
    requires ParseDataPacket(p) == Success(f)
    requires |a| <= 4 && a != b
    requires 1 <= at && at + |a| <= 4
    requires q.len == p.len && Spliced(p.data, q.data, at, a, b)
    ensures ParseDataPacket(q) == Failure(BAD_CRC)
  {
    hide ParseDataPacket, CrcMatches;
    PayloadLenOfParsed(p, f);
    BurstBreaksCrc(p.data, q.data, V3_DATA_HDR_LEN + f.header.payloadLen, 8, at, a, b);
    OutsideSplice(p.data, q.data, at, a, b);
    hide Spliced;
    SameLengthsBadCrc(p, q, f);
  }

  lemma OutsideSplice(p: Bytes, q: Bytes, at: nat, a: Bytes, b: Bytes)
    requires Spliced(p, q, at, a, b)
    ensures forall i :: 0 <= i < |p| && !(at <= i < at + |a|) ==> p[i] == q[i]
  {
    forall i | 0 <= i < |p| && !(at <= i < at + |a|) ensures p[i] == q[i] {
      if i < at {
        assert p[i] == p[..at][i] && q[i] == q[..at][i];
      } else {
        assert p[i] == p[at + |a|..][i - at - |a|] && q[i] == q[at + |a|..][i - at - |a|];
      }
    }
  }

  /** A change within four consecutive bytes anywhere under the CRC of an accepted DATA packet is accepted, if
      at all, only as a packet with another payload length, whose CRC covers other bytes. */
  lemma DataBurstChangesLength(p: Packet, q: Packet, f: Frame, at: nat, a: Bytes, b: Bytes)
    requires ParseDataPacket(p) == Success(f)
    requires |a| <= 4 && a != b && Spliced(p.data, q.data, at, a, b)
    requires at + |a| <= 8 || (V3_DATA_HDR_LEN <= at && at + |a| <= V3_DATA_HDR_LEN + f.header.payloadLen)
    ensures ParseDataPacket(q).Success? ==> ParseDataPacket(q).value.header.payloadLen != f.header.payloadLen
  {
    hide ParseDataPacket, CrcMatches, Spliced;
    PayloadLenOfParsed(p, f);
    BurstBreaksCrc(p.data, q.data, V3_DATA_HDR_LEN + f.header.payloadLen, 8, at, a, b);
    if ParseDataPacket(q).Success? {
      PayloadLenOfParsed(q, ParseDataPacket(q).value);
    }
  }

  lemma PayloadLenOfParsed(p: Packet, f: Frame)
    requires ParseDataPacket(p) == Success(f)
    ensures f.DataFrame? && f.header.payloadLen <= V3_FRAGMENT_PAYLOAD_MAX
    ensures CrcMatches(p.data, V3_DATA_HDR_LEN + f.header.payloadLen, 8)
  {
    hide CrcMatches;
  }

  /** The type, the fragment's place and the datagram's length decide which bytes the CRC covers. */
  lemma SameLengthsBadCrc(p: Packet, q: Packet, f: Frame)
    requires ParseDataPacket(p) == Success(f) && q.len == p.len
    requires forall i :: 0 <= i < 8 && !(1 <= i < 4) ==> q.data[i] == p.data[i]
    requires !CrcMatches(q.data, V3_DATA_HDR_LEN + f.header.payloadLen, 8)
    ensures ParseDataPacket(q) == Failure(BAD_CRC)
  {
    hide CrcMatches, ExpectedFragmentPayloadLen, ExpectedFragmentCount;
  }

  /** Changing at most four consecutive bytes before the CRC field of an accepted ACK packet means
      it is not accepted as an ACK any more. */
  lemma AckBurstRejected(p: Packet, q: Packet, at: nat, a: Bytes, b: Bytes)
    requires ParseAckPacket(p).Success?
    requires |a| <= 4 && a != b
    requires at + |a| <= 7
    requires Spliced(p.data, q.data, at, a, b)
    ensures ParseAckPacket(q).Failure?
  {
    hide CrcMatches, Spliced;
    BurstBreaksCrc(p.data, q.data, V3_ACK_LEN, 7, at, a, b);
  }

  // ---- the builders, writing into a packet buffer ----

  class PacketBuffer {
    const data: array<byte>
    var len: byte

    ghost predicate Valid() {
      data.Length == PACKET_MAX_LEN
    }

    ghost function Contents(): (p: Packet)
      requires Valid()
      reads this, data
    {
      RawPacket(data[..], len)
    }

    constructor ()
      ensures Valid() && fresh(data)
    {
      data := new byte[PACKET_MAX_LEN](_ => 0);
      len := 0;
    }

    /** Fills in the CRC field of the first n bytes and pads to the full radio frame. */
    method SealAndPad(n: nat, offset: nat)
      requires Valid() && offset + V3_CRC_LEN <= n <= PACKET_MAX_LEN
      modifies this, data
      ensures len == PACKET_MAX_LEN
      ensures data[..] == Seal(old(data[..offset]), old(data[offset + 4..n])) + Zeros(PACKET_MAX_LEN - n)
    {
      hide Crc32.Checksum, Registers.WriteLe32;
      ghost var prefix, rest := data[..offset], data[offset + 4..n];
      var crc := ComputeCrcWithZeroedField(data[..], n, offset);
      assert data[..][..offset] == prefix && data[..][offset + 4..n] == rest;
      var field := Registers.WriteLe32(crc);
      data[offset], data[offset + 1], data[offset + 2], data[offset + 3] := field[0], field[1], field[2], field[3];
      forall i | n <= i < PACKET_MAX_LEN {
        data[i] := 0;
      }
      len := PACKET_MAX_LEN;
      assert data[..] == prefix + field + rest + Zeros(PACKET_MAX_LEN - n);
    }

    /** An absent payload stands for the null pointer. */
    method BuildData(h: DataHeader, payload: Option<Bytes>) returns (error: Option<ParseError>)
      requires Valid()
      requires payload.Some? ==> |payload.value| == h.payloadLen
      modifies this, data
      ensures error == if !ValidateDataHeader(h) then Some(BAD_FRAGMENT)
                       else if payload.None? then Some(BAD_VALUE) else None
      ensures error.None? ==> Contents() == Encode(DataFrame(h, payload.value))
      ensures error.Some? ==> Contents() == old(Contents())
    {
      hide Seal;
      if !ValidateDataHeader(h) {
        return Some(BAD_FRAGMENT);
      }
      PayloadLenBounds(h);
      if h.payloadLen > 0 && payload.None? {
        return Some(BAD_VALUE);
      }
      hide ValidateDataHeader;
      WriteDataHeader(h);
      ghost var prefix := data[..8];
      forall i | 0 <= i < |payload.value| {
        data[V3_DATA_HDR_LEN + i] := payload.value[i];
      }
      assert data[..8] == prefix;
      assert data[12..12 + h.payloadLen] == payload.value;
      SealAndPad(V3_DATA_HDR_LEN + h.payloadLen, 8);
      return None;
    }

    method WriteDataHeader(h: DataHeader)
      requires Valid() && h.flags <= V3_MAX_NIBBLE && h.queueDepthHint <= V3_MAX_NIBBLE
      modifies data
      ensures data[..8] == DataPrefix(h)
    {
      data[0] := EncodeVersionType(DATA);
      data[1] := Nibbles(h.queueDepthHint, h.flags);
      data[2], data[3] := h.datagramId % 0x100, h.datagramId / 0x100;
      data[4], data[5] := h.fragmentIndex, h.fragmentCount;
      data[6], data[7] := h.datagramLength % 0x100, h.datagramLength / 0x100;
      data[8], data[9], data[10], data[11] := 0, 0, 0, 0;
      assert data[..8] == DataPrefix(h);
    }

    method BuildAck(a: AckFrame)
      requires Valid()
      modifies this, data
      ensures Contents() == Encode(Ack(a))
    {
      hide Seal, BitsWord;
      var bitmap := BitsWord(a.fragmentBitmap);
      data[0] := EncodeVersionType(ACK);
      data[1], data[2] := a.datagramId % 0x100, a.datagramId / 0x100;
      data[3], data[4] := bitmap % 0x100, bitmap / 0x100;
      data[5], data[6] := a.receiverCredits, FailureCode(a.failure);
      data[7], data[8], data[9], data[10] := 0, 0, 0, 0;
      assert data[..7] == AckPrefix(a);
      assert data[11..11] == [];
      SealAndPad(V3_ACK_LEN, 7);
    }

    method BuildControl(s: ControlSubtype)
      requires Valid()
      modifies this, data
      ensures Contents() == Encode(ControlFrame(s))
    {
      hide Seal;
      data[0], data[1] := EncodeVersionType(CONTROL), SubtypeCode(s);
      data[2], data[3], data[4], data[5] := 0, 0, 0, 0;
      assert data[..2] == [EncodeVersionType(CONTROL), SubtypeCode(s)];
      assert data[6..6] == [];
      SealAndPad(V3_CONTROL_LEN, 2);
    }

    method BuildMgmt(payload: Bytes) returns (error: Option<ParseError>)
      requires Valid() && |payload| < 0x100
      modifies this, data
      ensures error == if |payload| > V3_MGMT_PAYLOAD_MAX then Some(BAD_LENGTH) else None
      ensures error.None? ==> Contents() == Encode(MgmtFrame(payload))
      ensures error.Some? ==> Contents() == old(Contents())
    {
      hide Seal;
      if |payload| > V3_MGMT_PAYLOAD_MAX {
        return Some(BAD_LENGTH);
      }
      data[0], data[1] := EncodeVersionType(MGMT), |payload|;
      forall i | 0 <= i < |payload| {
        data[V3_MGMT_HDR_LEN + i] := payload[i];
      }
      var offset := V3_MGMT_HDR_LEN + |payload|;
      data[offset], data[offset + 1], data[offset + 2], data[offset + 3] := 0, 0, 0, 0;
      assert data[..offset] == [EncodeVersionType(MGMT), |payload|] + payload;
      assert data[offset + 4..offset + 4] == [];
      SealAndPad(offset + V3_CRC_LEN, offset);
      return None;
    }
  }
}
