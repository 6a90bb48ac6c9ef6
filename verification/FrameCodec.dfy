/** Wire format of the ack-based video transports: data, ack and hello frames. */
module FrameCodec {
  import opened Bytes

  const FRAME_MAGIC: U32 := 0x4f4c5643
  const FRAME_VERSION: Byte := 5
  const TYPE_DATA: Byte := 1
  const TYPE_ACK: Byte := 2
  const TYPE_HELLO: Byte := 3
  const ROLE_ANY: Byte := 0
  const ROLE_SERVER: Byte := 1
  const ROLE_CLIENT: Byte := 2

  const ROLE_OFF := 6
  const BINDING_OFF := 7
  const SEQ_OFF := 11
  const CRC_OFF := 15
  const HELLO_LEN := SEQ_OFF
  const ACK_FRAG_OFF := 19
  const ACK_LEN := 21
  const TOTAL_LEN_OFF := 19
  const FRAG_IDX_OFF := 23
  const FRAG_TOT_OFF := 25
  const FRAG_CRC_OFF := 27
  const DATA_HDR_LEN := 31

  datatype Frame = Frame(
    typ: Byte, role: Byte, binding: U32, seqNo: U32, crc: U32, totalLen: U32,
    fragIdx: U16, fragTotal: U16, fragCrc: U32, payload: seq<Byte>)
  {
    predicate AcceptedBy(remoteRole: Byte, bound: U32) {
      (role == ROLE_ANY || role == remoteRole) && (binding == 0 || binding == bound)
    }
  }

  datatype FrameError =
    | FrameTooShort | UnexpectedMagic | UnexpectedVersion
    | AckTooShort | DataTooShort | HelloTooShort | UnexpectedFrameType

  datatype Result = Ok(frame: Frame) | Err(error: FrameError)

  // ------------------------------------------------------------ byte layouts

  function Header(typ: Byte, role: Byte, binding: U32): (h: seq<Byte>)
    ensures |h| == HELLO_LEN
  {
    Be32(FRAME_MAGIC) + [FRAME_VERSION, typ, role] + Be32(binding)
  }

  function AckBytes(role: Byte, binding: U32, seqNo: U32, crc: U32, fragIdx: U16): (b: seq<Byte>)
    ensures |b| == ACK_LEN
  {
    Header(TYPE_ACK, role, binding) + Be32(seqNo) + Be32(crc) + Be16(fragIdx)
  }

  function DataHeader(
    role: Byte, binding: U32, seqNo: U32, crc: U32, totalLen: U32, fragIdx: U16, fragTotal: U16, fragCrc: U32)
    : (b: seq<Byte>)
    ensures |b| == DATA_HDR_LEN
  {
    Header(TYPE_DATA, role, binding) + Be32(seqNo) + Be32(crc) + Be32(totalLen)
    + Be16(fragIdx) + Be16(fragTotal) + Be32(fragCrc)
  }

  /** The data frame of one fragment; lengths and indices are truncated as the encoder does. */
  function DataBytes(
    sum: Checksum, role: Byte, binding: U32, seqNo: U32, crc: U32,
    totalLen: int, fragIdx: int, fragTotal: int, payload: seq<Byte>): seq<Byte>
  {
    DataHeader(role, binding, seqNo, crc, ToU32(totalLen), ToU16(fragIdx), ToU16(fragTotal), sum(payload))
    + payload
  }

  // ---------------------------------------------------------------- encoders

  method Put32(a: array<Byte>, off: nat, v: U32)
    requires off + 4 <= a.Length
    modifies a
    ensures a[off..off + 4] == Be32(v)
    ensures a[..off] == old(a[..off])
  {
    var b := Be32(v);
    a[off] := b[0];
    a[off + 1] := b[1];
    a[off + 2] := b[2];
    a[off + 3] := b[3];
  }

  method Put16(a: array<Byte>, off: nat, v: U16)
    requires off + 2 <= a.Length
    modifies a
    ensures a[off..off + 2] == Be16(v)
    ensures a[..off] == old(a[..off])
  {
    a[off] := v / 0x100;
    a[off + 1] := v % 0x100;
  }

  method PutFrameHeader(out: array<Byte>, typ: Byte, role: Byte, binding: U32)
    requires out.Length >= HELLO_LEN
    modifies out
    ensures out[..HELLO_LEN] == Header(typ, role, binding)
  {
    Put32(out, 0, FRAME_MAGIC);
    out[4] := FRAME_VERSION;
    out[5] := typ;
    out[ROLE_OFF] := role;
    ghost var front := out[..BINDING_OFF];
    assert front == Be32(FRAME_MAGIC) + [FRAME_VERSION, typ, role];
    Put32(out, BINDING_OFF, binding);
    assert out[..HELLO_LEN] == out[..BINDING_OFF] + out[BINDING_OFF..BINDING_OFF + 4];
  }

  lemma Extend(a: seq<Byte>, n: nat, k: nat)
    requires n + k <= |a|
    ensures a[..n + k] == a[..n] + a[n..n + k]
  {
  }

  method EncodeData(
    sum: Checksum, role: Byte, binding: U32, seqNo: U32, crc: U32,
    totalLen: int, fragIdx: int, fragTotal: int, payload: seq<Byte>) returns (b: seq<Byte>)
    ensures b == DataBytes(sum, role, binding, seqNo, crc, totalLen, fragIdx, fragTotal, payload)
  {
    var out := new Byte[DATA_HDR_LEN + |payload|];
    PutFrameHeader(out, TYPE_DATA, role, binding);
    Put32(out, SEQ_OFF, seqNo);
    Extend(out[..], SEQ_OFF, 4);
    Put32(out, CRC_OFF, crc);
    Extend(out[..], CRC_OFF, 4);
    Put32(out, TOTAL_LEN_OFF, ToU32(totalLen));
    Extend(out[..], TOTAL_LEN_OFF, 4);
    Put16(out, FRAG_IDX_OFF, ToU16(fragIdx));
    Extend(out[..], FRAG_IDX_OFF, 2);
    Put16(out, FRAG_TOT_OFF, ToU16(fragTotal));
    Extend(out[..], FRAG_TOT_OFF, 2);
    Put32(out, FRAG_CRC_OFF, sum(payload));
    Extend(out[..], FRAG_CRC_OFF, 4);
    ghost var hdr := out[..DATA_HDR_LEN];
    for i := 0 to |payload|
      invariant out[..DATA_HDR_LEN] == hdr
      invariant out[DATA_HDR_LEN..DATA_HDR_LEN + i] == payload[..i]
    {
      out[DATA_HDR_LEN + i] := payload[i];
      assert out[DATA_HDR_LEN..DATA_HDR_LEN + i + 1] == out[DATA_HDR_LEN..DATA_HDR_LEN + i] + [payload[i]];
    }
    b := out[..];
    Extend(b, DATA_HDR_LEN, |payload|);
  }

  method EncodeAck(role: Byte, binding: U32, seqNo: U32, crc: U32, fragIdx: U16) returns (b: seq<Byte>)
    ensures b == AckBytes(role, binding, seqNo, crc, fragIdx)
  {
    var out := new Byte[ACK_LEN];
    PutFrameHeader(out, TYPE_ACK, role, binding);
    Put32(out, SEQ_OFF, seqNo);
    Extend(out[..], SEQ_OFF, 4);
    Put32(out, CRC_OFF, crc);
    Extend(out[..], CRC_OFF, 4);
    Put16(out, ACK_FRAG_OFF, fragIdx);
    b := out[..];
    Extend(b, ACK_FRAG_OFF, 2);
  }

  method EncodeHello(role: Byte, binding: U32) returns (b: seq<Byte>)
    ensures b == Header(TYPE_HELLO, role, binding)
  {
    var out := new Byte[HELLO_LEN];
    PutFrameHeader(out, TYPE_HELLO, role, binding);
    b := out[..];
  }

  // ----------------------------------------------------------------- decoder

  function Read16(data: seq<Byte>, off: nat): U16
    requires off + 2 <= |data|
  {
    FromBe16(data[off..off + 2])
  }

  function ShortFrameError(typ: Byte): FrameError {
    if typ == TYPE_ACK then AckTooShort
    else if typ == TYPE_DATA then DataTooShort
    else if typ == TYPE_HELLO then HelloTooShort
    else UnexpectedFrameType
  }

  function DecodeFrame(data: seq<Byte>): Result {
    if |data| < 6 then Err(FrameTooShort)
    else if Read32(data, 0) != FRAME_MAGIC then Err(UnexpectedMagic)
    else if data[4] != FRAME_VERSION then Err(UnexpectedVersion)
    else if |data| < HELLO_LEN then Err(ShortFrameError(data[5]))
    else
      var f := Frame(data[5], data[ROLE_OFF], Read32(data, BINDING_OFF), 0, 0, 0, 0, 0, 0, []);
      if f.typ == TYPE_HELLO then Ok(f)
      else if f.typ == TYPE_ACK then DecodeAckBody(f, data)
      else if f.typ == TYPE_DATA then DecodeDataBody(f, data)
      else Err(UnexpectedFrameType)
  }

  function DecodeAckBody(f: Frame, data: seq<Byte>): Result {
    if |data| < ACK_LEN then Err(AckTooShort)
    else Ok(f.(seqNo := Read32(data, SEQ_OFF), crc := Read32(data, CRC_OFF), fragIdx := Read16(data, ACK_FRAG_OFF)))
  }

  function DecodeDataBody(f: Frame, data: seq<Byte>): Result {
    if |data| < DATA_HDR_LEN then Err(DataTooShort)
    else Ok(f.(seqNo := Read32(data, SEQ_OFF), crc := Read32(data, CRC_OFF),
               totalLen := Read32(data, TOTAL_LEN_OFF), fragIdx := Read16(data, FRAG_IDX_OFF),
               fragTotal := Read16(data, FRAG_TOT_OFF), fragCrc := Read32(data, FRAG_CRC_OFF),
               payload := data[DATA_HDR_LEN..]))
  }

  // -------------------------------------------------------------- round trips

  lemma HeaderDecodes(typ: Byte, role: Byte, binding: U32, rest: seq<Byte>)
    ensures var data := Header(typ, role, binding) + rest;
            && Read32(data, 0) == FRAME_MAGIC && data[4] == FRAME_VERSION && data[5] == typ
            && data[ROLE_OFF] == role && Read32(data, BINDING_OFF) == binding
  {
    var data := Header(typ, role, binding) + rest;
    assert data[0..4] == Be32(FRAME_MAGIC);
    assert data[BINDING_OFF..SEQ_OFF] == Be32(binding);
    Be32RoundTrip(FRAME_MAGIC);
    Be32RoundTrip(binding);
  }

  lemma HelloRoundTrip(role: Byte, binding: U32)
    ensures DecodeFrame(Header(TYPE_HELLO, role, binding))
         == Ok(Frame(TYPE_HELLO, role, binding, 0, 0, 0, 0, 0, 0, []))
  {
    HeaderDecodes(TYPE_HELLO, role, binding, []);
    assert Header(TYPE_HELLO, role, binding) + [] == Header(TYPE_HELLO, role, binding);
  }

  lemma AckRoundTrip(role: Byte, binding: U32, seqNo: U32, crc: U32, fragIdx: U16)
    ensures DecodeFrame(AckBytes(role, binding, seqNo, crc, fragIdx))
         == Ok(Frame(TYPE_ACK, role, binding, seqNo, crc, 0, fragIdx, 0, 0, []))
  {
    var data := AckBytes(role, binding, seqNo, crc, fragIdx);
    HeaderDecodes(TYPE_ACK, role, binding, Be32(seqNo) + Be32(crc) + Be16(fragIdx));
    assert data == Header(TYPE_ACK, role, binding) + (Be32(seqNo) + Be32(crc) + Be16(fragIdx));
    assert data[SEQ_OFF..SEQ_OFF + 4] == Be32(seqNo);
    assert data[CRC_OFF..CRC_OFF + 4] == Be32(crc);
    assert data[ACK_FRAG_OFF..ACK_LEN] == Be16(fragIdx);
    Be32RoundTrip(seqNo);
    Be32RoundTrip(crc);
    Be16RoundTrip(fragIdx);
  }

  lemma DataFields(
    role: Byte, binding: U32, seqNo: U32, crc: U32, totalLen: U32, fragIdx: U16, fragTotal: U16, fragCrc: U32,
    payload: seq<Byte>)
    ensures var data := DataHeader(role, binding, seqNo, crc, totalLen, fragIdx, fragTotal, fragCrc) + payload;
            && Read32(data, SEQ_OFF) == seqNo && Read32(data, CRC_OFF) == crc
            && Read32(data, TOTAL_LEN_OFF) == totalLen && Read16(data, FRAG_IDX_OFF) == fragIdx
            && Read16(data, FRAG_TOT_OFF) == fragTotal && Read32(data, FRAG_CRC_OFF) == fragCrc
            && data[DATA_HDR_LEN..] == payload
  {
    var data := DataHeader(role, binding, seqNo, crc, totalLen, fragIdx, fragTotal, fragCrc) + payload;
    assert data[SEQ_OFF..SEQ_OFF + 4] == Be32(seqNo);
    assert data[CRC_OFF..CRC_OFF + 4] == Be32(crc);
    assert data[TOTAL_LEN_OFF..TOTAL_LEN_OFF + 4] == Be32(totalLen);
    assert data[FRAG_IDX_OFF..FRAG_IDX_OFF + 2] == Be16(fragIdx);
    assert data[FRAG_TOT_OFF..FRAG_TOT_OFF + 2] == Be16(fragTotal);
    assert data[FRAG_CRC_OFF..FRAG_CRC_OFF + 4] == Be32(fragCrc);
    Be32RoundTrip(seqNo);
    Be32RoundTrip(crc);
    Be32RoundTrip(totalLen);
    Be16RoundTrip(fragIdx);
    Be16RoundTrip(fragTotal);
    Be32RoundTrip(fragCrc);
  }

  /** Decoding an encoded fragment returns its fields, truncated to their wire widths. */
  lemma DataRoundTrip(
    sum: Checksum, role: Byte, binding: U32, seqNo: U32, crc: U32,
    totalLen: int, fragIdx: int, fragTotal: int, payload: seq<Byte>)
    ensures DecodeFrame(DataBytes(sum, role, binding, seqNo, crc, totalLen, fragIdx, fragTotal, payload))
         == Ok(Frame(TYPE_DATA, role, binding, seqNo, crc, ToU32(totalLen), ToU16(fragIdx), ToU16(fragTotal),
                     sum(payload), payload))
  {
    var tail := Be32(seqNo) + Be32(crc) + Be32(ToU32(totalLen)) + Be16(ToU16(fragIdx))
                + Be16(ToU16(fragTotal)) + Be32(sum(payload)) + payload;
    HeaderDecodes(TYPE_DATA, role, binding, tail);
    assert DataBytes(sum, role, binding, seqNo, crc, totalLen, fragIdx, fragTotal, payload)
        == Header(TYPE_DATA, role, binding) + tail;
    DataFields(role, binding, seqNo, crc, ToU32(totalLen), ToU16(fragIdx), ToU16(fragTotal), sum(payload), payload);
  }

  lemma HeaderOf(data: seq<Byte>)
    requires DecodeFrame(data).Ok?
    ensures |data| >= HELLO_LEN
    ensures data[..HELLO_LEN] == Header(data[5], DecodeFrame(data).frame.role, DecodeFrame(data).frame.binding)
  {
    Be32Inverse(data[0..4]);
    Be32Inverse(data[BINDING_OFF..SEQ_OFF]);
    assert data[..HELLO_LEN] == data[0..4] + [data[4], data[5], data[ROLE_OFF]] + data[BINDING_OFF..SEQ_OFF];
  }

  /** Whatever decodes was laid out as the encoders lay it out: the frame determines the bytes it
      was read from, up to trailing bytes that ack and hello frames ignore. */
  lemma DecodeDeterminesBytes(data: seq<Byte>)
    requires DecodeFrame(data).Ok?
    ensures var f := DecodeFrame(data).frame;
            && (f.typ == TYPE_HELLO ==> Header(TYPE_HELLO, f.role, f.binding) <= data)
            && (f.typ == TYPE_ACK ==> AckBytes(f.role, f.binding, f.seqNo, f.crc, f.fragIdx) <= data)
            && (f.typ == TYPE_DATA ==>
                  DataHeader(f.role, f.binding, f.seqNo, f.crc, f.totalLen, f.fragIdx, f.fragTotal, f.fragCrc)
                  + f.payload == data)
            && f.typ in {TYPE_HELLO, TYPE_ACK, TYPE_DATA}
  {
    HeaderOf(data);
    var f := DecodeFrame(data).frame;
    if f.typ == TYPE_ACK {
      AckLayout(data);
    } else if f.typ == TYPE_DATA {
      DataLayout(data);
    }
  }

  lemma AckLayout(data: seq<Byte>)
    requires DecodeFrame(data).Ok? && DecodeFrame(data).frame.typ == TYPE_ACK
    ensures var f := DecodeFrame(data).frame;
            AckBytes(f.role, f.binding, f.seqNo, f.crc, f.fragIdx) <= data
  {
    HeaderOf(data);
    Be32Inverse(data[SEQ_OFF..SEQ_OFF + 4]);
    Be32Inverse(data[CRC_OFF..CRC_OFF + 4]);
    Be16Inverse(data[ACK_FRAG_OFF..ACK_LEN]);
    Extend(data, SEQ_OFF, 4);
    Extend(data, CRC_OFF, 4);
    Extend(data, ACK_FRAG_OFF, 2);
  }

  lemma DataLayout(data: seq<Byte>)
    requires DecodeFrame(data).Ok? && DecodeFrame(data).frame.typ == TYPE_DATA
    ensures var f := DecodeFrame(data).frame;
            DataHeader(f.role, f.binding, f.seqNo, f.crc, f.totalLen, f.fragIdx, f.fragTotal, f.fragCrc)
            + f.payload == data
  {
    HeaderOf(data);
    Be32Inverse(data[SEQ_OFF..SEQ_OFF + 4]);
    Be32Inverse(data[CRC_OFF..CRC_OFF + 4]);
    Be32Inverse(data[TOTAL_LEN_OFF..TOTAL_LEN_OFF + 4]);
    Be16Inverse(data[FRAG_IDX_OFF..FRAG_IDX_OFF + 2]);
    Be16Inverse(data[FRAG_TOT_OFF..FRAG_TOT_OFF + 2]);
    Be32Inverse(data[FRAG_CRC_OFF..FRAG_CRC_OFF + 4]);
    Extend(data, SEQ_OFF, 4);
    Extend(data, CRC_OFF, 4);
    Extend(data, TOTAL_LEN_OFF, 4);
    Extend(data, FRAG_IDX_OFF, 2);
    Extend(data, FRAG_TOT_OFF, 2);
    Extend(data, FRAG_CRC_OFF, 4);
    assert data == data[..DATA_HDR_LEN] + data[DATA_HDR_LEN..];
  }
}
