/** The header in front of every VP8-disguised frame: who sent it, to whom, and in which session. */
module EpochHeader {
  import opened Bytes

  const KEEPALIVE: seq<Byte> := [
    0x30, 0x01, 0x00, 0x9d, 0x01, 0x2a, 0x10, 0x00, 0x10, 0x00, 0x00, 0x47, 0x08, 0x85, 0x85, 0x88,
    0x99, 0x84, 0x88, 0xfc]
  const TOKEN_OFF := 20
  const SRC_OFF := 24
  const DST_OFF := 28
  const CRC_OFF := 32
  const HDR_LEN := 36

  /** The high bit of an epoch marks the control plane. */
  const CONTROL_FLAG: U32 := 0x8000_0000

  datatype Address = Address(token: U32, src: U32, dst: U32)

  function AddressBytes(a: Address): (b: seq<Byte>)
    ensures |b| == 12
  {
    Be32(a.token) + Be32(a.src) + Be32(a.dst)
  }

  function Build(sum: Checksum, a: Address): (h: seq<Byte>)
    ensures |h| == HDR_LEN
  {
    KEEPALIVE + AddressBytes(a) + Be32(sum(AddressBytes(a)))
  }

  function Parse(sum: Checksum, frame: seq<Byte>): Option<Address> {
    if |frame| < HDR_LEN then None
    else
      var a := Address(Read32(frame, TOKEN_OFF), Read32(frame, SRC_OFF), Read32(frame, DST_OFF));
      if Read32(frame, CRC_OFF) == sum(AddressBytes(a)) then Some(a) else None
  }

  /** A built header parses back to its address, whatever follows it. */
  lemma HeaderRoundTrip(sum: Checksum, a: Address, rest: seq<Byte>)
    ensures Parse(sum, Build(sum, a) + rest) == Some(a)
    ensures (Build(sum, a) + rest)[HDR_LEN..] == rest
  {
    var f := Build(sum, a) + rest;
    assert f[TOKEN_OFF..TOKEN_OFF + 4] == Be32(a.token);
    assert f[SRC_OFF..SRC_OFF + 4] == Be32(a.src);
    assert f[DST_OFF..DST_OFF + 4] == Be32(a.dst);
    assert f[CRC_OFF..CRC_OFF + 4] == Be32(sum(AddressBytes(a)));
    Be32RoundTrip(a.token);
    Be32RoundTrip(a.src);
    Be32RoundTrip(a.dst);
    Be32RoundTrip(sum(AddressBytes(a)));
  }
}
