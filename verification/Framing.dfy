/**
  The native frame codec: a twelve byte header (magic, version, type, flags, reserved, payload
  length) followed by at most 16 MiB of payload.
 */
module Framing {
  import opened Prelude

  const MAGIC: seq<byte> := [0x49, 0x49, 0x43, 0x50]
  const FRAMING_VERSION: byte := 1
  const FRAME_HEADER_LEN: nat := 12
  const MAX_FRAME_PAYLOAD: nat := 16777216

  const INIT: byte := 0x01
  const DISCOVER: byte := 0x03
  const CALL: byte := 0x05
  const RESPONSE: byte := 0x06
  const CLOSE: byte := 0x07
  const PING: byte := 0x09

  datatype Frame = Frame(version: byte, msgType: byte, flags: byte, payload: seq<byte>)

  datatype FrameError = TooShort | BadMagic | BadVersion | PayloadTooLarge | Truncated

  /** Why the stable profile refuses a type byte; None for the types it accepts. */
  datatype TypeError = InvalidType | ConflictedType | UnsupportedExtension | UnknownType

  function StableTaskMessageTypeError(t: byte): Option<TypeError> {
    if 0x01 <= t <= 0x0a || t == 0x0d || t == 0x0e then None
    else if t == 0x00 || t == 0xff then Some(InvalidType)
    else if t == 0x0b || t == 0x0c then Some(ConflictedType)
    else if 0xf0 <= t <= 0xfe then Some(UnsupportedExtension)
    else Some(UnknownType)
  }

  function ToBigEndian(n: nat): (b: seq<byte>)
    requires n < U32_LIMIT
    ensures |b| == 4
  {
    [n / 0x1000000, n / 0x10000 % 256, n / 0x100 % 256, n % 256]
  }

  function FromBigEndian(b: seq<byte>): nat
    requires |b| == 4
  {
    ((b[0] as int * 256 + b[1]) * 256 + b[2]) * 256 + b[3]
  }

  lemma BigEndianRoundTrip(n: nat)
    requires n < U32_LIMIT
    ensures FromBigEndian(ToBigEndian(n)) == n
  {
  }

  lemma BigEndianUnique(b: seq<byte>)
    requires |b| == 4
    ensures FromBigEndian(b) < U32_LIMIT
    ensures ToBigEndian(FromBigEndian(b)) == b
  {
    var n := FromBigEndian(b);
    assert n / 0x100 == (b[0] as int * 256 + b[1]) * 256 + b[2];
    assert n / 0x10000 == b[0] as int * 256 + b[1];
  }

  function Header(msgType: byte, flags: byte, payloadLen: nat): (h: seq<byte>)
    requires payloadLen < U32_LIMIT
    ensures |h| == FRAME_HEADER_LEN
  {
    MAGIC + [FRAMING_VERSION, msgType, flags, 0] + ToBigEndian(payloadLen)
  }

  function TryEncodeFrame(msgType: byte, payload: seq<byte>, flags: byte): Result<seq<byte>, FrameError> {
    if |payload| > MAX_FRAME_PAYLOAD then Err(PayloadTooLarge)
    else Ok(Header(msgType, flags, |payload|) + payload)
  }

  /** The payload length announced by a header. */
  function AnnouncedLen(data: seq<byte>): nat
    requires |data| >= FRAME_HEADER_LEN
  {
    FromBigEndian(data[8..12])
  }

  function DecodeFrame(data: seq<byte>): Result<(Frame, nat), FrameError> {
    if |data| < FRAME_HEADER_LEN then Err(TooShort)
    else if data[..4] != MAGIC then Err(BadMagic)
    else if data[4] != FRAMING_VERSION then Err(BadVersion)
    else if AnnouncedLen(data) > MAX_FRAME_PAYLOAD then Err(PayloadTooLarge)
    else
      var total := FRAME_HEADER_LEN + AnnouncedLen(data);
      if |data| < total then Err(Truncated)
      else Ok((Frame(data[4], data[5], data[6], data[FRAME_HEADER_LEN..total]), total))
  }

  /** Reading back an encoded frame returns it and stops exactly at its end, whatever follows. */
  lemma DecodeOfEncode(msgType: byte, payload: seq<byte>, flags: byte, rest: seq<byte>)
    requires |payload| <= MAX_FRAME_PAYLOAD
    ensures var bytes := TryEncodeFrame(msgType, payload, flags).value;
            DecodeFrame(bytes + rest) == Ok((Frame(FRAMING_VERSION, msgType, flags, payload), |bytes|))
  {
    var bytes := TryEncodeFrame(msgType, payload, flags).value;
    var data := bytes + rest;
    assert data[..4] == MAGIC;
    assert data[8..12] == ToBigEndian(|payload|);
    BigEndianRoundTrip(|payload|);
    assert data[12..12 + |payload|] == payload;
  }

  /**
    Whatever decodes is an encoding: the consumed bytes are the encoder's own output except for
    the reserved byte, which the decoder does not look at.
   */
  lemma EncodeOfDecode(data: seq<byte>)
    requires DecodeFrame(data).Ok?
    ensures var (f, n) := DecodeFrame(data).value;
            && n <= |data| && n >= FRAME_HEADER_LEN
            && TryEncodeFrame(f.msgType, f.payload, f.flags) == Ok(data[..n][7 := 0])
  {
    var (f, n) := DecodeFrame(data).value;
    BigEndianUnique(data[8..12]);
    var h := Header(f.msgType, f.flags, |f.payload|);
    assert h[8..12] == ToBigEndian(|f.payload|);
    var d := data[..n][7 := 0];
    assert d[..4] == data[..4];
    assert d[8..12] == data[8..12];
    assert h == d[..4] + d[4..8] + d[8..12];
    assert d == h + f.payload;
  }
}
