/**
 * The FINS/TCP wire format: the 12-byte TCP header, the 14-byte FINS header with its
 * command and end codes, the memory address, and the two memory commands.
 */
module Protocol {
  import opened Bytes

  const READ_COMMAND: u16 := 0x0101
  const WRITE_COMMAND: u16 := 0x0102
  const STATUS_COMMAND: u16 := 0x0601

  const END_NORMAL: u16 := 0x0000
  const END_UNDEFINED_CMD: u16 := 0x0401
  const END_NOT_SUPPORTED: u16 := 0x0402
  const END_CMD_TOO_SHORT: u16 := 0x1002
  const END_ADDR_RANGE_EXCEED: u16 := 0x1104

  const TCP_HEADER_SIZE := 12
  const FINS_HEADER_SIZE := 14

  /** The four letters F I N S. */
  const MAGIC: seq<byte> := [0x46, 0x49, 0x4e, 0x53]

  datatype FinsAddress = FinsAddress(network: byte, node: byte, unit: byte)

  datatype FinsHeader = FinsHeader(icf: byte, rsv: byte, gct: byte, dest: FinsAddress, src: FinsAddress, sid: byte)

  datatype FinsFrame = FinsFrame(header: FinsHeader, commandCode: u16, endCode: u16, data: seq<byte>)

  datatype TcpFrame = TcpFrame(length: u32, command: u16, errorCode: u16, data: seq<byte>)

  datatype MemoryAddress = MemoryAddress(area: byte, address: u16, bitOffset: byte)

  datatype ProtocolError = InvalidHeader | FrameTooShort

  // ----- TCP framing -----

  /** The bytes of one TCP frame. The length field wraps at 32 bits. */
  function TcpBytes(command: u16, errorCode: u16, finsData: seq<byte>): (r: seq<byte>)
    ensures |r| == TCP_HEADER_SIZE + |finsData|
  {
    MAGIC + BE32((|finsData| + 4) % 0x1_0000_0000) + BE16(command) + BE16(errorCode) + finsData
  }

  /** Decodes the frame at the front of `data`; the payload is clipped to what is there. */
  function DecodeTcp(data: seq<byte>): (r: Result<TcpFrame, ProtocolError>) {
    if |data| < TCP_HEADER_SIZE then Err(FrameTooShort)
    else if data[0..4] != MAGIC then Err(InvalidHeader)
    else
      var length := DecBE32(data[4..8]);
      var wanted := if length < 4 then 0 else length - 4;
      var remaining := |data| - TCP_HEADER_SIZE;
      var dataLen := if wanted > remaining then remaining else wanted;
      Ok(TcpFrame(length, DecBE16(data[8..10]), DecBE16(data[10..12]), data[12..12 + dataLen]))
  }

  /** A payload is framable when its length field does not wrap. */
  predicate Framable(finsData: seq<byte>) {
    |finsData| + 4 < 0x1_0000_0000
  }

  /** Where each field of a frame sits in a buffer that starts with it. */
  lemma TcpSlices(n: u32, command: u16, errorCode: u16, finsData: seq<byte>, rest: seq<byte>)
    ensures var b := MAGIC + BE32(n) + BE16(command) + BE16(errorCode) + finsData + rest;
      && b[0..4] == MAGIC && b[4..8] == BE32(n)
      && b[8..10] == BE16(command) && b[10..12] == BE16(errorCode)
      && b[12..12 + |finsData|] == finsData
  {
    SlicesOf(MAGIC, BE32(n), BE16(command), BE16(errorCode), finsData, rest);
  }

  lemma SlicesOf(m: seq<byte>, l: seq<byte>, c: seq<byte>, e: seq<byte>, d: seq<byte>, rest: seq<byte>)
    requires |m| == 4 && |l| == 4 && |c| == 2 && |e| == 2
    ensures var b := m + l + c + e + d + rest;
      b[0..4] == m && b[4..8] == l && b[8..10] == c && b[10..12] == e && b[12..12 + |d|] == d
  {
  }

  /** Decoding sees exactly the encoded frame, whatever follows it in the buffer. */
  lemma TcpRoundTrip(command: u16, errorCode: u16, finsData: seq<byte>, rest: seq<byte>)
    requires Framable(finsData)
    ensures DecodeTcp(TcpBytes(command, errorCode, finsData) + rest)
         == Ok(TcpFrame(|finsData| + 4, command, errorCode, finsData))
  {
    var n := |finsData| + 4;
    var b := TcpBytes(command, errorCode, finsData) + rest;
    TcpSlices(n, command, errorCode, finsData, rest);
    HeaderFieldsRoundTrip(command, n);
    HeaderFieldsRoundTrip(errorCode, n);
    assert b == MAGIC + BE32(n) + BE16(command) + BE16(errorCode) + finsData + rest;
  }

  // ----- FINS frames -----

  function HeaderBytes(h: FinsHeader): (r: seq<byte>)
    ensures |r| == 10
  {
    [h.icf, h.rsv, h.gct, h.dest.network, h.dest.node, h.dest.unit,
     h.src.network, h.src.node, h.src.unit, h.sid]
  }

  function FinsBytes(f: FinsFrame): (r: seq<byte>)
    ensures |r| == FINS_HEADER_SIZE + |f.data|
  {
    HeaderBytes(f.header) + BE16(f.commandCode) + BE16(f.endCode) + f.data
  }

  function DecodeFins(data: seq<byte>): (r: Result<FinsFrame, ProtocolError>) {
    if |data| < FINS_HEADER_SIZE then Err(FrameTooShort)
    else
      var header := FinsHeader(data[0], data[1], data[2],
                               FinsAddress(data[3], data[4], data[5]),
                               FinsAddress(data[6], data[7], data[8]), data[9]);
      Ok(FinsFrame(header, DecBE16(data[10..12]), DecBE16(data[12..14]), data[14..]))
  }

  lemma FinsRoundTrip(f: FinsFrame)
    ensures DecodeFins(FinsBytes(f)) == Ok(f)
  {
    var b := FinsBytes(f);
    assert b[10..12] == BE16(f.commandCode);
    assert b[12..14] == BE16(f.endCode);
    assert b[14..] == f.data;
  }

  /** Every byte string of at least a header is the encoding of the frame it decodes to. */
  lemma FinsRoundTripBack(data: seq<byte>)
    requires |data| >= FINS_HEADER_SIZE
    ensures FinsBytes(DecodeFins(data).value) == data
  {
    var f := DecodeFins(data).value;
    assert BE16(f.commandCode) == data[10..12];
    assert BE16(f.endCode) == data[12..14];
    assert HeaderBytes(f.header) == data[..10];
  }

  /** One FINS frame as it travels on the connection. */
  function WireBytes(f: FinsFrame): (r: seq<byte>)
    ensures |r| == TCP_HEADER_SIZE + FINS_HEADER_SIZE + |f.data|
  {
    TcpBytes(0, 0, FinsBytes(f))
  }

  predicate Sendable(f: FinsFrame) {
    Framable(FinsBytes(f))
  }

  // ----- headers -----

  function CommandHeader(src: FinsAddress, dest: FinsAddress, sid: byte): FinsHeader {
    FinsHeader(0x80, 0x00, 0x02, dest, src, sid)
  }

  function ResponseHeader(h: FinsHeader): FinsHeader {
    FinsHeader(0xc0, 0x00, h.gct, h.src, h.dest, h.sid)
  }

  // ----- memory commands -----

  function AddressBytes(a: MemoryAddress): (r: seq<byte>)
    ensures |r| == 4
  {
    [a.area] + BE16(a.address) + [a.bitOffset]
  }

  function DecodeAddress(data: seq<byte>): MemoryAddress
    requires |data| >= 4
  {
    MemoryAddress(data[0], DecBE16(data[1..3]), data[3])
  }

  function ReadCommand(a: MemoryAddress, count: u16): (r: seq<byte>)
    ensures |r| == 8
  {
    BE16(READ_COMMAND) + AddressBytes(a) + BE16(count)
  }

  function WriteCommand(a: MemoryAddress, count: u16, data: seq<byte>): (r: seq<byte>)
    ensures |r| == 8 + |data|
  {
    BE16(WRITE_COMMAND) + AddressBytes(a) + BE16(count) + data
  }

  /** The request frame `SendCommand` builds from a command and its service id. */
  function RequestFrame(src: FinsAddress, dest: FinsAddress, sid: byte, command: seq<byte>): FinsFrame
    requires |command| >= 2
  {
    FinsFrame(CommandHeader(src, dest, sid), DecBE16(command[0..2]), 0, command[2..])
  }

  // ----- the encoders as the program runs them: filling a fresh buffer -----

  method EncodeFinsTcpFrame(command: u16, errorCode: u16, finsData: seq<byte>) returns (buf: array<byte>)
    ensures fresh(buf) && buf[..] == TcpBytes(command, errorCode, finsData)
  {
    var length := (|finsData| + 4) % 0x1_0000_0000;
    buf := new byte[12 + |finsData|];
    CopyInto(buf, 0, MAGIC);
    CopyInto(buf, 4, BE32(length));
    CopyInto(buf, 8, BE16(command));
    CopyInto(buf, 10, BE16(errorCode));
    if |finsData| > 0 {
      CopyInto(buf, 12, finsData);
    }
  }

  method EncodeFinsFrame(f: FinsFrame) returns (buf: array<byte>)
    ensures fresh(buf) && buf[..] == FinsBytes(f)
  {
    buf := new byte[14 + |f.data|];
    var h := f.header;
    buf[0], buf[1], buf[2] := h.icf, h.rsv, h.gct;
    buf[3], buf[4], buf[5] := h.dest.network, h.dest.node, h.dest.unit;
    buf[6], buf[7], buf[8] := h.src.network, h.src.node, h.src.unit;
    buf[9] := h.sid;
    assert buf[..10] == HeaderBytes(h);
    CopyInto(buf, 10, BE16(f.commandCode));
    CopyInto(buf, 12, BE16(f.endCode));
    if |f.data| > 0 {
      CopyInto(buf, 14, f.data);
    }
  }

  method EncodeWriteCommand(a: MemoryAddress, count: u16, data: seq<byte>) returns (buf: array<byte>)
    ensures fresh(buf) && buf[..] == WriteCommand(a, count, data)
  {
    buf := new byte[8 + |data|];
    CopyInto(buf, 0, BE16(WRITE_COMMAND));
    CopyInto(buf, 2, AddressBytes(a));
    CopyInto(buf, 6, BE16(count));
    CopyInto(buf, 8, data);
  }

  method EncodeReadCommand(a: MemoryAddress, count: u16) returns (buf: array<byte>)
    ensures fresh(buf) && buf[..] == ReadCommand(a, count)
  {
    buf := new byte[8];
    CopyInto(buf, 0, BE16(READ_COMMAND));
    CopyInto(buf, 2, AddressBytes(a));
    buf[6], buf[7] := 0, 0;
    CopyInto(buf, 6, BE16(count));
  }
}
