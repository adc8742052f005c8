/**
 * The transport's memory operations, each through the bytes it puts on the wire: request frame,
 * server drain and handler, response frame, client drain.
 */
module Exchange {
  import opened Bytes
  import opened Protocol
  import opened Stream
  import opened Plc

  /** The addresses and service id a command goes out with. */
  datatype Route = Route(src: FinsAddress, dest: FinsAddress, sid: byte)

  datatype DriverError = NoResponse | FinsError(endCode: u16)

  /** The server side: handle every frame in order and write the responses back to back. */
  function ServeAll(m: Memory, fs: seq<FinsFrame>): (r: (Memory, seq<byte>))
    requires m.Valid()
    ensures r.0.Valid()
    decreases |fs|
  {
    if fs == [] then (m, [])
    else
      var (m', resp) := Handle(m, fs[0]);
      var (m'', bytes) := ServeAll(m', fs[1..]);
      (m'', WireBytes(resp) + bytes)
  }

  /** One command, end to end over bytes. */
  function Transact(m: Memory, route: Route, command: seq<byte>): (r: (Memory, Option<FinsFrame>))
    requires m.Valid() && |command| >= 2
    ensures r.0.Valid()
  {
    var request := WireBytes(RequestFrame(route.src, route.dest, route.sid, command));
    var (m', bytes) := ServeAll(m, Frames(request));
    var replies := Frames(bytes);
    (m', if replies == [] then None else Some(replies[0]))
  }

  lemma FramesOfOne(f: FinsFrame)
    requires Sendable(f)
    ensures Frames(WireBytes(f)) == [f]
  {
    assert [f][1..] == [];
    assert WireAll([f]) == WireBytes(f);
    DrainWire([f]);
    FramesOfFrameds([f]);
  }

  lemma ServeOne(m: Memory, f: FinsFrame)
    requires m.Valid()
    ensures ServeAll(m, [f]) == (Handle(m, f).0, WireBytes(Handle(m, f).1))
  {
    var r := Handle(m, f);
    assert [f][1..] == [];
    assert ServeAll(r.0, []) == (r.0, []);
    assert WireBytes(r.1) + [] == WireBytes(r.1);
  }

  /** The wire is transparent: the command meets the handler and its response comes back. */
  lemma TransactIsHandle(m: Memory, route: Route, command: seq<byte>)
    requires m.Valid() && 2 <= |command| < 0xffff_0000
    ensures var request := RequestFrame(route.src, route.dest, route.sid, command);
      Transact(m, route, command) == (Handle(m, request).0, Some(Handle(m, request).1))
  {
    var request := RequestFrame(route.src, route.dest, route.sid, command);
    var resp := Handle(m, request).1;
    FramesOfOne(request);
    ServeOne(m, request);
    FramesOfOne(resp);
  }

  // ----- connections -----

  /** Whatever carries a command to the PLC and a response back. */
  datatype Link = Link(exchange: (Memory, seq<byte>) -> (Memory, Option<FinsFrame>))

  function Succeeded(resp: Option<FinsFrame>): Result<seq<byte>, DriverError> {
    match resp
    case None => Err(NoResponse)
    case Some(f) => if f.endCode != END_NORMAL then Err(FinsError(f.endCode)) else Ok(f.data)
  }

  function Answer(data: seq<byte>, endCode: u16): Result<seq<byte>, DriverError> {
    if endCode == END_NORMAL then Ok(data) else Err(FinsError(endCode))
  }

  /** The memory commands do to the memory what they say, and report it. */
  ghost predicate Transparent(link: Link) {
    && (forall m: Memory, c :: m.Valid() ==> link.exchange(m, c).0.Valid())
    && (forall m: Memory, a, count :: m.Valid() ==>
          Succeeded(link.exchange(m, ReadCommand(a, count)).1) == Answer(ReadMem(m, a, count).0, ReadMem(m, a, count).1))
    && (forall m: Memory, a, count, data :: m.Valid() && |data| < 0xfffe_0000 ==>
          && link.exchange(m, WriteCommand(a, count, data)).0 == WriteMem(m, a, count, data).0
          && Succeeded(link.exchange(m, WriteCommand(a, count, data)).1) == Answer([], WriteMem(m, a, count, data).1))
  }

  /** The connection the driver has: every command through the bytes on the wire. */
  function Wire(route: Route): Link {
    Link((m: Memory, c: seq<byte>) => if m.Valid() && |c| >= 2 then Transact(m, route, c) else (m, None))
  }

  lemma RequestOfRead(route: Route, a: MemoryAddress, count: u16)
    ensures var f := RequestFrame(route.src, route.dest, route.sid, ReadCommand(a, count));
      && f.commandCode == READ_COMMAND && |f.data| == 6
      && DecodeAddress(f.data[0..4]) == a && DecBE16(f.data[4..6]) == count
  {
    var c := ReadCommand(a, count);
    assert c[0..2] == BE16(READ_COMMAND);
    assert c[2..] == AddressBytes(a) + BE16(count);
    assert c[2..][0..4] == AddressBytes(a);
    assert c[2..][4..6] == BE16(count);
    assert AddressBytes(a)[1..3] == BE16(a.address);
    HeaderFieldsRoundTrip(a.address, 0);
    HeaderFieldsRoundTrip(count, 0);
    HeaderFieldsRoundTrip(READ_COMMAND, 0);
  }

  lemma RequestOfWrite(route: Route, a: MemoryAddress, count: u16, data: seq<byte>)
    ensures var f := RequestFrame(route.src, route.dest, route.sid, WriteCommand(a, count, data));
      && f.commandCode == WRITE_COMMAND && |f.data| == 6 + |data|
      && DecodeAddress(f.data[0..4]) == a && DecBE16(f.data[4..6]) == count && f.data[6..] == data
  {
    var c := WriteCommand(a, count, data);
    assert c[0..2] == BE16(WRITE_COMMAND);
    assert c[2..] == AddressBytes(a) + BE16(count) + data;
    assert c[2..][0..4] == AddressBytes(a);
    assert c[2..][4..6] == BE16(count);
    assert c[2..][6..] == data;
    assert AddressBytes(a)[1..3] == BE16(a.address);
    HeaderFieldsRoundTrip(a.address, 0);
    HeaderFieldsRoundTrip(count, 0);
    HeaderFieldsRoundTrip(WRITE_COMMAND, 0);
  }

  lemma ReadExchange(m: Memory, route: Route, a: MemoryAddress, count: u16)
    requires m.Valid()
    ensures Succeeded(Transact(m, route, ReadCommand(a, count)).1)
         == Answer(ReadMem(m, a, count).0, ReadMem(m, a, count).1)
  {
    TransactIsHandle(m, route, ReadCommand(a, count));
    RequestOfRead(route, a, count);
  }

  lemma WriteExchange(m: Memory, route: Route, a: MemoryAddress, count: u16, data: seq<byte>)
    requires m.Valid() && |data| < 0xfffe_0000
    ensures var t := Transact(m, route, WriteCommand(a, count, data));
      t.0 == WriteMem(m, a, count, data).0 && Succeeded(t.1) == Answer([], WriteMem(m, a, count, data).1)
  {
    TransactIsHandle(m, route, WriteCommand(a, count, data));
    RequestOfWrite(route, a, count, data);
  }

  /** Encoding, framing, draining, handling and decoding add up to the memory operation itself. */
  lemma WireIsTransparent(route: Route)
    ensures Transparent(Wire(route))
  {
    forall m: Memory, a: MemoryAddress, count: u16 | m.Valid()
      ensures Succeeded(Wire(route).exchange(m, ReadCommand(a, count)).1)
           == Answer(ReadMem(m, a, count).0, ReadMem(m, a, count).1)
    {
      ReadExchange(m, route, a, count);
    }
    forall m: Memory, a: MemoryAddress, count: u16, data: seq<byte> | m.Valid() && |data| < 0xfffe_0000
      ensures Wire(route).exchange(m, WriteCommand(a, count, data)).0 == WriteMem(m, a, count, data).0
      ensures Succeeded(Wire(route).exchange(m, WriteCommand(a, count, data)).1)
           == Answer([], WriteMem(m, a, count, data).1)
    {
      WriteExchange(m, route, a, count, data);
    }
  }

  // ----- the transport's operations -----

  function ReadWords(m: Memory, link: Link, area: byte, address: u16, count: u16): Result<seq<byte>, DriverError> {
    Succeeded(link.exchange(m, ReadCommand(MemoryAddress(area, address, 0), count)).1)
  }

  function WriteWords(m: Memory, link: Link, area: byte, address: u16, count: u16, data: seq<byte>): (Memory, Result<seq<byte>, DriverError>) {
    var (m', resp) := link.exchange(m, WriteCommand(MemoryAddress(area, address, 0), count, data));
    (m', Succeeded(resp))
  }

  /** Bits come as one byte each; a short response leaves the rest false. */
  function BitsOf(data: seq<byte>, count: nat): (r: seq<bool>)
    ensures |r| == count
  {
    seq(count, i requires 0 <= i < count => i < |data| && data[i] % 2 == 1)
  }

  function ReadBits(m: Memory, link: Link, area: byte, address: u16, bit: byte, count: u16): Result<seq<bool>, DriverError> {
    match Succeeded(link.exchange(m, ReadCommand(MemoryAddress(area, address, bit), count)).1)
    case Ok(data) => Ok(BitsOf(data, count))
    case Err(e) => Err(e)
  }

  function BitBytesOf(values: seq<bool>): (r: seq<byte>)
    ensures |r| == |values|
  {
    seq(|values|, i requires 0 <= i < |values| => if values[i] then 1 else 0)
  }

  function WriteBits(m: Memory, link: Link, area: byte, address: u16, bit: byte, values: seq<bool>): (Memory, Result<seq<byte>, DriverError>) {
    var (m', resp) := link.exchange(m,
      WriteCommand(MemoryAddress(area, address, bit), |values| % 65536, BitBytesOf(values)));
    (m', Succeeded(resp))
  }
}
