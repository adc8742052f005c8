/**
 * What the memory commands do, word by word and bit by bit, and what travels on the wire, byte by
 * byte: stated on word numbers, bit numbers and byte positions alone.
 */
module MemoryLaws {
  import opened Bytes
  import opened Bits
  import opened Areas
  import opened Protocol
  import opened Plc
  import opened Exchange

  /** Two bytes, the big end first. */
  function Glue(hi: int, lo: int): int { 256 * hi + lo }

  // ----- bits -----

  /** Position 16 * k + i is bit i of word k. */
  lemma PositionIsBitOfWord(bytes: seq<byte>, k: nat, i: nat)
    requires i < 16 && HasBit(bytes, 16 * k + i)
    ensures BitAt(bytes, 16 * k + i) == Bit(Word(bytes, k), i)
  {
    assert (16 * k + i) / 16 == k && (16 * k + i) % 16 == i;
  }

  predicate BitCode(area: byte, id: AreaId) {
    !IsWordArea(area) && IsBitArea(area) && BitAreaOf(area) == Some(id)
  }

  lemma AreaBits(m: Memory, id: AreaId)
    requires m.Valid()
    ensures |m.Get(id)| % 2 == 0 && 8 * |m.Get(id)| == 16 * AreaWords(id)
  {
    assert |m.Get(id)| == 2 * AreaWords(id);
  }

  /** The bit at a position of an area; none beyond its end. */
  predicate BitOf(m: Memory, id: AreaId, pos: int) {
    0 <= pos && HasBit(m.Get(id), pos) && BitAt(m.Get(id), pos)
  }

  lemma BitReadIs(m: Memory, id: AreaId, a: MemoryAddress, count: u16)
    requires m.Valid() && BitCode(a.area, id)
    ensures |m.Get(id)| % 2 == 0 && 8 * |m.Get(id)| == 16 * AreaWords(id)
    ensures ReadMem(m, a, count) ==
      if 16 * a.address + a.bitOffset + count <= 16 * AreaWords(id)
      then (BitBytes(m.Get(id), 16 * a.address + a.bitOffset, count), 0) else ([], 0x1104)
  {
    AreaBits(m, id);
  }

  /** The outcome of reading `count` bits from position `start` on: all of them, or a refusal. */
  ghost predicate BitsGiven(m: Memory, id: AreaId, start: nat, count: nat, r: (seq<byte>, u16)) {
    if start + count <= 16 * AreaWords(id) then
      (r.1 == 0 && |r.0| == count && forall j :: 0 <= j < count ==> r.0[j] == if BitOf(m, id, start + j) then 1 else 0)
    else r == ([], 0x1104)
  }

  lemma BitBytesGiven(m: Memory, id: AreaId, start: nat, count: nat)
    requires m.Valid() && start + count <= 16 * AreaWords(id)
    ensures |m.Get(id)| % 2 == 0 && start + count <= 8 * |m.Get(id)|
    ensures BitsGiven(m, id, start, count, (BitBytes(m.Get(id), start, count), 0))
  {
    AreaBits(m, id);
  }

  /** A bit read returns the bits from bit `bitOffset` of the addressed word on. */
  lemma BitReadLaw(m: Memory, id: AreaId, a: MemoryAddress, count: u16)
    requires m.Valid() && BitCode(a.area, id)
    ensures BitsGiven(m, id, 16 * a.address + a.bitOffset, count, ReadMem(m, a, count))
  {
    var start := 16 * a.address + a.bitOffset;
    BitReadIs(m, id, a, count);
    if start + count <= 16 * AreaWords(id) {
      BitBytesGiven(m, id, start, count);
    }
  }

  lemma BitWriteIs(m: Memory, id: AreaId, a: MemoryAddress, count: u16, data: seq<byte>)
    requires m.Valid() && BitCode(a.area, id)
    ensures |m.Get(id)| % 2 == 0 && 8 * |m.Get(id)| == 16 * AreaWords(id)
    ensures WriteMem(m, a, count, data) ==
      if 16 * a.address + a.bitOffset + count <= 16 * AreaWords(id)
      then (m.Put(id, PutBits(m.Get(id), 16 * a.address + a.bitOffset, Clip(data, count))), 0) else (m, 0x1104)
  {
    AreaBits(m, id);
  }

  lemma PutBitsLaw(m: Memory, id: AreaId, start: nat, data: seq<byte>, other: AreaId, pos: nat)
    requires |m.Get(id)| % 2 == 0 && start + |data| <= 8 * |m.Get(id)|
    ensures BitOf(m.Put(id, PutBits(m.Get(id), start, data)), other, pos) ==
      if other == id && start <= pos < start + |data| then data[pos - start] != 0 else BitOf(m, other, pos)
  {
    GetPut(m, id, PutBits(m.Get(id), start, data), other);
    if other == id && HasBit(m.Get(id), pos) {
      PutBitsReads(m.Get(id), start, data, pos);
    }
  }

  /** The bit at a position after values were written from `start` on. */
  function BitAfter(m: Memory, id: AreaId, start: nat, values: seq<bool>, other: AreaId, pos: nat): bool {
    if other == id && start <= pos < start + |values| then values[pos - start] else BitOf(m, other, pos)
  }

  /** The values a bit write stores: one for each data byte, at most `count`. */
  function BitValues(data: seq<byte>, count: nat): (r: seq<bool>)
    ensures |r| == if |data| < count then |data| else count
    ensures forall j :: 0 <= j < |r| ==> r[j] == (data[j] != 0)
  {
    seq(if |data| < count then |data| else count, j requires 0 <= j < |data| => data[j] != 0)
  }

  /** The outcome of writing bits from position `start` on, as seen at one position. */
  predicate BitsSet(m: Memory, id: AreaId, start: nat, count: nat, data: seq<byte>, r: (Memory, u16), other: AreaId, pos: nat) {
    if start + count <= 16 * AreaWords(id) then
      r.1 == 0 && BitOf(r.0, other, pos) == BitAfter(m, id, start, BitValues(data, count), other, pos)
    else r == (m, 0x1104)
  }

  lemma PutBitsSet(m: Memory, id: AreaId, start: nat, count: nat, data: seq<byte>, other: AreaId, pos: nat)
    requires m.Valid() && start + count <= 16 * AreaWords(id)
    ensures |m.Get(id)| % 2 == 0 && start + count <= 8 * |m.Get(id)|
    ensures BitsSet(m, id, start, count, data, (m.Put(id, PutBits(m.Get(id), start, Clip(data, count))), 0), other, pos)
  {
    AreaBits(m, id);
    PutBitsLaw(m, id, start, Clip(data, count), other, pos);
  }

  /** A bit write sets the bits from bit `bitOffset` of the addressed word on, and leaves every other bit of every area. */
  lemma BitWriteLaw(m: Memory, id: AreaId, a: MemoryAddress, count: u16, data: seq<byte>, other: AreaId, pos: nat)
    requires m.Valid() && BitCode(a.area, id)
    ensures BitsSet(m, id, 16 * a.address + a.bitOffset, count, data, WriteMem(m, a, count, data), other, pos)
  {
    BitWriteIs(m, id, a, count, data);
    BitsSetWhen(m, id, 16 * a.address + a.bitOffset, count, data, WriteMem(m, a, count, data), other, pos);
  }

  lemma BitsSetWhen(m: Memory, id: AreaId, start: nat, count: nat, data: seq<byte>, w: (Memory, u16), other: AreaId, pos: nat)
    requires m.Valid() && |m.Get(id)| % 2 == 0 && 8 * |m.Get(id)| == 16 * AreaWords(id)
    requires w == if start + count <= 16 * AreaWords(id)
                  then (m.Put(id, PutBits(m.Get(id), start, Clip(data, count))), 0) else (m, 0x1104)
    ensures BitsSet(m, id, start, count, data, w, other, pos)
  {
    if start + count <= 16 * AreaWords(id) {
      PutBitsSet(m, id, start, count, data, other, pos);
    }
  }

  // ----- words -----

  /** A word read returns the addressed words, big end first, or refuses as a whole. */
  lemma WordReadLaw(m: Memory, id: AreaId, a: MemoryAddress, count: u16)
    requires m.Valid() && IsWordArea(a.area) && WordAreaOf(a.area) == Some(id)
    ensures var r := ReadMem(m, a, count);
      if a.address + count <= AreaWords(id) then
        (r.1 == 0 && |r.0| == 2 * count
         && forall i :: 0 <= i < count ==> Glue(r.0[2 * i], r.0[2 * i + 1]) == Word(m.Get(id), a.address + i))
      else r == ([], 0x1104)
  {
    assert |m.Get(id)| == 2 * AreaWords(id);
  }

  /** A word write stores as much of the data as the words hold, byte after byte, and touches nothing else. */
  lemma WordWriteLaw(m: Memory, id: AreaId, a: MemoryAddress, count: u16, data: seq<byte>)
    requires m.Valid() && IsWordArea(a.area) && WordAreaOf(a.area) == Some(id)
    ensures var r := WriteMem(m, a, count, data);
      if a.address + count > AreaWords(id) then r == (m, 0x1104)
      else
        && r.1 == 0
        && (forall other :: other != id ==> r.0.Get(other) == m.Get(other))
        && |r.0.Get(id)| == |m.Get(id)|
        && forall k :: 0 <= k < |m.Get(id)| ==>
          var j := k - 2 * a.address;
          r.0.Get(id)[k] == if 0 <= j < 2 * count && j < |data| then data[j] else m.Get(id)[k]
  {
    assert |m.Get(id)| == 2 * AreaWords(id);
  }

  /** Areas the server does not keep are refused, whichever the command. */
  lemma UnknownAreaLaw(m: Memory, a: MemoryAddress, count: u16, data: seq<byte>)
    requires m.Valid()
    requires if IsWordArea(a.area) then WordAreaOf(a.area).None? else !IsBitArea(a.area) || BitAreaOf(a.area).None?
    ensures ReadMem(m, a, count) == ([], 0x0402) && WriteMem(m, a, count, data) == (m, 0x0402)
  {
  }

  /** Requests other than well-formed memory commands leave the memory as it is. */
  lemma OtherRequests(m: Memory, f: FinsFrame)
    requires m.Valid() && (f.commandCode !in {0x0101, 0x0102} || |f.data| < 6)
    ensures var r := Handle(m, f);
      && r.0 == m
      && r.1.endCode == (if f.commandCode in {0x0101, 0x0102} then 0x1002 else if f.commandCode == 0x0601 then 0 else 0x0401)
      && r.1.data == if f.commandCode == 0x0601 then [0, 0] else []
  {
  }

  // ----- the transport's bit operations, any number of bits -----

  lemma ReadThrough(m: Memory, link: Link, a: MemoryAddress, count: u16)
    requires m.Valid() && Transparent(link)
    ensures Succeeded(link.exchange(m, ReadCommand(a, count)).1) == Answer(ReadMem(m, a, count).0, ReadMem(m, a, count).1)
  {
  }

  lemma WriteThrough(m: Memory, link: Link, a: MemoryAddress, count: u16, data: seq<byte>)
    requires m.Valid() && Transparent(link) && |data| < 0xfffe_0000
    ensures link.exchange(m, WriteCommand(a, count, data)).0 == WriteMem(m, a, count, data).0
    ensures Succeeded(link.exchange(m, WriteCommand(a, count, data)).1) == Answer([], WriteMem(m, a, count, data).1)
  {
  }

  lemma ReadBitsFrom(m: Memory, link: Link, id: AreaId, a: MemoryAddress, count: u16, r: (seq<byte>, u16), j: nat)
    requires Succeeded(link.exchange(m, ReadCommand(a, count)).1) == Answer(r.0, r.1)
    requires BitsGiven(m, id, 16 * a.address + a.bitOffset, count, r)
    ensures ValueGiven(m, id, 16 * a.address + a.bitOffset, count, ReadBits(m, link, a.area, a.address, a.bitOffset, count), j)
  {
  }

  /** The outcome of reading `count` bits through the connection, as seen at the j-th of them. */
  predicate ValueGiven(m: Memory, id: AreaId, start: nat, count: nat, r: Result<seq<bool>, DriverError>, j: nat) {
    if start + count <= 16 * AreaWords(id) then
      r.Ok? && |r.value| == count && (j < count ==> r.value[j] == BitOf(m, id, start + j))
    else r == Err(FinsError(0x1104))
  }

  /** Reading bits through the connection gives the bits from the addressed one on, in order, or the server's refusal. */
  lemma ReadBitsLaw(m: Memory, link: Link, id: AreaId, area: byte, address: u16, bit: byte, count: u16, j: nat)
    requires m.Valid() && Transparent(link) && BitCode(area, id)
    ensures ValueGiven(m, id, 16 * address + bit, count, ReadBits(m, link, area, address, bit, count), j)
  {
    var a := MemoryAddress(area, address, bit);
    var r := ReadOutcome(m, link, id, a, count);
    ReadBitsFrom(m, link, id, a, count, r, j);
  }

  lemma ReadOutcome(m: Memory, link: Link, id: AreaId, a: MemoryAddress, count: u16) returns (r: (seq<byte>, u16))
    requires m.Valid() && Transparent(link) && BitCode(a.area, id)
    ensures Succeeded(link.exchange(m, ReadCommand(a, count)).1) == Answer(r.0, r.1)
    ensures BitsGiven(m, id, 16 * a.address + a.bitOffset, count, r)
  {
    r := ReadMem(m, a, count);
    ReadThrough(m, link, a, count);
    BitReadLaw(m, id, a, count);
  }

  lemma ValuesOfBytes(values: seq<bool>)
    ensures BitValues(BitBytesOf(values), |values|) == values
    ensures BitsOf(BitBytesOf(values), |values|) == values
  {
  }

  lemma WriteBitsFrom(m: Memory, link: Link, a: MemoryAddress, values: seq<bool>, w: (Memory, u16))
    requires |values| < 65536
    requires link.exchange(m, WriteCommand(a, |values|, BitBytesOf(values))).0 == w.0
    requires Succeeded(link.exchange(m, WriteCommand(a, |values|, BitBytesOf(values))).1) == Answer([], w.1)
    ensures WriteBits(m, link, a.area, a.address, a.bitOffset, values) == (w.0, Answer([], w.1))
  {
  }

  /** Writing bits through the connection is the server's bit write of as many bytes. */
  lemma WriteBitsIs(m: Memory, link: Link, a: MemoryAddress, values: seq<bool>)
    requires m.Valid() && Transparent(link) && |values| < 65536
    ensures var w := WriteMem(m, a, |values|, BitBytesOf(values));
      WriteBits(m, link, a.area, a.address, a.bitOffset, values) == (w.0, Answer([], w.1))
  {
    WriteThrough(m, link, a, |values|, BitBytesOf(values));
    WriteBitsFrom(m, link, a, values, WriteMem(m, a, |values|, BitBytesOf(values)));
  }

  /** On the server: bytes written as bits come back as those bytes, zero or one. */
  lemma BytesReadBack(m: Memory, id: AreaId, start: nat, values: seq<bool>, data: seq<byte>, w: (Memory, u16), r: (seq<byte>, u16))
    requires start + |data| <= 16 * AreaWords(id) && data == BitBytesOf(values)
    requires forall pos: nat :: BitsSet(m, id, start, |data|, data, w, id, pos)
    requires BitsGiven(w.0, id, start, |data|, r)
    ensures w.1 == 0 && r == (data, 0)
  {
    ValuesOfBytes(values);
    forall j | 0 <= j < |data| ensures r.0[j] == data[j] {
      assert BitsSet(m, id, start, |data|, data, w, id, start + j);
    }
    assert BitsSet(m, id, start, |data|, data, w, id, start);
    assert r.0 == data;
  }

  lemma MemoryReadsBack(m: Memory, id: AreaId, a: MemoryAddress, values: seq<bool>)
    requires m.Valid() && BitCode(a.area, id) && |values| < 65536
    requires 16 * a.address + a.bitOffset + |values| <= 16 * AreaWords(id)
    ensures var w := WriteMem(m, a, |values|, BitBytesOf(values));
      w.1 == 0 && ReadMem(w.0, a, |values|) == (BitBytesOf(values), 0)
  {
    var data, start := BitBytesOf(values), 16 * a.address + a.bitOffset;
    var w := WriteMem(m, a, |data|, data);
    forall pos: nat ensures BitsSet(m, id, start, |data|, data, w, id, pos) {
      BitWriteLaw(m, id, a, |data|, data, id, pos);
    }
    BitReadLaw(w.0, id, a, |data|);
    BytesReadBack(m, id, start, values, data, w, ReadMem(w.0, a, |data|));
  }

  /** Bits just written through the connection are what a read of as many bits returns. */
  lemma BitsReadBack(m: Memory, link: Link, id: AreaId, a: MemoryAddress, values: seq<bool>)
    requires m.Valid() && Transparent(link) && BitCode(a.area, id) && |values| < 65536
    requires 16 * a.address + a.bitOffset + |values| <= 16 * AreaWords(id)
    ensures var w := WriteBits(m, link, a.area, a.address, a.bitOffset, values);
      w.1.Ok? && ReadBits(w.0, link, a.area, a.address, a.bitOffset, |values|) == Ok(values)
  {
    var w := WriteMem(m, a, |values|, BitBytesOf(values));
    WriteBitsIs(m, link, a, values);
    MemoryReadsBack(m, id, a, values);
    ReadThrough(w.0, link, a, |values|);
    ReadBack(w.0, link, a, values);
  }

  lemma ReadBack(m: Memory, link: Link, a: MemoryAddress, values: seq<bool>)
    requires |values| < 65536
    requires Succeeded(link.exchange(m, ReadCommand(a, |values|)).1) == Answer(BitBytesOf(values), 0)
    ensures ReadBits(m, link, a.area, a.address, a.bitOffset, |values|) == Ok(values)
  {
    ValuesOfBytes(values);
  }

  // ----- bytes on the wire -----

  lemma FinsLayout(f: FinsFrame)
    ensures var b := FinsBytes(f);
      && b[0] == f.header.icf && b[1] == f.header.rsv && b[2] == f.header.gct
      && FinsAddress(b[3], b[4], b[5]) == f.header.dest && FinsAddress(b[6], b[7], b[8]) == f.header.src
      && b[9] == f.header.sid
      && Glue(b[10], b[11]) == f.commandCode && Glue(b[12], b[13]) == f.endCode && b[14..] == f.data
  {
  }

  lemma TcpLayout(payload: seq<byte>)
    requires Framable(payload)
    ensures var b := TcpBytes(0, 0, payload);
      && b[0] == 0x46 && b[1] == 0x49 && b[2] == 0x4e && b[3] == 0x53
      && Glue(Glue(Glue(b[4], b[5]), b[6]), b[7]) == |payload| + 4
      && b[8] == b[9] == b[10] == b[11] == 0 && b[12..] == payload
  {
    var n: u32 := |payload| + 4;
    var q := BE32(n);
    TcpBytesAre(payload, n, q);
    Quarters(n, q);
    HeaderLayout(q, payload);
  }

  lemma TcpBytesAre(payload: seq<byte>, n: u32, q: seq<byte>)
    requires n == |payload| + 4 && q == BE32(n)
    ensures TcpBytes(0, 0, payload) == MAGIC + q + BE16(0) + BE16(0) + payload
  {
    var len: int := |payload| + 4;
    assert len % 0x1_0000_0000 == len;
    assert q == BE32((|payload| + 4) % 0x1_0000_0000);
  }

  lemma HeaderLayout(q: seq<byte>, payload: seq<byte>)
    requires |q| == 4
    ensures var b := MAGIC + q + BE16(0) + BE16(0) + payload;
      && b[0] == 0x46 && b[1] == 0x49 && b[2] == 0x4e && b[3] == 0x53
      && b[4] == q[0] && b[5] == q[1] && b[6] == q[2] && b[7] == q[3]
      && b[8] == b[9] == b[10] == b[11] == 0 && b[12..] == payload
  {
  }

  lemma Quarters(n: u32, b: seq<byte>)
    requires b == BE32(n)
    ensures Glue(Glue(Glue(b[0], b[1]), b[2]), b[3]) == n
  {
    assert n / 0x1_0000 % 256 + n / 0x100_0000 * 256 == n / 0x1_0000;
    assert n / 0x100 % 256 + n / 0x1_0000 * 256 == n / 0x100;
  }

  /** Every byte of a frame on the wire, by its position. */
  lemma WireLayout(f: FinsFrame)
    requires Sendable(f)
    ensures var b := WireBytes(f);
      && |b| == 26 + |f.data|
      && b[0] == 0x46 && b[1] == 0x49 && b[2] == 0x4e && b[3] == 0x53
      && Glue(Glue(Glue(b[4], b[5]), b[6]), b[7]) == 18 + |f.data| && b[8] == b[9] == b[10] == b[11] == 0
      && b[12] == f.header.icf && b[13] == f.header.rsv && b[14] == f.header.gct
      && FinsAddress(b[15], b[16], b[17]) == f.header.dest && FinsAddress(b[18], b[19], b[20]) == f.header.src
      && b[21] == f.header.sid
      && Glue(b[22], b[23]) == f.commandCode && Glue(b[24], b[25]) == f.endCode && b[26..] == f.data
  {
    var b, p := WireBytes(f), FinsBytes(f);
    TcpLayout(p);
    FinsLayout(f);
    assert forall i :: 0 <= i < 14 ==> b[12..][i] == b[12 + i];
    assert b[26..] == b[12..][14..];
  }

  lemma CommandLayout(a: MemoryAddress, count: u16, data: seq<byte>)
    ensures ReadCommand(a, count)
         == [1, 1, a.area, a.address / 256, a.address % 256, a.bitOffset, count / 256, count % 256]
    ensures WriteCommand(a, count, data)
         == [1, 2, a.area, a.address / 256, a.address % 256, a.bitOffset, count / 256, count % 256] + data
  {
  }

  /** A request goes from the source to the destination, its response the other way, under the same id. */
  lemma RepliesGoBack(m: Memory, src: FinsAddress, dest: FinsAddress, sid: byte, command: seq<byte>)
    requires m.Valid() && |command| >= 2
    ensures var request := RequestFrame(src, dest, sid, command);
      var reply := Handle(m, request).1;
      && request.header == FinsHeader(0x80, 0, 2, dest, src, sid)
      && reply.header == FinsHeader(0xc0, 0, 2, src, dest, sid)
      && request.commandCode == reply.commandCode == Glue(command[0], command[1])
      && request.endCode == 0 && request.data == command[2..]
  {
  }
}
