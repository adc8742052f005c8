/**
 * The PLC end: five byte arrays, addressed by word commands and by bit commands, and the
 * request handler on top of them.
 */
module Plc {
  import opened Bytes
  import opened Bits
  import opened Areas
  import opened Protocol

  datatype AreaId = DM | CIO | WR | HR | AR

  function AreaWords(id: AreaId): (n: nat)
    ensures n <= 32768
  {
    match id
    case DM => 32768
    case CIO => 6144
    case WR => 512
    case HR => 512
    case AR => 512
  }

  function WordAreaOf(code: byte): Option<AreaId> {
    if code == DM_WORD then Some(DM)
    else if code == CIO_WORD then Some(CIO)
    else if code == WR_WORD then Some(WR)
    else if code == HR_WORD then Some(HR)
    else if code == AR_WORD then Some(AR)
    else None
  }

  function BitAreaOf(code: byte): Option<AreaId> {
    if code == DM_BIT then Some(DM)
    else if code == CIO_BIT then Some(CIO)
    else if code == WR_BIT then Some(WR)
    else if code == HR_BIT then Some(HR)
    else if code == AR_BIT then Some(AR)
    else None
  }

  /** The contents of the five areas. */
  datatype Memory = Memory(dm: seq<byte>, cio: seq<byte>, wr: seq<byte>, hr: seq<byte>, ar: seq<byte>) {

    function Get(id: AreaId): seq<byte> {
      match id
      case DM => dm
      case CIO => cio
      case WR => wr
      case HR => hr
      case AR => ar
    }

    function Put(id: AreaId, bytes: seq<byte>): Memory {
      match id
      case DM => this.(dm := bytes)
      case CIO => this.(cio := bytes)
      case WR => this.(wr := bytes)
      case HR => this.(hr := bytes)
      case AR => this.(ar := bytes)
    }

    predicate Valid() {
      forall id :: |Get(id)| == 2 * AreaWords(id)
    }
  }

  lemma GetPut(m: Memory, id: AreaId, bytes: seq<byte>, other: AreaId)
    ensures m.Put(id, bytes).Get(other) == if other == id then bytes else m.Get(other)
  {
  }

  // ----- the word view -----

  /** Big-endian word `k` of an area. */
  function Word(bytes: seq<byte>, k: nat): u16
    requires 2 * k + 1 < |bytes|
  {
    (bytes[2 * k] as int) * 256 + bytes[2 * k + 1]
  }

  /** Go's `copy(area[start:end], data)`: as much of `data` as the slice holds. */
  function Overwrite(bytes: seq<byte>, start: nat, end: nat, data: seq<byte>): (r: seq<byte>)
    requires start <= end <= |bytes|
    ensures |r| == |bytes|
  {
    var n := if |data| < end - start then |data| else end - start;
    bytes[..start] + data[..n] + bytes[start + n..]
  }

  // ----- the bit view -----

  /** Areas hold whole words, so a bit position has both bytes of its word. */
  predicate HasBit(bytes: seq<byte>, pos: nat) {
    |bytes| % 2 == 0 && pos < 8 * |bytes|
  }

  /** Bit `pos mod 16` of big-endian word `pos div 16`. */
  predicate BitAt(bytes: seq<byte>, pos: nat)
    requires HasBit(bytes, pos)
  {
    Bit(Word(bytes, pos / 16), pos % 16)
  }

  /** Where the handler finds that bit: counted from the left end of the word. */
  function ByteIndex(pos: nat): nat {
    pos / 16 * 2 + (15 - pos % 16) / 8
  }

  function BitIndex(pos: nat): (r: nat)
    ensures r < 8
  {
    7 - (15 - pos % 16) % 8
  }

  /** The handler's byte arithmetic addresses the bit of the big-endian word. */
  lemma ByteViewIsWordView(bytes: seq<byte>, pos: nat)
    requires HasBit(bytes, pos)
    ensures ByteIndex(pos) < |bytes|
    ensures BitAt(bytes, pos) == Bit(bytes[ByteIndex(pos)], BitIndex(pos))
  {
    var k, i := pos / 16, pos % 16;
    Pow2Is256();
    GluedBit(bytes[2 * k], bytes[2 * k + 1], 8, i);
    if i < 8 {
      assert ByteIndex(pos) == 2 * k + 1 && BitIndex(pos) == i;
    } else {
      assert ByteIndex(pos) == 2 * k && BitIndex(pos) == i - 8;
    }
  }

  function WithBit(b: byte, i: nat, on: bool): byte
    requires i < 8
  {
    Pow2Is256();
    SetBitBound(b, i, on, 8);
    SetBit(b, i, on)
  }

  function PutBit(bytes: seq<byte>, pos: nat, on: bool): (r: seq<byte>)
    requires HasBit(bytes, pos)
    ensures |r| == |bytes|
  {
    bytes[ByteIndex(pos) := WithBit(bytes[ByteIndex(pos)], BitIndex(pos), on)]
  }

  lemma PutBitReads(bytes: seq<byte>, pos: nat, on: bool, q: nat)
    requires HasBit(bytes, pos) && HasBit(bytes, q)
    ensures BitAt(PutBit(bytes, pos, on), q) == if q == pos then on else BitAt(bytes, q)
  {
    ByteViewIsWordView(bytes, q);
    ByteViewIsWordView(PutBit(bytes, pos, on), q);
    ByteViewIsWordView(bytes, pos);
    PutBitInBytes(bytes, pos, on, q);
  }

  lemma PutBitInBytes(bytes: seq<byte>, pos: nat, on: bool, q: nat)
    requires HasBit(bytes, pos) && ByteIndex(pos) < |bytes| && ByteIndex(q) < |bytes|
    ensures Bit(PutBit(bytes, pos, on)[ByteIndex(q)], BitIndex(q))
      == if q == pos then on else Bit(bytes[ByteIndex(q)], BitIndex(q))
  {
    BitInByte(bytes, ByteIndex(pos), BitIndex(pos), on, ByteIndex(q), BitIndex(q));
    if q != pos {
      DifferentBits(pos, q);
    }
  }

  /** The same write in the byte view: byte b, bit i against byte c, bit j. */
  lemma BitInByte(bytes: seq<byte>, b: nat, i: nat, on: bool, c: nat, j: nat)
    requires b < |bytes| && c < |bytes| && i < 8
    ensures Bit(bytes[b := WithBit(bytes[b], i, on)][c], j) == if b == c && i == j then on else Bit(bytes[c], j)
  {
    SetBitReads(bytes[b], i, on, j);
  }

  lemma DifferentBits(p: nat, q: nat)
    requires p != q
    ensures ByteIndex(p) != ByteIndex(q) || BitIndex(p) != BitIndex(q)
  {
    var i, j := p % 16, q % 16;
    assert (15 - i) / 8 == if i < 8 then 1 else 0;
    assert (15 - j) / 8 == if j < 8 then 1 else 0;
  }

  /** A bit write: every byte of `data` is one bit, non-zero meaning on. */
  function PutBits(bytes: seq<byte>, start: nat, data: seq<byte>): (r: seq<byte>)
    requires |bytes| % 2 == 0 && start + |data| <= 8 * |bytes|
    ensures |r| == |bytes|
    decreases |data|
  {
    if data == [] then bytes
    else
      var last := |data| - 1;
      PutBit(PutBits(bytes, start, data[..last]), start + last, data[last] != 0)
  }

  lemma PutBitsSnoc(bytes: seq<byte>, start: nat, data: seq<byte>, i: nat)
    requires |bytes| % 2 == 0 && i < |data| && start + i < 8 * |bytes|
    ensures PutBits(bytes, start, data[..i + 1])
         == PutBit(PutBits(bytes, start, data[..i]), start + i, data[i] != 0)
  {
    assert data[..i + 1][..i] == data[..i];
  }

  /** A bit write changes exactly the addressed bits of the addressed words, and no others. */
  lemma {:induction false} PutBitsReads(bytes: seq<byte>, start: nat, data: seq<byte>, q: nat)
    requires |bytes| % 2 == 0 && start + |data| <= 8 * |bytes| && q < 8 * |bytes|
    ensures BitAt(PutBits(bytes, start, data), q)
         == if start <= q < start + |data| then data[q - start] != 0 else BitAt(bytes, q)
    decreases |data|
  {
    if data != [] {
      var last := |data| - 1;
      var before := PutBits(bytes, start, data[..last]);
      PutBitsReads(bytes, start, data[..last], q);
      PutBitReads(before, start + last, data[last] != 0, q);
      assert PutBits(bytes, start, data) == PutBit(before, start + last, data[last] != 0);
    }
  }

  /** An area is determined by its bit view, so the law above fixes every byte. */
  lemma BitsDetermineArea(a: seq<byte>, b: seq<byte>)
    requires |a| == |b| && |a| % 2 == 0
    requires forall q: nat :: q < 8 * |a| ==> BitAt(a, q) == BitAt(b, q)
    ensures a == b
  {
    forall k | 0 <= k < |a| ensures a[k] == b[k] {
      forall i: nat | i < 8 ensures Bit(a[k], i) == Bit(b[k], i) {
        var q := k / 2 * 16 + (if k % 2 == 1 then i else i + 8);
        assert q / 16 == k / 2 && q % 16 == if k % 2 == 1 then i else i + 8;
        assert BitAt(a, q) == BitAt(b, q);
        ByteViewIsWordView(a, q);
        ByteViewIsWordView(b, q);
        assert ByteIndex(q) == k && BitIndex(q) == i by {
          if k % 2 == 1 {
            assert (15 - i) / 8 == 1;
          } else {
            assert (15 - (i + 8)) / 8 == 0;
          }
        }
      }
      Pow2Is256();
      BitsDetermine(a[k], b[k], 8);
    }
  }

  /** Bits read as one byte each. */
  function BitBytes(bytes: seq<byte>, start: nat, count: nat): (r: seq<byte>)
    requires |bytes| % 2 == 0 && start + count <= 8 * |bytes|
    ensures |r| == count
    ensures forall i :: 0 <= i < count ==> r[i] == if BitAt(bytes, start + i) then 1 else 0
  {
    seq(count, i requires 0 <= i < count => if BitAt(bytes, start + i) then 1 else 0)
  }

  /** At most `count` of the bytes. */
  function Clip(data: seq<byte>, count: nat): (r: seq<byte>)
    ensures |r| <= count
  {
    if |data| <= count then data else data[..count]
  }

  // ----- the two memory operations -----

  function StartBit(a: MemoryAddress): nat {
    a.address * 16 + a.bitOffset
  }

  function ReadMem(m: Memory, a: MemoryAddress, count: u16): (r: (seq<byte>, u16))
    requires m.Valid()
    ensures r.1 != END_NORMAL ==> r.0 == []
    ensures r.1 == END_NORMAL ==> |r.0| == if IsWordArea(a.area) then 2 * count else count
  {
    if IsWordArea(a.area) then
      match WordAreaOf(a.area)
      case None => ([], END_NOT_SUPPORTED)
      case Some(id) =>
        var start, end := a.address * 2, a.address * 2 + count * 2;
        if end > |m.Get(id)| then ([], END_ADDR_RANGE_EXCEED)
        else (m.Get(id)[start..end], END_NORMAL)
    else if IsBitArea(a.area) then
      match BitAreaOf(a.area)
      case None => ([], END_NOT_SUPPORTED)
      case Some(id) =>
        if StartBit(a) + count > AreaWords(id) * 16 then ([], END_ADDR_RANGE_EXCEED)
        else (BitBytes(m.Get(id), StartBit(a), count), END_NORMAL)
    else ([], END_NOT_SUPPORTED)
  }

  function WriteMem(m: Memory, a: MemoryAddress, count: u16, data: seq<byte>): (r: (Memory, u16))
    requires m.Valid()
    ensures r.0.Valid()
    ensures r.1 != END_NORMAL ==> r.0 == m
  {
    if IsWordArea(a.area) then
      match WordAreaOf(a.area)
      case None => (m, END_NOT_SUPPORTED)
      case Some(id) =>
        var start, end := a.address * 2, a.address * 2 + count * 2;
        if end > |m.Get(id)| then (m, END_ADDR_RANGE_EXCEED)
        else (m.Put(id, Overwrite(m.Get(id), start, end, data)), END_NORMAL)
    else if IsBitArea(a.area) then
      match BitAreaOf(a.area)
      case None => (m, END_NOT_SUPPORTED)
      case Some(id) =>
        if StartBit(a) + count > AreaWords(id) * 16 then (m, END_ADDR_RANGE_EXCEED)
        else
          (m.Put(id, PutBits(m.Get(id), StartBit(a), Clip(data, count))), END_NORMAL)
    else (m, END_NOT_SUPPORTED)
  }

  /** The request handler: new memory and response frame. */
  function Handle(m: Memory, req: FinsFrame): (r: (Memory, FinsFrame))
    requires m.Valid()
    ensures r.0.Valid()
    ensures r.1.header == ResponseHeader(req.header) && r.1.commandCode == req.commandCode
    ensures Sendable(r.1)
  {
    var header := ResponseHeader(req.header);
    if req.commandCode == READ_COMMAND then
      if |req.data| < 6 then (m, FinsFrame(header, req.commandCode, END_CMD_TOO_SHORT, []))
      else
        var (data, end) := ReadMem(m, DecodeAddress(req.data[0..4]), DecBE16(req.data[4..6]));
        (m, FinsFrame(header, req.commandCode, end, data))
    else if req.commandCode == WRITE_COMMAND then
      if |req.data| < 6 then (m, FinsFrame(header, req.commandCode, END_CMD_TOO_SHORT, []))
      else
        var (m', end) := WriteMem(m, DecodeAddress(req.data[0..4]), DecBE16(req.data[4..6]), req.data[6..]);
        (m', FinsFrame(header, req.commandCode, end, []))
    else if req.commandCode == STATUS_COMMAND then
      (m, FinsFrame(header, req.commandCode, END_NORMAL, [0, 0]))
    else
      (m, FinsFrame(header, req.commandCode, END_UNDEFINED_CMD, []))
  }

  // ----- the PLC as the program holds it: five byte arrays changed in place -----

  class MockPlc {
    const dmArea: array<byte>
    const cioArea: array<byte>
    const wArea: array<byte>
    const hArea: array<byte>
    const aArea: array<byte>

    ghost predicate Valid() {
      && dmArea.Length == 2 * 32768 && cioArea.Length == 2 * 6144
      && wArea.Length == 2 * 512 && hArea.Length == 2 * 512 && aArea.Length == 2 * 512
      && dmArea != cioArea && dmArea != wArea && dmArea != hArea && dmArea != aArea
      && cioArea != wArea && cioArea != hArea && cioArea != aArea
      && wArea != hArea && wArea != aArea && hArea != aArea
    }

    ghost function Contents(): (m: Memory)
      requires Valid()
      reads dmArea, cioArea, wArea, hArea, aArea
      ensures m.Valid()
    {
      Memory(dmArea[..], cioArea[..], wArea[..], hArea[..], aArea[..])
    }

    constructor ()
      ensures Valid()
      ensures fresh(dmArea) && fresh(cioArea) && fresh(wArea) && fresh(hArea) && fresh(aArea)
      ensures forall id, i :: 0 <= i < |Contents().Get(id)| ==> Contents().Get(id)[i] == 0
    {
      dmArea := new byte[2 * 32768](_ => 0);
      cioArea := new byte[2 * 6144](_ => 0);
      wArea := new byte[2 * 512](_ => 0);
      hArea := new byte[2 * 512](_ => 0);
      aArea := new byte[2 * 512](_ => 0);
    }

    function Area(id: AreaId): (a: array<byte>)
      requires Valid()
      ensures a.Length == 2 * AreaWords(id)
    {
      match id
      case DM => dmArea
      case CIO => cioArea
      case WR => wArea
      case HR => hArea
      case AR => aArea
    }

    method ReadMemory(addr: MemoryAddress, count: u16) returns (data: seq<byte>, endCode: u16)
      requires Valid()
      ensures (data, endCode) == ReadMem(Contents(), addr, count)
    {
      if IsWordArea(addr.area) {
        var found := WordAreaOf(addr.area);
        if found.None? {
          return [], END_NOT_SUPPORTED;
        }
        var area := Area(found.value);
        var startByte := addr.address * 2;
        var endByte := startByte + count * 2;
        if endByte > area.Length {
          return [], END_ADDR_RANGE_EXCEED;
        }
        return area[startByte..endByte], END_NORMAL;
      }
      if IsBitArea(addr.area) {
        var found := BitAreaOf(addr.area);
        if found.None? {
          return [], END_NOT_SUPPORTED;
        }
        var area := Area(found.value);
        var maxBits := AreaWords(found.value) * 16;
        var startBit := addr.address * 16 + addr.bitOffset;
        if startBit + count > maxBits {
          return [], END_ADDR_RANGE_EXCEED;
        }
        data := ReadBits(area, startBit, count);
        return data, END_NORMAL;
      }
      return [], END_NOT_SUPPORTED;
    }

    /** The bit-reading loop, with its index arithmetic. */
    static method ReadBits(area: array<byte>, startBit: nat, count: nat) returns (data: seq<byte>)
      requires area.Length % 2 == 0 && startBit + count <= 8 * area.Length
      ensures data == BitBytes(area[..], startBit, count)
    {
      data := [];
      for i := 0 to count
        invariant data == BitBytes(area[..], startBit, i)
      {
        var bitPos := startBit + i;
        var wordByteIdx := bitPos / 16 * 2;
        var bitInWord := bitPos % 16;
        var bitFromLeft := 15 - bitInWord;
        var byteOffset := wordByteIdx + bitFromLeft / 8;
        var bitInByte := 7 - bitFromLeft % 8;
        ByteViewIsWordView(area[..], bitPos);
        data := data + [if Bit(area[byteOffset], bitInByte) then 1 else 0];
      }
    }

    method WriteMemory(addr: MemoryAddress, count: u16, data: seq<byte>) returns (endCode: u16)
      requires Valid()
      modifies dmArea, cioArea, wArea, hArea, aArea
      ensures (Contents(), endCode) == WriteMem(old(Contents()), addr, count, data)
    {
      if IsWordArea(addr.area) {
        endCode := WriteWordArea(addr, count, data);
      } else if IsBitArea(addr.area) {
        endCode := WriteBitArea(addr, count, data);
      } else {
        endCode := END_NOT_SUPPORTED;
      }
    }

    method WriteWordArea(addr: MemoryAddress, count: u16, data: seq<byte>) returns (endCode: u16)
      requires Valid() && IsWordArea(addr.area)
      modifies dmArea, cioArea, wArea, hArea, aArea
      ensures (Contents(), endCode) == WriteMem(old(Contents()), addr, count, data)
    {
      var found := WordAreaOf(addr.area);
      if found.None? {
        return END_NOT_SUPPORTED;
      }
      var startByte := addr.address * 2;
      var endByte := startByte + count * 2;
      if endByte > Area(found.value).Length {
        return END_ADDR_RANGE_EXCEED;
      }
      StoreBytes(found.value, startByte, endByte, data);
      return END_NORMAL;
    }

    method WriteBitArea(addr: MemoryAddress, count: u16, data: seq<byte>) returns (endCode: u16)
      requires Valid() && !IsWordArea(addr.area) && IsBitArea(addr.area)
      modifies dmArea, cioArea, wArea, hArea, aArea
      ensures (Contents(), endCode) == WriteMem(old(Contents()), addr, count, data)
    {
      var found := BitAreaOf(addr.area);
      if found.None? {
        return END_NOT_SUPPORTED;
      }
      var maxBits := AreaWords(found.value) * 16;
      var startBit := addr.address * 16 + addr.bitOffset;
      if startBit + count > maxBits {
        return END_ADDR_RANGE_EXCEED;
      }
      StoreBits(found.value, startBit, count, data);
      return END_NORMAL;
    }

    /** The copy into the addressed words: it stops at the end of the data or of the words. */
    method StoreBytes(id: AreaId, startByte: nat, endByte: nat, data: seq<byte>)
      requires Valid() && startByte <= endByte <= Area(id).Length
      modifies Area(id)
      ensures Contents() == old(Contents()).Put(id, Overwrite(old(Contents()).Get(id), startByte, endByte, data))
    {
      var area := Area(id);
      var n := if |data| < endByte - startByte then |data| else endByte - startByte;
      CopyInto(area, startByte, data[..n]);
    }

    method StoreBits(id: AreaId, startBit: nat, count: u16, data: seq<byte>)
      requires Valid() && startBit + count <= AreaWords(id) * 16
      modifies Area(id)
      ensures Contents() == old(Contents()).Put(id, PutBits(old(Contents()).Get(id), startBit, Clip(data, count)))
    {
      WriteBits(Area(id), startBit, count, data);
    }

    /** One turn of the bit-writing loop, with its index arithmetic. */
    static method WriteBit(area: array<byte>, bitPos: nat, on: bool)
      requires HasBit(area[..], bitPos)
      modifies area
      ensures area[..] == PutBit(old(area[..]), bitPos, on)
    {
      var wordByteIdx := bitPos / 16 * 2;
      var bitInWord := bitPos % 16;
      var bitFromLeft := 15 - bitInWord;
      var byteOffset := wordByteIdx + bitFromLeft / 8;
      var bitInByte := 7 - bitFromLeft % 8;
      area[byteOffset] := WithBit(area[byteOffset], bitInByte, on);
    }

    /** The bit-writing loop, in place. */
    static method WriteBits(area: array<byte>, startBit: nat, count: nat, data: seq<byte>)
      requires area.Length % 2 == 0 && startBit + count <= 8 * area.Length
      modifies area
      ensures area[..] == PutBits(old(area[..]), startBit, Clip(data, count))
    {
      var i := 0;
      while i < count && i < |data|
        invariant 0 <= i <= count && i <= |data|
        invariant area[..] == PutBits(old(area[..]), startBit, data[..i])
      {
        PutBitsSnoc(old(area[..]), startBit, data, i);
        WriteBit(area, startBit + i, data[i] != 0);
        i := i + 1;
      }
      assert data[..i] == Clip(data, count);
    }

    method HandleRequest(req: FinsFrame) returns (resp: FinsFrame)
      requires Valid()
      modifies dmArea, cioArea, wArea, hArea, aArea
      ensures (Contents(), resp) == Handle(old(Contents()), req)
    {
      resp := FinsFrame(ResponseHeader(req.header), req.commandCode, END_NORMAL, []);
      if req.commandCode == READ_COMMAND {
        if |req.data| < 6 {
          resp := resp.(endCode := END_CMD_TOO_SHORT);
          return;
        }
        var data, endCode := ReadMemory(DecodeAddress(req.data[0..4]), DecBE16(req.data[4..6]));
        resp := resp.(data := data, endCode := endCode);
      } else if req.commandCode == WRITE_COMMAND {
        if |req.data| < 6 {
          resp := resp.(endCode := END_CMD_TOO_SHORT);
          return;
        }
        var endCode := WriteMemory(DecodeAddress(req.data[0..4]), DecBE16(req.data[4..6]), req.data[6..]);
        resp := resp.(endCode := endCode);
      } else if req.commandCode == STATUS_COMMAND {
        resp := resp.(data := [0, 0]);
      } else {
        resp := resp.(endCode := END_UNDEFINED_CMD);
      }
    }
  }
}
