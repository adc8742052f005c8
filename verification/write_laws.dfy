/** What a successful point write does: the point reads back, everything else reads as before. */
module WriteLaws {
  import opened Bytes
  import opened Areas
  import opened Types
  import opened Decoder
  import opened Protocol
  import opened Planner
  import opened Plc
  import opened Exchange
  import opened Scheduler
  import opened BatchLaws

  // ----- readings in terms of the memory -----

  /** A bit access goes to the memory its word area lives in. */
  lemma SameMemory(code: byte)
    requires IsWordArea(code)
    ensures var b := BitAccessCode(code);
      if IsWordArea(b) then b == code && WordAreaOf(b) == None
      else IsBitArea(b) && BitAreaOf(b) == WordAreaOf(code)
  {
  }

  function BitAddress(m: Member): MemoryAddress {
    MemoryAddress(BitAccessCode(m.parsed.areaCode), m.parsed.address % 65536, m.parsed.bit % 256)
  }

  /** The bit position of a bit point. */
  function BitPos(m: Member): nat { StartBit(BitAddress(m)) }

  predicate HasBitOf(m: Member, id: AreaId) { BitPos(m) < AreaWords(id) * 16 }

  /** What a point reads as, straight from the memory. */
  function DirectReading(mem: Memory, m: Member): Reading
    requires mem.Valid()
  {
    if IsBitPoint(m) then
      match WordAreaOf(m.parsed.areaCode)
      case None => Bad
      case Some(id) => if HasBitOf(m, id) then Good(VBool(BitAt(mem.Get(id), BitPos(m)))) else Bad
    else ReadingOf(SingleGroup(m), GroupedPoint(m, 0), GroupSlice(mem, SingleGroup(m)))
  }

  /** One bit of memory, as the server sends it. */
  lemma ReadMemBit(mem: Memory, id: AreaId, a: MemoryAddress)
    requires mem.Valid() && !IsWordArea(a.area) && IsBitArea(a.area) && BitAreaOf(a.area) == Some(id)
    ensures ReadMem(mem, a, 1) ==
      if StartBit(a) < AreaWords(id) * 16
      then ([if BitAt(mem.Get(id), StartBit(a)) then 1 else 0], END_NORMAL)
      else ([], END_ADDR_RANGE_EXCEED)
  {
    if StartBit(a) < AreaWords(id) * 16 {
      var r := BitBytes(mem.Get(id), StartBit(a), 1);
      assert r == [r[0]];
      assert r[0] == if BitAt(mem.Get(id), StartBit(a) + 0) then 1 else 0;
    }
  }

  lemma OneBit(data: seq<byte>)
    requires |data| == 1
    ensures BitBytesOf(BitsOf(data, 1)) == [if data[0] % 2 == 1 then 1 else 0]
  {
  }

  /** The data of a bit point's request. */
  lemma BitGroupData(mem: Memory, link: Link, m: Member)
    requires mem.Valid() && Transparent(link) && IsBitPoint(m)
    ensures var r := ReadMem(mem, BitAddress(m), 1);
      ReadGroup(mem, link, SingleGroup(m))
      == if r.1 == END_NORMAL then Some(BitBytesOf(BitsOf(r.0, 1))) else None
  {
    var a := BitAddress(m);
    assert Succeeded(link.exchange(mem, ReadCommand(a, 1)).1) == Answer(ReadMem(mem, a, 1).0, ReadMem(mem, a, 1).1);
    assert SingleGroup(m).points[0].member == m;
  }

  /** The exchange adds nothing: a point reads as its place in memory says. */
  lemma AloneIsDirect(mem: Memory, link: Link, m: Member)
    requires mem.Valid() && Transparent(link) && IsWordArea(m.parsed.areaCode)
    ensures AloneReading(mem, link, m) == DirectReading(mem, m)
  {
    if IsBitPoint(m) {
      SameMemory(m.parsed.areaCode);
      BitGroupData(mem, link, m);
      var r := ReadMem(mem, BitAddress(m), 1);
      match WordAreaOf(m.parsed.areaCode)
      case None =>
        assert r.1 == END_NOT_SUPPORTED;
      case Some(id) =>
        ReadMemBit(mem, id, BitAddress(m));
        if r.1 == END_NORMAL {
          OneBit(r.0);
        }
    } else {
      ReadGroupWords(mem, link, SingleGroup(m));
    }
  }

  // ----- writes in terms of the memory -----

  /** Words written, and with what. */
  function WriteWordsOf(m: Member, encoded: seq<byte>): (u16, seq<byte>) {
    WriteData(m.point.dataType, m.parsed, encoded)
  }

  function OnByte(encoded: seq<byte>): byte { if |encoded| > 0 && encoded[0] != 0 then 1 else 0 }

  /** The memory with one bit of an area set or cleared. */
  function WithOneBit(mem: Memory, id: AreaId, pos: nat, on: bool): (r: Memory)
    requires mem.Valid() && pos < AreaWords(id) * 16
    ensures r.Valid()
  {
    mem.Put(id, PutBit(mem.Get(id), pos, on))
  }

  lemma OneBitPut(bytes: seq<byte>, pos: nat, b: byte)
    requires HasBit(bytes, pos)
    ensures PutBits(bytes, pos, [b]) == PutBit(bytes, pos, b != 0)
  {
    assert [b][..0] == [];
    assert PutBits(bytes, pos, []) == bytes;
  }

  /** The memory with words of an area overwritten, if it has them. */
  function PutWords(mem: Memory, code: byte, start: u16, count: u16, data: seq<byte>): (r: Option<Memory>)
    requires mem.Valid()
    ensures r.Some? ==> r.value.Valid() && WordAreaOf(code).Some?
  {
    match WordAreaOf(code)
    case None => None
    case Some(id) =>
      if start + count <= AreaWords(id)
      then Some(mem.Put(id, Overwrite(mem.Get(id), 2 * start, 2 * (start + count), data))) else None
  }

  /** The memory a write leaves, if the area has the place. */
  function DirectWrite(mem: Memory, m: Member, encoded: seq<byte>): (r: Option<Memory>)
    requires mem.Valid()
    ensures r.Some? ==> r.value.Valid()
  {
    if IsBitPoint(m) then
      match WordAreaOf(m.parsed.areaCode)
      case None => None
      case Some(id) =>
        if HasBitOf(m, id) then Some(WithOneBit(mem, id, BitPos(m), OnByte(encoded) != 0)) else None
    else
      var (count, data) := WriteWordsOf(m, encoded);
      PutWords(mem, m.parsed.areaCode, m.parsed.address % 65536, count, data)
  }

  lemma WriteMemBit(mem: Memory, id: AreaId, a: MemoryAddress, b: byte)
    requires mem.Valid() && !IsWordArea(a.area) && IsBitArea(a.area) && BitAreaOf(a.area) == Some(id)
    ensures WriteMem(mem, a, 1, [b]) ==
      if StartBit(a) < AreaWords(id) * 16
      then (WithOneBit(mem, id, StartBit(a), b != 0), END_NORMAL)
      else (mem, END_ADDR_RANGE_EXCEED)
  {
    assert Clip([b], 1) == [b];
    if StartBit(a) < AreaWords(id) * 16 {
      OneBitPut(mem.Get(id), StartBit(a), b);
    }
  }

  lemma BitWriteIsDirect(mem: Memory, link: Link, m: Member, encoded: seq<byte>)
    requires mem.Valid() && Transparent(link) && IsWordArea(m.parsed.areaCode) && IsBitPoint(m)
    ensures var w := WriteEncoded(mem, link, m.point.dataType, m.parsed, encoded);
      var d := DirectWrite(mem, m, encoded);
      (w.1.Ok? <==> d.Some?) && w.0 == if d.Some? then d.value else mem
  {
    var a, b := BitAddress(m), OnByte(encoded);
    assert BitBytesOf([b == 1]) == [b];
    assert link.exchange(mem, WriteCommand(a, 1, [b])).0 == WriteMem(mem, a, 1, [b]).0;
    SameMemory(m.parsed.areaCode);
    match WordAreaOf(m.parsed.areaCode)
    case None =>
      assert WriteMem(mem, a, 1, [b]) == (mem, END_NOT_SUPPORTED);
    case Some(id) =>
      WriteMemBit(mem, id, a, b);
  }

  lemma WordWriteIsDirect(mem: Memory, link: Link, m: Member, encoded: seq<byte>)
    requires mem.Valid() && Transparent(link) && IsWordArea(m.parsed.areaCode) && !IsBitPoint(m)
    requires |WriteWordsOf(m, encoded).1| < 0xfffe_0000
    ensures var w := WriteEncoded(mem, link, m.point.dataType, m.parsed, encoded);
      var d := DirectWrite(mem, m, encoded);
      (w.1.Ok? <==> d.Some?) && w.0 == if d.Some? then d.value else mem
  {
    var (count, data) := WriteWordsOf(m, encoded);
    var a := MemoryAddress(m.parsed.areaCode, m.parsed.address % 65536, 0);
    WriteMemWords(mem, a, count, data);
    WriteWordsThrough(mem, link, a, count, data);
    assert WriteEncoded(mem, link, m.point.dataType, m.parsed, encoded)
        == WriteWords(mem, link, a.area, a.address, count, data);
  }

  lemma WriteWordsThrough(mem: Memory, link: Link, a: MemoryAddress, count: u16, data: seq<byte>)
    requires mem.Valid() && Transparent(link) && |data| < 0xfffe_0000 && a.bitOffset == 0
    ensures var w, d := WriteWords(mem, link, a.area, a.address, count, data), WriteMem(mem, a, count, data);
      w.0 == d.0 && (w.1.Ok? <==> d.1 == END_NORMAL)
  {
    assert MemoryAddress(a.area, a.address, 0) == a;
    assert link.exchange(mem, WriteCommand(a, count, data)).0 == WriteMem(mem, a, count, data).0;
  }

  lemma WriteMemWords(mem: Memory, a: MemoryAddress, count: u16, data: seq<byte>)
    requires mem.Valid() && IsWordArea(a.area)
    ensures var w, p := WriteMem(mem, a, count, data), PutWords(mem, a.area, a.address, count, data);
      (w.1 == END_NORMAL <==> p.Some?) && w.0 == if p.Some? then p.value else mem
  {
    match WordAreaOf(a.area)
    case None =>
    case Some(id) =>
      assert |mem.Get(id)| == 2 * AreaWords(id);
      assert a.address * 2 == 2 * a.address && a.address * 2 + count * 2 == 2 * (a.address + count);
  }

  // ----- reading back, on the memory -----

  lemma OverwriteReads(bytes: seq<byte>, start: nat, end: nat, data: seq<byte>)
    requires start <= end <= |bytes| && |data| <= end - start
    ensures Overwrite(bytes, start, end, data)[start..end][..|data|] == data
  {
    var r := Overwrite(bytes, start, end, data);
    assert r[start..end][..|data|] == r[start..start + |data|];
  }

  lemma WithOneBitReads(mem: Memory, id: AreaId, pos: nat, on: bool, other: AreaId, q: nat)
    requires mem.Valid() && pos < AreaWords(id) * 16 && q < AreaWords(other) * 16
    ensures BitAt(WithOneBit(mem, id, pos, on).Get(other), q)
         == if other == id && q == pos then on else BitAt(mem.Get(other), q)
  {
    GetPut(mem, id, PutBit(mem.Get(id), pos, on), other);
    if other == id {
      PutBitReads(mem.Get(id), pos, on, q);
    }
  }

  lemma DirectBit(mem: Memory, m: Member, encoded: seq<byte>)
    requires mem.Valid() && IsBitPoint(m) && DirectWrite(mem, m, encoded).Some?
    ensures DirectReading(DirectWrite(mem, m, encoded).value, m) == Good(VBool(OnByte(encoded) == 1))
  {
    var id := WordAreaOf(m.parsed.areaCode).value;
    WithOneBitReads(mem, id, BitPos(m), OnByte(encoded) != 0, id, BitPos(m));
  }

  /** The words just written are what a read of as many words fetches. */
  lemma DirectWords(mem: Memory, m: Member, encoded: seq<byte>)
    requires mem.Valid() && !IsBitPoint(m) && DirectWrite(mem, m, encoded).Some?
    requires WriteWordsOf(m, encoded).0 == Words(m) && |WriteWordsOf(m, encoded).1| <= 2 * Words(m)
    ensures var slice := GroupSlice(DirectWrite(mem, m, encoded).value, SingleGroup(m));
      var data := WriteWordsOf(m, encoded).1;
      slice.Some? && |slice.value| == 2 * Words(m) && slice.value[..|data|] == data
  {
    var (count, data) := WriteWordsOf(m, encoded);
    PutWordsPrefix(mem, m.parsed.areaCode, m.parsed.address % 65536, count, data);
  }

  lemma PutWordsPrefix(mem: Memory, code: byte, start: u16, count: u16, data: seq<byte>)
    requires mem.Valid() && PutWords(mem, code, start, count, data).Some? && |data| <= 2 * count
    ensures var slice := WordSlice(PutWords(mem, code, start, count, data).value, code, start, count);
      slice.Some? && |slice.value| == 2 * count && slice.value[..|data|] == data
  {
    var id := WordAreaOf(code).value;
    GetPut(mem, id, Overwrite(mem.Get(id), 2 * start, 2 * (start + count), data), id);
    OverwriteReads(mem.Get(id), 2 * start, 2 * (start + count), data);
  }

  lemma DirectNumber(mem: Memory, m: Member, u: nat)
    requires mem.Valid() && !IsBitPoint(m) && !m.parsed.isString && DataTypeSize(m.point.dataType) > 0
    requires var n := DataTypeSize(m.point.dataType);
      u < Pow256(n) && DirectWrite(mem, m, PutUint(m.parsed, u, n)).Some?
    ensures var n := DataTypeSize(m.point.dataType);
      DirectReading(DirectWrite(mem, m, PutUint(m.parsed, u, n)).value, m) == Good(NumberValue(m.point.dataType, u))
  {
    var n := DataTypeSize(m.point.dataType);
    var encoded := PutUint(m.parsed, u, n);
    assert WriteWordsOf(m, encoded) == (Words(m), encoded);
    DirectWords(mem, m, encoded);
    var data := GroupSlice(DirectWrite(mem, m, encoded).value, SingleGroup(m)).value;
    DecodeNumber(data, m, u);
  }

  lemma DecodeNumber(data: seq<byte>, m: Member, u: nat)
    requires !IsBitPoint(m) && !m.parsed.isString && DataTypeSize(m.point.dataType) > 0
    requires var n := DataTypeSize(m.point.dataType);
      u < Pow256(n) && n <= |data| && data[..n] == PutUint(m.parsed, u, n)
    ensures ReadingOf(SingleGroup(m), GroupedPoint(m, 0), Some(data)) == Good(NumberValue(m.point.dataType, u))
  {
    var n := DataTypeSize(m.point.dataType);
    UintRoundTrip(m.parsed, u, n);
    assert data[0..0 + n] == data[..n];
    assert data[..n][..n] == data[..n];
  }

  // ----- string fields: the word count goes out in 16 bits -----

  function FieldWords(n: nat): nat { (n + 1) / 2 % 65536 }

  /** The bytes of a field of n bytes that arrive in memory and are read back from it. */
  function FieldKept(text: seq<byte>, n: nat): seq<byte> {
    Pad(text, n)[..if n < 2 * FieldWords(n) then n else 2 * FieldWords(n)]
  }

  predicate TextField(m: Member) {
    !IsBitPoint(m) && m.parsed.isString && m.point.dataType.STRING? && 0 < m.parsed.stringLen
  }

  /** What goes out for a field begins with what is kept of it, and nothing else is stored. */
  lemma FieldData(m: Member, text: seq<byte>)
    requires TextField(m)
    ensures var n := m.parsed.stringLen;
      var (count, data) := WriteWordsOf(m, Pad(text, n));
      && count == FieldWords(n) == Words(m) % 65536 && |data| >= 2 * count
      && data[..|FieldKept(text, n)|] == FieldKept(text, n) && |FieldKept(text, n)| <= 2 * count
  {
    var n := m.parsed.stringLen;
    var data, kept := WriteWordsOf(m, Pad(text, n)).1, FieldKept(text, n);
    assert data[..|kept|] == kept;
  }

  /** A read of the words just written fetches the data, as far as it was stored. */
  lemma PutWordsReads(mem: Memory, code: byte, start: u16, count: u16, data: seq<byte>)
    requires mem.Valid() && PutWords(mem, code, start, count, data).Some? && |data| >= 2 * count
    ensures WordSlice(PutWords(mem, code, start, count, data).value, code, start, count) == Some(data[..2 * count])
  {
    var id := WordAreaOf(code).value;
    var bytes := Overwrite(mem.Get(id), 2 * start, 2 * (start + count), data);
    GetPut(mem, id, bytes, id);
    assert bytes[2 * start..2 * (start + count)] == data[..2 * count];
  }

  lemma FieldSlice(mem: Memory, m: Member)
    requires mem.Valid() && TextField(m)
    ensures GroupSlice(mem, SingleGroup(m))
         == WordSlice(mem, m.parsed.areaCode, m.parsed.address % 65536, FieldWords(m.parsed.stringLen))
  {
  }

  lemma DirectText(mem: Memory, m: Member, text: seq<byte>)
    requires mem.Valid() && TextField(m) && DirectWrite(mem, m, Pad(text, m.parsed.stringLen)).Some?
    ensures DirectReading(DirectWrite(mem, m, Pad(text, m.parsed.stringLen)).value, m)
         == Good(VString(CutNul(FieldKept(text, m.parsed.stringLen))))
  {
    var n := m.parsed.stringLen;
    var (count, data) := WriteWordsOf(m, Pad(text, n));
    FieldData(m, text);
    PutWordsReads(mem, m.parsed.areaCode, m.parsed.address % 65536, count, data);
    FieldSlice(DirectWrite(mem, m, Pad(text, n)).value, m);
    DecodeText(data[..2 * count], m, FieldKept(text, n));
  }

  lemma DecodeText(data: seq<byte>, m: Member, kept: seq<byte>)
    requires TextField(m) && |kept| == (if m.parsed.stringLen < |data| then m.parsed.stringLen else |data|)
    requires data[..|kept|] == kept
    ensures ReadingOf(SingleGroup(m), GroupedPoint(m, 0), Some(data)) == Good(VString(CutNul(kept)))
  {
    assert data[0..|kept|] == kept;
    assert kept[..|kept|] == kept;
  }

  // ----- the laws, on writes and reads through the connection -----

  /** The member an entry with a parsed address stands for. */
  function MemberOf(e: Entry): Member
    requires e.parsed.Some?
  {
    Member(e.point, e.parsed.value)
  }

  /** An entry as the parser makes them, with text that fits a frame. */
  predicate Usable(e: Entry) {
    && e.parsed.Some? && IsWordArea(e.parsed.value.areaCode)
    && !(e.parsed.value.isBit && e.parsed.value.isString) && e.parsed.value.stringLen < 0x1_0000_0000 - 0x3_0000
  }

  predicate ShortText(v: Value) { v.VString? ==> |v.text| < 0x1_0000_0000 - 0x3_0000 }

  /** The encoding a write sends, if the value suits the type. */
  function Encoding(conv: FloatConversion, e: Entry, v: Value): Result<seq<byte>, DecodeError>
    requires e.parsed.Some?
  {
    EncodeValue(conv, v, e.point.dataType, e.parsed.value)
  }

  lemma EncodedSize(conv: FloatConversion, e: Entry, v: Value)
    requires Usable(e) && ShortText(v) && Encoding(conv, e, v).Ok?
    ensures |WriteWordsOf(MemberOf(e), Encoding(conv, e, v).value).1| < 0xfffe_0000
  {
  }

  /** A write succeeds exactly when the value suits the type and the area has the place. */
  lemma WrittenIsDirect(mem: Memory, link: Link, conv: FloatConversion, e: Entry, v: Value)
    requires mem.Valid() && Transparent(link) && Usable(e) && ShortText(v)
    ensures Written(mem, link, conv, e, v).1.None? <==>
      Encoding(conv, e, v).Ok? && DirectWrite(mem, MemberOf(e), Encoding(conv, e, v).value).Some?
    ensures Written(mem, link, conv, e, v).0 ==
      if Written(mem, link, conv, e, v).1.None? then DirectWrite(mem, MemberOf(e), Encoding(conv, e, v).value).value else mem
  {
    if Encoding(conv, e, v).Ok? {
      var m, encoded := MemberOf(e), Encoding(conv, e, v).value;
      if IsBitPoint(m) {
        BitWriteIsDirect(mem, link, m, encoded);
      } else {
        EncodedSize(conv, e, v);
        WordWriteIsDirect(mem, link, m, encoded);
      }
    }
  }

  /** A written bit reads back. */
  lemma BitReadsBack(mem: Memory, link: Link, conv: FloatConversion, e: Entry, b: bool)
    requires mem.Valid() && Transparent(link) && Usable(e) && e.parsed.value.isBit
    requires Written(mem, link, conv, e, VBool(b)).1.None?
    ensures AloneReading(Written(mem, link, conv, e, VBool(b)).0, link, MemberOf(e)) == Good(VBool(b))
  {
    WrittenIsDirect(mem, link, conv, e, VBool(b));
    var m, encoded := MemberOf(e), Encoding(conv, e, VBool(b)).value;
    DirectBit(mem, m, encoded);
    AloneIsDirect(DirectWrite(mem, m, encoded).value, link, m);
  }

  /** A written number reads back as the number its conversion to the data type gave. */
  lemma NumberReadsBack(mem: Memory, link: Link, conv: FloatConversion, e: Entry, v: Value)
    requires mem.Valid() && Transparent(link) && Usable(e) && ShortText(v)
    requires !e.parsed.value.isBit && !e.parsed.value.isString && DataTypeSize(e.point.dataType) > 0
    requires Written(mem, link, conv, e, v).1.None?
    ensures NumberOf(conv, v, e.point.dataType).Some?
    ensures var t := e.point.dataType;
      AloneReading(Written(mem, link, conv, e, v).0, link, MemberOf(e))
      == Good(NumberValue(t, Unsigned(NumberOf(conv, v, t).value, DataTypeSize(t))))
  {
    WrittenIsDirect(mem, link, conv, e, v);
    var m, encoded := MemberOf(e), Encoding(conv, e, v).value;
    var n := DataTypeSize(e.point.dataType);
    DirectNumber(mem, m, Unsigned(NumberOf(conv, v, e.point.dataType).value, n));
    AloneIsDirect(DirectWrite(mem, m, encoded).value, link, m);
  }

  /** Every typed integer and float bit pattern reads back as itself. */
  lemma TypedValueReadsBack(mem: Memory, link: Link, conv: FloatConversion, e: Entry, v: Value)
    requires mem.Valid() && Transparent(link) && Usable(e)
    requires !e.parsed.value.isBit && !e.parsed.value.isString && Typed(v, e.point.dataType)
    requires Written(mem, link, conv, e, v).1.None?
    ensures AloneReading(Written(mem, link, conv, e, v).0, link, MemberOf(e)) == Good(v)
  {
    NumberRoundTrip(conv, v, e.point.dataType);
    NumberReadsBack(mem, link, conv, e, v);
  }

  lemma TextEncoding(conv: FloatConversion, e: Entry, text: seq<byte>)
    requires e.parsed.Some? && !e.parsed.value.isBit && 0 < e.parsed.value.stringLen && e.point.dataType.STRING?
    ensures Encoding(conv, e, VString(text)) == Ok(Pad(text, e.parsed.value.stringLen))
  {
  }

  /** Text written to a field reads back as what is kept of the field, cut at its first NUL. */
  lemma TextReadsBack(mem: Memory, link: Link, conv: FloatConversion, e: Entry, text: seq<byte>)
    requires mem.Valid() && Transparent(link) && Usable(e) && ShortText(VString(text)) && TextField(MemberOf(e))
    requires Written(mem, link, conv, e, VString(text)).1.None?
    ensures AloneReading(Written(mem, link, conv, e, VString(text)).0, link, MemberOf(e))
         == Good(VString(CutNul(FieldKept(text, e.parsed.value.stringLen))))
  {
    WrittenIsDirect(mem, link, conv, e, VString(text));
    var m := MemberOf(e);
    var encoded := Pad(text, m.parsed.stringLen);
    TextEncoding(conv, e, text);
    DirectText(mem, m, text);
    AloneIsDirect(DirectWrite(mem, m, encoded).value, link, m);
  }

  /** The text as a field should hold it: truncated to its length. */
  function Truncated(text: seq<byte>, n: nat): seq<byte> { if |text| <= n then text else text[..n] }

  lemma FieldKeptWhole(text: seq<byte>, n: nat)
    ensures FieldKept(text, n) == Pad(text, n) <==> n <= 131070
  {
  }

  /** A field holds every text truncated to its length and cut at the first NUL exactly up to 131070 bytes. */
  lemma FieldHoldsTextWhen(n: nat)
    ensures (forall text :: CutNul(FieldKept(text, n)) == CutNul(Truncated(text, n))) <==> n <= 131070
  {
    if n <= 131070 {
      forall text ensures CutNul(FieldKept(text, n)) == CutNul(Truncated(text, n)) {
        FieldKeptWhole(text, n);
        TextOfField(text, n);
      }
    } else {
      var text: seq<byte> := seq(n, _ => 65);
      CutNulIdentity(text);
      CutNulIdentity(FieldKept(text, n));
      assert |FieldKept(text, n)| < n;
      assert CutNul(FieldKept(text, n)) != CutNul(Truncated(text, n));
    }
  }

  /** A field whose word count wraps to zero is reported as written, stored nowhere, and reads as empty text. */
  lemma LostField(mem: Memory, link: Link, conv: FloatConversion, e: Entry, text: seq<byte>)
    requires mem.Valid() && Transparent(link) && Usable(e) && ShortText(VString(text)) && TextField(MemberOf(e))
    requires e.parsed.value.stringLen % 131072 == 0 || e.parsed.value.stringLen % 131072 == 131071
    requires WordAreaOf(e.parsed.value.areaCode).Some?
    requires e.parsed.value.address % 65536 <= AreaWords(WordAreaOf(e.parsed.value.areaCode).value)
    ensures Written(mem, link, conv, e, VString(text)) == (mem, None)
    ensures AloneReading(mem, link, MemberOf(e)) == Good(VString([]))
  {
    var m, n := MemberOf(e), e.parsed.value.stringLen;
    NoFieldWords(n);
    WrittenIsDirect(mem, link, conv, e, VString(text));
    TextEncoding(conv, e, text);
    FieldData(m, text);
    var id, start := WordAreaOf(m.parsed.areaCode).value, m.parsed.address % 65536;
    NothingWritten(mem, id, 2 * start, WriteWordsOf(m, Pad(text, n)).1);
    TextReadsBack(mem, link, conv, e, text);
  }

  lemma NoFieldWords(n: nat)
    requires n % 131072 == 0 || n % 131072 == 131071
    ensures FieldWords(n) == 0
  {
    var q := n / 131072;
    assert (n + 1) / 2 == 65536 * q || (n + 1) / 2 == 65536 * (q + 1);
  }

  lemma NothingWritten(mem: Memory, id: AreaId, start: nat, data: seq<byte>)
    requires mem.Valid() && start <= |mem.Get(id)|
    ensures mem.Put(id, Overwrite(mem.Get(id), start, start, data)) == mem
  {
    assert Overwrite(mem.Get(id), start, start, data) == mem.Get(id);
  }

  // ----- everything else -----

  /** The memories differ at most in the given words of one area. */
  ghost predicate OnlyWords(a: Memory, b: Memory, id: AreaId, start: nat, count: nat) {
    && (forall other :: other != id ==> a.Get(other) == b.Get(other))
    && |a.Get(id)| == |b.Get(id)|
    && (forall k :: 0 <= k < |a.Get(id)| && (k < 2 * start || k >= 2 * (start + count)) ==>
          a.Get(id)[k] == b.Get(id)[k])
  }

  /** The words a write of this encoding touches. */
  function WriteRange(m: Member, encoded: seq<byte>): (nat, nat) {
    if IsBitPoint(m) then (BitPos(m) / 16, 1) else (m.parsed.address % 65536, WriteWordsOf(m, encoded).0)
  }

  /** The words a read of this point looks at. */
  function ReadRange(q: Member): (nat, nat) {
    if IsBitPoint(q) then (BitPos(q) / 16, 1) else (q.parsed.address % 65536, Words(q) % 65536)
  }

  /** Different areas, or words that do not meet. */
  predicate Apart(id: AreaId, start: nat, count: nat, q: Member) {
    || WordAreaOf(q.parsed.areaCode) != Some(id)
    || start + count <= ReadRange(q).0 || ReadRange(q).0 + ReadRange(q).1 <= start
  }

  lemma PutBitTouches(bytes: seq<byte>, pos: nat, on: bool)
    requires HasBit(bytes, pos)
    ensures var r := PutBit(bytes, pos, on);
      forall k :: 0 <= k < |bytes| && k != 2 * (pos / 16) && k != 2 * (pos / 16) + 1 ==> r[k] == bytes[k]
  {
  }

  lemma WriteTouches(mem: Memory, m: Member, encoded: seq<byte>)
    requires mem.Valid() && DirectWrite(mem, m, encoded).Some?
    ensures OnlyWords(mem, DirectWrite(mem, m, encoded).value, WordAreaOf(m.parsed.areaCode).value,
                      WriteRange(m, encoded).0, WriteRange(m, encoded).1)
  {
    var id := WordAreaOf(m.parsed.areaCode).value;
    if IsBitPoint(m) {
      WithOneBitTouches(mem, id, BitPos(m), OnByte(encoded) != 0);
    } else {
      var (count, data) := WriteWordsOf(m, encoded);
      PutWordsTouches(mem, m.parsed.areaCode, m.parsed.address % 65536, count, data);
    }
  }

  lemma PutWordsTouches(mem: Memory, code: byte, start: u16, count: u16, data: seq<byte>)
    requires mem.Valid() && PutWords(mem, code, start, count, data).Some?
    ensures OnlyWords(mem, PutWords(mem, code, start, count, data).value, WordAreaOf(code).value, start, count)
  {
    var id := WordAreaOf(code).value;
    OverwriteTouches(mem.Get(id), 2 * start, 2 * (start + count), data);
    PutTouches(mem, id, Overwrite(mem.Get(id), 2 * start, 2 * (start + count), data), start, count);
  }

  lemma WithOneBitTouches(mem: Memory, id: AreaId, pos: nat, on: bool)
    requires mem.Valid() && pos < AreaWords(id) * 16
    ensures OnlyWords(mem, WithOneBit(mem, id, pos, on), id, pos / 16, 1)
  {
    PutBitTouches(mem.Get(id), pos, on);
    PutTouches(mem, id, PutBit(mem.Get(id), pos, on), pos / 16, 1);
  }

  lemma PutTouches(mem: Memory, id: AreaId, bytes: seq<byte>, start: nat, count: nat)
    requires |bytes| == |mem.Get(id)|
    requires forall k :: 0 <= k < |bytes| && (k < 2 * start || k >= 2 * (start + count)) ==> bytes[k] == mem.Get(id)[k]
    ensures OnlyWords(mem, mem.Put(id, bytes), id, start, count)
  {
  }

  lemma OverwriteTouches(bytes: seq<byte>, start: nat, end: nat, data: seq<byte>)
    requires start <= end <= |bytes|
    ensures var r := Overwrite(bytes, start, end, data);
      forall k :: 0 <= k < |bytes| && (k < start || k >= end) ==> r[k] == bytes[k]
  {
  }

  /** A read outside the touched words does not see the difference. */
  lemma UntouchedReading(a: Memory, b: Memory, id: AreaId, start: nat, count: nat, q: Member)
    requires a.Valid() && b.Valid() && OnlyWords(a, b, id, start, count) && Apart(id, start, count, q)
    ensures DirectReading(a, q) == DirectReading(b, q)
  {
    if IsBitPoint(q) {
      if WordAreaOf(q.parsed.areaCode) == Some(id) && HasBitOf(q, id) {
        assert Word(a.Get(id), BitPos(q) / 16) == Word(b.Get(id), BitPos(q) / 16);
      }
    } else {
      UntouchedSlice(a, b, id, start, count, q.parsed.areaCode, ReadRange(q).0, ReadRange(q).1);
    }
  }

  lemma UntouchedSlice(a: Memory, b: Memory, id: AreaId, start: nat, count: nat, code: byte, s: nat, n: nat)
    requires a.Valid() && b.Valid() && OnlyWords(a, b, id, start, count)
    requires WordAreaOf(code) != Some(id) || start + count <= s || s + n <= start
    ensures WordSlice(a, code, s, n) == WordSlice(b, code, s, n)
  {
    if WordAreaOf(code) == Some(id) && s + n <= AreaWords(id) {
      var x, y := a.Get(id)[2 * s..2 * (s + n)], b.Get(id)[2 * s..2 * (s + n)];
      assert |x| == |y| && forall k :: 0 <= k < |x| ==> x[k] == y[k];
      assert x == y;
    }
  }

  /** After any write, failed or not, every point in other words reads as before. */
  lemma OthersUnchanged(mem: Memory, link: Link, conv: FloatConversion, e: Entry, v: Value, q: Member)
    requires mem.Valid() && Transparent(link) && Usable(e) && ShortText(v) && IsWordArea(q.parsed.areaCode)
    requires Written(mem, link, conv, e, v).1.None? && WordAreaOf(e.parsed.value.areaCode).Some? ==>
      && Encoding(conv, e, v).Ok?
      && var (start, count) := WriteRange(MemberOf(e), Encoding(conv, e, v).value);
      Apart(WordAreaOf(e.parsed.value.areaCode).value, start, count, q)
    ensures AloneReading(Written(mem, link, conv, e, v).0, link, q) == AloneReading(mem, link, q)
  {
    WrittenIsDirect(mem, link, conv, e, v);
    if Written(mem, link, conv, e, v).1.None? {
      var m, encoded := MemberOf(e), Encoding(conv, e, v).value;
      var after := DirectWrite(mem, m, encoded).value;
      WriteTouches(mem, m, encoded);
      var (start, count) := WriteRange(m, encoded);
      UntouchedReading(mem, after, WordAreaOf(m.parsed.areaCode).value, start, count, q);
      AloneIsDirect(mem, link, q);
      AloneIsDirect(after, link, q);
    }
  }

  lemma DirectOtherBit(mem: Memory, m: Member, encoded: seq<byte>, q: Member)
    requires mem.Valid() && IsBitPoint(m) && IsBitPoint(q) && DirectWrite(mem, m, encoded).Some?
    requires WordAreaOf(q.parsed.areaCode) != WordAreaOf(m.parsed.areaCode) || BitPos(q) != BitPos(m)
    ensures DirectReading(DirectWrite(mem, m, encoded).value, q) == DirectReading(mem, q)
  {
    var id := WordAreaOf(m.parsed.areaCode).value;
    if WordAreaOf(q.parsed.areaCode).Some? {
      var other := WordAreaOf(q.parsed.areaCode).value;
      if HasBitOf(q, other) {
        WithOneBitReads(mem, id, BitPos(m), OnByte(encoded) != 0, other, BitPos(q));
      }
    }
  }

  /** A bit write leaves every other bit, also of the same word, as it was. */
  lemma OtherBitsUnchanged(mem: Memory, link: Link, conv: FloatConversion, e: Entry, b: bool, q: Member)
    requires mem.Valid() && Transparent(link) && Usable(e) && e.parsed.value.isBit
    requires IsBitPoint(q) && IsWordArea(q.parsed.areaCode)
    requires WordAreaOf(q.parsed.areaCode) != WordAreaOf(e.parsed.value.areaCode) || BitPos(q) != BitPos(MemberOf(e))
    requires Written(mem, link, conv, e, VBool(b)).1.None?
    ensures AloneReading(Written(mem, link, conv, e, VBool(b)).0, link, q) == AloneReading(mem, link, q)
  {
    WrittenIsDirect(mem, link, conv, e, VBool(b));
    var m, encoded := MemberOf(e), Encoding(conv, e, VBool(b)).value;
    DirectOtherBit(mem, m, encoded, q);
    AloneIsDirect(mem, link, q);
    AloneIsDirect(DirectWrite(mem, m, encoded).value, link, q);
  }
}
