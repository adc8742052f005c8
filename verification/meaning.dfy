/**
 * What a point's bytes in PLC memory mean: numbers as big-endian words, bits by word and bit number,
 * text byte after byte. Stated on the memory alone, so that reading and writing cannot be wrong together.
 */
module Meaning {
  import opened Bytes
  import opened Bits
  import opened Areas
  import opened Types
  import opened Decoder
  import opened Planner
  import opened Plc
  import opened Exchange
  import opened Scheduler
  import opened BatchLaws
  import opened WriteLaws
  import opened MemoryLaws

  // ----- numbers in terms of words -----

  /** Word k of an area whose words there are that many. */
  function TwoWords(bytes: seq<byte>, k: nat): nat
    requires 2 * k + 3 < |bytes|
  {
    65536 * (Word(bytes, k) as int) + Word(bytes, k + 1)
  }

  function FourWords(bytes: seq<byte>, k: nat): nat
    requires 2 * k + 7 < |bytes|
  {
    0x1_0000_0000 * TwoWords(bytes, k) + TwoWords(bytes, k + 2)
  }

  /** Two's complement at a given modulus. */
  function TwosComplement(u: int, modulus: int): int { if 2 * u < modulus then u else u - modulus }

  /** Words a number of the type takes up. */
  function WordsOf(t: DataType): nat {
    match t
    case UINT32 => 2
    case INT32 => 2
    case FLOAT => 2
    case UINT64 => 4
    case INT64 => 4
    case DOUBLE => 4
    case _ => 1
  }

  predicate Numeric(t: DataType) {
    t in {UINT8, INT8, UINT16, INT16, UINT32, INT32, UINT64, INT64, FLOAT, DOUBLE}
  }

  /** The number of the type at word k: a one-byte number is the high byte of its word. */
  function NumberAt(t: DataType, bytes: seq<byte>, k: nat): Value
    requires Numeric(t) && 2 * (k + WordsOf(t)) <= |bytes|
  {
    match t
    case UINT8 => VUint8(Word(bytes, k) / 256)
    case INT8 => VInt8(TwosComplement(Word(bytes, k) / 256, 0x100))
    case UINT16 => VUint16(Word(bytes, k))
    case INT16 => VInt16(TwosComplement(Word(bytes, k), 0x1_0000))
    case UINT32 => VUint32(TwoWords(bytes, k))
    case INT32 => VInt32(TwosComplement(TwoWords(bytes, k), 0x1_0000_0000))
    case FLOAT => VFloat32(TwoWords(bytes, k))
    case UINT64 => VUint64(FourWords(bytes, k))
    case INT64 => VInt64(TwosComplement(FourWords(bytes, k), 0x1_0000_0000_0000_0000))
    case DOUBLE => VFloat64(FourWords(bytes, k))
  }

  lemma Widths()
    ensures Pow256(1) == 0x100 && Pow256(2) == 0x1_0000
    ensures Pow256(4) == 0x1_0000_0000 && Pow256(8) == 0x1_0000_0000_0000_0000
  {
    assert Pow256(3) == 0x100_0000;
    assert Pow256(5) == 0x100_0000_0000;
    assert Pow256(6) == 0x1_0000_0000_0000;
    assert Pow256(7) == 0x100_0000_0000_0000;
  }

  /** Two more bytes at the end of a big-endian number. */
  lemma TwoMore(s: seq<byte>)
    requires |s| >= 2
    ensures FromBE(s) == 65536 * FromBE(s[..|s| - 2]) + Glue(s[|s| - 2], s[|s| - 1])
  {
    var r := s[..|s| - 1];
    assert r[..|r| - 1] == s[..|s| - 2];
    assert FromBE(s) == 256 * FromBE(r) + s[|s| - 1];
    assert FromBE(r) == 256 * FromBE(s[..|s| - 2]) + s[|s| - 2];
  }

  lemma OneByte(s: seq<byte>)
    requires |s| == 1
    ensures FromBE(s) == s[0] && FromLE(s) == s[0]
  {
    assert s[..0] == [] && s[1..] == [];
  }

  lemma TwoBytes(s: seq<byte>)
    requires |s| == 2
    ensures FromBE(s) == Glue(s[0], s[1])
  {
    TwoMore(s);
    assert s[..0] == [];
  }

  lemma FourBytes(s: seq<byte>)
    requires |s| == 4
    ensures FromBE(s) == 65536 * Glue(s[0], s[1]) + Glue(s[2], s[3])
  {
    TwoMore(s);
    TwoBytes(s[..2]);
  }

  lemma EightBytes(s: seq<byte>)
    requires |s| == 8
    ensures FromBE(s) ==
      0x1_0000_0000 * (65536 * Glue(s[0], s[1]) + Glue(s[2], s[3])) + (65536 * Glue(s[4], s[5]) + Glue(s[6], s[7]))
  {
    var r := s[..6];
    TwoMore(s);
    TwoMore(r);
    assert r[..4] == s[..4];
    FourBytes(s[..4]);
  }

  /** The bytes of a number at word k, cut out of an area, are that number. */
  lemma NumberOfBytes(t: DataType, bytes: seq<byte>, k: nat, s: seq<byte>)
    requires Numeric(t) && 2 * (k + WordsOf(t)) <= |bytes|
    requires |s| == DataTypeSize(t) && s == bytes[2 * k..2 * k + |s|]
    ensures NumberValue(t, FromBE(s)) == NumberAt(t, bytes, k)
  {
    Widths();
    if |s| == 1 {
      OneByte(s);
    } else if |s| == 2 {
      TwoBytes(s);
    } else if |s| == 4 {
      FourBytes(s);
    } else {
      EightBytes(s);
    }
  }

  lemma DecodedNumber(t: DataType, a: ParsedAddress, data: seq<byte>)
    requires Numeric(t) && !a.isBit && !(a.isString && a.byteOrder.OrderLow?) && |data| >= DataTypeSize(t)
    ensures DecodeValue(data, t, a) == Ok(NumberValue(t, FromBE(data[..DataTypeSize(t)])))
  {
  }

  // ----- reading numbers -----

  predicate WordNumber(m: Member) {
    !IsBitPoint(m) && !m.parsed.isString && Numeric(m.point.dataType) && IsWordArea(m.parsed.areaCode)
  }

  lemma NumberSlice(mem: Memory, m: Member, id: AreaId)
    requires mem.Valid() && WordNumber(m) && WordAreaOf(m.parsed.areaCode) == Some(id)
    requires m.parsed.address + WordsOf(m.point.dataType) <= AreaWords(id)
    ensures Words(m) == WordsOf(m.point.dataType) && |mem.Get(id)| == 2 * AreaWords(id)
    ensures GroupSlice(mem, SingleGroup(m))
         == Some(mem.Get(id)[2 * m.parsed.address..2 * (m.parsed.address + Words(m))])
  {
    assert |mem.Get(id)| == 2 * AreaWords(id);
  }

  lemma NumberReading(m: Member, data: seq<byte>)
    requires WordNumber(m) && |data| == 2 * Words(m)
    ensures ReadingOf(SingleGroup(m), GroupedPoint(m, 0), Some(data))
         == Good(NumberValue(m.point.dataType, FromBE(data[..DataTypeSize(m.point.dataType)])))
  {
    var n := DataTypeSize(m.point.dataType);
    PlannedWords(m);
    assert data[0..n] == data[..n] && data[..n][..n] == data[..n];
    DecodedNumber(m.point.dataType, m.parsed, data[..n]);
  }

  /** A numeric point at a word address reads as the big-endian words at its address. */
  lemma NumberIsItsWords(mem: Memory, link: Link, m: Member, id: AreaId)
    requires mem.Valid() && Transparent(link) && WordNumber(m) && WordAreaOf(m.parsed.areaCode) == Some(id)
    requires m.parsed.address + WordsOf(m.point.dataType) <= AreaWords(id)
    ensures |mem.Get(id)| == 2 * AreaWords(id)
    ensures AloneReading(mem, link, m) == Good(NumberAt(m.point.dataType, mem.Get(id), m.parsed.address))
  {
    AloneIsDirect(mem, link, m);
    NumberSlice(mem, m, id);
    var k, n := m.parsed.address, DataTypeSize(m.point.dataType);
    var data := mem.Get(id)[2 * k..2 * (k + Words(m))];
    NumberReading(m, data);
    PlannedWords(m);
    assert data[..n] == mem.Get(id)[2 * k..2 * k + n];
    NumberOfBytes(m.point.dataType, mem.Get(id), k, data[..n]);
  }

  /** Where a word point's words do not all exist it reads as Bad. */
  lemma OutOfRangeIsBad(mem: Memory, link: Link, m: Member)
    requires mem.Valid() && Transparent(link) && !IsBitPoint(m) && IsWordArea(m.parsed.areaCode) && Planner.Fits(m)
    requires match WordAreaOf(m.parsed.areaCode) case None => true case Some(id) => m.parsed.address + Words(m) > AreaWords(id)
    ensures AloneReading(mem, link, m) == Bad
  {
    AloneIsDirect(mem, link, m);
    NoSlice(mem, m);
  }

  lemma NoSlice(mem: Memory, m: Member)
    requires mem.Valid() && !IsBitPoint(m) && Planner.Fits(m)
    requires match WordAreaOf(m.parsed.areaCode) case None => true case Some(id) => m.parsed.address + Words(m) > AreaWords(id)
    ensures GroupSlice(mem, SingleGroup(m)) == None
  {
    assert m.parsed.address % 65536 == m.parsed.address && Words(m) % 65536 == Words(m);
  }

  // ----- the low byte order of string-form addresses -----

  function Reversed(s: seq<byte>): (r: seq<byte>)
    ensures |r| == |s| && forall i :: 0 <= i < |s| ==> r[i] == s[|s| - 1 - i]
  {
    seq(|s|, i requires 0 <= i < |s| => s[|s| - 1 - i])
  }

  lemma {:induction false} LittleIsReversed(s: seq<byte>)
    ensures FromLE(s) == FromBE(Reversed(s))
  {
    if s != [] {
      LittleIsReversed(s[1..]);
      assert Reversed(s)[..|s| - 1] == Reversed(s[1..]);
    }
  }

  lemma {:induction false} LittleBytesAreReversed(v: nat, n: nat)
    ensures ToLE(v, n) == Reversed(ToBE(v, n))
  {
    if n > 0 {
      LittleBytesAreReversed(v / 256, n - 1);
      var big := ToBE(v / 256, n - 1);
      assert Reversed(big + [v % 256]) == [v % 256] + Reversed(big);
    }
  }

  predicate LowOrder(a: ParsedAddress) { a.isString && a.byteOrder.OrderLow? }

  /** The L order writes and reads the bytes of a number in the reverse of the order of word addresses and H. */
  lemma LowOrderReverses(conv: FloatConversion, v: Value, t: DataType, low: ParsedAddress, high: ParsedAddress, data: seq<byte>)
    requires Numeric(t) && !low.isBit && !high.isBit && LowOrder(low) && !LowOrder(high)
    requires NumberOf(conv, v, t).Some? && |data| == DataTypeSize(t)
    ensures EncodeValue(conv, v, t, high).Ok?
    ensures EncodeValue(conv, v, t, low) == Ok(Reversed(EncodeValue(conv, v, t, high).value))
    ensures DecodeValue(data, t, low) == DecodeValue(Reversed(data), t, high)
  {
    LittleBytesAreReversed(Unsigned(NumberOf(conv, v, t).value, DataTypeSize(t)), DataTypeSize(t));
    LittleIsReversed(data);
    assert data[..|data|] == data && Reversed(data)[..|data|] == Reversed(data);
  }

  // ----- which values a write accepts, and what a float64 becomes -----

  /** The value has the Go type of the data type, or is a float64, or the text or bit asked for. */
  predicate Suits(v: Value, t: DataType, a: ParsedAddress) {
    if a.isBit then v.VBool?
    else match t
      case UINT8 => v.VUint8? || v.VFloat64?
      case INT8 => v.VInt8? || v.VFloat64?
      case UINT16 => v.VUint16? || v.VFloat64?
      case INT16 => v.VInt16? || v.VFloat64?
      case UINT32 => v.VUint32? || v.VFloat64?
      case INT32 => v.VInt32? || v.VFloat64?
      case UINT64 => v.VUint64? || v.VFloat64?
      case INT64 => v.VInt64? || v.VFloat64?
      case FLOAT => v.VFloat32? || v.VFloat64?
      case DOUBLE => v.VFloat64?
      case STRING => v.VString?
      case _ => false
  }

  lemma AcceptedWhenItSuits(conv: FloatConversion, v: Value, t: DataType, a: ParsedAddress)
    ensures EncodeValue(conv, v, t, a).Ok? <==> Suits(v, t, a)
  {
  }

  /** Why a write fails: the address, the value, or the server's refusal. */
  lemma WriteErrors(mem: Memory, link: Link, conv: FloatConversion, e: Entry, v: Value)
    requires mem.Valid() && Transparent(link)
    ensures var err := Written(mem, link, conv, e, v).1;
      && (err == Some(BadAddress) <==> e.parsed.None?)
      && (err.Some? && err.value.BadValue? <==> e.parsed.Some? && !Suits(v, e.point.dataType, e.parsed.value))
  {
    if e.parsed.Some? {
      AcceptedWhenItSuits(conv, v, e.point.dataType, e.parsed.value);
    }
  }

  /** A converted number reduced to the width and sign of the type. */
  function Reduced(t: DataType, k: int): Value
    requires Numeric(t)
  {
    match t
    case UINT8 => VUint8(k % 0x100)
    case INT8 => VInt8(TwosComplement(k % 0x100, 0x100))
    case UINT16 => VUint16(k % 0x1_0000)
    case INT16 => VInt16(TwosComplement(k % 0x1_0000, 0x1_0000))
    case UINT32 => VUint32(k % 0x1_0000_0000)
    case INT32 => VInt32(TwosComplement(k % 0x1_0000_0000, 0x1_0000_0000))
    case FLOAT => VFloat32(k % 0x1_0000_0000)
    case UINT64 => VUint64(k % 0x1_0000_0000_0000_0000)
    case INT64 => VInt64(TwosComplement(k % 0x1_0000_0000_0000_0000, 0x1_0000_0000_0000_0000))
    case DOUBLE => VFloat64(k % 0x1_0000_0000_0000_0000)
  }

  lemma ReducedNumber(t: DataType, k: int)
    requires Numeric(t)
    ensures DataTypeSize(t) > 0 && NumberValue(t, Unsigned(k, DataTypeSize(t))) == Reduced(t, k)
  {
    Widths();
  }

  /** A float64 written to a numeric point other than DOUBLE reads back as its conversion, reduced to the type. */
  lemma Float64ReadsBack(mem: Memory, link: Link, conv: FloatConversion, e: Entry, bits: nat)
    requires mem.Valid() && Transparent(link) && Usable(e) && WordNumber(MemberOf(e)) && !e.point.dataType.DOUBLE?
    requires Written(mem, link, conv, e, VFloat64(bits)).1.None?
    ensures AloneReading(Written(mem, link, conv, e, VFloat64(bits)).0, link, MemberOf(e))
         == Good(Reduced(e.point.dataType, conv(e.point.dataType, bits)))
  {
    NumberReadsBack(mem, link, conv, e, VFloat64(bits));
    ReducedNumber(e.point.dataType, conv(e.point.dataType, bits));
  }

  /** After any successful write of a number the words at its address are that number, as the type holds it. */
  lemma NumberIsStored(mem: Memory, link: Link, conv: FloatConversion, e: Entry, v: Value, id: AreaId, after: Memory)
    requires mem.Valid() && Transparent(link) && Usable(e) && ShortText(v) && WordNumber(MemberOf(e))
    requires WordAreaOf(e.parsed.value.areaCode) == Some(id)
    requires e.parsed.value.address + WordsOf(e.point.dataType) <= AreaWords(id)
    requires Written(mem, link, conv, e, v).1.None? && after == Written(mem, link, conv, e, v).0
    ensures NumberOf(conv, v, e.point.dataType).Some? && after.Valid() && |after.Get(id)| == 2 * AreaWords(id)
    ensures NumberAt(e.point.dataType, after.Get(id), e.parsed.value.address)
         == Reduced(e.point.dataType, NumberOf(conv, v, e.point.dataType).value)
  {
    WrittenIsDirect(mem, link, conv, e, v);
    NumberReadsBack(mem, link, conv, e, v);
    ReducedNumber(e.point.dataType, NumberOf(conv, v, e.point.dataType).value);
    NumberIsItsWords(after, link, MemberOf(e), id);
  }

  // ----- bits -----

  /** A bit point of the given area, its bit number within a word. */
  predicate WordBit(m: Member, id: AreaId) {
    && IsBitPoint(m) && IsWordArea(m.parsed.areaCode) && WordAreaOf(m.parsed.areaCode) == Some(id)
    && m.parsed.address < AreaWords(id) && 0 <= m.parsed.bit <= 15
  }

  lemma BitPlaceOf(m: Member, id: AreaId)
    requires WordBit(m, id)
    ensures BitPos(m) == 16 * m.parsed.address + m.parsed.bit
  {
    assert m.parsed.address % 65536 == m.parsed.address && m.parsed.bit % 256 == m.parsed.bit;
  }

  /** A bit point reads as the bit of that number of the word at its address. */
  lemma BitIsOfItsWord(mem: Memory, link: Link, m: Member, id: AreaId)
    requires mem.Valid() && Transparent(link) && WordBit(m, id)
    ensures |mem.Get(id)| == 2 * AreaWords(id)
    ensures AloneReading(mem, link, m) == Good(VBool(Bit(Word(mem.Get(id), m.parsed.address), m.parsed.bit)))
  {
    AloneIsDirect(mem, link, m);
    DirectBitOfWord(mem, m, id);
  }

  lemma DirectBitOfWord(mem: Memory, m: Member, id: AreaId)
    requires mem.Valid() && WordBit(m, id)
    ensures |mem.Get(id)| == 2 * AreaWords(id)
    ensures DirectReading(mem, m) == Good(VBool(Bit(Word(mem.Get(id), m.parsed.address), m.parsed.bit)))
  {
    BitPlaceOf(m, id);
    BitOfWord(mem, id, m.parsed.address, m.parsed.bit);
  }

  lemma BitOfWord(mem: Memory, other: AreaId, k: nat, i: nat)
    requires mem.Valid() && k < AreaWords(other) && i < 16
    ensures |mem.Get(other)| == 2 * AreaWords(other) && HasBit(mem.Get(other), 16 * k + i)
    ensures BitAt(mem.Get(other), 16 * k + i) == Bit(Word(mem.Get(other), k), i)
  {
    assert |mem.Get(other)| == 2 * AreaWords(other);
    PositionIsBitOfWord(mem.Get(other), k, i);
  }

  /** After a bit write, which succeeds, that bit of that word is the value, and every other bit of every word is as before. */
  lemma BitIsStored(mem: Memory, link: Link, conv: FloatConversion, e: Entry, b: bool, id: AreaId, other: AreaId, k: nat, i: nat)
    returns (after: Memory)
    requires mem.Valid() && Transparent(link) && Usable(e) && e.parsed.value.isBit && WordBit(MemberOf(e), id)
    requires k < AreaWords(other) && i < 16
    ensures Written(mem, link, conv, e, VBool(b)) == (after, None) && after.Valid()
    ensures DiffersInBit(mem, after, id, e.parsed.value.address, e.parsed.value.bit, b, other, k, i)
  {
    after := StoredBit(mem, MemberOf(e), b, id, other, k, i);
    BitEncoding(conv, e, b);
    WrittenAs(mem, link, conv, e, VBool(b), [if b then 1 else 0], after);
  }

  lemma BitEncoding(conv: FloatConversion, e: Entry, b: bool)
    requires e.parsed.Some? && e.parsed.value.isBit
    ensures Encoding(conv, e, VBool(b)) == Ok([if b then 1 else 0])
  {
  }

  lemma WrittenAs(mem: Memory, link: Link, conv: FloatConversion, e: Entry, v: Value, encoded: seq<byte>, after: Memory)
    requires mem.Valid() && Transparent(link) && Usable(e) && ShortText(v)
    requires Encoding(conv, e, v) == Ok(encoded) && DirectWrite(mem, MemberOf(e), encoded) == Some(after)
    ensures Written(mem, link, conv, e, v) == (after, None)
  {
    WrittenIsDirect(mem, link, conv, e, v);
  }

  lemma StoredBit(mem: Memory, m: Member, b: bool, id: AreaId, other: AreaId, k: nat, i: nat) returns (after: Memory)
    requires mem.Valid() && WordBit(m, id) && k < AreaWords(other) && i < 16
    ensures after.Valid() && DirectWrite(mem, m, [if b then 1 else 0]) == Some(after)
    ensures DiffersInBit(mem, after, id, m.parsed.address, m.parsed.bit, b, other, k, i)
  {
    after := WithOneBit(mem, id, 16 * m.parsed.address + m.parsed.bit, b);
    DirectBitWrite(mem, m, b, id);
    OneBitOfWord(mem, id, m.parsed.address, m.parsed.bit, b, other, k, i);
  }

  lemma DirectBitWrite(mem: Memory, m: Member, b: bool, id: AreaId)
    requires mem.Valid() && WordBit(m, id)
    ensures DirectWrite(mem, m, [if b then 1 else 0]) == Some(WithOneBit(mem, id, 16 * m.parsed.address + m.parsed.bit, b))
  {
    BitPlaceOf(m, id);
  }

  /** The two memories agree on every bit of every word but one, which is b in the second. */
  predicate DiffersInBit(mem: Memory, after: Memory, id: AreaId, address: nat, bit: nat, b: bool, other: AreaId, k: nat, i: nat) {
    && 2 * k + 1 < |after.Get(other)| && 2 * k + 1 < |mem.Get(other)|
    && Bit(Word(after.Get(other), k), i) ==
      if other == id && k == address && i == bit then b else Bit(Word(mem.Get(other), k), i)
  }

  lemma SamePosition(k: nat, i: nat, address: nat, bit: nat)
    requires i < 16 && bit < 16
    ensures 16 * k + i == 16 * address + bit <==> k == address && i == bit
  {
  }

  lemma BitsAgree(mem: Memory, after: Memory, id: AreaId, address: nat, bit: nat, b: bool, other: AreaId, k: nat, i: nat)
    requires mem.Valid() && after.Valid() && bit < 16 && k < AreaWords(other) && i < 16
    requires HasBit(mem.Get(other), 16 * k + i) && HasBit(after.Get(other), 16 * k + i)
    requires BitAt(after.Get(other), 16 * k + i)
          == if other == id && 16 * k + i == 16 * address + bit then b else BitAt(mem.Get(other), 16 * k + i)
    ensures DiffersInBit(mem, after, id, address, bit, b, other, k, i)
  {
    BitOfWord(mem, other, k, i);
    BitOfWord(after, other, k, i);
    SamePosition(k, i, address, bit);
  }

  lemma OneBitOfWord(mem: Memory, id: AreaId, address: nat, bit: nat, b: bool, other: AreaId, k: nat, i: nat)
    requires mem.Valid() && address < AreaWords(id) && bit < 16 && k < AreaWords(other) && i < 16
    ensures DiffersInBit(mem, WithOneBit(mem, id, 16 * address + bit, b), id, address, bit, b, other, k, i)
  {
    var after := WithOneBit(mem, id, 16 * address + bit, b);
    BitOfWord(mem, other, k, i);
    BitOfWord(after, other, k, i);
    WithOneBitReads(mem, id, 16 * address + bit, b, other, 16 * k + i);
    BitsAgree(mem, after, id, address, bit, b, other, k, i);
  }

  /** Words and bits are one memory: a number written to a word shows in the bits read from it. */
  lemma BitsOfAWrittenNumber(mem: Memory, link: Link, conv: FloatConversion, e: Entry, n: u16, q: Member, id: AreaId, after: Memory)
    requires mem.Valid() && Transparent(link) && Usable(e) && WordNumber(MemberOf(e)) && e.point.dataType.UINT16?
    requires WordAreaOf(e.parsed.value.areaCode) == Some(id) && e.parsed.value.address < AreaWords(id)
    requires Written(mem, link, conv, e, VUint16(n)).1.None? && after == Written(mem, link, conv, e, VUint16(n)).0
    requires WordBit(q, id) && q.parsed.address == e.parsed.value.address
    ensures AloneReading(after, link, q) == Good(VBool(Bit(n, q.parsed.bit)))
  {
    WordIsStored(mem, link, conv, e, n, id, after);
    BitIsOfItsWord(after, link, q, id);
  }

  lemma WordIsStored(mem: Memory, link: Link, conv: FloatConversion, e: Entry, n: u16, id: AreaId, after: Memory)
    requires mem.Valid() && Transparent(link) && Usable(e) && WordNumber(MemberOf(e)) && e.point.dataType.UINT16?
    requires WordAreaOf(e.parsed.value.areaCode) == Some(id) && e.parsed.value.address < AreaWords(id)
    requires Written(mem, link, conv, e, VUint16(n)).1.None? && after == Written(mem, link, conv, e, VUint16(n)).0
    ensures after.Valid() && |after.Get(id)| == 2 * AreaWords(id) && Word(after.Get(id), e.parsed.value.address) == n
  {
    NumberIsStored(mem, link, conv, e, VUint16(n), id, after);
    OwnWordValue(conv, n, after.Get(id), e.parsed.value.address);
  }

  lemma OwnWordValue(conv: FloatConversion, n: u16, bytes: seq<byte>, k: nat)
    requires 2 * k + 1 < |bytes| && NumberAt(UINT16, bytes, k) == Reduced(UINT16, n)
    ensures Word(bytes, k) == n && NumberOf(conv, VUint16(n), UINT16) == Some(n)
  {
    assert (n as int) % 0x1_0000 == n;
  }

  // ----- text -----

  /** The text before the first NUL, and all of it where there is none. */
  lemma {:induction false} CutAtFirstNul(s: seq<byte>)
    ensures CutNul(s) <= s && 0 !in CutNul(s)
    ensures |CutNul(s)| < |s| ==> s[|CutNul(s)|] == 0
  {
    if s != [] && s[0] != 0 {
      CutAtFirstNul(s[1..]);
      assert s == [s[0]] + s[1..];
    }
  }

  /** A string field reads as the bytes from the start of its word on, in order, cut at the first NUL. */
  lemma TextIsItsBytes(mem: Memory, link: Link, m: Member, id: AreaId)
    requires mem.Valid() && Transparent(link) && TextField(m) && IsWordArea(m.parsed.areaCode)
    requires WordAreaOf(m.parsed.areaCode) == Some(id) && m.parsed.stringLen <= 131070
    requires m.parsed.address + (m.parsed.stringLen + 1) / 2 <= AreaWords(id)
    ensures 2 * m.parsed.address + m.parsed.stringLen <= |mem.Get(id)|
    ensures AloneReading(mem, link, m)
         == Good(VString(CutNul(mem.Get(id)[2 * m.parsed.address..2 * m.parsed.address + m.parsed.stringLen])))
  {
    AloneIsDirect(mem, link, m);
    DirectTextOfBytes(mem, m, id);
  }

  lemma DirectTextOfBytes(mem: Memory, m: Member, id: AreaId)
    requires mem.Valid() && TextField(m) && WordAreaOf(m.parsed.areaCode) == Some(id) && m.parsed.stringLen <= 131070
    requires m.parsed.address + (m.parsed.stringLen + 1) / 2 <= AreaWords(id)
    ensures 2 * m.parsed.address + m.parsed.stringLen <= |mem.Get(id)|
    ensures DirectReading(mem, m)
         == Good(VString(CutNul(mem.Get(id)[2 * m.parsed.address..2 * m.parsed.address + m.parsed.stringLen])))
  {
    FieldBytes(mem, m, id);
    FieldReading(m, mem.Get(id), m.parsed.address);
  }

  lemma FieldReading(m: Member, bytes: seq<byte>, k: nat)
    requires TextField(m) && 2 * (k + (m.parsed.stringLen + 1) / 2) <= |bytes|
    ensures ReadingOf(SingleGroup(m), GroupedPoint(m, 0), Some(bytes[2 * k..2 * (k + (m.parsed.stringLen + 1) / 2)]))
         == Good(VString(CutNul(bytes[2 * k..2 * k + m.parsed.stringLen])))
  {
    var n := m.parsed.stringLen;
    var data := bytes[2 * k..2 * (k + (n + 1) / 2)];
    assert data[..n] == bytes[2 * k..2 * k + n];
    DecodeText(data, m, data[..n]);
  }

  lemma FieldBytes(mem: Memory, m: Member, id: AreaId)
    requires mem.Valid() && TextField(m)
    requires WordAreaOf(m.parsed.areaCode) == Some(id) && m.parsed.stringLen <= 131070
    requires m.parsed.address + (m.parsed.stringLen + 1) / 2 <= AreaWords(id)
    ensures |mem.Get(id)| == 2 * AreaWords(id)
    ensures GroupSlice(mem, SingleGroup(m))
         == Some(mem.Get(id)[2 * m.parsed.address..2 * (m.parsed.address + (m.parsed.stringLen + 1) / 2)])
  {
    var k, w := m.parsed.address, (m.parsed.stringLen + 1) / 2;
    assert |mem.Get(id)| == 2 * AreaWords(id);
    FieldSlice(mem, m);
    assert FieldWords(m.parsed.stringLen) == w && k % 65536 == k;
  }
}
