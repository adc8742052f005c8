/** The value codec: typed values to bytes in PLC memory and back. */
module Decoder {
  import opened Bytes
  import opened Types

  /** Bytes a data type occupies; 0 for strings and for types without a size. */
  function DataTypeSize(t: DataType): nat {
    match t
    case UINT8 => 1
    case INT8 => 1
    case UINT16 => 2
    case INT16 => 2
    case UINT32 => 4
    case INT32 => 4
    case FLOAT => 4
    case UINT64 => 8
    case INT64 => 8
    case DOUBLE => 8
    case _ => 0
  }

  // ----- two's complement -----

  /** Go's conversion of a signed value to the unsigned type of the same width. */
  function Unsigned(i: int, n: nat): (r: nat)
    ensures r < Pow256(n)
  {
    i % Pow256(n)
  }

  function Signed(v: nat, n: nat): int {
    if 2 * v < Pow256(n) then v else v - Pow256(n)
  }

  ghost predicate FitsSigned(i: int, n: nat) {
    -(Pow256(n) as int) <= 2 * i < Pow256(n)
  }

  lemma SignedRoundTrip(i: int, n: nat)
    requires FitsSigned(i, n)
    ensures Signed(Unsigned(i, n), n) == i
  {
    var p: int := Pow256(n);
    Residue(i, p);
  }

  lemma UnsignedIdentity(i: int, n: nat)
    requires 0 <= i < Pow256(n)
    ensures Unsigned(i, n) == i
  {
    SmallResidue(i, Pow256(n));
  }

  lemma SmallResidue(i: int, p: int)
    requires 0 <= i < p
    ensures i % p == i
  {
  }

  lemma Residue(i: int, p: int)
    requires p > 0 && -p <= 2 * i < p
    ensures i % p == if i < 0 then i + p else i
  {
    if i < 0 {
      var q, r := i / p, i % p;
      assert i == q * p + r && 0 <= r < p;
      assert q >= 0 ==> q * p >= 0;
      assert q <= -2 ==> q * p <= -2 * p;
    }
  }

  // ----- byte order -----

  function LittleEndian(a: ParsedAddress): bool {
    a.isString && a.byteOrder.OrderLow?
  }

  function PutUint(a: ParsedAddress, v: nat, n: nat): (r: seq<byte>)
    ensures |r| == n
  {
    if LittleEndian(a) then ToLE(v, n) else ToBE(v, n)
  }

  function GetUint(a: ParsedAddress, data: seq<byte>): (r: nat)
    ensures r < Pow256(|data|)
  {
    BigEndianBound(data);
    LittleEndianBound(data);
    if LittleEndian(a) then FromLE(data) else FromBE(data)
  }

  lemma UintRoundTrip(a: ParsedAddress, v: nat, n: nat)
    requires v < Pow256(n)
    ensures GetUint(a, PutUint(a, v, n)) == v
  {
    BigEndianRoundTrip(v, n);
    LittleEndianRoundTrip(v, n);
  }

  // ----- encoding -----

  /**
   * How the platform turns a float64 into a narrower number; the language leaves results
   * outside the target range open, so this is a parameter.
   */
  type FloatConversion = (DataType, nat) -> int

  /** The integer a value stands for under an integer or float type, if it is acceptable. */
  function NumberOf(conv: FloatConversion, v: Value, t: DataType): (r: Option<int>) {
    match (t, v)
    case (UINT8, VUint8(n)) => Some(n)
    case (INT8, VInt8(i)) => Some(i)
    case (UINT16, VUint16(n)) => Some(n)
    case (INT16, VInt16(i)) => Some(i)
    case (UINT32, VUint32(n)) => Some(n)
    case (INT32, VInt32(i)) => Some(i)
    case (UINT64, VUint64(n)) => Some(n)
    case (INT64, VInt64(i)) => Some(i)
    case (FLOAT, VFloat32(bits)) => Some(bits)
    case (DOUBLE, VFloat64(bits)) => Some(bits)
    case (_, VFloat64(bits)) => Some(conv(t, bits))
    case _ => None
  }

  function EncodeValue(conv: FloatConversion, v: Value, t: DataType, a: ParsedAddress): (r: Result<seq<byte>, DecodeError>) {
    if a.isBit then
      if v.VBool? then Ok([if v.b then 1 else 0]) else Err(InvalidDataType)
    else if DataTypeSize(t) > 0 then
      match NumberOf(conv, v, t)
      case Some(k) => Ok(PutUint(a, Unsigned(k, DataTypeSize(t)), DataTypeSize(t)))
      case None => Err(InvalidDataType)
    else if t.STRING? then
      if v.VString? then
        var len := if a.stringLen > 0 then a.stringLen else |v.text|;
        Ok(Pad(v.text, len))
      else Err(InvalidDataType)
    else Err(UnsupportedDataType)
  }

  /** A field of the given length: the text cut off, or filled up with NULs. */
  function Pad(s: seq<byte>, len: nat): (r: seq<byte>)
    ensures |r| == len
    ensures forall i :: 0 <= i < len ==> r[i] == if i < |s| then s[i] else 0
  {
    if |s| >= len then s[..len] else s + seq(len - |s|, _ => 0)
  }

  // ----- decoding -----

  /** The text before the first NUL. */
  function CutNul(s: seq<byte>): (r: seq<byte>) {
    if s == [] || s[0] == 0 then [] else [s[0]] + CutNul(s[1..])
  }

  /** The typed value of an unsigned field. */
  function NumberValue(t: DataType, u: nat): Value
    requires DataTypeSize(t) > 0
  {
    match t
    case UINT8 => VUint8(u)
    case INT8 => VInt8(Signed(u, 1))
    case UINT16 => VUint16(u)
    case INT16 => VInt16(Signed(u, 2))
    case UINT32 => VUint32(u)
    case INT32 => VInt32(Signed(u, 4))
    case UINT64 => VUint64(u)
    case INT64 => VInt64(Signed(u, 8))
    case FLOAT => VFloat32(u)
    case DOUBLE => VFloat64(u)
  }

  function DecodeValue(data: seq<byte>, t: DataType, a: ParsedAddress): (r: Result<Value, DecodeError>) {
    if a.isBit then
      if |data| < 1 then Err(DataTooShort) else Ok(VBool(data[0] % 2 == 1))
    else if DataTypeSize(t) > 0 then
      if |data| < DataTypeSize(t) then Err(DataTooShort)
      else Ok(NumberValue(t, GetUint(a, data[..DataTypeSize(t)])))
    else if t.STRING? then
      var len := if 0 < a.stringLen < |data| then a.stringLen else |data|;
      Ok(VString(CutNul(data[..len])))
    else if t.BIT? then
      if |data| < 1 then Err(DataTooShort) else Ok(VBool(data[0] % 2 == 1))
    else Err(UnsupportedDataType)
  }

  // ----- round trips -----

  /** A value of the Go type that the data type names, within its width. */
  ghost predicate Typed(v: Value, t: DataType) {
    match (t, v)
    case (UINT8, VUint8(n)) => n < Pow256(1)
    case (INT8, VInt8(i)) => FitsSigned(i, 1)
    case (UINT16, VUint16(n)) => n < Pow256(2)
    case (INT16, VInt16(i)) => FitsSigned(i, 2)
    case (UINT32, VUint32(n)) => n < Pow256(4)
    case (INT32, VInt32(i)) => FitsSigned(i, 4)
    case (UINT64, VUint64(n)) => n < Pow256(8)
    case (INT64, VInt64(i)) => FitsSigned(i, 8)
    case (FLOAT, VFloat32(bits)) => bits < Pow256(4)
    case (DOUBLE, VFloat64(bits)) => bits < Pow256(8)
    case _ => false
  }

  lemma NumberRoundTrip(conv: FloatConversion, v: Value, t: DataType)
    requires Typed(v, t)
    ensures DataTypeSize(t) > 0
    ensures NumberOf(conv, v, t).Some?
    ensures NumberValue(t, Unsigned(NumberOf(conv, v, t).value, DataTypeSize(t))) == v
  {
    var k := NumberOf(conv, v, t).value;
    var n := DataTypeSize(t);
    if t in {INT8, INT16, INT32, INT64} {
      SignedRoundTrip(k, n);
    } else {
      UnsignedIdentity(k, n);
    }
  }

  /** Every typed number survives encoding and decoding, in either byte order, extra bytes or not. */
  lemma ValueRoundTrip(conv: FloatConversion, v: Value, t: DataType, a: ParsedAddress, extra: seq<byte>)
    requires !a.isBit && Typed(v, t)
    ensures EncodeValue(conv, v, t, a).Ok?
    ensures DecodeValue(EncodeValue(conv, v, t, a).value + extra, t, a) == Ok(v)
  {
    NumberRoundTrip(conv, v, t);
    var n := DataTypeSize(t);
    var u := Unsigned(NumberOf(conv, v, t).value, n);
    UintRoundTrip(a, u, n);
    var bytes := PutUint(a, u, n);
    assert (bytes + extra)[..n] == bytes;
  }

  lemma {:induction false} CutNulPad(s: seq<byte>, len: nat)
    requires |s| <= len
    ensures CutNul(Pad(s, len)) == CutNul(s)
    decreases |s|
  {
    if s == [] {
    } else {
      assert Pad(s, len)[1..] == Pad(s[1..], len - 1);
      CutNulPad(s[1..], len - 1);
    }
  }

  /** Text comes back truncated to the field and cut at its first NUL. */
  lemma TextOfField(s: seq<byte>, len: nat)
    ensures CutNul(Pad(s, len)) == CutNul(if |s| <= len then s else s[..len])
  {
    if |s| <= len {
      CutNulPad(s, len);
    }
  }

  /** Text without a NUL that fits is unchanged; conversely unchanged text has no NUL. */
  lemma {:induction false} CutNulIdentity(s: seq<byte>)
    ensures CutNul(s) == s <==> 0 !in s
    ensures |CutNul(s)| <= |s|
  {
    if s == [] {
    } else {
      CutNulIdentity(s[1..]);
      assert s == [s[0]] + s[1..];
    }
  }
}
