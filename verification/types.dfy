/** Points, parsed addresses and the values a caller reads and writes. */
module Types {
  import opened Bytes

  datatype DataType =
    | BIT
    | UINT8 | INT8 | UINT16 | INT16 | UINT32 | INT32 | UINT64 | INT64
    | FLOAT | DOUBLE
    | STRING
    | OtherType(name: string)

  datatype ByteOrder = OrderHigh | OrderLow

  datatype Point = Point(id: string, address: string, dataType: DataType)

  /** The keys of the driver's area map: one- and three-letter names and EM banks. */
  datatype AreaName = NameCIO | NameW | NameH | NameA | NameD | NameP | NameF | NameT | NameC | NameEM(bank: nat)

  datatype ParsedAddress = ParsedAddress(
    area: AreaName, areaCode: byte, emNumber: nat, address: nat, bit: int, stringLen: nat,
    byteOrder: ByteOrder, isBit: bool, isString: bool)

  /** The dynamic value passed to a write or returned by a read. Floats are their bit patterns. */
  datatype Value =
    | VBool(b: bool)
    | VUint8(n: nat) | VInt8(i: int) | VUint16(n: nat) | VInt16(i: int)
    | VUint32(n: nat) | VInt32(i: int) | VUint64(n: nat) | VInt64(i: int)
    | VFloat32(bits: nat) | VFloat64(bits: nat)
    | VString(text: seq<byte>)

  /** `SlicePanic` stands for a slice out of range, which would stop the program. */
  datatype DecodeError = DataTooShort | InvalidDataType | UnsupportedDataType | SlicePanic
}
