/** The storage engine's column descriptor and the codec's tagged result
    (the `mvalue` struct), shared by both encoder versions, the decoder and
    the query planner. */
module Ndb {
  import opened Bytes
  import opened Wrappers

  /** NdbDictionary::Column::Type. */
  datatype ColumnType =
    | Undefined | Tinyint | Tinyunsigned | Smallint | Smallunsigned
    | Mediumint | Mediumunsigned | Int | Unsigned | Bigint | Bigunsigned
    | Float | Double | Olddecimal | Olddecimalunsigned | Decimal | Decimalunsigned
    | Char | Varchar | Binary | Varbinary | Datetime | Date | Blob | Text
    | Bit | Longvarchar | Longvarbinary | Time | Year | Timestamp

  /** A column as the schema dictionary describes it (immutable per request). */
  datatype Column = Column(
    name: seq<byte>,
    colType: ColumnType,
    length: nat,
    precision: nat,
    scale: nat,
    nullable: bool,
    columnNo: nat)

  /** len_string: a byte string with its length. */
  datatype LenString = LenString(len: nat, str: seq<byte>)

  predicate IsCharType(t: ColumnType) {
    t == Varchar || t == Longvarchar || t == Char
  }

  predicate IsTemporalType(t: ColumnType) {
    t == Time || t == Date || t == Datetime
  }

  /** The discriminant of an mvalue (mvalue::use_value). */
  datatype UseValue =
    | ErrBadUserValue | ErrBadColumn | ErrBadDataType
    | UseNull | UseChar | UseSigned | UseUnsigned | Use64 | UseUnsigned64
    | UseFloat | UseDouble | UseBlob | UseInterpreted | UseAutoinc
    | MustUseBinary
    | Unset
  {
    predicate IsError() {
      this == ErrBadUserValue || this == ErrBadColumn || this == ErrBadDataType
    }
  }

  /** Position of a discriminant in the use_value enumeration; the error kinds
      come before the `mvalue_is_good` marker, which has rank 3. */
  function UseRank(u: UseValue): nat {
    match u
    case ErrBadUserValue => 0
    case ErrBadColumn => 1
    case ErrBadDataType => 2
    case Unset => 4
    case _ => 5
  }

  const GoodRank: nat := 3

  /** The union mvalue::u, by the member last written. */
  datatype Payload =
    | Uninitialized
    | ValChar(buf: seq<byte>)                 // u.val_char: an engine-ready buffer
    | ValInt8(v: int) | ValUint8(v: int)      // u.val_8, u.val_unsigned_8
    | ValInt16(v: int) | ValUint16(v: int)    // u.val_16, u.val_unsigned_16
    | ValSigned(v: int) | ValUnsigned(v: int) // u.val_signed, u.val_unsigned
    | ValInt64(v: int) | ValUint64(v: int)    // u.val_64, u.val_unsigned_64
    | ValLow24(bytes: seq<byte>)              // store24() into val_signed / val_unsigned
    | ValFloat(text: seq<byte>)               // atof(text), not modelled
    | ValDouble(text: seq<byte>)              // strtod(text), not modelled
    | ValDecimalBin(text: seq<byte>, precision: nat, scale: nat)
                                              // 32-byte decimal2bin buffer, not modelled
    | ValTime                                 // time(), not modelled

  datatype Interpretation = NotInterpreted | IsIncrement | IsDecrement

  /** The mvalue struct. An encoder assigns some of its fields; the others
      keep what they held before the call. */
  datatype MValue = MValue(
    use: UseValue,
    u: Payload,
    len: int,
    colLen: int,
    over: bool,
    interpreted: Interpretation,
    column: Option<Column>,
    binaryInfo: Option<LenString>)

  /** An mvalue whose fields the program has not yet written. */
  const Blank: MValue :=
    MValue(Unset, Uninitialized, 0, 0, false, NotInterpreted, None, None)
}
