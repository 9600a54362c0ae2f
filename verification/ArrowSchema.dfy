/** The Arrow type of each logical type. */
module ArrowSchema {
  import opened Prelude
  import opened LogicalTypes

  const HUGE_INT_PRECISION: byte := 39
  const I32_MAX := 0x7FFF_FFFF

  type i8 = x: int | -0x80 <= x < 0x80

  datatype ArrowUnit = Second | Millisecond | Microsecond | Nanosecond

  datatype ArrowType =
    | AnyNull | Bool8 | I8 | I16 | I32 | I64 | U8 | U16 | U32 | U64
    | Decimal128(precision: byte, scale: i8) | Decimal256(precision: byte, scale: i8)
    | F32 | F64 | Utf8Text | Binary | Date32 | Time64(unit: ArrowUnit)
    | TimestampOf(unit: ArrowUnit, utc: bool) | MonthDayNano
    | ListOf(item: ArrowField) | FixedSizeListOf(item: ArrowField, size: i32) | StructOf(fields: seq<ArrowField>)

  /** Every field is nullable. */
  datatype ArrowField = ArrowField(name: text, dataType: ArrowType)

  function ArrowTypeOf(t: LogicalType): Result<ArrowType>
    decreases t, 1
  {
    match t.id
    case SqlNull => Success(AnyNull)
    case Boolean => Success(Bool8)
    case TinyInt => Success(I8)
    case SmallInt => Success(I16)
    case Integer => Success(I32)
    case BigInt => Success(I64)
    case UTinyInt => Success(U8)
    case USmallInt => Success(U16)
    case UInteger => Success(U32)
    case UBigInt => Success(U64)
    case HugeInt | UHugeInt => Success(Decimal256(HUGE_INT_PRECISION, 0))
    case Float => Success(F32)
    case Double => Success(F64)
    case Decimal =>
      var (precision, scale) :- DecimalPrecisionAndScale(t);
      Success(Decimal128(precision, scale))
    case Varchar | Char | Enum | Uuid => Success(Utf8Text)
    case Blob | Geometry | Bit => Success(Binary)
    case Date => Success(Date32)
    case Time => Success(Time64(Microsecond))
    case TimeNs => Success(Time64(Nanosecond))
    case TimestampSec => Success(TimestampOf(Second, false))
    case TimestampMs => Success(TimestampOf(Millisecond, false))
    case Timestamp => Success(TimestampOf(Microsecond, false))
    case TimestampNs => Success(TimestampOf(Nanosecond, false))
    case TimestampTz => Success(TimestampOf(Microsecond, true))
    case Interval => Success(MonthDayNano)
    case List | Map =>
      var item :- ListItemField(t);
      Success(ListOf(item))
    case Array =>
      var item :- ListItemField(t);
      var size :- ArraySize(t);
      Success(FixedSizeListOf(item, size))
    case Struct | Variant =>
      var children :- GetStructChildren(t);
      var fields :- StructFields(t, children);
      Success(StructOf(fields))
    case _ => Failure(Unsupported)
  }

  function ListItemField(t: LogicalType): Result<ArrowField>
    decreases t, 0
  {
    var child :- GetChildType(t);
    var dataType :- ArrowTypeOf(child);
    Success(ArrowField(ItemName(), dataType))
  }

  function ItemName(): text {
    hide IsUtf8;
    var s := ['i' as int, 't' as int, 'e' as int, 'm' as int];
    AsciiIsUtf8(s);
    s
  }

  /** The fields of the children of `t`. */
  function StructFields(ghost t: LogicalType, children: seq<ChildType>): (r: Result<seq<ArrowField>>)
    requires Inside(children, t)
    ensures r.Success? ==> |r.value| == |children|
    decreases t, 0, |children|
  {
    if children == [] then Success([])
    else
      var dataType :- ArrowTypeOf(children[0].logicalType);
      var fields :- StructFields(t, children[1..]);
      Success([ArrowField(children[0].name, dataType)] + fields)
  }

  function ArraySize(t: LogicalType): Result<i32> {
    var size :- GetArraySize(t);
    if size <= I32_MAX then Success(size) else Failure(Protocol)
  }

  function DecimalPrecisionAndScale(t: LogicalType): Result<(byte, i8)> {
    var (width, scale) :- GetDecimalWidthAndScale(t);
    if width < 0x100 && scale < 0x80 then Success((width, scale)) else Failure(Protocol)
  }

  /** The Arrow type is a 128-bit decimal of that precision and scale exactly for the decimal of
      that width and scale, and a decimal has an Arrow type exactly if its width fits an unsigned
      byte and its scale a signed one. */
  lemma DecimalTypeExactly(t: LogicalType, width: byte, scale: i8)
    ensures ArrowTypeOf(t) == Success(Decimal128(width, scale)) <==>
      t.id == TypeId.Decimal && t.info.Some? && t.info.value.DecimalInfo?
      && t.info.value.width == width && t.info.value.scale == scale
    ensures t.id == TypeId.Decimal ==>
      (ArrowTypeOf(t).Success? <==>
         t.info.Some? && t.info.value.DecimalInfo? && t.info.value.width <= 255 && t.info.value.scale <= 127)
  {
  }

  lemma {:induction false} StructFieldAt(t: LogicalType, children: seq<ChildType>, k: nat)
    requires Inside(children, t) && k < |children| && StructFields(t, children).Success?
    ensures ArrowTypeOf(children[k].logicalType).Success?
    ensures StructFields(t, children).value[k] ==
      ArrowField(children[k].name, ArrowTypeOf(children[k].logicalType).value)
    decreases k
  {
    hide ArrowTypeOf;
    if k > 0 {
      StructFieldAt(t, children[1..], k - 1);
    }
  }
}
