/** DuckDB logical types, their metadata, and the physical types that carry them. */
module LogicalTypes {
  import opened Prelude

  datatype TypeId =
    Invalid | SqlNull | Unknown | Any | Unbound | Template | Type | Boolean | TinyInt | SmallInt |
    Integer | BigInt | Date | Time | TimestampSec | TimestampMs | Timestamp | TimestampNs |
    Decimal | Float | Double | Char | Varchar | Blob | Interval | UTinyInt | USmallInt | UInteger |
    UBigInt | TimestampTz | TimeTz | TimeNs | Bit | StringLiteral | IntegerLiteral | BigNum |
    UHugeInt | HugeInt | Pointer | Validity | Uuid | Geometry | Struct | List | Map | Table |
    Enum | AggregateState | Lambda | Union | Array | Variant

  function TypeCode(id: TypeId): (code: u64)
    ensures TypeOfCode(code) == Some(id)
  {
    match id
    case Invalid => 0
    case SqlNull => 1
    case Unknown => 2
    case Any => 3
    case Unbound => 4
    case Template => 5
    case Type => 6
    case Boolean => 10
    case TinyInt => 11
    case SmallInt => 12
    case Integer => 13
    case BigInt => 14
    case Date => 15
    case Time => 16
    case TimestampSec => 17
    case TimestampMs => 18
    case Timestamp => 19
    case TimestampNs => 20
    case Decimal => 21
    case Float => 22
    case Double => 23
    case Char => 24
    case Varchar => 25
    case Blob => 26
    case Interval => 27
    case UTinyInt => 28
    case USmallInt => 29
    case UInteger => 30
    case UBigInt => 31
    case TimestampTz => 32
    case TimeTz => 34
    case TimeNs => 35
    case Bit => 36
    case StringLiteral => 37
    case IntegerLiteral => 38
    case BigNum => 39
    case UHugeInt => 49
    case HugeInt => 50
    case Pointer => 51
    case Validity => 53
    case Uuid => 54
    case Geometry => 60
    case Struct => 100
    case List => 101
    case Map => 102
    case Table => 103
    case Enum => 104
    case AggregateState => 105
    case Lambda => 106
    case Union => 107
    case Array => 108
    case Variant => 109
  }

  function TypeOfCode(code: u64): Option<TypeId> {
    match code
    case 0 => Some(Invalid)
    case 1 => Some(SqlNull)
    case 2 => Some(Unknown)
    case 3 => Some(Any)
    case 4 => Some(Unbound)
    case 5 => Some(Template)
    case 6 => Some(Type)
    case 10 => Some(Boolean)
    case 11 => Some(TinyInt)
    case 12 => Some(SmallInt)
    case 13 => Some(Integer)
    case 14 => Some(BigInt)
    case 15 => Some(Date)
    case 16 => Some(Time)
    case 17 => Some(TimestampSec)
    case 18 => Some(TimestampMs)
    case 19 => Some(Timestamp)
    case 20 => Some(TimestampNs)
    case 21 => Some(Decimal)
    case 22 => Some(Float)
    case 23 => Some(Double)
    case 24 => Some(Char)
    case 25 => Some(Varchar)
    case 26 => Some(Blob)
    case 27 => Some(Interval)
    case 28 => Some(UTinyInt)
    case 29 => Some(USmallInt)
    case 30 => Some(UInteger)
    case 31 => Some(UBigInt)
    case 32 => Some(TimestampTz)
    case 34 => Some(TimeTz)
    case 35 => Some(TimeNs)
    case 36 => Some(Bit)
    case 37 => Some(StringLiteral)
    case 38 => Some(IntegerLiteral)
    case 39 => Some(BigNum)
    case 49 => Some(UHugeInt)
    case 50 => Some(HugeInt)
    case 51 => Some(Pointer)
    case 53 => Some(Validity)
    case 54 => Some(Uuid)
    case 60 => Some(Geometry)
    case 100 => Some(Struct)
    case 101 => Some(List)
    case 102 => Some(Map)
    case 103 => Some(Table)
    case 104 => Some(Enum)
    case 105 => Some(AggregateState)
    case 106 => Some(Lambda)
    case 107 => Some(Union)
    case 108 => Some(Array)
    case 109 => Some(Variant)
    case _ => None
  }

  datatype PhysicalType =
    | PBool | PUInt8 | PInt8 | PUInt16 | PInt16 | PUInt32 | PInt32 | PUInt64 | PInt64
    | PFloat | PDouble | PInterval | PList | PStruct | PArray | PVarchar | PUInt128 | PInt128
    | PBit | PInvalid

  datatype LogicalType = LogicalType(id: TypeId, info: Option<ExtraTypeInfo>)

  datatype ChildType = ChildType(name: text, logicalType: LogicalType)

  datatype ExtraTypeInfo =
    | InvalidInfo(alias: Option<text>)
    | GenericInfo(alias: Option<text>)
    | DecimalInfo(alias: Option<text>, width: u64, scale: u64)
    | StringInfo(alias: Option<text>, collation: text)
    | ListInfo(alias: Option<text>, childType: LogicalType)
    | StructInfo(alias: Option<text>, childTypes: vec<ChildType>)
    | EnumInfo(alias: Option<text>, values: vec<text>)
    | UnboundInfo(alias: Option<text>, name: Option<text>, catalog: Option<text>, schema: Option<text>)
    | AggregateInfo(alias: Option<text>, functionName: text, returnType: LogicalType, arguments: vec<LogicalType>)
    | ArrayInfo(alias: Option<text>, childType: LogicalType, size: u64)
    | AnyInfo(alias: Option<text>, targetType: LogicalType, castScore: u64)
    | IntegerLiteralInfo(alias: Option<text>)
    | TemplateInfo(alias: Option<text>, templateName: text)
    | GeoInfo(alias: Option<text>, crs: Option<text>)

  /** The wire code of each kind of metadata. */
  function InfoCode(info: ExtraTypeInfo): (code: u64)
    ensures code <= 13
  {
    match info
    case InvalidInfo(_) => 0
    case GenericInfo(_) => 1
    case DecimalInfo(_, _, _) => 2
    case StringInfo(_, _) => 3
    case ListInfo(_, _) => 4
    case StructInfo(_, _) => 5
    case EnumInfo(_, _) => 6
    case UnboundInfo(_, _, _, _) => 7
    case AggregateInfo(_, _, _, _) => 8
    case ArrayInfo(_, _, _) => 9
    case AnyInfo(_, _, _) => 10
    case IntegerLiteralInfo(_) => 11
    case TemplateInfo(_, _) => 12
    case GeoInfo(_, _) => 13
  }

  // ---- accessors ----

  function GetChildType(t: LogicalType): (r: Result<LogicalType>)
    ensures r.Success? ==> r.value < t
  {
    match t.info
    case Some(ListInfo(_, child)) => Success(child)
    case Some(ArrayInfo(_, child, _)) => Success(child)
    case _ => Failure(Protocol)
  }

  function GetStructChildren(t: LogicalType): (r: Result<vec<ChildType>>)
    ensures r.Success? ==> forall i | 0 <= i < |r.value| :: r.value[i].logicalType < t
  {
    match t.info
    case Some(StructInfo(_, children)) => Success(children)
    case _ => if t.id == Variant || t.id == Union then Success([]) else Failure(Protocol)
  }

  /** Types inside `t`, so that recursion over them ends. */
  ghost predicate Inside(children: seq<ChildType>, t: LogicalType) {
    forall i | 0 <= i < |children| :: children[i].logicalType < t
  }

  function GetArraySize(t: LogicalType): Result<u64> {
    match t.info
    case Some(ArrayInfo(_, _, size)) => Success(size)
    case _ => Failure(Protocol)
  }

  function GetDecimalWidthAndScale(t: LogicalType): Result<(u64, u64)> {
    match t.info
    case Some(DecimalInfo(_, width, scale)) => Success((width, scale))
    case _ => Failure(Protocol)
  }

  function GetEnumValues(t: LogicalType): Result<vec<text>> {
    match t.info
    case Some(EnumInfo(_, values)) => Success(values)
    case _ => Failure(Protocol)
  }

  // ---- physical types ----

  function GetPhysicalType(t: LogicalType): Result<PhysicalType> {
    match t.id
    case Boolean => Success(PBool)
    case TinyInt => Success(PInt8)
    case UTinyInt => Success(PUInt8)
    case SmallInt => Success(PInt16)
    case USmallInt => Success(PUInt16)
    case SqlNull | Date | Integer => Success(PInt32)
    case UInteger => Success(PUInt32)
    case BigInt | Time | TimeNs | Timestamp | TimestampSec | TimestampNs | TimestampMs | TimeTz | TimestampTz =>
      Success(PInt64)
    case UBigInt | Pointer => Success(PUInt64)
    case UHugeInt => Success(PUInt128)
    case HugeInt | Uuid => Success(PInt128)
    case Float => Success(PFloat)
    case Double => Success(PDouble)
    case Decimal => DecimalPhysicalType(t)
    case BigNum | Varchar | Char | Blob | Bit | Type | AggregateState | Geometry => Success(PVarchar)
    case Interval => Success(PInterval)
    case Union | Variant | Struct => Success(PStruct)
    case List | Map => Success(PList)
    case Array => Success(PArray)
    case Validity => Success(PBit)
    case Enum => EnumPhysicalType(t)
    case _ => Success(PInvalid)
  }

  function DecimalPhysicalType(t: LogicalType): Result<PhysicalType> {
    var (width, _) :- GetDecimalWidthAndScale(t);
    if width <= 4 then Success(PInt16)
    else if width <= 9 then Success(PInt32)
    else if width <= 18 then Success(PInt64)
    else if width <= 38 then Success(PInt128)
    else Failure(Protocol)
  }

  function EnumPhysicalType(t: LogicalType): Result<PhysicalType> {
    var values :- GetEnumValues(t);
    Success(if |values| <= 0xFF then PUInt8 else if |values| <= 0xFFFF then PUInt16 else PUInt32)
  }

  /** The width in bytes of a fixed-size physical type; the others have none. */
  function PhysicalTypeSize(p: PhysicalType): Option<nat> {
    match p
    case PBool | PUInt8 | PInt8 => Some(1)
    case PUInt16 | PInt16 => Some(2)
    case PUInt32 | PInt32 | PFloat => Some(4)
    case PUInt64 | PInt64 | PDouble => Some(8)
    case PInterval | PUInt128 | PInt128 => Some(16)
    case _ => None
  }

  // ---- the codes, number by number ----

  /** The codes up to 20 and their types. */
  lemma SimpleTypeCodes(code: u64)
    ensures (code == 0 <==> TypeOfCode(code) == Some(Invalid))
      && (code == 1 <==> TypeOfCode(code) == Some(SqlNull))
      && (code == 2 <==> TypeOfCode(code) == Some(Unknown)) && (code == 3 <==> TypeOfCode(code) == Some(Any))
      && (code == 4 <==> TypeOfCode(code) == Some(Unbound))
      && (code == 5 <==> TypeOfCode(code) == Some(Template))
      && (code == 6 <==> TypeOfCode(code) == Some(TypeId.Type))
      && (code == 10 <==> TypeOfCode(code) == Some(Boolean))
      && (code == 11 <==> TypeOfCode(code) == Some(TinyInt))
      && (code == 12 <==> TypeOfCode(code) == Some(SmallInt))
      && (code == 13 <==> TypeOfCode(code) == Some(Integer))
      && (code == 14 <==> TypeOfCode(code) == Some(BigInt))
      && (code == 15 <==> TypeOfCode(code) == Some(Date)) && (code == 16 <==> TypeOfCode(code) == Some(Time))
      && (code == 17 <==> TypeOfCode(code) == Some(TimestampSec))
      && (code == 18 <==> TypeOfCode(code) == Some(TimestampMs))
      && (code == 19 <==> TypeOfCode(code) == Some(Timestamp))
      && (code == 20 <==> TypeOfCode(code) == Some(TimestampNs))
  {
  }

  /** Those up to 32. */
  lemma LaterTypeCodes(code: u64)
    ensures (code == 21 <==> TypeOfCode(code) == Some(Decimal))
      && (code == 22 <==> TypeOfCode(code) == Some(Float))
      && (code == 23 <==> TypeOfCode(code) == Some(Double))
      && (code == 24 <==> TypeOfCode(code) == Some(Char))
      && (code == 25 <==> TypeOfCode(code) == Some(Varchar))
      && (code == 26 <==> TypeOfCode(code) == Some(Blob))
      && (code == 27 <==> TypeOfCode(code) == Some(Interval))
      && (code == 28 <==> TypeOfCode(code) == Some(UTinyInt))
      && (code == 29 <==> TypeOfCode(code) == Some(USmallInt))
      && (code == 30 <==> TypeOfCode(code) == Some(UInteger))
      && (code == 31 <==> TypeOfCode(code) == Some(UBigInt))
      && (code == 32 <==> TypeOfCode(code) == Some(TimestampTz))
  {
  }

  /** Those up to 60. */
  lemma WideTypeCodes(code: u64)
    ensures (code == 34 <==> TypeOfCode(code) == Some(TimeTz))
      && (code == 35 <==> TypeOfCode(code) == Some(TimeNs)) && (code == 36 <==> TypeOfCode(code) == Some(Bit))
      && (code == 37 <==> TypeOfCode(code) == Some(StringLiteral))
      && (code == 38 <==> TypeOfCode(code) == Some(IntegerLiteral))
      && (code == 39 <==> TypeOfCode(code) == Some(BigNum))
      && (code == 49 <==> TypeOfCode(code) == Some(UHugeInt))
      && (code == 50 <==> TypeOfCode(code) == Some(HugeInt))
      && (code == 51 <==> TypeOfCode(code) == Some(Pointer))
      && (code == 53 <==> TypeOfCode(code) == Some(Validity))
      && (code == 54 <==> TypeOfCode(code) == Some(Uuid))
      && (code == 60 <==> TypeOfCode(code) == Some(Geometry))
  {
  }

  /** Those from 100 on. */
  lemma NestedTypeCodes(code: u64)
    ensures (code == 100 <==> TypeOfCode(code) == Some(Struct))
      && (code == 101 <==> TypeOfCode(code) == Some(List)) && (code == 102 <==> TypeOfCode(code) == Some(Map))
      && (code == 103 <==> TypeOfCode(code) == Some(Table))
      && (code == 104 <==> TypeOfCode(code) == Some(Enum))
      && (code == 105 <==> TypeOfCode(code) == Some(AggregateState))
      && (code == 106 <==> TypeOfCode(code) == Some(Lambda))
      && (code == 107 <==> TypeOfCode(code) == Some(Union))
      && (code == 108 <==> TypeOfCode(code) == Some(Array))
      && (code == 109 <==> TypeOfCode(code) == Some(Variant))
  {
  }

  /** No other number is a code. */
  lemma NoOtherCodes(code: u64)
    ensures TypeOfCode(code).Some? <==>
      || code <= 6 || 10 <= code <= 32 || 34 <= code <= 39 || 49 <= code <= 51 || code in {53, 54, 60}
      || 100 <= code <= 109
  {
  }

  /** The codes of the kinds of metadata. */
  lemma InfoCodes(info: ExtraTypeInfo)
    ensures (info.InvalidInfo? <==> InfoCode(info) == 0) && (info.GenericInfo? <==> InfoCode(info) == 1)
      && (info.DecimalInfo? <==> InfoCode(info) == 2) && (info.StringInfo? <==> InfoCode(info) == 3)
      && (info.ListInfo? <==> InfoCode(info) == 4) && (info.StructInfo? <==> InfoCode(info) == 5)
      && (info.EnumInfo? <==> InfoCode(info) == 6) && (info.UnboundInfo? <==> InfoCode(info) == 7)
      && (info.AggregateInfo? <==> InfoCode(info) == 8) && (info.ArrayInfo? <==> InfoCode(info) == 9)
      && (info.AnyInfo? <==> InfoCode(info) == 10) && (info.IntegerLiteralInfo? <==> InfoCode(info) == 11)
      && (info.TemplateInfo? <==> InfoCode(info) == 12) && (info.GeoInfo? <==> InfoCode(info) == 13)
  {
  }
}
