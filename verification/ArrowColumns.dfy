/** Arrow arrays built from columns of values. */
module ArrowColumns {
  import opened Prelude
  import opened Arithmetic
  import opened LogicalTypes
  import opened Values
  import opened Vectors
  import opened ArrowSchema

  /** The native form of one value. */
  datatype Cell =
    | NumberCell(n: int)
    | BoolCell(b: bool)
    | BytesCell(raw: seq<byte>)
    | IntervalCell(months: i32, days: i32, nanos: i64)

  datatype ArrowArray =
    | NullArray(length: nat)
    | Cells(dataType: ArrowType, cells: seq<Option<Cell>>)
    | ListArray(field: ArrowField, offsets: seq<nat>, validity: seq<bool>, child: ArrowArray)
    | FixedSizeListArray(field: ArrowField, size: i32, validity: seq<bool>, child: ArrowArray)
    | StructArray(fields: seq<ArrowField>, validity: seq<bool>, arrays: seq<ArrowArray>)

  function TypeOf(a: ArrowArray): ArrowType {
    match a
    case NullArray(_) => AnyNull
    case Cells(dataType, _) => dataType
    case ListArray(field, _, _, _) => ListOf(field)
    case FixedSizeListArray(field, size, _, _) => FixedSizeListOf(field, size)
    case StructArray(fields, _, _) => StructOf(fields)
  }

  function Length(a: ArrowArray): nat {
    match a
    case NullArray(n) => n
    case Cells(_, cells) => |cells|
    case ListArray(_, _, validity, _) => |validity|
    case FixedSizeListArray(_, _, validity, _) => |validity|
    case StructArray(_, validity, _) => |validity|
  }

  // ---- extraction ----

  const MICROS_IN_DAY := 86_400_000_000
  const NANOS_IN_DAY := 86_400_000_000_000

  function NarrowInt(v: Value, low: int, high: int): Result<Cell> {
    if v.Int? && low <= v.i <= high then Success(NumberCell(v.i)) else Failure(Protocol)
  }

  function NarrowUInt(v: Value, high: int): Result<Cell> {
    if v.UInt? && v.u <= high then Success(NumberCell(v.u)) else Failure(Protocol)
  }

  function TimeCell(v: Value, unit: TimeUnit): Result<Cell> {
    var limit := if unit == TimeUnit.Micros then MICROS_IN_DAY else NANOS_IN_DAY;
    if v.Time? && v.unit == unit && 0 <= v.ticks < limit then Success(NumberCell(v.ticks)) else Failure(Protocol)
  }

  function TimestampCell(v: Value, unit: TimestampUnit, utc: bool): Result<Cell> {
    if v.Timestamp? && v.tsUnit == unit && v.utc == utc then Success(NumberCell(v.ticks)) else Failure(Protocol)
  }

  /** The native form of a value that is not null. */
  function ToCell(id: TypeId, v: Value): Result<Cell> {
    match id
    case Boolean => if v.Bool? then Success(BoolCell(v.b)) else Failure(Protocol)
    case TinyInt => NarrowInt(v, -0x80, 0x7F)
    case SmallInt => NarrowInt(v, -0x8000, 0x7FFF)
    case Integer => NarrowInt(v, -0x8000_0000, 0x7FFF_FFFF)
    case BigInt => if v.Int? then Success(NumberCell(v.i)) else Failure(Protocol)
    case UTinyInt => NarrowUInt(v, 0xFF)
    case USmallInt => NarrowUInt(v, 0xFFFF)
    case UInteger => NarrowUInt(v, 0xFFFF_FFFF)
    case UBigInt => if v.UInt? then Success(NumberCell(v.u)) else Failure(Protocol)
    case HugeInt => if v.HugeInt? then Success(NumberCell(v.h)) else Failure(Protocol)
    case UHugeInt => if v.UHugeInt? then Success(NumberCell(v.uh)) else Failure(Protocol)
    case Float => if v.Float? then Success(NumberCell(v.bits32)) else Failure(Protocol)
    case Double => if v.Double? then Success(NumberCell(v.bits64)) else Failure(Protocol)
    case Decimal => if v.Decimal? then Success(NumberCell(v.unscaled)) else Failure(Protocol)
    case Varchar | Char | Enum | Uuid => if v.Str? then Success(BytesCell(v.s)) else Failure(Protocol)
    case Blob | Geometry | Bit => if v.Bytes? then Success(BytesCell(v.raw)) else Failure(Protocol)
    case Date => if v.Date? then Success(NumberCell(v.days)) else Failure(Protocol)
    case Time => TimeCell(v, TimeUnit.Micros)
    case TimeNs => TimeCell(v, TimeUnit.Nanos)
    case TimestampSec => TimestampCell(v, Seconds, false)
    case TimestampMs => TimestampCell(v, Millis, false)
    case Timestamp => TimestampCell(v, TimestampUnit.Micros, false)
    case TimestampNs => TimestampCell(v, TimestampUnit.Nanos, false)
    case TimestampTz => TimestampCell(v, TimestampUnit.Micros, true)
    case Interval =>
      if v.Interval? && -TWO_63 <= v.micros * 1000 < TWO_63 then
        Success(IntervalCell(v.months, v.days, v.micros * 1000))
      else Failure(Protocol)
    case _ => Failure(Unsupported)
  }

  function ToCells(id: TypeId, vs: seq<Value>): (r: Result<seq<Option<Cell>>>)
    ensures r.Success? ==> |r.value| == |vs|
  {
    if vs == [] then Success([])
    else
      var first :- ToOptionalCell(id, vs[0]);
      var rest :- ToCells(id, vs[1..]);
      Success([first] + rest)
  }

  function ToOptionalCell(id: TypeId, v: Value): Result<Option<Cell>> {
    if v.Null? then Success(None)
    else
      var cell :- ToCell(id, v);
      Success(Some(cell))
  }

  function CellBytes(c: Option<Cell>): nat {
    if c.Some? && c.value.BytesCell? then |c.value.raw| else 0
  }

  function TotalBytes(cells: seq<Option<Cell>>): nat {
    if cells == [] then 0
    else
      CellBytes(cells[0]) + TotalBytes(cells[1..])
  }

  // ---- arrays ----

  /** What the Arrow library requires of a 128-bit decimal type. */
  predicate ValidDecimal(precision: byte, scale: i8) {
    1 <= precision <= 38 && scale <= 38 && (scale > 0 ==> scale <= precision)
  }

  function Primitive(id: TypeId, dataType: ArrowType, vs: seq<Value>): Result<ArrowArray> {
    var cells :- ToCells(id, vs);
    Success(Cells(dataType, cells))
  }

  /** Text and blobs have 32-bit byte offsets. */
  function ByteStrings(id: TypeId, dataType: ArrowType, vs: seq<Value>): Result<ArrowArray> {
    var cells :- ToCells(id, vs);
    if TotalBytes(cells) > I32_MAX then Failure(Protocol) else Success(Cells(dataType, cells))
  }

  /** The array type of a column whose cells are numbers, booleans or intervals. */
  function PrimitiveType(id: TypeId): Option<ArrowType> {
    match id
    case Boolean => Some(Bool8)
    case TinyInt => Some(I8)
    case SmallInt => Some(I16)
    case Integer => Some(I32)
    case BigInt => Some(I64)
    case UTinyInt => Some(U8)
    case USmallInt => Some(U16)
    case UInteger => Some(U32)
    case UBigInt => Some(U64)
    case HugeInt | UHugeInt => Some(Decimal256(HUGE_INT_PRECISION, 0))
    case Float => Some(F32)
    case Double => Some(F64)
    case Date => Some(Date32)
    case Time => Some(Time64(Microsecond))
    case TimeNs => Some(Time64(Nanosecond))
    case TimestampSec => Some(TimestampOf(Second, false))
    case TimestampMs => Some(TimestampOf(Millisecond, false))
    case Timestamp => Some(TimestampOf(Microsecond, false))
    case TimestampNs => Some(TimestampOf(Nanosecond, false))
    case TimestampTz => Some(TimestampOf(Microsecond, true))
    case Interval => Some(MonthDayNano)
    case _ => None
  }

  /** The column `vs` of logical type `t` as an array for a schema that says `dataType`. */
  function BuildArray(t: LogicalType, dataType: ArrowType, vs: seq<Value>): Result<ArrowArray>
    decreases t, 2
  {
    match t.id
    case SqlNull => if AllNull(vs) then Success(NullArray(|vs|)) else Failure(Protocol)
    case Decimal => BuildDecimals(t, vs)
    case Varchar | Char | Enum | Uuid => ByteStrings(t.id, Utf8Text, vs)
    case Blob | Geometry | Bit => ByteStrings(t.id, Binary, vs)
    case List | Map => if dataType.ListOf? then BuildList(t, dataType.item, vs) else Failure(Protocol)
    case Array =>
      if dataType.FixedSizeListOf? then BuildFixedSizeList(t, dataType.item, dataType.size, vs) else Failure(Protocol)
    case Struct | Variant => if dataType.StructOf? then BuildStruct(t, dataType.fields, vs) else Failure(Protocol)
    case _ =>
      match PrimitiveType(t.id)
      case Some(primitive) => Primitive(t.id, primitive, vs)
      case None => Failure(Unsupported)
  }

  predicate AllNull(vs: seq<Value>) {
    forall i | 0 <= i < |vs| :: vs[i].Null?
  }

  function BuildDecimals(t: LogicalType, vs: seq<Value>): Result<ArrowArray> {
    var (precision, scale) :- DecimalPrecisionAndScale(t);
    var cells :- ToCells(t.id, vs);
    if ValidDecimal(precision, scale) then Success(Cells(Decimal128(precision, scale), cells)) else Failure(Protocol)
  }

  predicate AllListOrNull(vs: seq<Value>) {
    forall i | 0 <= i < |vs| :: ListOrNull(vs[i])
  }

  predicate AllArrayOrNull(vs: seq<Value>, size: nat) {
    forall i | 0 <= i < |vs| :: ArrayOrNull(vs[i], size)
  }

  /** Where each list begins among the elements, and where the last one ends. */
  function Offsets(vs: seq<Value>, start: nat): (offsets: seq<nat>)
    ensures |offsets| == |vs| + 1
  {
    if vs == [] then [start] else [start] + Offsets(vs[1..], start + |Items(vs[0], 0)|)
  }

  function BuildList(t: LogicalType, item: ArrowField, vs: seq<Value>): Result<ArrowArray>
    decreases t, 1
  {
    if !AllListOrNull(vs) || |Flatten(vs, 0)| > I32_MAX then Failure(Protocol)
    else
      var child :- GetChildType(t);
      var built :- BuildArray(child, item.dataType, Flatten(vs, 0));
      if TypeOf(built) != item.dataType then Failure(Protocol)
      else Success(ListArray(item, Offsets(vs, 0), ValidRows(vs), built))
  }

  function BuildFixedSizeList(t: LogicalType, item: ArrowField, size: i32, vs: seq<Value>): Result<ArrowArray>
    decreases t, 1
  {
    if size < 0 || !AllArrayOrNull(vs, size) then Failure(Protocol)
    else
      var child :- GetChildType(t);
      var built :- BuildArray(child, item.dataType, Flatten(vs, size));
      if TypeOf(built) != item.dataType then Failure(Protocol)
      else Success(FixedSizeListArray(item, size, ValidRows(vs), built))
  }

  predicate StructOrNull(v: Value, width: nat) {
    v.Null? || (v.Struct? && |v.row| == width)
  }

  predicate AllStructOrNull(vs: seq<Value>, width: nat) {
    forall i | 0 <= i < |vs| :: StructOrNull(vs[i], width)
  }

  function BuildStruct(t: LogicalType, fields: seq<ArrowField>, vs: seq<Value>): Result<ArrowArray>
    decreases t, 1
  {
    var children :- GetStructChildren(t);
    if |children| != |fields| || !AllStructOrNull(vs, |children|) then Failure(Protocol)
    else
      var arrays :- BuildColumns(t, children, fields, 0, vs);
      if exists k | 0 <= k < |fields| :: TypeOf(arrays[k]) != fields[k].dataType then Failure(Protocol)
      else Success(StructArray(fields, ValidRows(vs), arrays))
  }

  /** The columns of the children from number `k` on. */
  function BuildColumns(ghost t: LogicalType, children: seq<ChildType>, fields: seq<ArrowField>, k: nat,
                        vs: seq<Value>):
    (r: Result<seq<ArrowArray>>)
    requires Inside(children, t) && |fields| == |children| && k <= |children|
    ensures r.Success? ==> |r.value| == |children| - k
    decreases t, 0, |children| - k
  {
    if k == |children| then Success([])
    else
      var column :- ChildValues(vs, k, children[k].name);
      var built :- BuildArray(children[k].logicalType, fields[k].dataType, column);
      var arrays :- BuildColumns(t, children, fields, k + 1, vs);
      Success([built] + arrays)
  }

  /** A field by position if it has the right name there, by name otherwise. */
  function Lookup(row: seq<Field>, k: nat, name: text): Option<Value> {
    if k < |row| && row[k].name == name then Some(row[k].value) else Get(row, name)
  }

  function ChildValue(v: Value, k: nat, name: text): Result<Value> {
    if v.Struct? then FromOption(Lookup(v.row, k, name), Protocol) else Success(Null)
  }

  function ChildValues(vs: seq<Value>, k: nat, name: text): (r: Result<seq<Value>>)
    ensures r.Success? ==> |r.value| == |vs|
  {
    if vs == [] then Success([])
    else
      var first :- ChildValue(vs[0], k, name);
      var rest :- ChildValues(vs[1..], k, name);
      Success([first] + rest)
  }
}
