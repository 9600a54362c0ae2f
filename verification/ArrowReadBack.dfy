/** An array has the type the schema declares and holds exactly the values it was built
    from, at every depth. */
module ArrowReadBack {
  import opened Prelude
  import opened Arithmetic
  import opened LogicalTypes
  import opened Values
  import opened FixedCodec
  import opened Vectors
  import opened VectorRoundTrips
  import opened PhysicalLayout
  import opened ArrowSchema
  import opened ArrowColumns

  // ---- what an array holds ----

  predicate Monotone(offsets: seq<nat>) {
    forall i, j | 0 <= i <= j < |offsets| :: offsets[i] <= offsets[j]
  }

  /** The layout rules: list offsets start at zero, never decrease and end at the length
      of the elements; fixed-size lists have their size of elements per row, nulls
      included; struct columns are as long as the struct; and types agree with fields. */
  predicate Shaped(t: LogicalType, a: ArrowArray)
    decreases a
  {
    match a
    case NullArray(_) => true
    case Cells(_, _) => true
    case ListArray(field, offsets, validity, child) =>
      && GetChildType(t).Success? && Shaped(GetChildType(t).value, child) && TypeOf(child) == field.dataType
      && |offsets| == |validity| + 1 && offsets[0] == 0 && Monotone(offsets) && offsets[|validity|] == Length(child)
    case FixedSizeListArray(field, size, validity, child) =>
      && GetChildType(t).Success? && Shaped(GetChildType(t).value, child) && TypeOf(child) == field.dataType
      && size >= 0 && Length(child) == Times(size, |validity|)
    case StructArray(fields, validity, arrays) =>
      && GetStructChildren(t).Success? && |GetStructChildren(t).value| == |arrays| == |fields|
      && forall k | 0 <= k < |arrays| ::
        Shaped(GetStructChildren(t).value[k].logicalType, arrays[k]) && Length(arrays[k]) == |validity|
        && TypeOf(arrays[k]) == fields[k].dataType
  }

  function AsI64(n: int): i64 {
    if -TWO_63 <= n < TWO_63 then n else 0
  }

  function AsU64(n: int): u64 {
    if 0 <= n < TWO_64 then n else 0
  }

  function UnitOf(unit: ArrowUnit): TimestampUnit {
    match unit
    case Second => Seconds
    case Millisecond => Millis
    case Microsecond => TimestampUnit.Micros
    case Nanosecond => TimestampUnit.Nanos
  }

  /** The value that a cell of an Arrow array of type `d` stands for. Arrow has one type for both
      kinds of 128-bit integers, so that the reader has to know which of them it wants. */
  function FromCell(d: ArrowType, unsigned: bool, c: Cell): Value {
    match c
    case BoolCell(b) => Bool(b)
    case BytesCell(raw) =>
      if |raw| >= TWO_64 then Null
      else if d == Binary then Bytes(raw)
      else if IsUtf8(raw) then Str(raw) else Null
    case IntervalCell(months, days, nanos) =>
      if nanos % 1000 == 0 then Value.Interval(months, days, nanos / 1000) else Null
    case NumberCell(n) => FromNumberCell(d, unsigned, n)
  }

  function FromNumberCell(d: ArrowType, unsigned: bool, n: int): Value {
    match d
    case I8 | I16 | I32 | I64 => Int(AsI64(n))
    case U8 | U16 | U32 | U64 => UInt(AsU64(n))
    case F32 => if 0 <= n < TWO_32 then Value.Float(n) else Null
    case F64 => Value.Double(AsU64(n))
    case Decimal128(precision, scale) =>
      if scale >= 0 && -TWO_127 <= n < TWO_127 then Value.Decimal(n, precision, scale) else Null
    case Decimal256(_, scale) => if scale == 0 then FromHuge(unsigned, n) else Null
    case Date32 => if -TWO_31 <= n < TWO_31 then Value.Date(n) else Null
    case Time64(Microsecond) => Value.Time(TimeUnit.Micros, AsI64(n))
    case Time64(Nanosecond) => Value.Time(TimeUnit.Nanos, AsI64(n))
    case TimestampOf(unit, utc) => Value.Timestamp(UnitOf(unit), AsI64(n), utc)
    case _ => Null
  }

  function FromHuge(unsigned: bool, n: int): Value {
    if unsigned && 0 <= n < TWO_128 then Value.UHugeInt(n)
    else if !unsigned && -TWO_127 <= n < TWO_127 then Value.HugeInt(n)
    else Null
  }

  function FromCells(d: ArrowType, unsigned: bool, cells: seq<Option<Cell>>): (vs: seq<Value>)
    ensures |vs| == |cells|
  {
    if cells == [] then []
    else
      [if cells[0].Some? then FromCell(d, unsigned, cells[0].value) else Null] + FromCells(d, unsigned, cells[1..])
  }

  /** Row by row, what the array holds. Units, precisions, scales, time zones and field names come
      from the types in the array; the logical type says which 128-bit integers are unsigned. */
  function ReadAll(t: LogicalType, a: ArrowArray): (vs: seq<Value>)
    requires Shaped(t, a)
    ensures |vs| == Length(a)
    decreases a
  {
    match a
    case NullArray(n) => Repeated(Null, n)
    case Cells(d, cells) => FromCells(d, t.id == TypeId.UHugeInt, cells)
    case ListArray(_, offsets, validity, child) =>
      SliceRows(ReadAll(GetChildType(t).value, child), offsets, validity)
    case FixedSizeListArray(_, size, validity, child) =>
      FixedRows(ReadAll(GetChildType(t).value, child), size, validity)
    case StructArray(fields, validity, arrays) =>
      var children := GetStructChildren(t).value;
      var columns := seq(|arrays|, k requires 0 <= k < |arrays| => ReadAll(children[k].logicalType, arrays[k]));
      Transposed(fields, columns, validity)
  }

  function SliceRows(items: seq<Value>, offsets: seq<nat>, validity: seq<bool>): (vs: seq<Value>)
    requires |offsets| == |validity| + 1 && Monotone(offsets) && offsets[|validity|] <= |items|
    ensures |vs| == |validity|
  {
    seq(|validity|, i requires 0 <= i < |validity| =>
      if validity[i] then Value.List(items[offsets[i]..offsets[i + 1]]) else Null)
  }

  function FixedRows(items: seq<Value>, size: nat, validity: seq<bool>): (vs: seq<Value>)
    requires |items| == Times(size, |validity|)
    ensures |vs| == |validity|
    decreases |validity|
  {
    if validity == [] then []
    else
      TimesStep(size, |validity| - 1);
      assert |items| >= size;
      [if validity[0] then Value.List(items[..size]) else Null] + FixedRows(items[size..], size, validity[1..])
  }

  function Transposed(fields: seq<ArrowField>, columns: seq<seq<Value>>, validity: seq<bool>): (vs: seq<Value>)
    requires |columns| == |fields| && forall k | 0 <= k < |columns| :: |columns[k]| == |validity|
    ensures |vs| == |validity|
  {
    seq(|validity|, i requires 0 <= i < |validity| =>
      if validity[i] then
        Value.Struct(seq(|fields|, k requires 0 <= k < |fields| => Field(fields[k].name, columns[k][i])))
      else Null)
  }

  // ---- what can be converted ----

  /** The values Arrow has room for, besides being well typed. */
  predicate CellInRange(id: TypeId, v: Value) {
    match id
    case Time => v.Time? && 0 <= v.ticks < MICROS_IN_DAY
    case TimeNs => v.Time? && 0 <= v.ticks < NANOS_IN_DAY
    case Interval => v.Interval? && -TWO_63 <= v.micros * 1000 < TWO_63
    case _ => true
  }

  predicate CellsInRange(id: TypeId, vs: seq<Value>) {
    forall i | 0 <= i < |vs| :: vs[i].Null? || CellInRange(id, vs[i])
  }

  function TextBytes(vs: seq<Value>): nat {
    if vs == [] then 0
    else TextLength(vs[0]) + TextBytes(vs[1..])
  }

  function TextLength(v: Value): nat {
    if v.Str? then |v.s| else if v.Bytes? then |v.raw| else 0
  }

  predicate Nested(id: TypeId) {
    match id
    case List | Map | Array | Struct | Variant => true
    case _ => false
  }

  /** Times within a day, intervals within 64-bit nanoseconds, 32-bit offsets, decimal
      types that Arrow has, and nothing but nulls in a column of type SQLNULL. */
  predicate InRange(t: LogicalType, vs: seq<Value>)
    decreases t
  {
    match t.id
    case SqlNull => AllNull(vs)
    case Varchar | Char | Enum | Uuid | Blob | Geometry | Bit => TextBytes(vs) <= I32_MAX
    case Decimal =>
      && t.info.Some? && t.info.value.DecimalInfo?
      && 1 <= t.info.value.width <= 38 && t.info.value.scale <= t.info.value.width
    case List | Map =>
      GetChildType(t).Success? && |Flatten(vs, 0)| <= I32_MAX && InRange(GetChildType(t).value, Flatten(vs, 0))
    case Array =>
      GetChildType(t).Success? && GetArraySize(t).Success?
      && InRange(GetChildType(t).value, Flatten(vs, GetArraySize(t).value))
    case Struct | Variant =>
      GetStructChildren(t).Success?
      && forall k | 0 <= k < |GetStructChildren(t).value| ::
        InRange(GetStructChildren(t).value[k].logicalType, Column(vs, GetStructChildren(t).value[k].name))
    case _ => CellsInRange(t.id, vs)
  }

  // ---- cells ----

  /** The native form of the value, if it has one, stands for the value in an array of type `d`. */
  predicate CellBack(id: TypeId, d: ArrowType, v: Value) {
    ToCell(id, v).Success? ==>
      var cell := ToCell(id, v).value;
      FromCell(d, id == TypeId.UHugeInt, cell) == v && CellBytes(Some(cell)) == TextLength(v)
  }

  lemma CellRoundTrip(t: LogicalType, d: ArrowType, v: Value)
    requires ArrowTypeOf(t) == Success(d) && !Nested(t.id) && t.id != SqlNull
    requires WellTyped(t, v) && !v.Null?
    ensures ToCell(t.id, v).Success? <==> CellInRange(t.id, v)
    ensures CellBack(t.id, d, v)
  {
    hide WellTyped, FromCell, ToCell, CellInRange, CellBack, Belongs, ArrowTypeOf, PrimitiveType;
    ColumnsHold(t, v);
    if PrimitiveType(t.id).Some? {
      PrimitiveAgrees(t);
      Primitives(t.id);
      if IsInteger(t.id) {
        IntegerRoundTrip(t, d, v);
      } else if IsTime(t.id) {
        TimeRoundTrip(t, d, v);
      } else {
        OtherRoundTrip(t, d, v);
      }
    } else {
      TextOrDecimal(t);
      if t.id == TypeId.Decimal {
        DecimalRoundTrip(t, d, v);
      } else {
        TextRoundTrip(t, d, v);
      }
    }
  }

  predicate IsInteger(id: TypeId) {
    id in {TypeId.Boolean, TinyInt, SmallInt, TypeId.Integer, BigInt, UTinyInt, USmallInt, UInteger, UBigInt}
  }

  predicate IsTime(id: TypeId) {
    id in {TypeId.Date, TypeId.Time, TimeNs, TimestampSec, TimestampMs, TypeId.Timestamp, TimestampNs, TimestampTz,
           TypeId.Interval}
  }

  lemma Primitives(id: TypeId)
    ensures PrimitiveType(id).Some? <==>
      IsInteger(id) || IsTime(id) || id in {TypeId.HugeInt, TypeId.UHugeInt, TypeId.Float, TypeId.Double}
  {
  }

  /** Text has one Arrow type, bytes have another. */
  predicate IsText(id: TypeId) {
    id in {Varchar, TypeId.Char, Enum, TypeId.Uuid}
  }

  predicate IsBytes(id: TypeId) {
    id in {TypeId.Blob, Geometry, Bit}
  }

  lemma TextOrDecimal(t: LogicalType)
    requires ArrowTypeOf(t).Success? && !Nested(t.id) && t.id != SqlNull && PrimitiveType(t.id).None?
    ensures t.id == TypeId.Decimal || IsText(t.id) || IsBytes(t.id)
    ensures IsText(t.id) ==> ArrowTypeOf(t) == Success(Utf8Text)
    ensures IsBytes(t.id) ==> ArrowTypeOf(t) == Success(Binary)
  {
  }

  lemma TextRoundTrip(t: LogicalType, d: ArrowType, v: Value)
    requires Belongs(t, v)
    requires (IsText(t.id) && d == Utf8Text) || (IsBytes(t.id) && d == Binary)
    ensures ToCell(t.id, v).Success? && CellInRange(t.id, v) && CellBack(t.id, d, v)
  {
    hide IsUtf8;
  }

  lemma DecimalRoundTrip(t: LogicalType, d: ArrowType, v: Value)
    requires t.id == TypeId.Decimal && ArrowTypeOf(t) == Success(d) && Belongs(t, v)
    ensures ToCell(t.id, v).Success? && CellInRange(t.id, v) && CellBack(t.id, d, v)
  {
    hide PhysicalLayout.DecimalBytes, IsUtf8;
    var width, scale := t.info.value.width, t.info.value.scale;
    assert d == Decimal128(width, scale);
    hide ArrowTypeOf;
  }

  lemma TimeRoundTrip(t: LogicalType, d: ArrowType, v: Value)
    requires IsTime(t.id) && PrimitiveType(t.id) == Some(d) && Belongs(t, v)
    ensures ToCell(t.id, v).Success? <==> CellInRange(t.id, v)
    ensures CellBack(t.id, d, v)
  {
    if t.id in {TypeId.Date, TypeId.Interval, TypeId.Time, TimeNs} {
      hide IsUtf8, NestedBelongs, DecimalBytes, SignedIn;
    } else {
      TimestampRoundTrip(t, d, v);
    }
  }

  lemma TimestampRoundTrip(t: LogicalType, d: ArrowType, v: Value)
    requires t.id in {TimestampSec, TimestampMs, TypeId.Timestamp, TimestampNs, TimestampTz}
    requires PrimitiveType(t.id) == Some(d) && Belongs(t, v)
    ensures ToCell(t.id, v).Success? && CellInRange(t.id, v) && CellBack(t.id, d, v)
  {
    hide IsUtf8, NestedBelongs, DecimalBytes, SignedIn;
  }

  lemma OtherRoundTrip(t: LogicalType, d: ArrowType, v: Value)
    requires t.id in {TypeId.HugeInt, TypeId.UHugeInt, TypeId.Float, TypeId.Double}
    requires PrimitiveType(t.id) == Some(d) && Belongs(t, v)
    ensures ToCell(t.id, v).Success? && CellInRange(t.id, v) && CellBack(t.id, d, v)
  {
    hide IsUtf8, NestedBelongs, DecimalBytes, SignedIn;
  }

  lemma IntegerRoundTrip(t: LogicalType, d: ArrowType, v: Value)
    requires IsInteger(t.id)
    requires PrimitiveType(t.id) == Some(d) && Belongs(t, v)
    ensures ToCell(t.id, v).Success? && CellInRange(t.id, v) && CellBack(t.id, d, v)
  {
    if t.id in {UTinyInt, USmallInt, UInteger, UBigInt} {
      UnsignedRoundTrip(t, d, v);
    } else {
      hide IsUtf8, Wire.Range, NestedBelongs, DecimalBytes;
      Wire.RangeValues();
    }
  }

  lemma UnsignedRoundTrip(t: LogicalType, d: ArrowType, v: Value)
    requires t.id in {UTinyInt, USmallInt, UInteger, UBigInt}
    requires PrimitiveType(t.id) == Some(d) && Belongs(t, v)
    ensures ToCell(t.id, v).Success? && CellInRange(t.id, v) && CellBack(t.id, d, v)
  {
    hide IsUtf8, Wire.Range, NestedBelongs, DecimalBytes, SignedIn;
    Wire.RangeValues();
  }

  lemma {:induction false} CellsRoundTrip(t: LogicalType, d: ArrowType, vs: seq<Value>)
    requires ArrowTypeOf(t) == Success(d) && !Nested(t.id) && t.id != SqlNull && AllTyped(t, vs)
    ensures ToCells(t.id, vs).Success? <==> CellsInRange(t.id, vs)
    ensures ToCells(t.id, vs).Success? ==>
      && FromCells(d, t.id == TypeId.UHugeInt, ToCells(t.id, vs).value) == vs
      && TotalBytes(ToCells(t.id, vs).value) == TextBytes(vs)
  {
    hide ArrowTypeOf, WellTyped, CellInRange, ToCell, FromCell, Nested;
    if vs != [] {
      CellsRoundTrip(t, d, vs[1..]);
      assert WellTyped(t, vs[0]);
      if !vs[0].Null? {
        CellRoundTrip(t, d, vs[0]);
      }
      assert CellsInRange(t.id, vs) <==>
        (vs[0].Null? || CellInRange(t.id, vs[0])) && CellsInRange(t.id, vs[1..]) by {
        assert forall i | 0 < i < |vs| :: vs[1..][i - 1] == vs[i];
      }
      assert [vs[0]] + vs[1..] == vs;
    }
  }

  // ---- nested arrays ----

  /** Offsets start where they should, end behind the last element, and never decrease,
      whatever rows are null. */
  lemma {:induction false} OffsetBounds(vs: seq<Value>, start: nat)
    ensures var offsets := Offsets(vs, start);
      offsets[0] == start && Monotone(offsets) && offsets[|vs|] == start + |Flatten(vs, 0)|
    decreases |vs|
  {
    if vs != [] {
      var rest := Offsets(vs[1..], start + |Items(vs[0], 0)|);
      OffsetBounds(vs[1..], start + |Items(vs[0], 0)|);
      assert Offsets(vs, start) == [start] + rest && rest[0] >= start;
    }
  }

  lemma {:induction false} OffsetSlice(before: seq<Value>, vs: seq<Value>, i: nat)
    requires i < |vs|
    ensures var offsets := Offsets(vs, |before|);
      && offsets[i] <= offsets[i + 1] <= |before + Flatten(vs, 0)|
      && (before + Flatten(vs, 0))[offsets[i]..offsets[i + 1]] == Items(vs[i], 0)
    decreases i
  {
    var items := Items(vs[0], 0);
    assert before + Flatten(vs, 0) == before + items + Flatten(vs[1..], 0);
    if i == 0 {
      OffsetBounds(vs[1..], |before| + |items|);
    } else {
      OffsetSlice(before + items, vs[1..], i - 1);
    }
  }

  lemma SlicesBack(vs: seq<Value>)
    requires AllListOrNull(vs)
    ensures var offsets := Offsets(vs, 0);
      && offsets[0] == 0 && Monotone(offsets) && offsets[|vs|] == |Flatten(vs, 0)|
      && SliceRows(Flatten(vs, 0), offsets, ValidRows(vs)) == vs
  {
    hide Flatten, Offsets;
    var items, offsets := Flatten(vs, 0), Offsets(vs, 0);
    OffsetBounds(vs, 0);
    assert [] + items == items;
    forall i | 0 <= i < |vs|
      ensures SliceRows(items, offsets, ValidRows(vs))[i] == vs[i]
    {
      assert ListOrNull(vs[i]);
      OffsetSlice([], vs, i);
    }
  }

  lemma {:induction false} FixedBack(vs: seq<Value>, size: nat)
    requires AllArrayOrNull(vs, size)
    ensures |Flatten(vs, size)| == Times(size, |vs|)
    ensures FixedRows(Flatten(vs, size), size, ValidRows(vs)) == vs
    decreases |vs|
  {
    ArrayLength(vs, size);
    if vs != [] {
      hide Times;
      var items := Items(vs[0], size);
      ArrayLength(vs[1..], size);
      TimesStep(size, |vs| - 1);
      FixedBack(vs[1..], size);
      assert ArrayOrNull(vs[0], size);
      assert Flatten(vs, size)[..size] == items && Flatten(vs, size)[size..] == Flatten(vs[1..], size);
      assert ValidRows(vs)[1..] == ValidRows(vs[1..]);
      assert [vs[0]] + vs[1..] == vs;
    }
  }

  /** `r` is an array of that type that holds `vs`, if it is an array at all. */
  predicate Holds(t: LogicalType, dataType: ArrowType, vs: seq<Value>, r: Result<ArrowArray>) {
    r.Success? ==>
      && TypeOf(r.value) == dataType && Length(r.value) == |vs|
      && Shaped(t, r.value) && ReadAll(t, r.value) == vs
  }

  /** Building a column of well-typed values succeeds exactly when they are in range. Then the
      array has the declared type, follows the layout rules and holds the values. */
  lemma {:induction false} BuildFaithful(t: LogicalType, dataType: ArrowType, vs: seq<Value>)
    requires AllTyped(t, vs) && ArrowTypeOf(t) == Success(dataType)
    ensures BuildArray(t, dataType, vs).Success? <==> InRange(t, vs)
    ensures Holds(t, dataType, vs, BuildArray(t, dataType, vs))
    decreases t, 2
  {
    match t.id
    case SqlNull => NullsFaithful(t, vs);
    case List | Map => ListFaithful(t, dataType, vs);
    case Array => FixedFaithful(t, dataType, vs);
    case Struct | Variant => StructFaithful(t, dataType, vs);
    case _ => ScalarFaithful(t, dataType, vs);
  }

  lemma NullsFaithful(t: LogicalType, vs: seq<Value>)
    requires t.id == SqlNull
    ensures BuildArray(t, AnyNull, vs).Success? <==> InRange(t, vs)
    ensures Holds(t, AnyNull, vs, BuildArray(t, AnyNull, vs))
  {
    if InRange(t, vs) {
      assert Repeated(Null, |vs|) == vs;
    }
  }

  lemma ScalarFaithful(t: LogicalType, dataType: ArrowType, vs: seq<Value>)
    requires AllTyped(t, vs) && ArrowTypeOf(t) == Success(dataType) && !Nested(t.id) && t.id != SqlNull
    ensures BuildArray(t, dataType, vs).Success? <==> InRange(t, vs)
    ensures Holds(t, dataType, vs, BuildArray(t, dataType, vs))
  {
    hide AllTyped, ToCells, FromCells, TotalBytes, TextBytes, ArrowTypeOf, PrimitiveType, CellsInRange;
    CellsRoundTrip(t, dataType, vs);
    PlainInRange(t.id, vs);
    if PrimitiveType(t.id).Some? {
      PrimitiveAgrees(t);
      PrimitiveFaithful(t, dataType, vs);
    } else {
      TextOrDecimal(t);
      if t.id == TypeId.Decimal {
        DecimalsFaithful(t, dataType, vs);
      } else {
        TextsFaithful(t, dataType, vs);
      }
    }
  }

  /** The cells of a column read back as its values, if they can be made. */
  predicate CellsBack(t: LogicalType, d: ArrowType, vs: seq<Value>) {
    ToCells(t.id, vs).Success? ==>
      && FromCells(d, t.id == TypeId.UHugeInt, ToCells(t.id, vs).value) == vs
      && TotalBytes(ToCells(t.id, vs).value) == TextBytes(vs)
  }

  lemma PrimitiveFaithful(t: LogicalType, d: ArrowType, vs: seq<Value>)
    requires PrimitiveType(t.id) == Some(d) && CellsBack(t, d, vs)
    requires ToCells(t.id, vs).Success? <==> CellsInRange(t.id, vs)
    ensures BuildArray(t, d, vs).Success? <==> InRange(t, vs)
    ensures Holds(t, d, vs, BuildArray(t, d, vs))
  {
    hide ToCells, FromCells, TotalBytes, TextBytes, CellsInRange;
    Primitives(t.id);
    hide PrimitiveType;
  }

  lemma TextsFaithful(t: LogicalType, d: ArrowType, vs: seq<Value>)
    requires (IsText(t.id) && d == Utf8Text) || (IsBytes(t.id) && d == Binary)
    requires ToCells(t.id, vs).Success? && CellsBack(t, d, vs)
    ensures BuildArray(t, d, vs).Success? <==> InRange(t, vs)
    ensures Holds(t, d, vs, BuildArray(t, d, vs))
  {
    hide ToCells, FromCells, TotalBytes, TextBytes, CellsInRange;
  }

  lemma DecimalsFaithful(t: LogicalType, d: ArrowType, vs: seq<Value>)
    requires t.id == TypeId.Decimal && ArrowTypeOf(t) == Success(d)
    requires ToCells(t.id, vs).Success? && CellsBack(t, d, vs)
    ensures BuildArray(t, d, vs).Success? <==> InRange(t, vs)
    ensures Holds(t, d, vs, BuildArray(t, d, vs))
  {
    hide ToCells, FromCells, TotalBytes, TextBytes, CellsInRange;
  }

  /** The schema and the builders have a table of their own each; they agree. */
  lemma PrimitiveAgrees(t: LogicalType)
    requires PrimitiveType(t.id).Some?
    ensures ArrowTypeOf(t) == FromOption(PrimitiveType(t.id), Unsupported)
  {
  }

  lemma PlainInRange(id: TypeId, vs: seq<Value>)
    ensures !(id in {TypeId.Time, TimeNs, TypeId.Interval}) ==> CellsInRange(id, vs)
  {
  }

  /** What it takes to build a list array of such a column. */
  lemma ListReady(t: LogicalType, dataType: ArrowType, vs: seq<Value>)
    requires AllTyped(t, vs) && ArrowTypeOf(t) == Success(dataType) && t.id in {TypeId.List, Map}
    ensures GetChildType(t).Success? && dataType.ListOf?
    ensures ArrowTypeOf(GetChildType(t).value) == Success(dataType.item.dataType)
    ensures AllListOrNull(vs) && AllTyped(GetChildType(t).value, Flatten(vs, 0))
  {
    ListTypeParts(t, dataType);
    AllLists(t, vs);
    hide ArrowTypeOf, WellTyped, GetChildType;
    FlattenTyped(t, GetChildType(t).value, vs, 0);
  }

  lemma ListTypeParts(t: LogicalType, dataType: ArrowType)
    requires ArrowTypeOf(t) == Success(dataType) && t.id in {TypeId.List, Map}
    ensures GetChildType(t).Success? && dataType.ListOf? && GetPhysicalType(t) == Success(PList)
    ensures ArrowTypeOf(GetChildType(t).value) == Success(dataType.item.dataType)
  {
    hide GetChildType;
  }

  lemma AllLists(t: LogicalType, vs: seq<Value>)
    requires AllTyped(t, vs) && t.id in {TypeId.List, Map}
    ensures AllListOrNull(vs)
  {
    hide GetChildType, WellTyped, GetPhysicalType;
    NestedPhysical(t);
    forall i | 0 <= i < |vs|
      ensures ListOrNull(vs[i])
    {
      assert WellTyped(t, vs[i]);
      if !vs[i].Null? {
        NestedTyped(t, vs[i]);
      }
    }
  }

  lemma ListCases(t: LogicalType, item: ArrowField, vs: seq<Value>)
    requires t.id in {TypeId.List, Map} && GetChildType(t).Success?
    ensures BuildArray(t, ListOf(item), vs) == BuildList(t, item, vs)
    ensures InRange(t, vs) <==> |Flatten(vs, 0)| <= I32_MAX && InRange(GetChildType(t).value, Flatten(vs, 0))
  {
    hide BuildList, Flatten, GetChildType;
  }

  lemma {:induction false} ListFaithful(t: LogicalType, dataType: ArrowType, vs: seq<Value>)
    requires AllTyped(t, vs) && ArrowTypeOf(t) == Success(dataType) && t.id in {TypeId.List, Map}
    ensures BuildArray(t, dataType, vs).Success? <==> InRange(t, vs)
    ensures Holds(t, dataType, vs, BuildArray(t, dataType, vs))
    decreases t, 1
  {
    hide AllTyped, Flatten, Offsets, ArrowTypeOf, GetChildType, InRange, BuildArray, AllListOrNull, SliceRows;
    ListReady(t, dataType, vs);
    var child, item := GetChildType(t).value, dataType.item;
    ListCases(t, item, vs);
    BuildFaithful(child, item.dataType, Flatten(vs, 0));
    SlicesBack(vs);
  }

  /** What it takes to build an array of lists of one size. */
  lemma FixedReady(t: LogicalType, dataType: ArrowType, vs: seq<Value>)
    requires AllTyped(t, vs) && ArrowTypeOf(t) == Success(dataType) && t.id == TypeId.Array
    ensures GetChildType(t).Success? && dataType.FixedSizeListOf? && GetArraySize(t) == Success(dataType.size)
    ensures ArrowTypeOf(GetChildType(t).value) == Success(dataType.item.dataType)
    ensures AllArrayOrNull(vs, dataType.size) && AllTyped(GetChildType(t).value, Flatten(vs, dataType.size))
  {
    hide GetChildType, GetArraySize;
    var size := GetArraySize(t).value;
    forall i | 0 <= i < |vs|
      ensures ArrayOrNull(vs[i], size)
    {
      assert WellTyped(t, vs[i]);
    }
    FlattenTyped(t, GetChildType(t).value, vs, size);
  }

  lemma FixedCases(t: LogicalType, item: ArrowField, size: i32, vs: seq<Value>)
    requires t.id == TypeId.Array && GetChildType(t).Success? && GetArraySize(t) == Success(size)
    ensures BuildArray(t, FixedSizeListOf(item, size), vs) == BuildFixedSizeList(t, item, size, vs)
    ensures InRange(t, vs) <==> InRange(GetChildType(t).value, Flatten(vs, size))
  {
    hide BuildFixedSizeList, Flatten, GetChildType, GetArraySize;
  }

  lemma {:induction false} FixedFaithful(t: LogicalType, dataType: ArrowType, vs: seq<Value>)
    requires AllTyped(t, vs) && ArrowTypeOf(t) == Success(dataType) && t.id == TypeId.Array
    ensures BuildArray(t, dataType, vs).Success? <==> InRange(t, vs)
    ensures Holds(t, dataType, vs, BuildArray(t, dataType, vs))
    decreases t, 1
  {
    hide AllTyped, Flatten, ArrowTypeOf, GetChildType, GetArraySize, Times, FixedRows, InRange, BuildArray,
      AllArrayOrNull;
    FixedReady(t, dataType, vs);
    var child, item, size := GetChildType(t).value, dataType.item, dataType.size;
    FixedCases(t, item, size, vs);
    BuildFaithful(child, item.dataType, Flatten(vs, size));
    FixedBack(vs, size);
  }

  lemma {:induction false} StructFaithful(t: LogicalType, dataType: ArrowType, vs: seq<Value>)
    requires AllTyped(t, vs) && ArrowTypeOf(t) == Success(dataType) && t.id in {TypeId.Struct, Variant}
    ensures BuildArray(t, dataType, vs).Success? <==> InRange(t, vs)
    ensures Holds(t, dataType, vs, BuildArray(t, dataType, vs))
    decreases t, 1
  {
    var children, fields := GetStructChildren(t).value, dataType.fields;
    StructReady(t, dataType, vs);
    StructCases(t, fields, vs);
    RowsBack(t, children, fields, vs);
    hide ArrowTypeOf, AllTyped, BuildArray, InRange, BuildStruct, Holds;
    StructBuilt(t, children, fields, vs);
  }

  lemma {:induction false} StructBuilt(t: LogicalType, children: seq<ChildType>, fields: seq<ArrowField>,
                                       vs: seq<Value>)
    requires GetStructChildren(t) == Success(children) && |fields| == |children| && AllStructOrNull(vs, |children|)
    requires forall k | 0 <= k < |children| :: ColumnReady(children[k], fields[k], k, vs)
    requires Transposed(fields, ColumnsOf(children, vs), ValidRows(vs)) == vs
    ensures BuildStruct(t, fields, vs).Success? <==>
      forall k | 0 <= k < |children| :: InRange(children[k].logicalType, Column(vs, children[k].name))
    ensures Holds(t, StructOf(fields), vs, BuildStruct(t, fields, vs))
    decreases t, 0, |children| + 1
  {
    hide ArrowTypeOf, AllTyped, GetStructChildren, Column, ColumnReady, BuildArray, InRange, AllStructOrNull,
      ColumnsOf, Transposed, Holds, BuildColumns, TypeOf;
    ColumnsFaithful(t, children, fields, 0, vs);
    var arrays := BuildColumns(t, children, fields, 0, vs);
    if arrays.Success? {
      StructHolds(t, children, fields, vs, arrays.value);
    } else {
      NothingHeld(t, StructOf(fields), vs, arrays.error);
    }
  }

  lemma NothingHeld(t: LogicalType, d: ArrowType, vs: seq<Value>, e: Error)
    ensures Holds(t, d, vs, Failure(e))
  {
  }

  lemma StructHolds(t: LogicalType, children: seq<ChildType>, fields: seq<ArrowField>, vs: seq<Value>,
                    arrays: seq<ArrowArray>)
    requires GetStructChildren(t) == Success(children) && |arrays| == |fields| == |children|
    requires forall k | 0 <= k < |children| ::
      Holds(children[k].logicalType, fields[k].dataType, Column(vs, children[k].name), Success(arrays[k]))
    requires Transposed(fields, ColumnsOf(children, vs), ValidRows(vs)) == vs
    ensures forall k | 0 <= k < |fields| :: TypeOf(arrays[k]) == fields[k].dataType
    ensures Holds(t, StructOf(fields), vs, Success(StructArray(fields, ValidRows(vs), arrays)))
  {
    ArraysHold(t, children, fields, vs, arrays);
    hide GetStructChildren, Column, Transposed, ColumnsOf, Shaped, ReadAll;
  }

  lemma StructCases(t: LogicalType, fields: seq<ArrowField>, vs: seq<Value>)
    requires t.id in {TypeId.Struct, Variant} && GetStructChildren(t).Success?
    ensures BuildArray(t, StructOf(fields), vs) == BuildStruct(t, fields, vs)
    ensures var children := GetStructChildren(t).value;
      InRange(t, vs) <==>
      forall k | 0 <= k < |children| :: InRange(children[k].logicalType, Column(vs, children[k].name))
    ensures GetPhysicalType(t) == Success(PStruct)
  {
    hide BuildStruct;
  }

  lemma StructReady(t: LogicalType, dataType: ArrowType, vs: seq<Value>)
    requires AllTyped(t, vs) && ArrowTypeOf(t) == Success(dataType) && t.id in {TypeId.Struct, Variant}
    ensures GetStructChildren(t).Success? && dataType.StructOf?
    ensures var children := GetStructChildren(t).value;
      && SameFields(children, dataType.fields) && AllStructOrNull(vs, |children|)
      && forall k | 0 <= k < |children| :: ColumnReady(children[k], dataType.fields[k], k, vs)
  {
    StructTypeParts(t, dataType);
    AllStructs(t, vs);
    hide ArrowTypeOf, WellTyped, GetStructChildren, GetPhysicalType, StructFields, AllTyped, Column, ChildValues;
    var children, fields := GetStructChildren(t).value, dataType.fields;
    forall k | 0 <= k < |children|
      ensures ColumnReady(children[k], fields[k], k, vs)
    {
      StructFieldAt(t, children, k);
      ColumnTyped(t, vs, k);
      ChildrenFound(t, vs, k);
    }
    forall k | 0 <= k < |children|
      ensures fields[k].name == children[k].name
    {
      StructFieldAt(t, children, k);
    }
  }

  lemma StructTypeParts(t: LogicalType, dataType: ArrowType)
    requires ArrowTypeOf(t) == Success(dataType) && t.id in {TypeId.Struct, Variant}
    ensures GetStructChildren(t).Success? && dataType.StructOf? && GetPhysicalType(t) == Success(PStruct)
    ensures StructFields(t, GetStructChildren(t).value) == Success(dataType.fields)
  {
    hide GetStructChildren;
  }

  lemma AllStructs(t: LogicalType, vs: seq<Value>)
    requires AllTyped(t, vs) && t.id in {TypeId.Struct, Variant} && GetStructChildren(t).Success?
    ensures AllStructOrNull(vs, |GetStructChildren(t).value|)
  {
    hide GetStructChildren, WellTyped, GetPhysicalType;
    NestedPhysical(t);
    forall i | 0 <= i < |vs|
      ensures StructOrNull(vs[i], |GetStructChildren(t).value|)
    {
      assert WellTyped(t, vs[i]);
      if !vs[i].Null? {
        NestedTyped(t, vs[i]);
      }
    }
  }

  /** Column `k` of the rows: its values are there, well typed, and of the declared type. */
  predicate ColumnReady(child: ChildType, field: ArrowField, k: nat, vs: seq<Value>) {
    && ChildValues(vs, k, child.name) == Success(Column(vs, child.name))
    && AllTyped(child.logicalType, Column(vs, child.name))
    && ArrowTypeOf(child.logicalType) == Success(field.dataType) && field.name == child.name
  }

  /** The field of a row is found where the type has it. */
  lemma ChildFound(t: LogicalType, v: Value, k: nat)
    requires WellTyped(t, v) && GetPhysicalType(t) == Success(PStruct) && GetStructChildren(t).Success?
    requires k < |GetStructChildren(t).value|
    ensures var name := GetStructChildren(t).value[k].name;
      ChildValue(v, k, name) == Success(FieldOf(v, name))
  {
    hide GetStructChildren, GetPhysicalType, TypedScalar, SlotFitsEnum;
    if !v.Null? {
      NestedTyped(t, v);
      GetAt(v.row, k);
    }
  }

  lemma ChildrenFound(t: LogicalType, vs: seq<Value>, k: nat)
    requires AllTyped(t, vs) && GetPhysicalType(t) == Success(PStruct) && GetStructChildren(t).Success?
    requires k < |GetStructChildren(t).value|
    ensures var name := GetStructChildren(t).value[k].name;
      ChildValues(vs, k, name) == Success(Column(vs, name))
    decreases |vs|
  {
    hide GetStructChildren, GetPhysicalType, WellTyped, FieldOf, ChildValue;
    var name := GetStructChildren(t).value[k].name;
    if vs == [] {
      assert Column(vs, name) == [];
    } else {
      ChildrenFound(t, vs[1..], k);
      assert WellTyped(t, vs[0]);
      ChildFound(t, vs[0], k);
      assert Column(vs, name) == [FieldOf(vs[0], name)] + Column(vs[1..], name);
    }
  }

  lemma {:induction false} ColumnsFaithful(t: LogicalType, children: seq<ChildType>, fields: seq<ArrowField>, k: nat,
                                           vs: seq<Value>)
    requires Inside(children, t) && |fields| == |children| && k <= |children|
    requires forall j | k <= j < |children| :: ColumnReady(children[j], fields[j], j, vs)
    ensures var r := BuildColumns(t, children, fields, k, vs);
      && (r.Success? <==>
            forall j | k <= j < |children| :: InRange(children[j].logicalType, Column(vs, children[j].name)))
      && (r.Success? ==> forall j | k <= j < |children| ::
            Holds(children[j].logicalType, fields[j].dataType, Column(vs, children[j].name), Success(r.value[j - k])))
    decreases t, 0, |children| - k
  {
    hide ArrowTypeOf, AllTyped, GetStructChildren, Column, InRange, Holds, BuildArray;
    if k < |children| {
      var c := children[k];
      assert ColumnReady(c, fields[k], k, vs);
      BuildFaithful(c.logicalType, fields[k].dataType, Column(vs, c.name));
      ColumnsFaithful(t, children, fields, k + 1, vs);
      hide ColumnReady;
    }
  }

  lemma ArraysHold(t: LogicalType, children: seq<ChildType>, fields: seq<ArrowField>, vs: seq<Value>,
                   arrays: seq<ArrowArray>)
    requires GetStructChildren(t) == Success(children) && |arrays| == |fields| == |children|
    requires forall k | 0 <= k < |children| ::
      Holds(children[k].logicalType, fields[k].dataType, Column(vs, children[k].name), Success(arrays[k]))
    ensures var a := StructArray(fields, ValidRows(vs), arrays);
      Shaped(t, a) && ReadAll(t, a) == Transposed(fields, ColumnsOf(children, vs), ValidRows(vs))
    ensures forall k | 0 <= k < |fields| :: TypeOf(arrays[k]) == fields[k].dataType
  {
    hide GetStructChildren, Column, Transposed;
    var a := StructArray(fields, ValidRows(vs), arrays);
    forall k | 0 <= k < |children|
      ensures Shaped(children[k].logicalType, arrays[k])
      ensures ReadAll(children[k].logicalType, arrays[k]) == Column(vs, children[k].name)
    {
      assert Holds(children[k].logicalType, fields[k].dataType, Column(vs, children[k].name), Success(arrays[k]));
    }
    assert Shaped(t, a);
    assert ColumnsOf(children, vs) ==
      seq(|arrays|, k requires 0 <= k < |arrays| => ReadAll(GetStructChildren(t).value[k].logicalType, arrays[k]));
  }

  function ColumnsOf(children: seq<ChildType>, vs: seq<Value>): (columns: seq<seq<Value>>)
    ensures |columns| == |children| && forall k | 0 <= k < |columns| :: |columns[k]| == |vs|
  {
    seq(|children|, k requires 0 <= k < |children| => Column(vs, children[k].name))
  }

  lemma RowsBack(t: LogicalType, children: seq<ChildType>, fields: seq<ArrowField>, vs: seq<Value>)
    requires AllTyped(t, vs) && GetPhysicalType(t) == Success(PStruct) && GetStructChildren(t) == Success(children)
    requires SameFields(children, fields)
    ensures Transposed(fields, ColumnsOf(children, vs), ValidRows(vs)) == vs
  {
    forall i | 0 <= i < |vs|
      ensures Transposed(fields, ColumnsOf(children, vs), ValidRows(vs))[i] == vs[i]
    {
      assert WellTyped(t, vs[i]);
      if !vs[i].Null? {
        RowBack(children, fields, vs, i);
      }
    }
  }

  /** The fields are named like the children. */
  predicate SameFields(children: seq<ChildType>, fields: seq<ArrowField>) {
    |fields| == |children| && forall k | 0 <= k < |children| :: fields[k].name == children[k].name
  }

  lemma RowBack(children: seq<ChildType>, fields: seq<ArrowField>, vs: seq<Value>, i: nat)
    requires i < |vs| && vs[i].Struct? && SameNames(children, vs[i].row) && SameFields(children, fields)
    ensures vs[i].row ==
      seq(|fields|, k requires 0 <= k < |fields| => Field(fields[k].name, ColumnsOf(children, vs)[k][i]))
  {
    forall k | 0 <= k < |children|
      ensures Field(fields[k].name, ColumnsOf(children, vs)[k][i]) == vs[i].row[k]
    {
      GetAt(vs[i].row, k);
    }
  }

  // ---- native types, in numbers ----

  /** The bytes of a cell of the types that have a fixed width. */
  function NativeBytes(d: ArrowType): Option<nat> {
    match d
    case I8 | U8 => Some(1)
    case I16 | U16 => Some(2)
    case I32 | U32 | F32 | Date32 => Some(4)
    case I64 | U64 | F64 | Time64(_) | TimestampOf(_, _) => Some(8)
    case Decimal128(_, _) | MonthDayNano => Some(16)
    case Decimal256(_, _) => Some(32)
    case _ => None
  }

  /** A column of numbers, times or intervals has cells as wide as its slots on the wire, signed if
      they are. Decimals take 16 bytes, 128-bit integers 32. */
  lemma NativeWidths(t: LogicalType, d: ArrowType)
    requires ArrowTypeOf(t) == Success(d) && PrimitiveType(t.id).Some? && t.id != TypeId.Boolean
    ensures NativeBytes(d) == if t.id in {TypeId.HugeInt, TypeId.UHugeInt} then Some(32) else SlotBytes(t)
    ensures d in {U8, U16, U32, U64} <==> IsInteger(t.id) && !SignedSlot(GetPhysicalType(t).value)
  {
    hide ArrowTypeOf;
    PrimitiveAgrees(t);
  }

  /** 128-bit integers are decimals of 39 digits and none behind the point: the fewest digits that all
      of them have room in. */
  lemma HugeDigits(t: LogicalType)
    requires t.id in {TypeId.HugeInt, TypeId.UHugeInt}
    ensures ArrowTypeOf(t).Success? && ArrowTypeOf(t).value.Decimal256?
    ensures var d := ArrowTypeOf(t).value;
      && d.scale == 0 && d.precision > 0
      && DecimalText.Pow10(d.precision - 1) < 0x1_0000_0000_0000_0000_0000_0000_0000_0000 <=
        DecimalText.Pow10(d.precision)
  {
    hide DecimalText.Pow10;
    PowersOfTen();
  }

  /** Elements are called "item"; offsets have 31 bits; a day has 24 hours of 60 minutes of 60 seconds. */
  lemma NativeLimits(t: LogicalType, item: ArrowField)
    requires ListItemField(t) == Success(item)
    ensures item.name == [105, 116, 101, 109]
    ensures I32_MAX == 0x8000_0000 - 1
    ensures MICROS_IN_DAY == 24 * 60 * 60 * 1_000_000 && NANOS_IN_DAY == 1000 * MICROS_IN_DAY
  {
    hide ArrowTypeOf;
  }
}
