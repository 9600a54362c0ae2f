/** How wide the slots of each logical type are and which values its columns hold, said
    by type id and by the numbers a slot has room for. */
module PhysicalLayout {
  import opened Prelude
  import opened LogicalTypes
  import opened Values
  import opened FixedCodec
  import opened Vectors
  import opened VectorRoundTrips
  import Wire
  import DecimalText = Decimal
  import Uuid

  /** The bytes of a slot, if columns of the type have slots. */
  function SlotBytes(t: LogicalType): Option<nat> {
    match GetPhysicalType(t)
    case Success(p) => PhysicalTypeSize(p)
    case Failure(_) => None
  }

  // ---- decimals and enums ----

  /** Every number of `width` digits, of either sign, has room in `bytes` bytes. */
  predicate DigitsFit(width: nat, bytes: nat) {
    2 * DecimalText.Pow10(width) <= Wire.Range(bytes)
  }

  /** The narrowest slot of 2, 4, 8 or 16 bytes with room for `width` digits. */
  function DecimalBytes(width: nat): Option<nat> {
    if DigitsFit(width, 2) then Some(2)
    else if DigitsFit(width, 4) then Some(4)
    else if DigitsFit(width, 8) then Some(8)
    else if DigitsFit(width, 16) then Some(16)
    else None
  }

  lemma {:induction false} Pow10Grows(i: nat, j: nat)
    requires i <= j
    ensures DecimalText.Pow10(i) <= DecimalText.Pow10(j)
    decreases j
  {
    if i < j {
      Pow10Grows(i, j - 1);
    }
  }

  lemma PowersOfTen()
    ensures DecimalText.Pow10(4) == 1_0000 && DecimalText.Pow10(5) == 10_0000
    ensures DecimalText.Pow10(9) == 10_0000_0000 && DecimalText.Pow10(10) == 100_0000_0000
    ensures DecimalText.Pow10(18) == 100_0000_0000_0000_0000 && DecimalText.Pow10(19) == 1000_0000_0000_0000_0000
    ensures DecimalText.Pow10(38) == 1_00_0000_0000_0000_0000_0000_0000_0000_0000_0000
    ensures DecimalText.Pow10(39) == 10_00_0000_0000_0000_0000_0000_0000_0000_0000_0000
  {
    assert DecimalText.Pow10(4) == 1_0000;
    assert DecimalText.Pow10(9) == 10_0000_0000;
    assert DecimalText.Pow10(14) == 100_0000_0000_0000;
    assert DecimalText.Pow10(18) == 100_0000_0000_0000_0000;
    assert DecimalText.Pow10(23) == 1000_0000_0000_0000_0000_0000;
    assert DecimalText.Pow10(28) == 1_0000_0000_0000_0000_0000_0000_0000;
    assert DecimalText.Pow10(33) == 10_0000_0000_0000_0000_0000_0000_0000_0000;
    assert DecimalText.Pow10(38) == 1_00_0000_0000_0000_0000_0000_0000_0000_0000_0000;
  }

  lemma Ranges()
    ensures Wire.Range(2) == 0x1_0000 && Wire.Range(4) == 0x1_0000_0000
    ensures Wire.Range(8) == 0x1_0000_0000_0000_0000
    ensures Wire.Range(16) == 0x1_0000_0000_0000_0000_0000_0000_0000_0000
  {
    assert Wire.Range(4) == 0x1_0000_0000;
    assert Wire.Range(8) == 0x1_0000_0000_0000_0000;
    assert Wire.Range(12) == 0x1_0000_0000_0000_0000_0000_0000;
  }

  /** In numbers: up to 4, 9, 18 and 38 digits. */
  lemma DigitsFitExactly(width: nat)
    ensures DigitsFit(width, 2) <==> width <= 4
    ensures DigitsFit(width, 4) <==> width <= 9
    ensures DigitsFit(width, 8) <==> width <= 18
    ensures DigitsFit(width, 16) <==> width <= 38
  {
    hide DecimalText.Pow10, Wire.Range;
    PowersOfTen();
    Ranges();
    Pow10Grows(if width <= 4 then width else 5, if width <= 4 then 4 else width);
    Pow10Grows(if width <= 9 then width else 10, if width <= 9 then 9 else width);
    Pow10Grows(if width <= 18 then width else 19, if width <= 18 then 18 else width);
    Pow10Grows(if width <= 38 then width else 39, if width <= 38 then 38 else width);
  }

  /** A decimal takes the narrowest slot that has room for its digits, and a signed one;
      there is no such type exactly when sixteen bytes are too few. */
  lemma DecimalIsNarrowest(alias: Option<text>, width: u64, scale: u64)
    ensures var t := LogicalType(TypeId.Decimal, Some(DecimalInfo(alias, width, scale)));
      && SlotBytes(t) == DecimalBytes(width)
      && (GetPhysicalType(t).Failure? <==> DecimalBytes(width).None?)
      && (DecimalBytes(width).None? <==> width > 38)
      && (GetPhysicalType(t).Success? ==> SignedSlot(GetPhysicalType(t).value))
  {
    hide DigitsFit;
    DigitsFitExactly(width);
  }

  /** An enum takes the narrowest unsigned slot whose largest number is at least the number
      of its values, and four bytes for more. */
  lemma EnumIsNarrowest(alias: Option<text>, values: vec<text>)
    ensures var t := LogicalType(Enum, Some(EnumInfo(alias, values)));
      && (SlotBytes(t) == Some(1) <==> |values| <= 0xFF)
      && (SlotBytes(t) == Some(2) <==> 0xFF < |values| <= 0xFFFF)
      && (SlotBytes(t) == Some(4) <==> 0xFFFF < |values|)
      && GetPhysicalType(t).Success? && !SignedSlot(GetPhysicalType(t).value)
  {
  }

  // ---- every type ----

  /** The widths of the slots, type by type; the other types have none. */
  lemma SlotWidths(t: LogicalType)
    requires t.id != TypeId.Decimal && t.id != Enum
    ensures GetPhysicalType(t).Success?
    ensures SlotBytes(t) == Some(1) <==> t.id in {Boolean, TinyInt, UTinyInt}
    ensures SlotBytes(t) == Some(2) <==> t.id in {SmallInt, USmallInt}
    ensures SlotBytes(t) == Some(4) <==> t.id in {SqlNull, Integer, UInteger, TypeId.Date, TypeId.Float}
    ensures SlotBytes(t) == Some(8) <==>
      t.id in {BigInt, UBigInt, Pointer, TypeId.Double, TypeId.Time, TimeNs, TypeId.TimeTz, TypeId.Timestamp,
               TimestampSec, TimestampMs, TimestampNs, TimestampTz}
    ensures SlotBytes(t) == Some(16) <==> t.id in {TypeId.HugeInt, TypeId.UHugeInt, TypeId.Uuid, TypeId.Interval}
    ensures SlotBytes(t).Some? ==> SlotBytes(t).value in {1, 2, 4, 8, 16}
  {
    hide DecimalPhysicalType, EnumPhysicalType;
  }

  /** What the metadata of a type says about its elements. */
  lemma Accessors(id: TypeId, alias: Option<text>, child: LogicalType, children: vec<ChildType>, size: u64)
    ensures GetChildType(LogicalType(id, Some(ListInfo(alias, child)))) == Success(child)
    ensures GetChildType(LogicalType(id, Some(ArrayInfo(alias, child, size)))) == Success(child)
    ensures GetArraySize(LogicalType(id, Some(ArrayInfo(alias, child, size)))) == Success(size)
    ensures GetStructChildren(LogicalType(id, Some(StructInfo(alias, children)))) == Success(children)
    ensures GetChildType(LogicalType(id, None)).Failure? && GetArraySize(LogicalType(id, None)).Failure?
    ensures GetStructChildren(LogicalType(id, None)) ==
      if id in {Variant, Union} then Success([]) else Failure(Protocol)
  {
  }

  /** Whole numbers within a signed range of that many bytes. */
  predicate SignedIn(n: int, bytes: nat) {
    -(Wire.Range(bytes) as int) <= 2 * n < Wire.Range(bytes)
  }

  /** Lists of typed elements, of the right number in an array, and rows of typed fields. */
  predicate NestedBelongs(t: LogicalType, v: Value) {
    match t.id
    case List | Map =>
      && v.List? && GetChildType(t).Success?
      && forall k | 0 <= k < |v.items| :: WellTyped(GetChildType(t).value, v.items[k])
    case Array =>
      && v.List? && GetChildType(t).Success? && GetArraySize(t) == Success(|v.items|)
      && forall k | 0 <= k < |v.items| :: WellTyped(GetChildType(t).value, v.items[k])
    case Struct | Union | Variant =>
      && v.Struct? && GetStructChildren(t).Success? && SameNames(GetStructChildren(t).value, v.row)
      && forall k | 0 <= k < |v.row| :: WellTyped(GetStructChildren(t).value[k].logicalType, v.row[k].value)
    case _ => false
  }

  /** What a column of each type holds, null apart, in terms of the type alone. */
  predicate Belongs(t: LogicalType, v: Value) {
    match t.id
    case Boolean => v.Bool?
    case TinyInt => v.Int? && SignedIn(v.i, 1)
    case SmallInt => v.Int? && SignedIn(v.i, 2)
    case SqlNull | Integer => v.Int? && SignedIn(v.i, 4)
    case BigInt => v.Int?
    case UTinyInt => v.UInt? && v.u < Wire.Range(1)
    case USmallInt => v.UInt? && v.u < Wire.Range(2)
    case UInteger => v.UInt? && v.u < Wire.Range(4)
    case UBigInt | Pointer => v.UInt?
    case HugeInt => v.HugeInt?
    case UHugeInt => v.UHugeInt?
    case Float => v.Float?
    case Double => v.Double?
    case Decimal =>
      && v.Decimal? && t.info.Some? && t.info.value.DecimalInfo?
      && v.width == t.info.value.width && v.scale == t.info.value.scale
      && DecimalBytes(v.width).Some? && SignedIn(v.unscaled, DecimalBytes(v.width).value)
    case Enum =>
      && v.Str? && t.info.Some? && t.info.value.EnumInfo?
      && v.s in t.info.value.values && |t.info.value.values| <= Wire.Range(4)
    case Uuid => v.Str? && Uuid.IsCanonical(v.s)
    case Date => v.Date?
    case Time => v.Time? && v.unit == TimeUnit.Micros
    case TimeNs => v.Time? && v.unit == TimeUnit.Nanos
    case TimeTz => v.TimeTz?
    case TimestampSec => v.Timestamp? && v.tsUnit == Seconds && !v.utc
    case TimestampMs => v.Timestamp? && v.tsUnit == Millis && !v.utc
    case Timestamp => v.Timestamp? && v.tsUnit == TimestampUnit.Micros && !v.utc
    case TimestampNs => v.Timestamp? && v.tsUnit == TimestampUnit.Nanos && !v.utc
    case TimestampTz => v.Timestamp? && v.tsUnit == TimestampUnit.Micros && v.utc
    case Interval => v.Interval?
    case Varchar | Char | BigNum | Type | AggregateState => v.Str?
    case Blob | Bit | Geometry => v.Bytes?
    case List | Map | Array | Struct | Union | Variant => NestedBelongs(t, v)
    case _ => false
  }

  /** The values for which everything about columns is proved are those of the type. */
  lemma ColumnsHold(t: LogicalType, v: Value)
    requires !v.Null?
    ensures WellTyped(t, v) <==> Belongs(t, v)
  {
    hide WellTyped, Belongs;
    if t.id == TypeId.Decimal {
      DecimalsHold(t, v);
    } else if IsNested(t.id) {
      NestedHold(t, v);
    } else if IsNumber(t.id) {
      NumbersHold(t, v);
    } else if IsTick(t.id) {
      TicksHold(t, v);
    } else if IsTextual(t.id) {
      TextsHold(t, v);
    } else if IsPlain(t.id) {
      PlainHold(t, v);
    } else {
      NothingHolds(t, v);
    }
  }

  /** The values of slots and of text, by physical type. */
  lemma FlatTyped(t: LogicalType, p: PhysicalType, v: Value)
    requires GetPhysicalType(t) == Success(p) && !v.Null?
    ensures PhysicalTypeSize(p).Some? ==> (WellTyped(t, v) <==> TypedScalar(t, p, v) && SlotFitsEnum(t, p))
    ensures p == PVarchar ==> (WellTyped(t, v) <==> if IsBinary(t.id) then v.Bytes? else v.Str?)
    ensures p in {PBit, PInvalid} ==> !WellTyped(t, v)
  {
    hide GetPhysicalType, TypedScalar, SlotFitsEnum, IsBinary;
  }

  predicate IsNested(id: TypeId) {
    id in {TypeId.List, Map, TypeId.Array, TypeId.Struct, TypeId.Union, Variant}
  }

  lemma NestedHold(t: LogicalType, v: Value)
    requires IsNested(t.id) && !v.Null?
    ensures WellTyped(t, v) <==> Belongs(t, v)
  {
    hide GetChildType, GetStructChildren, GetArraySize, TypedScalar, SlotFitsEnum, GetPhysicalType, WellTyped, Belongs;
    NestedPhysical(t);
    NestedTyped(t, v);
    NestedMeans(t, v);
  }

  lemma NestedMeans(t: LogicalType, v: Value)
    requires IsNested(t.id)
    ensures Belongs(t, v) == NestedBelongs(t, v)
  {
    hide NestedBelongs, DecimalBytes, SignedIn, Uuid.IsCanonical, Wire.Range;
  }

  lemma NestedPhysical(t: LogicalType)
    ensures t.id in {TypeId.Struct, TypeId.Union, Variant} ==> GetPhysicalType(t) == Success(PStruct)
    ensures t.id == TypeId.Array ==> GetPhysicalType(t) == Success(PArray)
    ensures t.id in {TypeId.List, Map} ==> GetPhysicalType(t) == Success(PList)
  {
  }

  /** The values of nested columns, by physical type. */
  lemma NestedTyped(t: LogicalType, v: Value)
    requires GetPhysicalType(t).Success? && !v.Null?
    ensures GetPhysicalType(t) == Success(PStruct) ==>
      (WellTyped(t, v) <==>
         && v.Struct? && GetStructChildren(t).Success? && SameNames(GetStructChildren(t).value, v.row)
         && forall k | 0 <= k < |v.row| :: WellTyped(GetStructChildren(t).value[k].logicalType, v.row[k].value))
    ensures GetPhysicalType(t) == Success(PList) ==>
      (WellTyped(t, v) <==>
         && v.List? && GetChildType(t).Success?
         && forall k | 0 <= k < |v.items| :: WellTyped(GetChildType(t).value, v.items[k]))
    ensures GetPhysicalType(t) == Success(PArray) ==>
      (WellTyped(t, v) <==>
         && v.List? && GetChildType(t).Success? && GetArraySize(t) == Success(|v.items|)
         && forall k | 0 <= k < |v.items| :: WellTyped(GetChildType(t).value, v.items[k]))
  {
    hide GetChildType, GetStructChildren, GetArraySize, TypedScalar, SlotFitsEnum, GetPhysicalType;
  }

  predicate IsNumber(id: TypeId) {
    id in {TinyInt, SmallInt, SqlNull, TypeId.Integer, UTinyInt, USmallInt, UInteger, Enum}
  }

  lemma NumbersHold(t: LogicalType, v: Value)
    requires IsNumber(t.id) && !v.Null?
    ensures WellTyped(t, v) <==> Belongs(t, v)
  {
    hide Wire.Range, WellTyped;
    Wire.RangeValues();
    Ranges();
    if GetPhysicalType(t).Success? {
      FlatTyped(t, GetPhysicalType(t).value, v);
    } else {
      Untyped(t, v);
    }
  }

  lemma Untyped(t: LogicalType, v: Value)
    requires GetPhysicalType(t).Failure? && !v.Null?
    ensures !WellTyped(t, v)
  {
    hide GetPhysicalType;
  }

  predicate IsTick(id: TypeId) {
    id in {TypeId.Date, TypeId.Time, TimeNs, TypeId.TimeTz, TimestampSec, TimestampMs, TypeId.Timestamp, TimestampNs,
           TimestampTz, BigInt}
  }

  lemma TicksHold(t: LogicalType, v: Value)
    requires IsTick(t.id) && !v.Null?
    ensures WellTyped(t, v) <==> Belongs(t, v)
  {
    hide WellTyped, Uuid.IsCanonical, TypedDecimal, GetEnumValues, NestedBelongs, DecimalBytes, SignedIn;
    FlatTyped(t, GetPhysicalType(t).value, v);
  }

  predicate IsTextual(id: TypeId) {
    id in {Varchar, TypeId.Char, BigNum, TypeId.Type, AggregateState, TypeId.Blob, TypeId.Bit, Geometry}
  }

  lemma TextsHold(t: LogicalType, v: Value)
    requires IsTextual(t.id) && !v.Null?
    ensures WellTyped(t, v) <==> Belongs(t, v)
  {
    hide WellTyped, Uuid.IsCanonical;
    assert GetPhysicalType(t) == Success(PVarchar);
    FlatTyped(t, PVarchar, v);
    hide GetPhysicalType;
  }

  predicate IsPlain(id: TypeId) {
    id in {Boolean, UBigInt, Pointer, TypeId.HugeInt, TypeId.UHugeInt, TypeId.Float, TypeId.Double, TypeId.Uuid,
           TypeId.Interval}
  }

  lemma PlainHold(t: LogicalType, v: Value)
    requires IsPlain(t.id) && !v.Null?
    ensures WellTyped(t, v) <==> Belongs(t, v)
  {
    hide WellTyped, Uuid.IsCanonical, TypedScalar, SlotFitsEnum, GetPhysicalType, NestedBelongs, DecimalBytes, SignedIn;
    PlainPhysical(t);
    var p := GetPhysicalType(t).value;
    FlatTyped(t, p, v);
    PlainScalars(t, p, v);
  }

  lemma PlainScalars(t: LogicalType, p: PhysicalType, v: Value)
    requires IsPlain(t.id)
    ensures SlotFitsEnum(t, p)
    ensures p == PBool ==> (TypedScalar(t, p, v) <==> v.Bool?)
    ensures p == PUInt64 ==> (TypedScalar(t, p, v) <==> v.UInt?)
    ensures p == PUInt128 ==> (TypedScalar(t, p, v) <==> v.UHugeInt?)
    ensures p == PInt128 ==>
      (TypedScalar(t, p, v) <==> if t.id == TypeId.Uuid then v.Str? && Uuid.IsCanonical(v.s) else v.HugeInt?)
    ensures p == PFloat ==> (TypedScalar(t, p, v) <==> v.Float?)
    ensures p == PDouble ==> (TypedScalar(t, p, v) <==> v.Double?)
    ensures p == PInterval ==> (TypedScalar(t, p, v) <==> v.Interval?)
  {
    hide Uuid.IsCanonical, TypedDecimal, GetEnumValues, TypedInt64;
  }

  lemma PlainPhysical(t: LogicalType)
    requires IsPlain(t.id)
    ensures t.id == Boolean ==> GetPhysicalType(t) == Success(PBool)
    ensures t.id in {UBigInt, Pointer} ==> GetPhysicalType(t) == Success(PUInt64)
    ensures t.id in {TypeId.HugeInt, TypeId.Uuid} ==> GetPhysicalType(t) == Success(PInt128)
    ensures t.id == TypeId.UHugeInt ==> GetPhysicalType(t) == Success(PUInt128)
    ensures t.id == TypeId.Float ==> GetPhysicalType(t) == Success(PFloat)
    ensures t.id == TypeId.Double ==> GetPhysicalType(t) == Success(PDouble)
    ensures t.id == TypeId.Interval ==> GetPhysicalType(t) == Success(PInterval)
    ensures GetPhysicalType(t).Success?
  {
    hide DecimalPhysicalType, EnumPhysicalType;
  }

  predicate HasColumns(id: TypeId) {
    IsNumber(id) || IsNested(id) || IsTick(id) || IsTextual(id) || IsPlain(id) || id == TypeId.Decimal
  }

  /** Other types have no values. */
  lemma NothingHolds(t: LogicalType, v: Value)
    requires !HasColumns(t.id) && !v.Null?
    ensures !WellTyped(t, v) && !Belongs(t, v)
  {
    hide WellTyped;
    assert GetPhysicalType(t) in {Success(PBit), Success(PInvalid)};
    FlatTyped(t, GetPhysicalType(t).value, v);
    hide GetPhysicalType;
  }

  lemma DecimalsHold(t: LogicalType, v: Value)
    requires t.id == TypeId.Decimal && !v.Null?
    ensures WellTyped(t, v) <==> Belongs(t, v)
  {
    hide Wire.Range, DigitsFit, WellTyped, TypedScalar, SlotFitsEnum, GetPhysicalType;
    DecimalSlot(t);
    if t.info.Some? && t.info.value.DecimalInfo? {
      DigitsFitExactly(t.info.value.width);
    }
    if GetPhysicalType(t).Success? {
      FlatTyped(t, GetPhysicalType(t).value, v);
      TypedDecimals(t, GetPhysicalType(t).value, v);
    } else {
      Untyped(t, v);
    }
  }

  lemma DecimalSlot(t: LogicalType)
    requires t.id == TypeId.Decimal
    ensures GetPhysicalType(t) == DecimalPhysicalType(t)
  {
  }

  lemma TypedDecimals(t: LogicalType, p: PhysicalType, v: Value)
    requires t.id == TypeId.Decimal && p in {PInt16, PInt32, PInt64, PInt128}
    ensures SlotFitsEnum(t, p)
    ensures TypedScalar(t, p, v) <==>
      && v.Decimal? && SignedIn(v.unscaled, PhysicalTypeSize(p).value)
      && GetDecimalWidthAndScale(t) == Success((v.width, v.scale))
  {
    hide Wire.Range, GetDecimalWidthAndScale;
    Ranges();
  }
}
