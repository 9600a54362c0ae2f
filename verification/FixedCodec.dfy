/** Fixed-size slots: the number each value puts in its slot, and the value each
    number stands for. */
module FixedCodec {
  import opened Prelude
  import opened Wire
  import opened LogicalTypes
  import opened Values
  import DecimalText = Decimal
  import Uuid

  // ---- conversions of the encoder ----

  function ToI128(v: Value): Result<i128> {
    match v
    case Bool(b) => Success(if b then 1 else 0)
    case Int(i) => Success(i)
    case UInt(u) => Success(u)
    case HugeInt(h) => Success(h)
    case UHugeInt(u) => if u < TWO_127 then Success(u) else Failure(Protocol)
    case Str(s) => DecimalText.ParseI128(s)
    case _ => Failure(Protocol)
  }

  function ToU128(v: Value): Result<u128> {
    match v
    case Bool(b) => Success(if b then 1 else 0)
    case Int(i) => if i >= 0 then Success(i) else Failure(Protocol)
    case UInt(u) => Success(u)
    case HugeInt(h) => if h >= 0 then Success(h) else Failure(Protocol)
    case UHugeInt(u) => Success(u)
    case Str(s) => DecimalText.ParseU128(s)
    case _ => Failure(Protocol)
  }

  function DecimalToUnscaled(t: LogicalType, v: Value): Result<i128> {
    match v
    case Decimal(unscaled, _, _) => Success(unscaled)
    case Str(s) =>
      var (_, scale) :- GetDecimalWidthAndScale(t);
      DecimalText.ParseLenient(s, scale)
    case _ => ToI128(v)
  }

  function DecimalOrInteger(t: LogicalType, v: Value): Result<i128> {
    if t.id == TypeId.Decimal then DecimalToUnscaled(t, v) else ToI128(v)
  }

  function IndexOf(values: seq<text>, s: text): (r: Option<nat>)
    ensures r.Some? <==> s in values
    ensures r.Some? ==> r.value < |values| && values[r.value] == s
  {
    if values == [] then None
    else if values[0] == s then Some(0)
    else
      match IndexOf(values[1..], s)
      case Some(i) => Some(i + 1)
      case None => None
  }

  function EnumOrNumber(t: LogicalType, v: Value): Result<u64> {
    if t.id != Enum then
      var n :- ToU128(v);
      Success(n % TWO_64)
    else
      match v
      case UInt(u) => Success(u)
      case Int(i) => if i >= 0 then Success(i) else Failure(Protocol)
      case Str(s) =>
        var values :- GetEnumValues(t);
        var index :- FromOption(IndexOf(values, s), Protocol);
        Success(index)
      case _ => Failure(Protocol)
  }

  /** The integer a value puts in a slot, before it is cut to the slot's width. */
  function Number(t: LogicalType, p: PhysicalType, v: Value): Result<int> {
    match p
    case PBool => Success(if v == Bool(true) then 1 else 0)
    case PInt8 => Widen(ToI128(v))
    case PUInt8 | PUInt16 | PUInt32 => Widen(EnumOrNumber(t, v))
    case PInt16 => Widen(DecimalOrInteger(t, v))
    case PInt32 => if t.id == TypeId.Date && v.Date? then Success(v.days) else Widen(DecimalOrInteger(t, v))
    case PInt64 =>
      if t.id == TypeId.Decimal then Widen(DecimalToUnscaled(t, v))
      else if v.Time? || v.Timestamp? then Success(v.ticks)
      else if v.TimeTz? then Success(v.bits)
      else Widen(ToI128(v))
    case PUInt64 | PUInt128 => Widen(ToU128(v))
    case PFloat => if v.Float? then Success(v.bits32) else Failure(Unsupported)
    case PDouble => if v.Double? then Success(v.bits64) else Failure(Unsupported)
    case PInt128 =>
      if t.id != TypeId.Uuid then Widen(DecimalOrInteger(t, v))
      else if !v.Str? then Failure(Protocol)
      else
        var parts :- Uuid.Parse(v.s);
        Success(parts.upper * TWO_64 + parts.lower)
    case PInterval => if v.Interval? then Success(0) else Failure(Protocol)
    case _ => Failure(Unsupported)
  }

  function Widen(r: Result<int>): Result<int> { r }

  /** A null takes a slot of zero bytes. */
  function PutFixedValue(t: LogicalType, p: PhysicalType, v: Value, tail: seq<byte>): (r: seq<byte>)
    requires PhysicalTypeSize(p).Some? && (v.Null? || Number(t, p, v).Success?)
    ensures |r| == PhysicalTypeSize(p).value + |tail|
  {
    var size := PhysicalTypeSize(p).value;
    if v.Null? then PutBytes(seq(size, _ => 0), tail)
    else
      match p
      case PInterval => PutFixed(4, v.months, PutFixed(4, v.days, PutFixed(8, v.micros, tail)))
      case PInt128 | PUInt128 => PutHalves(Number(t, p, v).value, tail)
      case _ => PutFixed(size, Number(t, p, v).value, tail)
  }

  // ---- conversions of the decoder ----

  predicate SignedSlot(p: PhysicalType) {
    p in {PInt8, PInt16, PInt32, PInt64, PInt128}
  }

  /** The numbers a slot can hold. */
  predicate InSlot(p: PhysicalType, n: int)
    requires PhysicalTypeSize(p).Some?
  {
    if p == PInterval then n == 0
    else if p == PInt128 then -TWO_127 <= n < TWO_127
    else if p == PUInt128 then 0 <= n < TWO_128
    else
      var range: int := Range(PhysicalTypeSize(p).value);
      if SignedSlot(p) then -range <= 2 * n < range else 0 <= n < range
  }

  /** A 128-bit slot: the low half, then the high half. */
  function ReadHalves(signed: bool, bs: seq<byte>): (r: Parsed<int>)
    ensures r.Parse? ==> |r.rest| == |bs| - 16
    ensures r.Parse? ==> if signed then -TWO_127 <= r.value < TWO_127 else 0 <= r.value < TWO_128
  {
    RangeValues();
    hide Wire.Range, Wire.ReadSigned, Wire.ReadUnsigned;
    var (lower, bs) :- ReadUnsigned(8, bs);
    if signed then
      var (upper, bs) :- ReadSigned(8, bs);
      Parse(upper * TWO_64 + lower, bs)
    else
      var (upper, bs) :- ReadUnsigned(8, bs);
      Parse(upper * TWO_64 + lower, bs)
  }

  function PutHalves(n: int, tail: seq<byte>): (r: seq<byte>)
    ensures |r| == 16 + |tail|
    ensures -TWO_127 <= n < TWO_127 ==> ReadHalves(true, r) == Parse(n, tail)
    ensures 0 <= n < TWO_128 ==> ReadHalves(false, r) == Parse(n, tail)
  {
    RangeValues();
    hide Wire.Range, Wire.ReadSigned, Wire.ReadUnsigned, Wire.PutFixed;
    PutFixed(8, n % TWO_64, PutFixed(8, n / TWO_64, tail))
  }

  function ReadInteger(signed: bool, size: nat, bs: seq<byte>): (r: Parsed<int>)
    ensures r.Parse? ==> |r.rest| == |bs| - size
    ensures r.Parse? ==> if signed then -(Range(size) as int) <= 2 * r.value < Range(size)
      else 0 <= r.value < Range(size)
  {
    hide Wire.Range, Wire.ReadSigned, Wire.ReadUnsigned;
    if signed then ReadSigned(size, bs)
    else
      var (n, bs) :- ReadUnsigned(size, bs);
      Parse(n, bs)
  }

  function ReadNumber(p: PhysicalType, bs: seq<byte>): (r: Parsed<int>)
    requires PhysicalTypeSize(p).Some? && p != PInterval
    ensures r.Parse? ==> InSlot(p, r.value) && |r.rest| == |bs| - PhysicalTypeSize(p).value
  {
    hide Wire.Range, ReadHalves, ReadInteger;
    if p == PInt128 || p == PUInt128 then ReadHalves(p == PInt128, bs)
    else ReadInteger(SignedSlot(p), PhysicalTypeSize(p).value, bs)
  }

  function DecimalFrom(t: LogicalType, n: i128): Result<Value> {
    var (width, scale) :- GetDecimalWidthAndScale(t);
    Success(Value.Decimal(n, width, scale))
  }

  function FromInt64(t: LogicalType, n: i64): Result<Value> {
    match t.id
    case Time => Success(Value.Time(TimeUnit.Micros, n))
    case TimeNs => Success(Value.Time(TimeUnit.Nanos, n))
    case TimeTz => Success(Value.TimeTz(n))
    case TimestampSec => Success(Value.Timestamp(Seconds, n, false))
    case TimestampMs => Success(Value.Timestamp(Millis, n, false))
    case Timestamp => Success(Value.Timestamp(TimestampUnit.Micros, n, false))
    case TimestampNs => Success(Value.Timestamp(TimestampUnit.Nanos, n, false))
    case TimestampTz => Success(Value.Timestamp(TimestampUnit.Micros, n, true))
    case Decimal => DecimalFrom(t, n)
    case _ => Success(Int(n))
  }

  function FromIndex(t: LogicalType, n: u64): Result<Value> {
    if t.id != Enum then Success(UInt(n))
    else
      var values :- GetEnumValues(t);
      if n < |values| then Success(Str(values[n])) else Failure(Protocol)
  }

  /** The value a number in a slot stands for. */
  function FromNumber(t: LogicalType, p: PhysicalType, n: int): Result<Value>
    requires PhysicalTypeSize(p).Some? && p != PInterval && InSlot(p, n)
  {
    RangeValues();
    match p
    case PBool => Success(Bool(n != 0))
    case PInt8 => Success(Int(n))
    case PUInt8 | PUInt16 | PUInt32 => FromIndex(t, n)
    case PInt16 => if t.id == TypeId.Decimal then DecimalFrom(t, n) else Success(Int(n))
    case PInt32 =>
      if t.id == TypeId.Date then Success(Value.Date(n))
      else if t.id == TypeId.Decimal then DecimalFrom(t, n)
      else Success(Int(n))
    case PInt64 => FromInt64(t, n)
    case PUInt64 => Success(UInt(n))
    case PFloat => Success(Value.Float(n))
    case PDouble => Success(Value.Double(n))
    case PInt128 =>
      if t.id == TypeId.Uuid then
        var parts := HugeIntParts(n / TWO_64, n % TWO_64);
        UuidIsText(parts);
        Success(Str(Uuid.Display(parts)))
      else if t.id == TypeId.Decimal then DecimalFrom(t, n)
      else Success(Value.HugeInt(n))
    case PUInt128 => Success(Value.UHugeInt(n))
  }

  lemma UuidIsText(parts: HugeIntParts)
    ensures IsUtf8(Uuid.Display(parts))
  {
    AsciiIsUtf8(Uuid.Display(parts));
  }

  function ReadFixedValue(t: LogicalType, p: PhysicalType, bs: seq<byte>): (r: Parsed<Value>)
    requires PhysicalTypeSize(p).Some?
    ensures r.Parse? ==> |r.rest| == |bs| - PhysicalTypeSize(p).value
  {
    RangeValues();
    if p == PInterval then
      var (months, bs) :- ReadSigned(4, bs);
      var (days, bs) :- ReadSigned(4, bs);
      var (micros, bs) :- ReadSigned(8, bs);
      Parse(Value.Interval(months, days, micros), bs)
    else
      var (n, bs) :- ReadNumber(p, bs);
      match FromNumber(t, p, n)
      case Success(v) => Parse(v, bs)
      case Failure(e) => NoParse(e)
  }

  // ---- well-typed values ----

  /** The non-null values a fixed-size column of type `t` holds. */
  predicate TypedScalar(t: LogicalType, p: PhysicalType, v: Value) {
    match p
    case PBool => v.Bool?
    case PInt8 => v.Int? && -0x80 <= v.i < 0x80
    case PUInt8 | PUInt16 | PUInt32 =>
      if t.id == Enum then v.Str? && GetEnumValues(t).Success? && v.s in GetEnumValues(t).value
      else v.UInt? && v.u < (if p == PUInt8 then TWO_8 else if p == PUInt16 then TWO_16 else TWO_32)
    case PInt16 => if t.id == TypeId.Decimal then TypedDecimal(t, v, 0x8000) else v.Int? && -0x8000 <= v.i < 0x8000
    case PInt32 =>
      if t.id == TypeId.Date then v.Date?
      else if t.id == TypeId.Decimal then TypedDecimal(t, v, TWO_31)
      else v.Int? && -TWO_31 <= v.i < TWO_31
    case PInt64 => if t.id == TypeId.Decimal then TypedDecimal(t, v, TWO_63) else TypedInt64(t.id, v)
    case PUInt64 => v.UInt?
    case PFloat => v.Float?
    case PDouble => v.Double?
    case PInt128 =>
      if t.id == TypeId.Uuid then v.Str? && Uuid.IsCanonical(v.s)
      else if t.id == TypeId.Decimal then TypedDecimal(t, v, TWO_127)
      else v.HugeInt?
    case PUInt128 => v.UHugeInt?
    case PInterval => v.Interval?
    case _ => false
  }

  predicate TypedDecimal(t: LogicalType, v: Value, bound: int) {
    && v.Decimal? && -bound <= v.unscaled < bound
    && GetDecimalWidthAndScale(t) == Success((v.width, v.scale))
  }

  predicate TypedInt64(id: TypeId, v: Value) {
    match id
    case Time => v.Time? && v.unit == TimeUnit.Micros
    case TimeNs => v.Time? && v.unit == TimeUnit.Nanos
    case TimeTz => v.TimeTz?
    case TimestampSec => v.Timestamp? && v.tsUnit == Seconds && !v.utc
    case TimestampMs => v.Timestamp? && v.tsUnit == Millis && !v.utc
    case Timestamp => v.Timestamp? && v.tsUnit == TimestampUnit.Micros && !v.utc
    case TimestampNs => v.Timestamp? && v.tsUnit == TimestampUnit.Nanos && !v.utc
    case TimestampTz => v.Timestamp? && v.tsUnit == TimestampUnit.Micros && v.utc
    case _ => v.Int?
  }

  /** A dictionary small enough for the slot that holds its indexes. */
  predicate SlotFitsEnum(t: LogicalType, p: PhysicalType) {
    t.id == Enum && p in {PUInt8, PUInt16, PUInt32} && GetEnumValues(t).Success? ==>
      |GetEnumValues(t).value| <= (if p == PUInt8 then TWO_8 else if p == PUInt16 then TWO_16 else TWO_32)
  }

  // ---- the round trip of one slot ----

  lemma NumberReadsBack(p: PhysicalType, n: int, tail: seq<byte>)
    requires PhysicalTypeSize(p).Some? && p != PInterval && InSlot(p, n)
    ensures var bs := if p == PInt128 || p == PUInt128 then PutHalves(n, tail)
      else PutFixed(PhysicalTypeSize(p).value, n, tail);
      ReadNumber(p, bs) == Parse(n, tail)
  {
    RangeValues();
    hide Wire.PutFixed, Wire.ReadSigned, Wire.ReadUnsigned, Wire.Range, PutHalves, ReadHalves;
  }

  lemma NumberStandsFor(t: LogicalType, p: PhysicalType, v: Value)
    requires PhysicalTypeSize(p).Some? && p != PInterval && TypedScalar(t, p, v) && SlotFitsEnum(t, p)
    ensures var n := Number(t, p, v);
      n.Success? && InSlot(p, n.value) && FromNumber(t, p, n.value) == Success(v)
  {
    hide DecimalText.ParseI128, DecimalText.ParseU128, DecimalText.ParseLenient, Uuid.Parse, Uuid.Display;
    hide Uuid.IsCanonical, IndexOf, GetDecimalWidthAndScale;
    if p == PInt64 || (t.id == TypeId.Decimal && p in {PInt16, PInt32, PInt128}) {
      TicksStandFor(t, p, v);
    } else if p == PInt128 && t.id == TypeId.Uuid {
      UuidStandsFor(t, v);
    } else if p in {PUInt8, PUInt16, PUInt32} {
      IndexStandsFor(t, p, v);
    } else {
      RangeValues();
      hide Wire.Range, EnumOrNumber, FromIndex;
    }
  }

  lemma UuidStandsFor(t: LogicalType, v: Value)
    requires t.id == TypeId.Uuid && TypedScalar(t, PInt128, v)
    ensures var n := Number(t, PInt128, v);
      n.Success? && InSlot(PInt128, n.value) && FromNumber(t, PInt128, n.value) == Success(v)
  {
    hide Uuid.Parse, Uuid.Display, Uuid.IsCanonical;
    Uuid.DisplayParse(v.s);
    HalvesApart(Uuid.Parse(v.s).value);
  }

  /** Unsigned integers, and the indexes of an enum. */
  lemma IndexStandsFor(t: LogicalType, p: PhysicalType, v: Value)
    requires p in {PUInt8, PUInt16, PUInt32} && TypedScalar(t, p, v) && SlotFitsEnum(t, p)
    ensures var n := Number(t, p, v);
      n.Success? && InSlot(p, n.value) && FromNumber(t, p, n.value) == Success(v)
  {
    RangeValues();
    hide Wire.Range, IndexOf;
  }

  /** Decimals, and the times that share the 64-bit slot. */
  lemma TicksStandFor(t: LogicalType, p: PhysicalType, v: Value)
    requires TypedScalar(t, p, v) && (p == PInt64 || (t.id == TypeId.Decimal && p in {PInt16, PInt32, PInt128}))
    ensures var n := Number(t, p, v);
      n.Success? && InSlot(p, n.value) && FromNumber(t, p, n.value) == Success(v)
  {
    RangeValues();
    hide Wire.Range, DecimalText.ParseI128, DecimalText.ParseU128, DecimalText.ParseLenient;
    hide GetDecimalWidthAndScale;
  }

  lemma HalvesApart(parts: HugeIntParts)
    ensures var n := parts.upper * TWO_64 + parts.lower;
      n / TWO_64 == parts.upper && n % TWO_64 == parts.lower
  {
  }

  /** A well-typed value comes back from its slot. */
  lemma SlotRoundTrip(t: LogicalType, p: PhysicalType, v: Value, tail: seq<byte>)
    requires PhysicalTypeSize(p).Some? && TypedScalar(t, p, v) && SlotFitsEnum(t, p)
    ensures Number(t, p, v).Success?
    ensures ReadFixedValue(t, p, PutFixedValue(t, p, v, tail)) == Parse(v, tail)
  {
    RangeValues();
    hide Wire.PutFixed, Wire.ReadSigned, Wire.ReadUnsigned, Wire.Range, ReadNumber, FromNumber;
    if p != PInterval {
      NumberStandsFor(t, p, v);
      NumberReadsBack(p, Number(t, p, v).value, tail);
    }
  }

  /** A null slot reads as the value of the number zero, which an enum without
      values does not have. */
  lemma NullSlotReads(t: LogicalType, p: PhysicalType, tail: seq<byte>)
    requires PhysicalTypeSize(p).Some? && GetPhysicalType(t) == Success(p)
    ensures var r := ReadFixedValue(t, p, PutFixedValue(t, p, Null, tail));
      if t.id == Enum && GetEnumValues(t) == Success([]) then r == NoParse(Protocol)
      else r.Parse? && r.rest == tail
  {
    RangeValues();
    hide Wire.Range, Wire.ReadSigned, Wire.ReadUnsigned, Wire.PutBytes;
    var size := PhysicalTypeSize(p).value;
    if p == PInterval {
      ZeroBytes(4, 12, tail);
      ZeroBytes(4, 8, tail);
      ZeroBytes(8, 0, tail);
    } else {
      ZeroNumber(p, tail);
      ZeroStandsFor(t, p);
    }
  }

  lemma ZeroNumber(p: PhysicalType, tail: seq<byte>)
    requires PhysicalTypeSize(p).Some? && p != PInterval
    ensures InSlot(p, 0)
    ensures ReadNumber(p, PutBytes(seq(PhysicalTypeSize(p).value, _ => 0), tail)) == Parse(0, tail)
  {
    RangeValues();
    hide Wire.Range, Wire.ReadSigned, Wire.ReadUnsigned;
    if p == PInt128 || p == PUInt128 {
      ZeroBytes(8, 8, tail);
      ZeroBytes(8, 0, tail);
    } else {
      ZeroBytes(PhysicalTypeSize(p).value, 0, tail);
    }
  }

  lemma ZeroStandsFor(t: LogicalType, p: PhysicalType)
    requires PhysicalTypeSize(p).Some? && p != PInterval && GetPhysicalType(t) == Success(p)
    requires InSlot(p, 0)
    ensures if t.id == Enum && GetEnumValues(t) == Success([]) then FromNumber(t, p, 0) == Failure(Protocol)
      else FromNumber(t, p, 0).Success?
  {
    hide Wire.Range, Uuid.Display;
  }

  lemma ZeroBytes(n: nat, more: nat, tail: seq<byte>)
    ensures ReadUnsigned(n, seq(n + more, _ => 0) + tail) == Parse(0, seq(more, _ => 0) + tail)
    ensures ReadSigned(n, seq(n + more, _ => 0) + tail) == Parse(0, seq(more, _ => 0) + tail)
  {
    var bs := seq(n + more, _ => 0) + tail;
    assert bs[..n] == seq(n, _ => 0) && bs[n..] == seq(more, _ => 0) + tail;
    ZeroLe(n);
  }

  lemma {:induction false} ZeroLe(n: nat)
    ensures FromLe(seq(n, _ => 0)) == 0
  {
    if n > 0 {
      assert (seq(n, _ => 0))[1..] == seq(n - 1, _ => 0);
      ZeroLe(n - 1);
    }
  }
}
