/** What happens to values that a column takes without being of its type: whole numbers of any
    kind, truth values and text in integer and decimal columns, and numbers too wide for the slot. */
module SlotNumbers {
  import opened Prelude
  import opened Wire
  import opened LogicalTypes
  import opened Values
  import opened FixedCodec
  import opened Vectors
  import opened VectorLayout
  import DecimalText = Decimal
  import SqlLexing

  /** The whole number a value is, if it is one. */
  function Whole(v: Value): Option<int> {
    match v
    case Bool(b) => Some(if b then 1 else 0)
    case Int(i) => Some(i)
    case UInt(u) => Some(u)
    case HugeInt(h) => Some(h)
    case UHugeInt(u) => Some(u)
    case _ => None
  }

  predicate SignedColumn(id: TypeId) {
    id in {TinyInt, SmallInt, TypeId.Integer, BigInt, TypeId.HugeInt}
  }

  predicate UnsignedColumn(id: TypeId) {
    id in {UTinyInt, USmallInt, UInteger, UBigInt, TypeId.UHugeInt}
  }

  /** `n` cut to the low bytes of a signed slot with `range` numbers. */
  function WrapSigned(n: int, range: nat): int
    requires range > 0
  {
    if 2 * (n % range) < range then n % range else n % range - range
  }

  /** A slot keeps the low bytes of a number that is too wide for it. */
  lemma PutFixedWraps(n: nat, v: int, tail: seq<byte>)
    ensures ReadUnsigned(n, PutFixed(n, v, tail)) == Parse(v % Range(n), tail)
    ensures ReadSigned(n, PutFixed(n, v, tail)) == Parse(WrapSigned(v, Range(n)), tail)
  {
    hide Wire.Range;
    var m := v % Range(n);
    LeRoundTrip(n, m);
    assert (LowBytes(n, v) + tail)[..n] == LowBytes(n, v) && (LowBytes(n, v) + tail)[n..] == tail;
  }

  // ---- integers ----

  /** A signed column takes every whole number that 128 signed bits hold. */
  lemma SignedTakes(t: LogicalType, p: PhysicalType, v: Value, n: int)
    requires SignedColumn(t.id) && GetPhysicalType(t) == Success(p) && Whole(v) == Some(n)
    ensures Number(t, p, v) == if n < TWO_127 then Success(n) else Failure(Protocol)
  {
  }

  /** An unsigned column takes every whole number that is not negative; slots of four bytes and
      fewer see its low 64 bits. */
  lemma UnsignedTakes(t: LogicalType, p: PhysicalType, v: Value, n: int)
    requires UnsignedColumn(t.id) && GetPhysicalType(t) == Success(p) && Whole(v) == Some(n)
    ensures Number(t, p, v).Success? <==> n >= 0
    ensures n >= 0 ==> Number(t, p, v) == Success(if t.id in {UBigInt, TypeId.UHugeInt} then n else n % TWO_64)
  {
    if n >= 0 && n < TWO_64 {
      Arithmetic.SmallMod(n, TWO_64);
    }
  }

  predicate NarrowSigned(p: PhysicalType) {
    p in {PInt8, PInt16, PInt32, PInt64}
  }

  predicate NarrowUnsigned(p: PhysicalType) {
    p in {PUInt8, PUInt16, PUInt32, PUInt64}
  }

  /** The number in a slot that is too narrow for what was put in. */
  lemma NarrowReads(p: PhysicalType, n: int, tail: seq<byte>)
    requires NarrowSigned(p) || NarrowUnsigned(p)
    ensures var size := PhysicalTypeSize(p).value;
      ReadNumber(p, PutFixed(size, n, tail)) ==
      Parse(if NarrowSigned(p) then WrapSigned(n, Range(size)) else n % Range(size), tail)
  {
    PutFixedWraps(PhysicalTypeSize(p).value, n, tail);
    hide Wire.Range, Wire.PutFixed, Wire.ReadSigned, Wire.ReadUnsigned;
  }

  lemma SignedStandsFor(t: LogicalType, p: PhysicalType, m: int)
    requires SignedColumn(t.id) && NarrowSigned(p) && InSlot(p, m)
    ensures -TWO_63 <= m < TWO_63 && FromNumber(t, p, m) == Success(Int(m))
  {
    RangeValues();
    hide Wire.Range;
  }

  lemma UnsignedStandsFor(t: LogicalType, p: PhysicalType, m: int)
    requires UnsignedColumn(t.id) && NarrowUnsigned(p) && InSlot(p, m)
    ensures 0 <= m < TWO_64 && FromNumber(t, p, m) == Success(UInt(m))
  {
    RangeValues();
    hide Wire.Range;
  }

  lemma SignedSlotReads(t: LogicalType, p: PhysicalType, n: int, tail: seq<byte>)
    requires SignedColumn(t.id) && NarrowSigned(p)
    ensures PhysicalTypeSize(p).Some? && p !in {PInt128, PUInt128}
    ensures var size := PhysicalTypeSize(p).value;
      && -TWO_63 <= WrapSigned(n, Range(size)) < TWO_63
      && ReadFixedValue(t, p, PutFixed(size, n, tail)) == Parse(Int(WrapSigned(n, Range(size))), tail)
  {
    hide Wire.Range, Wire.PutFixed, ReadNumber, FromNumber, WrapSigned, InSlot;
    NarrowReads(p, n, tail);
    SignedStandsFor(t, p, WrapSigned(n, Range(PhysicalTypeSize(p).value)));
  }

  lemma UnsignedSlotReads(t: LogicalType, p: PhysicalType, n: int, tail: seq<byte>)
    requires UnsignedColumn(t.id) && NarrowUnsigned(p)
    ensures PhysicalTypeSize(p).Some? && p !in {PInt128, PUInt128}
    ensures var size := PhysicalTypeSize(p).value;
      && n % Range(size) < TWO_64
      && ReadFixedValue(t, p, PutFixed(size, n, tail)) == Parse(UInt(n % Range(size)), tail)
  {
    hide Wire.Range, Wire.PutFixed, ReadNumber, FromNumber, InSlot;
    NarrowReads(p, n, tail);
    UnsignedStandsFor(t, p, n % Range(PhysicalTypeSize(p).value));
  }

  lemma ColumnSlots(t: LogicalType, p: PhysicalType)
    requires GetPhysicalType(t) == Success(p)
    ensures SignedColumn(t.id) || UnsignedColumn(t.id) ==> PhysicalTypeSize(p).Some? && p != PInterval
    ensures SignedColumn(t.id) ==> NarrowSigned(p) || (p == PInt128 && t.id == TypeId.HugeInt)
    ensures UnsignedColumn(t.id) ==> NarrowUnsigned(p) || (p == PUInt128 && t.id == TypeId.UHugeInt)
    ensures UnsignedColumn(t.id) && t.id !in {UBigInt, TypeId.UHugeInt} ==> p in {PUInt8, PUInt16, PUInt32}
    ensures t.id == UBigInt ==> p == PUInt64
    ensures t.id == TypeId.HugeInt ==> p == PInt128
    ensures t.id == TypeId.UHugeInt ==> p == PUInt128
  {
  }

  lemma HugeSlotReads(t: LogicalType, n: i128, tail: seq<byte>)
    requires t.id == TypeId.HugeInt
    ensures ReadFixedValue(t, PInt128, PutHalves(n, tail)) == Parse(Value.HugeInt(n), tail)
  {
    hide Wire.Range, Wire.ReadSigned, Wire.ReadUnsigned, FixedCodec.Number, PutHalves, ReadHalves;
  }

  lemma UHugeSlotReads(t: LogicalType, n: u128, tail: seq<byte>)
    ensures ReadFixedValue(t, PUInt128, PutHalves(n, tail)) == Parse(Value.UHugeInt(n), tail)
  {
    hide Wire.Range, Wire.ReadSigned, Wire.ReadUnsigned, FixedCodec.Number, PutHalves, ReadHalves;
  }

  /** What a slot holds, when it is neither an interval nor a null. */
  lemma SlotHolds(t: LogicalType, p: PhysicalType, v: Value, n: int, tail: seq<byte>)
    requires PhysicalTypeSize(p).Some? && p != PInterval && !v.Null? && Number(t, p, v) == Success(n)
    ensures PutFixedValue(t, p, v, tail) ==
      if p in {PInt128, PUInt128} then PutHalves(n, tail) else PutFixed(PhysicalTypeSize(p).value, n, tail)
  {
    hide FixedCodec.Number, PutHalves, Wire.PutFixed;
  }

  /** The number that comes back from the slot of a signed column is the one that was put in, or
      what its low bytes say; 128-bit columns lose nothing. */
  lemma SignedReadsBack(t: LogicalType, p: PhysicalType, v: Value, n: int, tail: seq<byte>)
    requires SignedColumn(t.id) && GetPhysicalType(t) == Success(p) && Whole(v) == Some(n) && -TWO_127 <= n < TWO_127
    ensures PhysicalTypeSize(p).Some? && Number(t, p, v).Success?
    ensures var size := PhysicalTypeSize(p).value;
      && (t.id != TypeId.HugeInt ==>
            && -TWO_63 <= WrapSigned(n, Range(size)) < TWO_63
            && ReadFixedValue(t, p, PutFixedValue(t, p, v, tail)) == Parse(Int(WrapSigned(n, Range(size))), tail))
      && (t.id == TypeId.HugeInt ==>
            ReadFixedValue(t, p, PutFixedValue(t, p, v, tail)) == Parse(Value.HugeInt(n), tail))
  {
    SignedTakes(t, p, v, n);
    ColumnSlots(t, p);
    hide *;
    SlotHolds(t, p, v, n, tail);
    if NarrowSigned(p) {
      SignedSlotReads(t, p, n, tail);
    } else {
      HugeSlotReads(t, n, tail);
    }
  }

  /** The same for unsigned columns. */
  lemma UnsignedReadsBack(t: LogicalType, p: PhysicalType, v: Value, n: u128, tail: seq<byte>)
    requires UnsignedColumn(t.id) && GetPhysicalType(t) == Success(p) && Whole(v) == Some(n)
    ensures PhysicalTypeSize(p).Some? && Number(t, p, v).Success?
    ensures var size := PhysicalTypeSize(p).value;
      && (t.id != TypeId.UHugeInt ==>
            && n % Range(size) < TWO_64
            && ReadFixedValue(t, p, PutFixedValue(t, p, v, tail)) == Parse(UInt(n % Range(size)), tail))
      && (t.id == TypeId.UHugeInt ==>
            ReadFixedValue(t, p, PutFixedValue(t, p, v, tail)) == Parse(Value.UHugeInt(n), tail))
  {
    UnsignedTakes(t, p, v, n);
    ColumnSlots(t, p);
    RangeValues();
    LowBits(n);
    hide ReadFixedValue, PutFixedValue, FixedCodec.Number, Wire.Range, Wire.PutFixed, PutHalves, GetPhysicalType;
    var m := Number(t, p, v).value;
    SlotHolds(t, p, v, m, tail);
    if NarrowUnsigned(p) {
      UnsignedSlotReads(t, p, m, tail);
    } else {
      UHugeSlotReads(t, n, tail);
    }
  }

  lemma LowBits(n: nat)
    ensures n % TWO_64 % TWO_8 == n % TWO_8 && n % TWO_64 % TWO_16 == n % TWO_16 && n % TWO_64 % TWO_32 == n % TWO_32
  {
    LowerBits(n, TWO_8, 0x100_0000_0000_0000);
    LowerBits(n, TWO_16, 0x1_0000_0000_0000);
    LowerBits(n, TWO_32, TWO_32);
  }

  lemma LowerBits(n: nat, low: nat, high: nat)
    requires low > 0 && low * high == TWO_64
    ensures n % TWO_64 % low == n % low
  {
    var q, r := n / TWO_64, n % TWO_64;
    assert n == q * (low * high) + r && r == r / low * low + r % low;
    assert q * (low * high) == q * high * low;
    Arithmetic.DivUnique(n, low, q * high + r / low, r % low);
  }

  // ---- text ----

  /** The text of a whole number stands for it. A minus sign is refused where there are no signs. */
  lemma TextOfInteger(t: LogicalType, p: PhysicalType, s: text, n: i128)
    requires GetPhysicalType(t) == Success(p) && s == DecimalText.IntegerText(n)
    ensures SignedColumn(t.id) ==> Number(t, p, Str(s)) == Success(n)
    ensures UnsignedColumn(t.id) ==> (Number(t, p, Str(s)).Success? <==> n >= 0)
    ensures UnsignedColumn(t.id) && n >= 0 ==>
      Number(t, p, Str(s)) == Success(if t.id in {UBigInt, TypeId.UHugeInt} then n else n % TWO_64)
  {
    SqlLexing.IntegerReadsBack(n);
    UnsignedText(n);
    hide DecimalText.ParseI128, DecimalText.ParseU128, DecimalText.IntegerText;
  }

  lemma UnsignedText(n: i128)
    ensures DecimalText.ParseU128(DecimalText.IntegerText(n)) == if n >= 0 then Success(n) else Failure(Protocol)
  {
    var digits := DecimalText.Digits(if n < 0 then -(n as int) else n);
    assert DecimalText.IsDigit(digits[0]);
    hide DecimalText.Digits, DecimalText.NatOf;
  }

  // ---- decimals ----

  /** A decimal column takes the digits of a decimal whatever its own width and scale, a whole number
      as it stands, without scaling it, and the printed text of a decimal of its scale. */
  lemma DecimalTakes(t: LogicalType, p: PhysicalType, v: Value)
    requires t.id == TypeId.Decimal && GetPhysicalType(t) == Success(p)
    ensures v.Decimal? ==> Number(t, p, v) == Success(v.unscaled)
    ensures Whole(v).Some? ==>
      Number(t, p, v) == if Whole(v).value < TWO_127 then Success(Whole(v).value) else Failure(Protocol)
    ensures !v.Decimal? && Whole(v).None? && !v.Str? ==> Number(t, p, v).Failure?
  {
  }

  lemma TextOfDecimal(t: LogicalType, p: PhysicalType, s: text, n: i128, width: u64, scale: u64)
    requires t.id == TypeId.Decimal && GetPhysicalType(t) == Success(p)
    requires GetDecimalWidthAndScale(t) == Success((width, scale)) && scale <= 38 && n != -TWO_127
    requires DecimalText.DecimalToString(n, scale) == Success(s)
    ensures Number(t, p, Str(s)) == Success(n)
  {
    hide DecimalText.DecimalToString, DecimalText.ParseLenient, DecimalText.ParseStrict;
    DecimalText.PrintParse(n, scale);
    DecimalTextIs(t, p, s);
  }

  lemma DecimalTextIs(t: LogicalType, p: PhysicalType, s: text)
    requires t.id == TypeId.Decimal && GetPhysicalType(t) == Success(p)
    ensures GetDecimalWidthAndScale(t).Success?
    ensures Number(t, p, Str(s)) == DecimalText.ParseLenient(s, GetDecimalWidthAndScale(t).value.1)
  {
    hide DecimalText.ParseLenient;
  }

  // ---- the other columns ----

  /** Truth columns refuse nothing, and only true is not zero; floating-point numbers and intervals
      have columns of their own, and UUID columns take text alone. */
  lemma OthersTake(t: LogicalType, p: PhysicalType, v: Value)
    requires GetPhysicalType(t) == Success(p)
    ensures t.id == TypeId.Boolean ==> Number(t, p, v) == Success(if v == Bool(true) then 1 else 0)
    ensures t.id == TypeId.Float ==> (Number(t, p, v).Success? <==> v.Float?)
    ensures t.id == TypeId.Double ==> (Number(t, p, v).Success? <==> v.Double?)
    ensures t.id == TypeId.Interval ==> (Number(t, p, v).Success? <==> v.Interval?)
    ensures t.id == TypeId.Uuid ==> (Number(t, p, v).Success? ==> v.Str?)
  {
    hide DecimalText.ParseI128, DecimalText.ParseU128, DecimalText.ParseLenient, DecimalPhysicalType, EnumPhysicalType;
  }

  /** Times and timestamps count ticks of whatever unit they are in; dates take whole numbers as well. */
  lemma TicksTake(t: LogicalType, p: PhysicalType, v: Value)
    requires GetPhysicalType(t) == Success(p) && t.id != TypeId.Decimal
    ensures p == PInt64 && (v.Time? || v.Timestamp?) ==> Number(t, p, v) == Success(v.ticks)
    ensures p == PInt64 && v.TimeTz? ==> Number(t, p, v) == Success(v.bits)
    ensures t.id == TypeId.Date && v.Date? ==> Number(t, p, v) == Success(v.days)
    ensures t.id == TypeId.Date && Whole(v).Some? && Whole(v).value < TWO_127 ==>
      Number(t, p, v) == Success(Whole(v).value)
  {
    hide DecimalText.ParseI128, DecimalText.ParseU128, DecimalText.ParseLenient, DecimalPhysicalType, EnumPhysicalType;
  }

  /** Enum columns take an index as it is, in the dictionary or not. */
  lemma IndexesTake(t: LogicalType, p: PhysicalType, v: Value)
    requires GetPhysicalType(t) == Success(p) && t.id == Enum
    ensures v.Int? || v.UInt? ==>
      Number(t, p, v) == if Whole(v).value >= 0 then Success(Whole(v).value) else Failure(Protocol)
    ensures !(v.Int? || v.UInt? || v.Str?) ==> Number(t, p, v).Failure?
  {
    hide DecimalText.ParseI128, DecimalText.ParseU128, DecimalText.ParseLenient;
  }
}
