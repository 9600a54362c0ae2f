/** Compressed vectors: constants, dictionaries and sequences, nested in each other,
    mean the same values as a flat vector. */
module PackedVectors {
  import opened Prelude
  import opened Arithmetic
  import opened Wire
  import opened Leb128
  import opened LogicalTypes
  import opened Values
  import opened FixedCodec
  import DecimalText = Decimal
  import opened Vectors
  import opened VectorRoundTrips

  /** How a server may lay out the values of a column. */
  datatype Packed =
    | FlatValues(vs: seq<Value>)
    | ConstantOf(count: u64, inner: Packed)
    | DictionaryOf(selection: seq<u32>, inner: Packed)
    | SequenceOf(count: u64, start: i128, increment: i128)

  function Count(w: Packed): nat {
    match w
    case FlatValues(vs) => |vs|
    case ConstantOf(n, _) => n
    case DictionaryOf(selection, _) => |selection|
    case SequenceOf(n, _, _) => n
  }

  function Kind(w: Packed): VectorType {
    match w
    case FlatValues(_) => Flat
    case ConstantOf(_, _) => Constant
    case DictionaryOf(_, _) => Dictionary
    case SequenceOf(_, _, _) => Sequence
  }

  /** The layouts a reader has to cope with: a constant holds one value unless it
      stands for no rows, selections are in range, and a sequence stays in its type and in numbers that can
      be read. */
  predicate Legal(t: LogicalType, w: Packed)
    decreases w
  {
    match w
    case FlatValues(vs) => AllTyped(t, vs) && CanEncode(t, vs) && Readable(t, vs)
    case ConstantOf(n, inner) => Legal(t, inner) && Count(inner) == if n > 0 then 1 else 0
    case DictionaryOf(selection, inner) =>
      && Legal(t, inner) && |selection| < MAX_ROWS && Count(inner) < TWO_64
      && forall i | 0 <= i < |selection| :: selection[i] < Count(inner)
    case SequenceOf(n, start, increment) =>
      start >= LEAST_SLEB && increment >= LEAST_SLEB && SequenceFits(t, start, increment, n)
  }

  /** The column has room for the elements of the sequence. */
  predicate SequenceFits(t: LogicalType, start: int, increment: int, n: nat) {
    forall i | 0 <= i < n :: InTicks(t, Term(start, increment, i))
  }

  /** Element `i` of a sequence. */
  function Term(start: int, increment: int, i: int): int {
    start + Product(increment, i)
  }

  /** The types whose flat values are what a sequence element decodes to. */
  predicate IsSequential(id: TypeId) {
    match id
    case SqlNull | TinyInt | SmallInt | Integer | BigInt | Decimal => true
    case Date | Time | TimeNs | TimeTz => true
    case TimestampSec | TimestampMs | Timestamp | TimestampNs | TimestampTz => true
    case _ => false
  }

  /** The numbers that the slots of the column hold and that 64 bits carry there. */
  predicate InTicks(t: LogicalType, n: int) {
    IsSequential(t.id) && match GetPhysicalType(t) {
      case Success(PInt8) => -0x80 <= n < 0x80
      case Success(PInt16) => -0x8000 <= n < 0x8000
      case Success(PInt32) => -TWO_31 <= n < TWO_31
      case Success(PInt64) => -TWO_63 <= n < TWO_63
      case Success(PInt128) => -TWO_63 <= n < TWO_63
      case _ => false
    }
  }

  /** The value a sequence has in a row: its number in the type of the column. */
  function Ticks(t: LogicalType, n: int): (v: Value)
    requires InTicks(t, n)
  {
    match t.id
    case SqlNull | TinyInt | SmallInt | Integer | BigInt => Int(n)
    case Decimal => Value.Decimal(n, GetDecimalWidthAndScale(t).value.0, GetDecimalWidthAndScale(t).value.1)
    case Date => Value.Date(n)
    case Time => Value.Time(TimeUnit.Micros, n)
    case TimeNs => Value.Time(TimeUnit.Nanos, n)
    case TimeTz => Value.TimeTz(n)
    case TimestampSec => Value.Timestamp(Seconds, n, false)
    case TimestampMs => Value.Timestamp(Millis, n, false)
    case Timestamp => Value.Timestamp(TimestampUnit.Micros, n, false)
    case TimestampNs => Value.Timestamp(TimestampUnit.Nanos, n, false)
    case TimestampTz => Value.Timestamp(TimestampUnit.Micros, n, true)
    case _ => Null
  }

  /** Rows `i` up to `n` of a sequence. */
  function TickRows(t: LogicalType, start: i128, increment: i128, i: nat, n: nat): (vs: seq<Value>)
    requires i <= n && SequenceFits(t, start, increment, n)
    ensures |vs| == n - i
  {
    seq(n - i, k requires 0 <= k < n - i => Ticks(t, Term(start, increment, i + k)))
  }

  function Picked(dictionary: seq<Value>, selection: seq<u32>): (vs: seq<Value>)
    requires forall i | 0 <= i < |selection| :: selection[i] < |dictionary|
    ensures |vs| == |selection|
  {
    seq(|selection|, i requires 0 <= i < |selection| => dictionary[selection[i]])
  }

  /** The values a layout stands for. */
  function Expand(t: LogicalType, w: Packed): (vs: seq<Value>)
    requires Legal(t, w)
    ensures |vs| == Count(w)
    decreases w
  {
    match w
    case FlatValues(vs) => vs
    case ConstantOf(n, inner) =>
      var one := Expand(t, inner);
      if n == 0 then [] else Repeated(one[0], n)
    case DictionaryOf(selection, inner) =>
      var dictionary := Expand(t, inner);
      Picked(dictionary, selection)
    case SequenceOf(n, start, increment) =>
      TickRows(t, start, increment, 0, n)
  }

  /** The body of a vector in this layout. */
  function PutPacked(t: LogicalType, w: Packed, tail: seq<byte>): seq<byte>
    requires Legal(t, w)
    decreases w
  {
    match w
    case FlatValues(vs) => PutFlat(t, vs, tail)
    case ConstantOf(_, inner) => PutFieldId(90, PutUleb(2, PutPacked(t, inner, tail)))
    case DictionaryOf(selection, inner) =>
      PutFieldId(90, PutUleb(3, PutFieldId(91, PutBlob(SelectionBytes(selection),
        PutFieldId(92, PutUleb(Count(inner), PutPacked(t, inner, tail)))))))
    case SequenceOf(_, start, increment) =>
      PutFieldId(90, PutUleb(4, PutFieldId(91, PutSleb(start, PutFieldId(92, PutSleb(increment, tail))))))
  }

  function SelectionBytes(selection: seq<u32>): (data: seq<byte>)
    ensures |data| == 4 * |selection|
  {
    if selection == [] then [] else Le(4, selection[0]) + SelectionBytes(selection[1..])
  }

  // ---- the layouts read as their values ----

  lemma {:induction false} SelectionRoundTrip(selection: seq<u32>)
    ensures Indexes(SelectionBytes(selection)) == selection
  {
    hide Wire.Le, Wire.FromLe, Wire.Range;
    if selection != [] {
      var data := SelectionBytes(selection);
      RangeValues();
      LeRoundTrip(4, selection[0]);
      assert data == Le(4, selection[0]) + SelectionBytes(selection[1..]);
      assert data[..4] == Le(4, selection[0]) && data[4..] == SelectionBytes(selection[1..]);
      assert Indexes(data) == [FromLe(data[..4])] + Indexes(data[4..]);
      SelectionRoundTrip(selection[1..]);
      assert [selection[0]] + selection[1..] == selection;
    }
  }

  lemma {:induction false} SelectInRange(dictionary: seq<Value>, selection: seq<u32>)
    requires forall i | 0 <= i < |selection| :: selection[i] < |dictionary|
    ensures Select(dictionary, selection) == Success(Picked(dictionary, selection))
  {
    if selection != [] {
      SelectInRange(dictionary, selection[1..]);
      assert Picked(dictionary, selection) == [dictionary[selection[0]]] + Picked(dictionary, selection[1..]);
    } else {
      assert Picked(dictionary, selection) == [];
    }
  }

  /** Numbers of 64 bits, counted with 64 bits, never overflow 128. */
  lemma SequenceNeverOverflows(start: i64, increment: i64, i: u64)
    ensures FitsI128(Product(increment, i)) && FitsI128(Term(start, increment, i))
  {
    Ordered(-TWO_63, increment, i);
    Ordered(increment, TWO_63 - 1, i);
  }

  lemma TicksInSequence(t: LogicalType, n: int)
    requires InTicks(t, n)
    ensures SequenceValue(t, n) == Success(Ticks(t, n))
    ensures WellTyped(t, Ticks(t, n))
  {
  }

  /** The value is one that a column of type `t` holds, and it stands for `n` there. */
  predicate StandsFor(t: LogicalType, v: Value, n: int) {
    !v.Null? && WellTyped(t, v) && Number(t, GetPhysicalType(t).value, v) == Success(n)
  }

  /** An element decodes to a value of the column that stands for its number. */
  predicate Faithful(t: LogicalType, n: i128) {
    SequenceValue(t, n).Success? && StandsFor(t, SequenceValue(t, n).value, n)
  }

  /** For every type, a sequence element is faithful exactly when the type is one of those
      with a sequence form and the number fits. */
  lemma SequenceExactlyInTicks(t: LogicalType, n: i128)
    ensures Faithful(t, n) <==> InTicks(t, n)
  {
    hide FixedCodec.IndexOf, DecimalText.ParseI128, DecimalText.ParseU128, DecimalText.ParseLenient;
    if IsSequential(t.id) {
      SequentialExactly(t, n);
    } else {
      OthersDisagree(t, n);
    }
  }

  lemma SequentialExactly(t: LogicalType, n: i128)
    requires IsSequential(t.id)
    ensures Faithful(t, n) <==> InTicks(t, n)
  {
  }

  /** The element is an integer, which a column of any other type does not hold. */
  lemma OthersDisagree(t: LogicalType, n: i128)
    requires !IsSequential(t.id)
    ensures !Faithful(t, n)
  {
  }

  /** Neither does a sequence whose elements fit, however large its start and increment. */
  lemma FittingNeverOverflows(t: LogicalType, start: i128, increment: i128, i: nat, n: nat)
    requires i < n && SequenceFits(t, start, increment, n)
    ensures FitsI128(Product(increment, i)) && FitsI128(Term(start, increment, i))
  {
    hide Product;
    assert InTicks(t, Term(start, increment, 0)) && InTicks(t, Term(start, increment, i));
    assert Term(start, increment, 0) == start by {
      ProductZero(increment);
    }
  }

  lemma ProductZero(a: int)
    ensures Product(a, 0) == 0
  {
  }

  lemma {:induction false} SequenceRows(t: LogicalType, start: i128, increment: i128, i: nat, n: u64)
    requires i <= n && SequenceFits(t, start, increment, n)
    ensures SequenceValues(t, start, increment, i, n) == Success(TickRows(t, start, increment, i, n))
    decreases n - i
  {
    hide Ticks, SequenceValue, WellTyped, IsSequential, InTicks;
    if i < n {
      FittingNeverOverflows(t, start, increment, i, n);
      hide Product;
      TicksInSequence(t, Term(start, increment, i));
      SequenceRows(t, start, increment, i + 1, n);
      assert TickRows(t, start, increment, i, n) ==
        [Ticks(t, Term(start, increment, i))] + TickRows(t, start, increment, i + 1, n);
    } else {
      assert TickRows(t, start, increment, i, n) == [];
    }
  }

  /** Row `i` of a decoded sequence is the value of element `i`, whatever the type. */
  lemma {:induction false} SequenceRowAt(t: LogicalType, start: i128, increment: i128, i: nat, n: u64, k: nat)
    requires i <= k < n && SequenceValues(t, start, increment, i, n).Success?
    ensures FitsI128(Term(start, increment, k))
    ensures SequenceValue(t, Term(start, increment, k)) ==
      Success(SequenceValues(t, start, increment, i, n).value[k - i])
    decreases n - i
  {
    hide Product, SequenceValue;
    if i < k {
      SequenceRowAt(t, start, increment, i + 1, n, k);
    }
  }

  /** A sequence fits its column exactly when it decodes to values of the column that
      stand, row by row, for its elements. */
  lemma SequenceExactlyFits(t: LogicalType, count: u64, start: i128, increment: i128)
    ensures SequenceFits(t, start, increment, count) <==>
      var r := SequenceValues(t, start, increment, 0, count);
      r.Success? && forall k | 0 <= k < count :: StandsFor(t, r.value[k], Term(start, increment, k))
  {
    hide Term, InTicks, StandsFor, SequenceValue;
    var r := SequenceValues(t, start, increment, 0, count);
    if SequenceFits(t, start, increment, count) {
      SequenceRows(t, start, increment, 0, count);
    }
    if r.Success? {
      forall k | 0 <= k < count
        ensures StandsFor(t, r.value[k], Term(start, increment, k)) <==> InTicks(t, Term(start, increment, k))
      {
        SequenceRowAt(t, start, increment, 0, count, k);
        SequenceExactlyInTicks(t, Term(start, increment, k));
      }
    }
  }

  /** A layout decodes to the values it stands for. */
  lemma {:induction false} PackedDecodes(t: LogicalType, w: Packed, suffix: seq<byte>)
    requires Legal(t, w) && Count(w) < TWO_64
    ensures ReadBody(t, Count(w), PutPacked(t, w, suffix)) ==
      Parse(DecodedVector(t, Kind(w), Expand(t, w)), suffix)
    decreases w
  {
    hide Wire.PutFieldId, Wire.PutUleb, Wire.PutBlob, Wire.PutSleb, Wire.Head, Wire.ReadTag, Wire.ReadUleb64,
      Wire.ReadBlob, Wire.ReadSleb;
    hide PutFlat, ReadFlat, AllTyped, CanEncode, Readable, SelectionBytes, Indexes, Select, SequenceValues, Term,
      Ticks;
    match w
    case FlatValues(vs) =>
      FlatRoundTrip(t, vs, suffix);
    case ConstantOf(n, inner) =>
      PackedDecodes(t, inner, suffix);
    case DictionaryOf(selection, inner) =>
      PackedDecodes(t, inner, suffix);
      SelectionRoundTrip(selection);
      SelectInRange(Expand(t, inner), selection);
    case SequenceOf(n, start, increment) =>
      SequenceRows(t, start, increment, 0, n);
  }

  /** What a layout stands for is well typed. */
  lemma {:induction false} ExpandTyped(t: LogicalType, w: Packed)
    requires Legal(t, w)
    ensures AllTyped(t, Expand(t, w))
    decreases w
  {
    match w
    case FlatValues(_) =>
    case ConstantOf(_, inner) => ExpandTyped(t, inner);
    case DictionaryOf(_, inner) => ExpandTyped(t, inner);
    case SequenceOf(n, start, increment) =>
      forall i | 0 <= i < n
        ensures WellTyped(t, Expand(t, w)[i])
      {
        TicksInSequence(t, Term(start, increment, i));
      }
  }

  /** Compressed or flat, the reader finds the same values and stops in the same place. */
  lemma PackedRefinesFlat(t: LogicalType, w: Packed, suffix: seq<byte>)
    requires Legal(t, w) && CanEncode(t, Expand(t, w)) && Readable(t, Expand(t, w))
    ensures var packed := ReadVector(t, Count(w), PutPacked(t, w, PutEnd(suffix)));
      var flat := ReadVector(t, Count(w), PutVector(t, Expand(t, w), suffix));
      packed.Parse? && flat.Parse? && packed.value.values == flat.value.values == Expand(t, w)
      && packed.rest == flat.rest == suffix
  {
    hide PutPacked, PutVector, ReadBody, AllTyped, CanEncode, Readable;
    PackedDecodes(t, w, PutEnd(suffix));
    ExpandTyped(t, w);
    VectorRoundTrip(t, Expand(t, w), suffix);
  }
}
