/** Column vectors on the wire: row-wise values become a validity mask and data laid
    out by physical type, recursively through lists, arrays and structs. */
module Vectors {
  import opened Prelude
  import opened Arithmetic
  import opened Wire
  import opened LogicalTypes
  import opened Values
  import opened FixedCodec
  import opened Validity
  import DecimalText = Decimal

  datatype VectorType = Flat | Fsst | Constant | Dictionary | Sequence

  datatype DecodedVector = DecodedVector(logicalType: LogicalType, vectorType: VectorType, values: seq<Value>)

  /** Values take sixteen bytes of memory at least, and an allocation has fewer than
      2 to the power 63 bytes: longer columns do not exist. */
  const MAX_ROWS := 0x0800_0000_0000_0000

  // ---- what a nested column is made of ----

  /** The values of one struct field; whatever has no such field counts as null. */
  function FieldOf(v: Value, name: text): Value {
    if v.Struct? then Get(v.row, name).GetOr(Null) else Null
  }

  function Column(vs: seq<Value>, name: text): (column: seq<Value>)
    ensures |column| == |vs|
  {
    seq(|vs|, i requires 0 <= i < |vs| => FieldOf(vs[i], name))
  }

  /** The elements of one list; a null takes `pad` elements. */
  function Items(v: Value, pad: nat): seq<Value> {
    if v.List? then v.items else seq(pad, _ => Null)
  }

  function Flatten(vs: seq<Value>, pad: nat): seq<Value> {
    if vs == [] then [] else Items(vs[0], pad) + Flatten(vs[1..], pad)
  }

  datatype ListEntry = ListEntry(offset: u64, length: u64)

  /** Where each list stands in the flattened elements, the first at `start`. */
  function Entries(vs: seq<Value>, start: nat): (entries: seq<ListEntry>)
    requires start + |Flatten(vs, 0)| < TWO_64
    ensures |entries| == |vs|
  {
    if vs == [] then []
    else
      var n := |Items(vs[0], 0)|;
      [if vs[0].List? then ListEntry(start, n) else ListEntry(0, 0)] + Entries(vs[1..], start + n)
  }

  predicate ListOrNull(v: Value) {
    v.Null? || v.List?
  }

  predicate ArrayOrNull(v: Value, size: nat) {
    v.Null? || (v.List? && |v.items| == size)
  }

  /** What a value is written as in a column of text or blobs. */
  function StringLike(v: Value): Option<vec<byte>> {
    match v
    case Null => Some([])
    case Bytes(raw) => Some(raw)
    case Str(s) => Some(s)
    case _ => LossyText(v)
  }

  /** The text that other values are turned into; nested values have none. A decimal may
      abort, and the texts of floating-point numbers are not modelled. */
  function LossyText(v: Value): Option<vec<byte>> {
    match v
    case Bool(b) => Some(if b then Ascii("true") else Ascii("false"))
    case Int(i) => InMemoryText(DecimalText.IntegerText(i))
    case UInt(u) => InMemoryText(DecimalText.IntegerText(u))
    case HugeInt(h) => InMemoryText(DecimalText.IntegerText(h))
    case UHugeInt(u) => InMemoryText(DecimalText.IntegerText(u))
    case Decimal(unscaled, _, scale) =>
      (match DecimalText.DecimalToString(unscaled, scale)
       case Success(s) => InMemoryText(s)
       case Failure(_) => None)
    case Date(days) => InMemoryText(DecimalText.IntegerText(days))
    case Time(_, ticks) => InMemoryText(DecimalText.IntegerText(ticks))
    case TimeTz(bits) => InMemoryText(DecimalText.IntegerText(bits))
    case Timestamp(_, ticks, _) => InMemoryText(DecimalText.IntegerText(ticks))
    case Interval(months, days, micros) =>
      InMemoryText(DecimalText.IntegerText(months) + Ascii(" ") + DecimalText.IntegerText(days) + Ascii(" ")
                   + DecimalText.IntegerText(micros))
    case List(_) => Some([])
    case Struct(_) => Some([])
    case _ => None
  }

  /** Text longer than memory does not exist. */
  function InMemoryText(s: seq<byte>): Option<vec<byte>> {
    if |s| < TWO_64 then Some(s) else None
  }

  // ---- writing ----

  /** The columns the writer accepts. */
  predicate CanEncode(t: LogicalType, vs: seq<Value>): (can: bool)
    ensures can ==> |vs| < MAX_ROWS
    decreases t
  {
    && |vs| < MAX_ROWS
    && GetPhysicalType(t).Success?
    && var p := GetPhysicalType(t).value;
      if PhysicalTypeSize(p).Some? then SlotsEncode(t, p, vs)
      else match p
        case PVarchar => AllStringLike(vs)
        case PStruct =>
          && GetStructChildren(t).Success?
          && var children := GetStructChildren(t).value;
            forall i | 0 <= i < |children| :: CanEncode(children[i].logicalType, Column(vs, children[i].name))
        case PList =>
          && (forall i | 0 <= i < |vs| :: ListOrNull(vs[i]))
          && GetChildType(t).Success?
          && CanEncode(GetChildType(t).value, Flatten(vs, 0))
        case PArray =>
          && GetChildType(t).Success?
          && GetArraySize(t).Success?
          && (forall i | 0 <= i < |vs| :: ArrayOrNull(vs[i], GetArraySize(t).value))
          && CanEncode(GetChildType(t).value, Flatten(vs, GetArraySize(t).value))
        case _ => false
  }

  predicate SlotsEncode(t: LogicalType, p: PhysicalType, vs: seq<Value>) {
    forall i | 0 <= i < |vs| :: SlotEncodes(t, p, vs[i])
  }

  predicate AllStringLike(vs: seq<Value>) {
    forall i | 0 <= i < |vs| :: StringLike(vs[i]).Some?
  }

  predicate ColumnsEncode(children: seq<ChildType>, vs: seq<Value>) {
    forall i | 0 <= i < |children| :: CanEncode(children[i].logicalType, Column(vs, children[i].name))
  }

  predicate SlotEncodes(t: LogicalType, p: PhysicalType, v: Value) {
    v.Null? || Number(t, p, v).Success?
  }

  function PutVector(t: LogicalType, vs: seq<Value>, tail: seq<byte>): (r: seq<byte>)
    requires CanEncode(t, vs)
    decreases t, 2
  {
    PutFlat(t, vs, PutEnd(tail))
  }

  function PutFlat(t: LogicalType, vs: seq<Value>, tail: seq<byte>): (r: seq<byte>)
    requires CanEncode(t, vs)
    ensures Head(r) in {99, 100}
    decreases t, 1
  {
    PutGeometryTag(t, PutValidity(vs, PutData(t, vs, tail)))
  }

  function PutGeometryTag(t: LogicalType, tail: seq<byte>): (r: seq<byte>)
    requires Head(tail) == 100
    ensures Head(r) in {99, 100}
    ensures ReadGeometryTag(t, r) == Parse((), tail)
  {
    if t.id == Geometry then PutFieldId(99, PutUleb(1, tail)) else tail
  }

  function ValidRows(vs: seq<Value>): (valid: seq<bool>)
    ensures |valid| == |vs|
  {
    seq(|vs|, i requires 0 <= i < |vs| => !vs[i].Null?)
  }

  /** A mask is written only if there is something to mask. */
  function RowMask(vs: seq<Value>): (validity: Option<seq<bool>>)
    ensures validity.Some? ==> |validity.value| == |vs|
    ensures forall i | 0 <= i < |vs| :: IsValid(validity, i) == !vs[i].Null?
  {
    if Null in vs then Some(ValidRows(vs)) else None
  }

  function PutValidity(vs: seq<Value>, tail: seq<byte>): (r: seq<byte>)
    requires |vs| < MAX_ROWS
    ensures Head(r) == 100
    ensures ReadValidity(|vs|, r) == Parse(RowMask(vs), tail)
  {
    if Null in vs then
      MaskRoundTrip(ValidRows(vs));
      PutFieldId(100, PutBool(true, PutFieldId(101, PutBlob(Mask(ValidRows(vs)), tail))))
    else PutFieldId(100, PutBool(false, tail))
  }

  function PutData(t: LogicalType, vs: seq<Value>, tail: seq<byte>): (r: seq<byte>)
    requires CanEncode(t, vs)
    decreases t, 0
  {
    var p := GetPhysicalType(t).value;
    if PhysicalTypeSize(p).Some? then PutFieldId(102, PutBlob(Slots(t, p, vs), tail))
    else
      match p
      case PVarchar => PutFieldId(102, PutUleb(|vs|, PutStringLikes(vs, tail)))
      case PStruct =>
        var children := GetStructChildren(t).value;
        PutFieldId(103, PutUleb(|children|, PutColumns(children, vs, t, tail)))
      case PList =>
        var items := Flatten(vs, 0);
        PutFieldId(104, PutUleb(|items|, PutFieldId(105, PutEntries(Entries(vs, 0),
          PutFieldId(106, PutVector(GetChildType(t).value, items, tail))))))
      case PArray =>
        var size := GetArraySize(t).value;
        PutFieldId(103, PutUleb(size, PutFieldId(104, PutVector(GetChildType(t).value, Flatten(vs, size), tail))))
  }

  /** The slots of a fixed-size column. */
  function Slots(t: LogicalType, p: PhysicalType, vs: seq<Value>): (bytes: seq<byte>)
    requires PhysicalTypeSize(p).Some?
    requires SlotsEncode(t, p, vs)
    ensures |bytes| == SlotsSize(p, |vs|)
  {
    if vs == [] then []
    else
      assert SlotEncodes(t, p, vs[0]);
      PutFixedValue(t, p, vs[0], Slots(t, p, vs[1..]))
  }

  function SlotsSize(p: PhysicalType, count: nat): (n: nat)
    requires PhysicalTypeSize(p).Some?
    ensures n <= 16 * count
  {
    match PhysicalTypeSize(p).value
    case 1 => count
    case 2 => 2 * count
    case 4 => 4 * count
    case 8 => 8 * count
    case _ => 16 * count
  }

  function PutStringLikes(vs: seq<Value>, tail: seq<byte>): (r: seq<byte>)
    requires AllStringLike(vs)
  {
    if vs == [] then tail else PutBlob(StringLike(vs[0]).value, PutStringLikes(vs[1..], tail))
  }

  /** The columns of a struct, one after another; `t` is the struct itself. */
  function PutColumns(children: seq<ChildType>, vs: seq<Value>, ghost t: LogicalType, tail: seq<byte>): (r: seq<byte>)
    requires Inside(children, t) && ColumnsEncode(children, vs)
    decreases t, 0, |children|
  {
    if children == [] then tail
    else
      PutVector(children[0].logicalType, Column(vs, children[0].name), PutColumns(children[1..], vs, t, tail))
  }

  function PutEntry(e: ListEntry, tail: seq<byte>): (r: seq<byte>)
    ensures ReadEntry(r) == Parse(e, tail)
  {
    PutFieldId(100, PutUleb(e.offset, PutFieldId(101, PutUleb(e.length, PutEnd(tail)))))
  }

  function PutEntryList(es: seq<ListEntry>, tail: seq<byte>): (r: seq<byte>)
    ensures ReadEntryList(|es|, r) == Parse(es, tail)
  {
    if es == [] then tail
    else
      assert [es[0]] + es[1..] == es;
      PutEntry(es[0], PutEntryList(es[1..], tail))
  }

  function PutEntries(es: vec<ListEntry>, tail: seq<byte>): (r: seq<byte>)
    ensures ReadEntries(|es|, r) == Parse(es, tail)
  {
    PutUleb(|es|, PutEntryList(es, tail))
  }

  // ---- reading ----

  function ReadVector(t: LogicalType, count: u64, bs: seq<byte>): (r: Parsed<DecodedVector>)
    ensures Shrinks(r, bs)
    decreases |bs|, 2
  {
    var (vector, bs) :- ReadBody(t, count, bs);
    var (_, bs) :- ReadEnd(bs);
    Parse(vector, bs)
  }

  function ReadBody(t: LogicalType, count: u64, bs: seq<byte>): (r: Parsed<DecodedVector>)
    ensures Shrinks(r, bs)
    decreases |bs|, 1
  {
    var (code, bs) :- ReadUlebOrZero(90, bs);
    match code
    case 0 => ReadFlat(t, count, bs)
    case 1 => NoParse(Unsupported)
    case 2 =>
      var (one, bs) :- ReadBody(t, if count > 0 then 1 else 0, bs);
      var v := if one.values == [] then Null else one.values[0];
      Parse(DecodedVector(t, Constant, Repeated(v, count)), bs)
    case 3 =>
      var (_, bs) :- ReadTag(91, bs);
      var (selection, bs) :- ReadSelection(count, bs);
      var (_, bs) :- ReadTag(92, bs);
      var (n, bs) :- ReadUleb64(bs);
      var (dictionary, bs) :- ReadBody(t, n, bs);
      (match Select(dictionary.values, selection)
       case Success(vs) => Parse(DecodedVector(t, Dictionary, vs), bs)
       case Failure(e) => NoParse(e))
    case 4 =>
      var (_, bs) :- ReadTag(91, bs);
      var (start, bs) :- ReadSleb(bs);
      var (_, bs) :- ReadTag(92, bs);
      var (increment, bs) :- ReadSleb(bs);
      (match SequenceValues(t, start, increment, 0, count)
       case Success(vs) => Parse(DecodedVector(t, Sequence, vs), bs)
       case Failure(e) => NoParse(e))
    case _ => NoParse(Protocol)
  }

  function ReadFlat(t: LogicalType, count: u64, bs: seq<byte>): (r: Parsed<DecodedVector>)
    ensures Shrinks(r, bs)
    decreases |bs|, 0
  {
    var (_, bs) :- ReadGeometryTag(t, bs);
    var (validity, bs) :- ReadValidity(count, bs);
    var (vs, bs) :- ReadData(t, count, validity, bs);
    Parse(DecodedVector(t, Flat, vs), bs)
  }

  function ReadGeometryTag(t: LogicalType, bs: seq<byte>): (r: Parsed<()>)
    ensures r.Parse? ==> |r.rest| <= |bs|
  {
    if t.id != Geometry then Parse((), bs)
    else if |bs| < 2 then NoParse(Protocol)
    else if Head(bs) != 99 then Parse((), bs)
    else
      var bs := bs[2..];
      var (_, bs) :- ReadUleb64(bs);
      Parse((), bs)
  }

  function ReadValidity(count: u64, bs: seq<byte>): (r: Parsed<Option<seq<bool>>>)
    ensures Shrinks(r, bs)
    ensures r.Parse? && r.value.Some? ==> |r.value.value| == count
  {
    var (_, bs) :- ReadTag(100, bs);
    var (present, bs) :- ReadBool(bs);
    if !present then Parse(None, bs)
    else
      var (_, bs) :- ReadTag(101, bs);
      var (mask, bs) :- ReadBlob(bs);
      if |mask| != MaskSize(count) then NoParse(Protocol) else Parse(Some(Unmask(mask, count)), bs)
  }

  /** Rows without a mask are all valid. */
  predicate IsValid(validity: Option<seq<bool>>, i: nat)
    requires validity.Some? ==> i < |validity.value|
  {
    validity.Some? ==> validity.value[i]
  }

  function ReadData(t: LogicalType, count: u64, validity: Option<seq<bool>>, bs: seq<byte>): (r: Parsed<seq<Value>>)
    requires validity.Some? ==> |validity.value| == count
    ensures Shrinks(r, bs)
    decreases |bs|, 1
  {
    match GetPhysicalType(t)
    case Failure(e) => NoParse(e)
    case Success(p) =>
      if PhysicalTypeSize(p).Some? then ReadFixedColumn(t, p, count, validity, bs)
      else
        match p
        case PVarchar => ReadStringColumn(t, validity, bs)
        case PStruct => ReadStructColumn(t, count, validity, bs)
        case PList => ReadListColumn(t, count, validity, bs)
        case PArray => ReadArrayColumn(t, count, validity, bs)
        case _ => NoParse(Unsupported)
  }

  function ReadFixedColumn(t: LogicalType, p: PhysicalType, count: u64, validity: Option<seq<bool>>, bs: seq<byte>):
    (r: Parsed<seq<Value>>)
    requires PhysicalTypeSize(p).Some?
    requires validity.Some? ==> |validity.value| == count
    ensures Shrinks(r, bs)
    ensures r.Parse? ==> |r.value| == count
  {
    if SlotsSize(p, count) >= TWO_64 then NoParse(Panic)
    else
      var (_, bs) :- ReadTag(102, bs);
      var (data, bs) :- ReadBlob(bs);
      if |data| != SlotsSize(p, count) then NoParse(Protocol)
      else
        match FixedValues(t, p, data, count, validity)
        case Success(vs) => Parse(vs, bs)
        case Failure(e) => NoParse(e)
  }

  /** The values of `count` slots that make up `data`. */
  function FixedValues(t: LogicalType, p: PhysicalType, data: seq<byte>, count: nat, validity: Option<seq<bool>>):
    (r: Result<seq<Value>>)
    requires PhysicalTypeSize(p).Some? && (validity.Some? ==> |validity.value| == count)
    ensures r.Success? ==> |r.value| == count
  {
    match ReadSlots(t, p, validity, 0, count, data)
    case Parse(vs, more) => if more == [] then Success(vs) else Failure(Protocol)
    case NoParse(e) => Failure(e)
  }

  /** Rows `i` up to `i + n`; even the slot of a null has to make sense. */
  function ReadSlots(t: LogicalType, p: PhysicalType, validity: Option<seq<bool>>, i: nat, n: nat, bs: seq<byte>):
    (r: Parsed<seq<Value>>)
    requires PhysicalTypeSize(p).Some? && (validity.Some? ==> i + n <= |validity.value|)
    ensures r.Parse? ==> |r.value| == n
    decreases n
  {
    if n == 0 then Parse([], bs)
    else
      var (v, bs) :- ReadFixedValue(t, p, bs);
      var (vs, bs) :- ReadSlots(t, p, validity, i + 1, n - 1, bs);
      Parse([Shown(validity, i, v)] + vs, bs)
  }

  function Shown(validity: Option<seq<bool>>, i: nat, v: Value): Value
    requires validity.Some? ==> i < |validity.value|
  {
    if IsValid(validity, i) then v else Null
  }

  /** The number of strings is the one on the wire, whatever the row count. */
  function ReadStringColumn(t: LogicalType, validity: Option<seq<bool>>, bs: seq<byte>): (r: Parsed<seq<Value>>)
    ensures Shrinks(r, bs)
  {
    var (_, bs) :- ReadTag(102, bs);
    var (n, bs) :- ReadUleb64(bs);
    var (raws, bs) :- ReadBlobs(n, bs);
    match StringValues(t, validity, 0, raws)
    case Success(vs) => Parse(vs, bs)
    case Failure(e) => NoParse(e)
  }

  function ReadBlobs(n: nat, bs: seq<byte>): (r: Parsed<seq<vec<byte>>>)
    ensures r.Parse? ==> |r.rest| <= |bs| && |r.value| == n
  {
    if n == 0 then Parse([], bs)
    else
      var (b, bs) :- ReadBlob(bs);
      var (more, bs) :- ReadBlobs(n - 1, bs);
      Parse([b] + more, bs)
  }

  predicate IsBinary(id: TypeId) {
    id in {TypeId.Blob, Geometry, Bit}
  }

  function DecodeStringLike(t: LogicalType, raw: vec<byte>): Result<Value> {
    if IsBinary(t.id) then Success(Bytes(raw))
    else if IsUtf8(raw) then Success(Str(raw))
    else Failure(Error.Utf8)
  }

  /** The strings of rows `i`, `i + 1`, ...; a row the mask does not cover is out of range. */
  function StringValues(t: LogicalType, validity: Option<seq<bool>>, i: nat, raws: seq<vec<byte>>):
    (r: Result<seq<Value>>)
    ensures r.Success? ==> |r.value| == |raws|
    decreases |raws|
  {
    if raws == [] then Success([])
    else if validity.Some? && i >= |validity.value| then Failure(Panic)
    else
      var v :- if IsValid(validity, i) then DecodeStringLike(t, raws[0]) else Success(Null);
      var vs :- StringValues(t, validity, i + 1, raws[1..]);
      Success([v] + vs)
  }

  function ReadStructColumn(t: LogicalType, count: u64, validity: Option<seq<bool>>, bs: seq<byte>):
    (r: Parsed<seq<Value>>)
    requires validity.Some? ==> |validity.value| == count
    ensures Shrinks(r, bs) && (r.Parse? ==> |r.value| == count)
    decreases |bs|, 0
  {
    match GetStructChildren(t)
    case Failure(e) => NoParse(e)
    case Success(children) =>
      var (_, bs) :- ReadTag(103, bs);
      var (n, bs) :- ReadUleb64(bs);
      var (columns, bs) :- ReadColumns(children, n, count, bs);
      match StructRows(children, columns, validity, 0, count)
      case Success(vs) => Parse(vs, bs)
      case Failure(e) => NoParse(e)
  }

  /** `n` columns, which need a child type each. */
  function ReadColumns(children: seq<ChildType>, n: nat, count: u64, bs: seq<byte>): (r: Parsed<seq<seq<Value>>>)
    ensures r.Parse? ==> |r.value| == n && |r.rest| <= |bs|
    decreases |bs|, 3
  {
    if n == 0 then Parse([], bs)
    else if children == [] then NoParse(Protocol)
    else
      var (column, bs) :- ReadVector(children[0].logicalType, count, bs);
      var (columns, bs) :- ReadColumns(children[1..], n - 1, count, bs);
      Parse([column.values] + columns, bs)
  }

  /** Rows `i` up to `i + n`, transposed out of the columns. */
  function StructRows(children: seq<ChildType>, columns: seq<seq<Value>>, validity: Option<seq<bool>>, i: nat, n: nat):
    (r: Result<seq<Value>>)
    requires validity.Some? ==> i + n <= |validity.value|
    ensures r.Success? ==> |r.value| == n
    decreases n
  {
    if n == 0 then Success([])
    else
      var v :- if !IsValid(validity, i) then Success(Null) else StructValue(children, columns, i);
      var vs :- StructRows(children, columns, validity, i + 1, n - 1);
      Success([v] + vs)
  }

  function StructValue(children: seq<ChildType>, columns: seq<seq<Value>>, i: nat): Result<Value> {
    var row :- StructRow(children, columns, i, []);
    Success(Value.Struct(row))
  }

  /** `row` with row `i` of the remaining children inserted. */
  function StructRow(children: seq<ChildType>, columns: seq<seq<Value>>, i: nat, row: seq<Field>): Result<seq<Field>> {
    if children == [] then Success(row)
    else if columns == [] then Failure(Protocol)
    else StructRow(children[1..], columns[1..], i, Insert(row, children[0].name, RowOf(columns[0], i)))
  }

  /** A column too short for a row has a null there. */
  function RowOf(column: seq<Value>, i: nat): Value {
    if i < |column| then column[i] else Null
  }

  function ReadListColumn(t: LogicalType, count: u64, validity: Option<seq<bool>>, bs: seq<byte>):
    (r: Parsed<seq<Value>>)
    requires validity.Some? ==> |validity.value| == count
    ensures Shrinks(r, bs) && (r.Parse? ==> |r.value| == count)
    decreases |bs|, 0
  {
    var (_, bs) :- ReadTag(104, bs);
    var (n, bs) :- ReadUleb64(bs);
    var (_, bs) :- ReadTag(105, bs);
    var (entries, bs) :- ReadEntries(count, bs);
    match GetChildType(t)
    case Failure(e) => NoParse(e)
    case Success(child) =>
      var (_, bs) :- ReadTag(106, bs);
      var (items, bs) :- ReadVector(child, n, bs);
      match ListRows(items.values, validity, 0, entries)
      case Success(vs) => Parse(vs, bs)
      case Failure(e) => NoParse(e)
  }

  function ReadEntry(bs: seq<byte>): (r: Parsed<ListEntry>)
    ensures Shrinks(r, bs)
  {
    var (_, bs) :- ReadTag(100, bs);
    var (offset, bs) :- ReadUleb64(bs);
    var (_, bs) :- ReadTag(101, bs);
    var (length, bs) :- ReadUleb64(bs);
    var (_, bs) :- ReadEnd(bs);
    Parse(ListEntry(offset, length), bs)
  }

  function ReadEntryList(n: nat, bs: seq<byte>): (r: Parsed<seq<ListEntry>>)
    ensures r.Parse? ==> |r.value| == n && |r.rest| <= |bs|
  {
    if n == 0 then Parse([], bs)
    else
      var (e, bs) :- ReadEntry(bs);
      var (es, bs) :- ReadEntryList(n - 1, bs);
      Parse([e] + es, bs)
  }

  function ReadEntries(count: u64, bs: seq<byte>): (r: Parsed<seq<ListEntry>>)
    ensures Shrinks(r, bs)
    ensures r.Parse? ==> |r.value| == count
  {
    var (n, bs) :- ReadUleb64(bs);
    var (es, bs) :- ReadEntryList(n, bs);
    if |es| != count then NoParse(Protocol) else Parse(es, bs)
  }

  /** `items[offset..offset + length]`, when that is in range. */
  function Slice(items: seq<Value>, offset: nat, length: nat): Result<Value> {
    if offset + length <= |items| then Success(Value.List(items[offset..offset + length])) else Failure(Panic)
  }

  function ListRows(items: seq<Value>, validity: Option<seq<bool>>, i: nat, entries: seq<ListEntry>):
    (r: Result<seq<Value>>)
    requires validity.Some? ==> i + |entries| <= |validity.value|
    ensures r.Success? ==> |r.value| == |entries|
    decreases |entries|
  {
    if entries == [] then Success([])
    else
      var v :- if IsValid(validity, i) then Slice(items, entries[0].offset, entries[0].length) else Success(Null);
      var vs :- ListRows(items, validity, i + 1, entries[1..]);
      Success([v] + vs)
  }

  function ReadArrayColumn(t: LogicalType, count: u64, validity: Option<seq<bool>>, bs: seq<byte>):
    (r: Parsed<seq<Value>>)
    requires validity.Some? ==> |validity.value| == count
    ensures Shrinks(r, bs) && (r.Parse? ==> |r.value| == count)
    decreases |bs|, 0
  {
    hide Times;
    var (_, bs) :- ReadTag(103, bs);
    var (size, bs) :- ReadUleb64(bs);
    match GetArraySize(t)
    case Failure(e) => NoParse(e)
    case Success(expected) =>
      if size != expected then NoParse(Protocol)
      else
        match GetChildType(t)
        case Failure(e) => NoParse(e)
        case Success(child) =>
          var (_, bs) :- ReadTag(104, bs);
          if Times(size, count) >= TWO_64 then NoParse(Panic)
          else
            var (items, bs) :- ReadVector(child, Times(size, count), bs);
            match ArrayRows(items.values, size, validity, 0, count)
            case Success(vs) => Parse(vs, bs)
            case Failure(e) => NoParse(e)
  }

  function ArrayRows(items: seq<Value>, size: nat, validity: Option<seq<bool>>, i: nat, n: nat): (r: Result<seq<Value>>)
    requires validity.Some? ==> i + n <= |validity.value|
    ensures r.Success? ==> |r.value| == n
    decreases n
  {
    if n == 0 then Success([])
    else
      var v :- if IsValid(validity, i) then Slice(items, Times(size, i), size) else Success(Null);
      var vs :- ArrayRows(items, size, validity, i + 1, n - 1);
      Success([v] + vs)
  }

  // ---- compressed vectors ----

  function Repeated(v: Value, n: nat): (vs: seq<Value>)
    ensures |vs| == n && forall i | 0 <= i < n :: vs[i] == v
    ensures n == 0 ==> vs == []
  {
    seq(n, _ => v)
  }

  function ReadSelection(count: u64, bs: seq<byte>): (r: Parsed<seq<u32>>)
    ensures Shrinks(r, bs)
    ensures r.Parse? ==> |r.value| == count
  {
    if 4 * count >= TWO_64 then NoParse(Panic)
    else
      var (data, bs) :- ReadBlob(bs);
      if |data| != 4 * count then NoParse(Protocol) else Parse(Indexes(data), bs)
  }

  function Indexes(data: seq<byte>): (indexes: seq<u32>)
    requires |data| % 4 == 0
    ensures |indexes| == |data| / 4
  {
    if data == [] then []
    else
      RangeValues();
      [FromLe(data[..4])] + Indexes(data[4..])
  }

  function Select(dictionary: seq<Value>, selection: seq<u32>): (r: Result<seq<Value>>)
    ensures r.Success? ==> |r.value| == |selection|
  {
    if selection == [] then Success([])
    else if selection[0] >= |dictionary| then Failure(Protocol)
    else
      var vs :- Select(dictionary, selection[1..]);
      Success([dictionary[selection[0]]] + vs)
  }

  function Wrap64(v: int): i64 {
    (v + TWO_63) % TWO_64 - TWO_63
  }

  function Wrap32(v: int): i32 {
    (v + TWO_31) % TWO_32 - TWO_31
  }

  function SequenceValue(t: LogicalType, v: i128): Result<Value> {
    match t.id
    case Integer => Success(Int(Wrap64(v)))
    case Date => Success(Value.Date(Wrap32(v)))
    case BigInt => Success(Int(Wrap64(v)))
    case _ => FromInt64(t, Wrap64(v))
  }

  predicate FitsI128(v: int) {
    -TWO_127 <= v < TWO_127
  }

  /** Rows `i` up to `n` of a sequence; both 128-bit operations are checked. */
  function SequenceValues(t: LogicalType, start: i128, increment: i128, i: nat, n: nat): (r: Result<seq<Value>>)
    requires i <= n
    ensures r.Success? ==> |r.value| == n - i
    decreases n - i
  {
    if i == n then Success([])
    else if !FitsI128(Product(increment, i)) || !FitsI128(start + Product(increment, i)) then Failure(Panic)
    else
      var v :- SequenceValue(t, start + Product(increment, i));
      var vs :- SequenceValues(t, start, increment, i + 1, n);
      Success([v] + vs)
  }
}
