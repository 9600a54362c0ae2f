/** Decoding an encoded column gives its values back, through any nesting of lists,
    arrays and structs. */
module VectorRoundTrips {
  import opened Prelude
  import opened Arithmetic
  import opened Wire
  import opened LogicalTypes
  import opened Values
  import opened FixedCodec
  import opened Vectors

  // ---- well-typed values ----

  predicate WellTyped(t: LogicalType, v: Value)
    decreases t
  {
    v.Null?
    || (&& GetPhysicalType(t).Success?
        && var p := GetPhysicalType(t).value;
          if PhysicalTypeSize(p).Some? then TypedScalar(t, p, v) && SlotFitsEnum(t, p)
          else match p
            case PVarchar => if IsBinary(t.id) then v.Bytes? else v.Str?
            case PStruct =>
              && v.Struct? && GetStructChildren(t).Success?
              && var children := GetStructChildren(t).value;
                && SameNames(children, v.row)
                && forall k | 0 <= k < |children| :: WellTyped(children[k].logicalType, v.row[k].value)
            case PList =>
              && v.List? && GetChildType(t).Success?
              && forall k | 0 <= k < |v.items| :: WellTyped(GetChildType(t).value, v.items[k])
            case PArray =>
              && v.List? && GetChildType(t).Success? && GetArraySize(t) == Success(|v.items|)
              && forall k | 0 <= k < |v.items| :: WellTyped(GetChildType(t).value, v.items[k])
            case _ => false)
  }

  /** The fields of a row, which is a map, are the children in order. */
  predicate SameNames(children: seq<ChildType>, row: seq<Field>) {
    && |row| == |children| && DistinctNames(row)
    && forall k | 0 <= k < |children| :: row[k].name == children[k].name
  }

  predicate AllTyped(t: LogicalType, vs: seq<Value>) {
    forall i | 0 <= i < |vs| :: WellTyped(t, vs[i])
  }

  /** No slot belongs to an enum without values, at any depth. Even the slot of a
      null is looked up in the dictionary, where index zero must exist. */
  predicate Readable(t: LogicalType, vs: seq<Value>)
    requires CanEncode(t, vs)
    decreases t
  {
    match GetPhysicalType(t).value
    case PStruct =>
      var children := GetStructChildren(t).value;
      forall k | 0 <= k < |children| :: Readable(children[k].logicalType, Column(vs, children[k].name))
    case PList => Readable(GetChildType(t).value, Flatten(vs, 0))
    case PArray => Readable(GetChildType(t).value, Flatten(vs, GetArraySize(t).value))
    case _ => t.id == Enum && vs != [] ==> GetEnumValues(t) != Success([])
  }

  // ---- the round trip ----

  /** What decoding makes of an encoded column: its values when they are readable. */
  function RoundTripped<T>(value: T, readable: bool, suffix: seq<byte>): Parsed<T> {
    if readable then Parse(value, suffix) else NoParse(Protocol)
  }

  lemma {:induction false} VectorRoundTrip(t: LogicalType, vs: seq<Value>, suffix: seq<byte>)
    requires AllTyped(t, vs) && CanEncode(t, vs)
    ensures ReadVector(t, |vs|, PutVector(t, vs, suffix)) ==
      RoundTripped(DecodedVector(t, Flat, vs), Readable(t, vs), suffix)
    decreases t, 4
  {
    hide Wire.PutEnd, Wire.ReadEnd, PutFlat, ReadFlat, Readable;
    FlatRoundTrip(t, vs, PutEnd(suffix));
  }

  /** Without the end tag; the vector type is elided. */
  lemma {:induction false} FlatRoundTrip(t: LogicalType, vs: seq<Value>, suffix: seq<byte>)
    requires AllTyped(t, vs) && CanEncode(t, vs)
    ensures ReadBody(t, |vs|, PutFlat(t, vs, suffix)) ==
      RoundTripped(DecodedVector(t, Flat, vs), Readable(t, vs), suffix)
    decreases t, 3
  {
    hide PutData, ReadData, PutValidity, ReadValidity, PutGeometryTag, ReadGeometryTag, Readable, RowMask;
    hide Wire.Head;
    DataRoundTrip(t, vs, suffix);
  }

  lemma {:induction false} DataRoundTrip(t: LogicalType, vs: seq<Value>, suffix: seq<byte>)
    requires AllTyped(t, vs) && CanEncode(t, vs)
    ensures ReadData(t, |vs|, RowMask(vs), PutData(t, vs, suffix)) == RoundTripped(vs, Readable(t, vs), suffix)
    decreases t, 2
  {
    hide ReadFixedColumn, ReadStringColumn, ReadStructColumn, ReadListColumn, ReadArrayColumn, RowMask, SlotsSize;
    hide PutVector, PutColumns, PutStringLikes, PutEntries, Entries, Flatten, Slots, AllTyped;
    hide Wire.PutFieldId, Wire.PutUleb, Wire.PutBlob;
    var p := GetPhysicalType(t).value;
    if PhysicalTypeSize(p).Some? {
      FixedColumnRoundTrip(t, p, vs, suffix);
    } else if p == PVarchar {
      StringColumnRoundTrip(t, vs, suffix);
      assert Readable(t, vs);
    } else if p == PStruct {
      StructColumnRoundTrip(t, vs, suffix);
    } else if p == PList {
      ListColumnRoundTrip(t, vs, suffix);
    } else {
      ArrayColumnRoundTrip(t, vs, suffix);
    }
  }

  /** The mask, from row `i` on, marks the nulls of `vs`. */
  predicate Marks(validity: Option<seq<bool>>, i: nat, vs: seq<Value>) {
    && (validity.Some? ==> |validity.value| == i + |vs|)
    && forall k | 0 <= k < |vs| :: IsValid(validity, i + k) == !vs[k].Null?
  }

  lemma MarksNext(validity: Option<seq<bool>>, i: nat, vs: seq<Value>)
    requires Marks(validity, i, vs) && vs != []
    ensures IsValid(validity, i) == !vs[0].Null? && Marks(validity, i + 1, vs[1..])
    ensures [vs[0]] + vs[1..] == vs
  {
    assert IsValid(validity, i + 0) == !vs[0].Null?;
    forall k | 0 <= k < |vs| - 1
      ensures IsValid(validity, i + 1 + k) == !vs[1..][k].Null?
    {
      assert IsValid(validity, i + (k + 1)) == !vs[k + 1].Null?;
    }
  }

  // ---- fixed-size columns ----

  lemma FixedColumnRoundTrip(t: LogicalType, p: PhysicalType, vs: seq<Value>, suffix: seq<byte>)
    requires AllTyped(t, vs) && CanEncode(t, vs)
    requires GetPhysicalType(t) == Success(p) && PhysicalTypeSize(p).Some?
    ensures ReadFixedColumn(t, p, |vs|, RowMask(vs), PutFieldId(102, PutBlob(Slots(t, p, vs), suffix))) ==
      RoundTripped(vs, Readable(t, vs), suffix)
  {
    hide Wire.PutFieldId, Wire.PutBlob, Wire.ReadTag, Wire.ReadBlob, RowMask, ReadSlots, Slots, SlotsSize;
    hide AllTyped, FixedCodec.Number, FixedCodec.TypedScalar;
    if Readable(t, vs) {
      SlotsRoundTrip(t, p, vs, RowMask(vs), 0);
    } else {
      EmptyEnumFails(t, p, vs, RowMask(vs));
    }
  }

  lemma {:induction false} SlotsRoundTrip(t: LogicalType, p: PhysicalType, vs: seq<Value>,
                                          validity: Option<seq<bool>>, i: nat)
    requires GetPhysicalType(t) == Success(p) && PhysicalTypeSize(p).Some?
    requires AllTyped(t, vs) && SlotsEncode(t, p, vs) && Marks(validity, i, vs)
    requires t.id == Enum && vs != [] ==> GetEnumValues(t) != Success([])
    ensures ReadSlots(t, p, validity, i, |vs|, Slots(t, p, vs)) == Parse(vs, [])
    decreases |vs|
  {
    hide FixedCodec.PutFixedValue, FixedCodec.ReadFixedValue, Marks, IsValid;
    if vs != [] {
      MarksNext(validity, i, vs);
      SlotsRoundTrip(t, p, vs[1..], validity, i + 1);
      OneSlotRoundTrip(t, p, vs[0], Slots(t, p, vs[1..]));
      hide SlotEncodes, WellTyped;
    }
  }

  lemma OneSlotRoundTrip(t: LogicalType, p: PhysicalType, v: Value, tail: seq<byte>)
    requires GetPhysicalType(t) == Success(p) && PhysicalTypeSize(p).Some?
    requires WellTyped(t, v) && SlotEncodes(t, p, v)
    requires t.id == Enum ==> GetEnumValues(t) != Success([])
    ensures var r := ReadFixedValue(t, p, PutFixedValue(t, p, v, tail));
      r.Parse? && r.rest == tail && (v.Null? || r.value == v)
  {
    hide FixedCodec.PutFixedValue, FixedCodec.ReadFixedValue, FixedCodec.TypedScalar, SlotFitsEnum, FixedCodec.Number;
    if v.Null? {
      NullSlotReads(t, p, tail);
    } else {
      SlotRoundTrip(t, p, v, tail);
    }
  }

  lemma EmptyEnumFails(t: LogicalType, p: PhysicalType, vs: seq<Value>, validity: Option<seq<bool>>)
    requires GetPhysicalType(t) == Success(p) && PhysicalTypeSize(p).Some?
    requires AllTyped(t, vs) && SlotsEncode(t, p, vs) && (validity.Some? ==> |vs| <= |validity.value|)
    requires t.id == Enum && vs != [] && GetEnumValues(t) == Success([])
    ensures ReadSlots(t, p, validity, 0, |vs|, Slots(t, p, vs)) == NoParse(Protocol)
  {
    hide FixedCodec.PutFixedValue, FixedCodec.ReadFixedValue, FixedCodec.Number;
    assert WellTyped(t, vs[0]) && SlotEncodes(t, p, vs[0]);
    assert vs[0].Null?;
    NullSlotReads(t, p, Slots(t, p, vs[1..]));
  }

  // ---- strings ----

  function Raws(vs: seq<Value>): (raws: seq<vec<byte>>)
    requires AllStringLike(vs)
    ensures |raws| == |vs|
  {
    if vs == [] then [] else [StringLike(vs[0]).value] + Raws(vs[1..])
  }

  lemma StringColumnRoundTrip(t: LogicalType, vs: seq<Value>, suffix: seq<byte>)
    requires AllTyped(t, vs) && AllStringLike(vs) && |vs| < MAX_ROWS && GetPhysicalType(t) == Success(PVarchar)
    ensures ReadStringColumn(t, RowMask(vs), PutFieldId(102, PutUleb(|vs|, PutStringLikes(vs, suffix)))) ==
      Parse(vs, suffix)
  {
    hide AllTyped, AllStringLike, GetPhysicalType;
    hide Wire.PutFieldId, Wire.PutUleb, Wire.ReadTag, Wire.ReadUleb64, RowMask, PutStringLikes, ReadBlobs,
      StringValues;
    RawsRoundTrip(vs, suffix);
    StringsRoundTrip(t, vs, RowMask(vs), 0);
  }

  lemma {:induction false} RawsRoundTrip(vs: seq<Value>, suffix: seq<byte>)
    requires AllStringLike(vs)
    ensures ReadBlobs(|vs|, PutStringLikes(vs, suffix)) == Parse(Raws(vs), suffix)
  {
    if vs != [] {
      RawsRoundTrip(vs[1..], suffix);
    }
  }

  lemma {:induction false} StringsRoundTrip(t: LogicalType, vs: seq<Value>, validity: Option<seq<bool>>, i: nat)
    requires GetPhysicalType(t) == Success(PVarchar) && AllTyped(t, vs) && Marks(validity, i, vs)
    requires AllStringLike(vs)
    ensures StringValues(t, validity, i, Raws(vs)) == Success(vs)
    decreases |vs|
  {
    if vs != [] {
      MarksNext(validity, i, vs);
      StringsRoundTrip(t, vs[1..], validity, i + 1);
      assert WellTyped(t, vs[0]);
      assert Raws(vs)[1..] == Raws(vs[1..]);
    }
  }

  // ---- structs ----

  /** The child columns of a struct column. */
  function Columns(children: seq<ChildType>, vs: seq<Value>): (columns: seq<seq<Value>>)
    ensures |columns| == |children|
  {
    if children == [] then [] else [Column(vs, children[0].name)] + Columns(children[1..], vs)
  }

  lemma {:induction false} StructColumnRoundTrip(t: LogicalType, vs: seq<Value>, suffix: seq<byte>)
    requires AllTyped(t, vs) && CanEncode(t, vs) && GetPhysicalType(t) == Success(PStruct)
    ensures var children := GetStructChildren(t).value;
      ReadStructColumn(t, |vs|, RowMask(vs),
        PutFieldId(103, PutUleb(|children|, PutColumns(children, vs, t, suffix)))) ==
      RoundTripped(vs, Readable(t, vs), suffix)
    decreases t, 1
  {
    hide Wire.PutFieldId, Wire.PutUleb, Wire.ReadTag, Wire.ReadUleb64, RowMask, PutColumns, ReadColumns, StructRows;
    hide AllTyped, Column, Columns, RowMatches;
    var children := GetStructChildren(t).value;
    forall k | 0 <= k < |children|
      ensures AllTyped(children[k].logicalType, Column(vs, children[k].name))
    {
      ColumnTyped(t, vs, k);
    }
    ColumnsRoundTrip(t, children, vs, suffix);
    RowsMatch(t, vs);
    RowsRoundTrip(children, vs, RowMask(vs), 0, vs);
  }

  lemma ColumnTyped(t: LogicalType, vs: seq<Value>, k: nat)
    requires AllTyped(t, vs) && GetPhysicalType(t) == Success(PStruct) && GetStructChildren(t).Success?
    requires k < |GetStructChildren(t).value|
    ensures var child := GetStructChildren(t).value[k];
      AllTyped(child.logicalType, Column(vs, child.name))
  {
    var child := GetStructChildren(t).value[k];
    forall i | 0 <= i < |vs|
      ensures WellTyped(child.logicalType, FieldOf(vs[i], child.name))
    {
      assert WellTyped(t, vs[i]);
      if !vs[i].Null? {
        GetAt(vs[i].row, k);
      }
    }
  }

  lemma {:induction false} ColumnsRoundTrip(t: LogicalType, children: seq<ChildType>, vs: seq<Value>, suffix: seq<byte>)
    requires |vs| < MAX_ROWS
    requires Inside(children, t)
    requires ColumnsEncode(children, vs)
    requires forall k | 0 <= k < |children| :: AllTyped(children[k].logicalType, Column(vs, children[k].name))
    ensures ReadColumns(children, |children|, |vs|, PutColumns(children, vs, t, suffix)) ==
      RoundTripped(Columns(children, vs),
        forall k | 0 <= k < |children| :: Readable(children[k].logicalType, Column(vs, children[k].name)), suffix)
    decreases t, 0, |children|
  {
    if children != [] {
      hide PutVector, ReadVector, AllTyped, Column, Readable, CanEncode, PutColumns, ReadColumns;
      var rest, column := children[1..], Column(vs, children[0].name);
      assert forall k | 0 <= k < |rest| :: rest[k] == children[k + 1];
      var tail := PutColumns(rest, vs, t, suffix);
      ColumnsRoundTrip(t, rest, vs, suffix);
      VectorRoundTrip(children[0].logicalType, column, tail);
      ReadableSplit(children, vs);
      ColumnsStep(t, children, vs, suffix);
    }
  }

  /** Reading the columns is reading the first of them and then the others. */
  lemma ColumnsStep(t: LogicalType, children: seq<ChildType>, vs: seq<Value>, suffix: seq<byte>)
    requires |vs| < MAX_ROWS && children != []
    requires Inside(children, t)
    requires ColumnsEncode(children, vs)
    ensures var rest := children[1..];
      var first := PutVector(children[0].logicalType, Column(vs, children[0].name), PutColumns(rest, vs, t, suffix));
      ReadColumns(children, |children|, |vs|, PutColumns(children, vs, t, suffix)) ==
      match ReadVector(children[0].logicalType, |vs|, first)
      case Parse(d, more) =>
        (match ReadColumns(rest, |rest|, |vs|, more)
         case Parse(columns, end) => Parse([d.values] + columns, end)
         case NoParse(e) => NoParse(e))
      case NoParse(e) => NoParse(e)
  {
    hide PutVector, ReadVector, Column, CanEncode;
    var rest := children[1..];
    assert forall k | 0 <= k < |rest| :: rest[k] == children[k + 1];
  }

  lemma ReadableSplit(children: seq<ChildType>, vs: seq<Value>)
    requires children != []
    requires ColumnsEncode(children, vs)
    ensures var rest := children[1..];
      (forall k | 0 <= k < |children| :: Readable(children[k].logicalType, Column(vs, children[k].name))) <==>
      Readable(children[0].logicalType, Column(vs, children[0].name))
      && (forall k | 0 <= k < |rest| :: Readable(rest[k].logicalType, Column(vs, rest[k].name)))
  {
    hide Readable, CanEncode, Column;
    var rest := children[1..];
    assert forall k | 0 < k < |children| :: children[k] == rest[k - 1];
    assert forall k | 0 <= k < |rest| :: children[k + 1] == rest[k];
  }

  predicate RowMatches(children: seq<ChildType>, v: Value) {
    v.Null? || (v.Struct? && SameNames(children, v.row))
  }

  lemma RowsMatch(t: LogicalType, vs: seq<Value>)
    requires AllTyped(t, vs) && GetPhysicalType(t) == Success(PStruct) && GetStructChildren(t).Success?
    ensures forall i | 0 <= i < |vs| :: RowMatches(GetStructChildren(t).value, vs[i])
  {
    forall i | 0 <= i < |vs|
      ensures RowMatches(GetStructChildren(t).value, vs[i])
    {
      assert WellTyped(t, vs[i]);
    }
  }

  /** Rows `i` up to the last, put back together. */
  lemma {:induction false} RowsRoundTrip(children: seq<ChildType>, all: seq<Value>, validity: Option<seq<bool>>,
                                         i: nat, vs: seq<Value>)
    requires i <= |all| && vs == all[i..] && Marks(validity, i, vs)
    requires forall k | 0 <= k < |vs| :: RowMatches(children, vs[k])
    ensures StructRows(children, Columns(children, all), validity, i, |vs|) == Success(vs)
    decreases |vs|
  {
    if vs != [] {
      MarksNext(validity, i, vs);
      RowsRoundTrip(children, all, validity, i + 1, vs[1..]);
      assert RowMatches(children, vs[0]);
      if !vs[0].Null? {
        RowRoundTrip(children, all, i, children, []);
      }
    }
  }

  /** One row: `done` of its fields are in place and `rest` are to come. */
  lemma {:induction false} RowRoundTrip(children: seq<ChildType>, all: seq<Value>, i: nat, rest: seq<ChildType>,
                                        done: seq<Field>)
    requires i < |all| && all[i].Struct? && SameNames(children, all[i].row)
    requires |done| <= |children| && rest == children[|done|..] && done == all[i].row[..|done|]
    ensures StructRow(rest, Columns(rest, all), i, done) == Success(all[i].row)
    decreases rest
  {
    var row := all[i].row;
    if rest == [] {
      assert done == row;
    } else {
      var k := |done|;
      GetAt(row, k);
      InsertFresh(done, rest[0].name, row[k].value);
      assert Columns(rest, all)[1..] == Columns(rest[1..], all);
      assert done + [row[k]] == row[..k + 1];
      RowRoundTrip(children, all, i, rest[1..], row[..k + 1]);
    }
  }

  // ---- lists and arrays ----

  lemma {:induction false} FlattenTyped(t: LogicalType, child: LogicalType, vs: seq<Value>, pad: nat)
    requires AllTyped(t, vs) && GetChildType(t) == Success(child)
    requires GetPhysicalType(t) in {Success(PList), Success(PArray)}
    ensures AllTyped(child, Flatten(vs, pad))
  {
    if vs != [] {
      assert WellTyped(t, vs[0]);
      FlattenTyped(t, child, vs[1..], pad);
    }
  }

  lemma {:induction false} ListColumnRoundTrip(t: LogicalType, vs: seq<Value>, suffix: seq<byte>)
    requires AllTyped(t, vs) && CanEncode(t, vs) && GetPhysicalType(t) == Success(PList)
    ensures var items := Flatten(vs, 0);
      ReadListColumn(t, |vs|, RowMask(vs), PutFieldId(104, PutUleb(|items|, PutFieldId(105,
        PutEntries(Entries(vs, 0), PutFieldId(106, PutVector(GetChildType(t).value, items, suffix))))))) ==
      RoundTripped(vs, Readable(t, vs), suffix)
    decreases t, 1
  {
    hide Wire.PutFieldId, Wire.PutUleb, Wire.ReadTag, Wire.ReadUleb64, PutEntries, ReadEntries, RowMask;
    hide PutVector, ReadVector, ListRows, Entries, Flatten, AllTyped;
    var child, items := GetChildType(t).value, Flatten(vs, 0);
    FlattenTyped(t, child, vs, 0);
    VectorRoundTrip(child, items, suffix);
    assert [] + items == items;
    ListsRoundTrip([], vs, RowMask(vs), 0);
  }

  lemma SliceMiddle(before: seq<Value>, items: seq<Value>, after: seq<Value>)
    ensures before + (items + after) == before + items + after
    ensures Slice(before + (items + after), |before|, |items|) == Success(Value.List(items))
  {
    assert (before + (items + after))[|before|..|before| + |items|] == items;
  }

  /** Every list is the slice its entry says, wherever the lists before it end. */
  lemma {:induction false} ListsRoundTrip(before: seq<Value>, vs: seq<Value>, validity: Option<seq<bool>>, i: nat)
    requires Marks(validity, i, vs) && |before| + |Flatten(vs, 0)| < TWO_64
    requires forall k | 0 <= k < |vs| :: ListOrNull(vs[k])
    ensures ListRows(before + Flatten(vs, 0), validity, i, Entries(vs, |before|)) == Success(vs)
    decreases |vs|
  {
    if vs != [] {
      var items := Items(vs[0], 0);
      MarksNext(validity, i, vs);
      assert ListOrNull(vs[0]);
      ListsRoundTrip(before + items, vs[1..], validity, i + 1);
      SliceMiddle(before, items, Flatten(vs[1..], 0));
      hide Slice;
      assert Entries(vs, |before|)[1..] == Entries(vs[1..], |before + items|);
    }
  }

  lemma {:induction false} ArrayColumnRoundTrip(t: LogicalType, vs: seq<Value>, suffix: seq<byte>)
    requires AllTyped(t, vs) && CanEncode(t, vs) && GetPhysicalType(t) == Success(PArray)
    ensures var size := GetArraySize(t).value;
      ReadArrayColumn(t, |vs|, RowMask(vs), PutFieldId(103, PutUleb(size, PutFieldId(104,
        PutVector(GetChildType(t).value, Flatten(vs, size), suffix))))) ==
      RoundTripped(vs, Readable(t, vs), suffix)
    decreases t, 1
  {
    hide Wire.PutFieldId, Wire.PutUleb, Wire.ReadTag, Wire.ReadUleb64, RowMask, Times;
    hide PutVector, ReadVector, ArrayRows, Flatten, AllTyped;
    var child, size := GetChildType(t).value, GetArraySize(t).value;
    var items := Flatten(vs, size);
    FlattenTyped(t, child, vs, size);
    VectorRoundTrip(child, items, suffix);
    ArrayLength(vs, size);
    TimesStep(size, 0);
    assert [] + items == items;
    ArraysRoundTrip([], size, vs, RowMask(vs), 0);
  }

  lemma {:induction false} ArrayLength(vs: seq<Value>, size: nat)
    requires forall k | 0 <= k < |vs| :: ArrayOrNull(vs[k], size)
    ensures |Flatten(vs, size)| == Times(size, |vs|)
  {
    hide Times;
    if vs == [] {
      TimesStep(size, 0);
    } else {
      assert ArrayOrNull(vs[0], size);
      ArrayLength(vs[1..], size);
      TimesStep(size, |vs| - 1);
    }
  }

  lemma {:induction false} ArraysRoundTrip(before: seq<Value>, size: nat, vs: seq<Value>,
                                           validity: Option<seq<bool>>, i: nat)
    requires Marks(validity, i, vs) && |before| == Times(size, i)
    requires forall k | 0 <= k < |vs| :: ArrayOrNull(vs[k], size)
    ensures ArrayRows(before + Flatten(vs, size), size, validity, i, |vs|) == Success(vs)
    decreases |vs|
  {
    hide Times;
    if vs != [] {
      hide Marks, IsValid;
      var items := Items(vs[0], size);
      MarksNext(validity, i, vs);
      assert ArrayOrNull(vs[0], size);
      TimesStep(size, i);
      ArraysRoundTrip(before + items, size, vs[1..], validity, i + 1);
      SliceMiddle(before, items, Flatten(vs[1..], size));
      hide Slice;
    }
  }

  // ---- what the writer accepts ----

  /** Types whose columns have a wire form. */
  predicate Supported(t: LogicalType)
    decreases t
  {
    && GetPhysicalType(t).Success?
    && var p := GetPhysicalType(t).value;
      PhysicalTypeSize(p).None? ==> match p
        case PVarchar => true
        case PStruct =>
          && GetStructChildren(t).Success?
          && forall k | 0 <= k < |GetStructChildren(t).value| :: Supported(GetStructChildren(t).value[k].logicalType)
        case PList => GetChildType(t).Success? && Supported(GetChildType(t).value)
        case PArray => GetChildType(t).Success? && GetArraySize(t).Success? && Supported(GetChildType(t).value)
        case _ => false
  }

  /** The column and everything flattened out of it fit in memory. */
  predicate InMemory(t: LogicalType, vs: seq<Value>)
    requires Supported(t)
    decreases t
  {
    && |vs| < MAX_ROWS
    && match GetPhysicalType(t).value
      case PStruct =>
        var children := GetStructChildren(t).value;
        forall k | 0 <= k < |children| :: InMemory(children[k].logicalType, Column(vs, children[k].name))
      case PList => InMemory(GetChildType(t).value, Flatten(vs, 0))
      case PArray => InMemory(GetChildType(t).value, Flatten(vs, GetArraySize(t).value))
      case _ => true
  }

  /** Every column of well-typed values is accepted. */
  lemma {:induction false} WellTypedEncodes(t: LogicalType, vs: seq<Value>)
    requires Supported(t) && AllTyped(t, vs) && InMemory(t, vs)
    ensures CanEncode(t, vs)
    decreases t
  {
    hide Flatten, Column;
    var p := GetPhysicalType(t).value;
    if PhysicalTypeSize(p).Some? {
      forall i | 0 <= i < |vs|
        ensures SlotEncodes(t, p, vs[i])
      {
        assert WellTyped(t, vs[i]);
        if !vs[i].Null? {
          SlotRoundTrip(t, p, vs[i], []);
        }
      }
    } else {
      assert forall i | 0 <= i < |vs| :: WellTyped(t, vs[i]);
      match p
      case PStruct =>
        var children := GetStructChildren(t).value;
        forall k | 0 <= k < |children|
          ensures CanEncode(children[k].logicalType, Column(vs, children[k].name))
        {
          ColumnTyped(t, vs, k);
          WellTypedEncodes(children[k].logicalType, Column(vs, children[k].name));
        }
      case PList =>
        FlattenTyped(t, GetChildType(t).value, vs, 0);
        WellTypedEncodes(GetChildType(t).value, Flatten(vs, 0));
      case PArray =>
        var size := GetArraySize(t).value;
        FlattenTyped(t, GetChildType(t).value, vs, size);
        WellTypedEncodes(GetChildType(t).value, Flatten(vs, size));
      case _ =>
    }
  }
}
