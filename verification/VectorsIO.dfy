/** The writer and reader methods for column vectors, refining `Vectors`. */
module VectorsIO {
  import opened Prelude
  import opened Arithmetic
  import Wire
  import opened BinaryIO
  import opened LogicalTypes
  import opened Values
  import opened FixedCodec
  import opened Validity
  import opened Vectors

  // ---- writing ----

  method EncodeVector(w: BinaryWriter, t: LogicalType, values: seq<Value>, count: nat) returns (r: Outcome)
    modifies w
    ensures r.Pass? <==> |values| == count && CanEncode(t, values)
    ensures r.Pass? ==> forall tail {:trigger PutVector(t, values, tail)} ::
      w.buffer + tail == old(w.buffer) + PutVector(t, values, tail)
    decreases t, 2
  {
    hide PutFlat, Wire.PutEnd;
    :- EncodeFlatVectorBody(w, t, values, count);
    w.WriteEnd();
    r := Pass;
  }

  method EncodeFlatVectorBody(w: BinaryWriter, t: LogicalType, values: seq<Value>, count: nat) returns (r: Outcome)
    modifies w
    ensures r.Pass? <==> |values| == count && CanEncode(t, values)
    ensures r.Pass? ==> forall tail {:trigger PutFlat(t, values, tail)} ::
      w.buffer + tail == old(w.buffer) + PutFlat(t, values, tail)
    decreases t, 1
  {
    if |values| != count {
      return Fail(Protocol);
    }
    if |values| >= MAX_ROWS {
      return Fail(Panic);
    }
    hide PutData, PutValidity, Wire.PutFieldId, Wire.PutUleb, CanEncode;
    if t.id == Geometry {
      w.WriteFieldId(99);
      w.WriteUleb(1);
    }
    EncodeValidity(w, values);
    :- EncodeData(w, t, values);
    r := Pass;
  }

  method EncodeValidity(w: BinaryWriter, values: seq<Value>)
    requires |values| < MAX_ROWS
    modifies w
    ensures forall tail {:trigger PutValidity(values, tail)} ::
      w.buffer + tail == old(w.buffer) + PutValidity(values, tail)
  {
    hide Wire.PutFieldId, Wire.PutBool, Wire.PutBlob, Mask;
    var valid := ValidRows(values);
    NullsShow(values);
    var hasValidityMask := false in valid;
    w.WriteFieldId(100);
    w.WriteBool(hasValidityMask);
    if hasValidityMask {
      w.WriteFieldId(101);
      var mask := WriteValidityMask(valid);
      w.WriteBlob(mask[..]);
    }
  }

  lemma NullsShow(values: seq<Value>)
    ensures false in ValidRows(values) <==> Null in values
  {
    if Null in values {
      var i :| 0 <= i < |values| && values[i] == Null;
      assert !ValidRows(values)[i];
    }
  }

  /** The part of the body that depends on the physical type. */
  method EncodeData(w: BinaryWriter, t: LogicalType, values: seq<Value>) returns (r: Outcome)
    requires |values| < MAX_ROWS
    modifies w
    ensures r.Pass? <==> CanEncode(t, values)
    ensures r.Pass? ==> forall tail {:trigger PutData(t, values, tail)} ::
      w.buffer + tail == old(w.buffer) + PutData(t, values, tail)
    decreases t, 0, 2
  {
    hide Wire.PutFieldId, Wire.PutUleb, Wire.PutBlob, Slots, PutStringLikes, PutVector, PutColumns, PutEntries,
      Flatten, Entries;
    var p;
    match GetPhysicalType(t) {
      case Failure(e) => return Fail(e);
      case Success(physicalType) => p := physicalType;
    }
    if PhysicalTypeSize(p).Some? {
      var data := new BinaryWriter();
      :- EncodeFixedValues(data, t, p, values);
      w.WriteFieldId(102);
      w.WriteBlob(data.buffer);
      return Pass;
    }
    match p
    case PVarchar =>
      w.WriteFieldId(102);
      w.WriteUleb(|values|);
      r := EncodeStringLikes(w, values);
    case PStruct => r := EncodeStructVectorBody(w, t, values);
    case PList => r := EncodeListVectorBody(w, t, values);
    case PArray => r := EncodeArrayVectorBody(w, t, values);
    case _ => r := Fail(Unsupported);
  }

  method EncodeFixedValues(data: BinaryWriter, t: LogicalType, p: PhysicalType, values: seq<Value>) returns (r: Outcome)
    requires PhysicalTypeSize(p).Some? && data.buffer == []
    modifies data
    ensures r.Pass? <==> SlotsEncode(t, p, values)
    ensures r.Pass? ==> data.buffer == Slots(t, p, values)
  {
    hide FixedCodec.PutFixedValue;
    for i := 0 to |values|
      invariant SlotsEncode(t, p, values) <==> SlotsEncode(t, p, values[i..])
      invariant SlotsEncode(t, p, values) ==>
        data.buffer + Slots(t, p, values[i..]) == Slots(t, p, values)
    {
      assert values[i..][0] == values[i] && values[i..][1..] == values[i + 1..];
      SlotsEncodeSplit(t, p, values[i..]);
      :- EncodeFixedValue(data, t, p, values[i]);
    }
    r := Pass;
  }

  lemma SlotsEncodeSplit(t: LogicalType, p: PhysicalType, vs: seq<Value>)
    requires vs != []
    ensures SlotsEncode(t, p, vs) <==> SlotEncodes(t, p, vs[0]) && SlotsEncode(t, p, vs[1..])
  {
    assert forall i | 0 < i < |vs| :: vs[i] == vs[1..][i - 1];
  }

  method EncodeFixedValue(w: BinaryWriter, t: LogicalType, p: PhysicalType, v: Value) returns (r: Outcome)
    requires PhysicalTypeSize(p).Some?
    modifies w
    ensures r.Pass? <==> SlotEncodes(t, p, v)
    ensures r.Pass? ==> forall tail {:trigger PutFixedValue(t, p, v, tail)} ::
      w.buffer + tail == old(w.buffer) + PutFixedValue(t, p, v, tail)
  {
    hide FixedCodec.Number, Wire.PutFixed, Wire.PutBytes, PhysicalTypeSize, PutHalves;
    var size := PhysicalTypeSize(p).value;
    if v.Null? {
      w.WriteBytes(seq(size, _ => 0));
      return Pass;
    }
    match Number(t, p, v) {
      case Failure(e) => return Fail(e);
      case Success(n) =>
        if p == PInterval {
          OnlyIntervals(t, v);
          w.WriteFixed(4, v.months);
          w.WriteFixed(4, v.days);
          w.WriteFixed(8, v.micros);
        } else if p == PInt128 || p == PUInt128 {
          WriteHalves(w, n);
        } else {
          w.WriteFixed(size, n);
        }
    }
    r := Pass;
  }

  /** A 128-bit number, low half first. */
  method WriteHalves(w: BinaryWriter, n: int)
    modifies w
    ensures forall tail {:trigger PutHalves(n, tail)} :: w.buffer + tail == old(w.buffer) + PutHalves(n, tail)
  {
    hide Wire.PutFixed;
    w.WriteFixed(8, n % TWO_64);
    w.WriteFixed(8, n / TWO_64);
  }

  lemma OnlyIntervals(t: LogicalType, v: Value)
    requires Number(t, PInterval, v).Success?
    ensures v.Interval?
  {
  }

  method EncodeStringLikes(w: BinaryWriter, values: seq<Value>) returns (r: Outcome)
    modifies w
    ensures r.Pass? <==> AllStringLike(values)
    ensures r.Pass? ==> forall tail {:trigger PutStringLikes(values, tail)} ::
      w.buffer + tail == old(w.buffer) + PutStringLikes(values, tail)
  {
    hide Wire.PutBlob;
    for i := 0 to |values|
      invariant forall k | 0 <= k < i :: StringLike(values[k]).Some?
      invariant AllStringLike(values) ==> forall tail {:trigger PutStringLikes(values, tail)} ::
        w.buffer + PutStringLikes(values[i..], tail) == old(w.buffer) + PutStringLikes(values, tail)
    {
      assert values[i..][0] == values[i] && values[i..][1..] == values[i + 1..];
      match StringLike(values[i]) {
        case None => return Fail(Unsupported);
        case Some(raw) => w.WriteBlob(raw);
      }
    }
    r := Pass;
  }

  method EncodeStructVectorBody(w: BinaryWriter, t: LogicalType, values: seq<Value>) returns (r: Outcome)
    requires |values| < MAX_ROWS && GetPhysicalType(t) == Success(PStruct)
    modifies w
    ensures r.Pass? <==> CanEncode(t, values)
    ensures r.Pass? ==> forall tail {:trigger PutData(t, values, tail)} ::
      w.buffer + tail == old(w.buffer) + PutData(t, values, tail)
    decreases t, 0, 1
  {
    hide Wire.PutFieldId, Wire.PutUleb, PutColumns, Flatten, Column;
    match GetStructChildren(t) {
      case Failure(e) => r := Fail(e);
      case Success(children) =>
        w.WriteFieldId(103);
        w.WriteUleb(|children|);
        r := EncodeColumns(w, t, children, values);
    }
  }

  method EncodeColumns(w: BinaryWriter, ghost t: LogicalType, children: seq<ChildType>, values: seq<Value>)
    returns (r: Outcome)
    requires Inside(children, t)
    modifies w
    ensures r.Pass? <==> ColumnsEncode(children, values)
    ensures r.Pass? ==> forall tail {:trigger PutColumns(children, values, t, tail)} ::
      w.buffer + tail == old(w.buffer) + PutColumns(children, values, t, tail)
    decreases t, 0, 0
  {
    hide PutVector, CanEncode, Column, PutColumns, Inside;
    assert children[0..] == children;
    for i := 0 to |children|
      invariant forall k | 0 <= k < i :: CanEncode(children[k].logicalType, Column(values, children[k].name))
      invariant Inside(children[i..], t)
      invariant ColumnsEncode(children, values) ==> ColumnsEncode(children[i..], values)
      invariant ColumnsEncode(children, values) ==>
        forall tail {:trigger PutColumns(children, values, t, tail)} ::
          w.buffer + PutColumns(children[i..], values, t, tail) == old(w.buffer) + PutColumns(children, values, t, tail)
    {
      assert children[i..][0] == children[i] && children[i..][1..] == children[i + 1..];
      InsideTail(children[i..], t);
      if ColumnsEncode(children, values) {
        PutColumnsStep(t, children[i..], values);
      }
      :- EncodeVector(w, children[i].logicalType, Column(values, children[i].name), |values|);
    }
    assert children[|children|..] == [];
    PutNoColumns(t, values);
    r := Pass;
  }

  lemma InsideTail(children: seq<ChildType>, t: LogicalType)
    requires children != [] && Inside(children, t)
    ensures children[0].logicalType < t && Inside(children[1..], t)
  {
  }

  lemma PutNoColumns(t: LogicalType, vs: seq<Value>)
    ensures forall tail :: PutColumns([], vs, t, tail) == tail
  {
  }

  lemma PutColumnsStep(t: LogicalType, children: seq<ChildType>, vs: seq<Value>)
    requires children != [] && ColumnsEncode(children, vs) && Inside(children, t)
    ensures ColumnsEncode(children[1..], vs) && Inside(children[1..], t)
    ensures forall tail {:trigger PutColumns(children, vs, t, tail)} ::
      (PutColumns(children, vs, t, tail) ==
       PutVector(children[0].logicalType, Column(vs, children[0].name), PutColumns(children[1..], vs, t, tail)))
  {
    hide PutVector, CanEncode, Column;
    assert forall k | 0 <= k < |children| - 1 :: children[1..][k] == children[k + 1];
  }

  method EncodeListVectorBody(w: BinaryWriter, t: LogicalType, values: seq<Value>) returns (r: Outcome)
    requires |values| < MAX_ROWS && GetPhysicalType(t) == Success(PList)
    modifies w
    ensures r.Pass? <==> CanEncode(t, values)
    ensures r.Pass? ==> forall tail {:trigger PutData(t, values, tail)} ::
      w.buffer + tail == old(w.buffer) + PutData(t, values, tail)
    decreases t, 0, 1
  {
    hide Wire.PutFieldId, Wire.PutUleb, PutVector, PutEntries, Flatten, Entries;
    match GetChildType(t) {
      case Failure(e) => r := Fail(e);
      case Success(child) =>
        var entries, items :- FlattenLists(values);
        w.WriteFieldId(104);
        w.WriteUleb(|items|);
        w.WriteFieldId(105);
        WriteListEntries(w, entries);
        w.WriteFieldId(106);
        :- EncodeVector(w, child, items, |items|);
        r := Pass;
    }
  }

  /** The entries of the lists and their elements, one list after another. */
  method FlattenLists(values: seq<Value>) returns (r: Outcome, entries: seq<ListEntry>, items: seq<Value>)
    ensures r.Pass? <==> (forall k | 0 <= k < |values| :: ListOrNull(values[k])) && |Flatten(values, 0)| < MAX_ROWS
    ensures r.Pass? ==> items == Flatten(values, 0) && entries == Entries(values, 0)
  {
    hide Flatten, Entries;
    entries, items := [], [];
    assert values[0..] == values && [] + Flatten(values, 0) == Flatten(values, 0);
    for i := 0 to |values|
      invariant forall k | 0 <= k < i :: ListOrNull(values[k])
      invariant |items| < MAX_ROWS && Flatten(values, 0) == items + Flatten(values[i..], 0)
      invariant |Flatten(values, 0)| < MAX_ROWS ==>
        Entries(values, 0) == entries + Entries(values[i..], |items|)
    {
      assert values[i..][0] == values[i] && values[i..][1..] == values[i + 1..];
      FlattenStep(items, values[i..], 0);
      if |Flatten(values, 0)| < MAX_ROWS {
        EntriesStep(entries, values[i..], |items|);
      }
      match values[i] {
        case Null =>
          assert items + [] == items;
          entries := entries + [ListEntry(0, 0)];
        case List(more) =>
          if |items| + |more| >= MAX_ROWS {
            return Fail(Panic), entries, items;
          }
          entries := entries + [ListEntry(|items|, |more|)];
          items := items + more;
        case _ => return Fail(Protocol), entries, items;
      }
    }
    assert values[|values|..] == [];
    FlattenStep(items, [], 0);
    EntriesStep(entries, [], |items|);
    r := Pass;
  }

  lemma FlattenStep(before: seq<Value>, vs: seq<Value>, pad: nat)
    ensures vs != [] ==> before + Flatten(vs, pad) == before + Items(vs[0], pad) + Flatten(vs[1..], pad)
    ensures vs == [] ==> before + Flatten(vs, pad) == before
  {
  }

  lemma EntriesStep(before: seq<ListEntry>, vs: seq<Value>, start: nat)
    requires start + |Flatten(vs, 0)| < TWO_64
    ensures vs == [] ==> before + Entries(vs, start) == before
    ensures vs != [] ==> var n := |Items(vs[0], 0)|;
      start + n + |Flatten(vs[1..], 0)| == start + |Flatten(vs, 0)|
      && before + Entries(vs, start) ==
         before + [if vs[0].List? then ListEntry(start, n) else ListEntry(0, 0)] + Entries(vs[1..], start + n)
  {
  }

  method EncodeArrayVectorBody(w: BinaryWriter, t: LogicalType, values: seq<Value>) returns (r: Outcome)
    requires |values| < MAX_ROWS && GetPhysicalType(t) == Success(PArray)
    modifies w
    ensures r.Pass? <==> CanEncode(t, values)
    ensures r.Pass? ==> forall tail {:trigger PutData(t, values, tail)} ::
      w.buffer + tail == old(w.buffer) + PutData(t, values, tail)
    decreases t, 0, 1
  {
    hide Wire.PutFieldId, Wire.PutUleb, PutVector, Flatten;
    match GetChildType(t) {
      case Failure(e) => r := Fail(e);
      case Success(child) =>
        match GetArraySize(t) {
          case Failure(e) => r := Fail(e);
          case Success(size) =>
            var items :- FlattenArrays(values, size);
            w.WriteFieldId(103);
            w.WriteUleb(size);
            w.WriteFieldId(104);
            :- EncodeVector(w, child, items, |items|);
            r := Pass;
        }
    }
  }

  /** The elements of the arrays, with nulls for those of a null row. */
  method FlattenArrays(values: seq<Value>, size: u64) returns (r: Outcome, items: seq<Value>)
    ensures r.Pass? <==>
      (forall k | 0 <= k < |values| :: ArrayOrNull(values[k], size)) && |Flatten(values, size)| < MAX_ROWS
    ensures r.Pass? ==> items == Flatten(values, size)
  {
    hide Flatten;
    items := [];
    assert values[0..] == values && [] + Flatten(values, size) == Flatten(values, size);
    for i := 0 to |values|
      invariant forall k | 0 <= k < i :: ArrayOrNull(values[k], size)
      invariant |items| < MAX_ROWS && Flatten(values, size) == items + Flatten(values[i..], size)
    {
      assert values[i..][0] == values[i] && values[i..][1..] == values[i + 1..];
      FlattenStep(items, values[i..], size);
      var more;
      match values[i] {
        case Null => more := seq(size, _ => Null);
        case List(elements) =>
          if |elements| != size {
            return Fail(Protocol), items;
          }
          more := elements;
        case _ => return Fail(Protocol), items;
      }
      if |items| + |more| >= MAX_ROWS {
        return Fail(Panic), items;
      }
      items := items + more;
    }
    assert values[|values|..] == [];
    FlattenStep(items, [], size);
    r := Pass;
  }

  method WriteListEntries(w: BinaryWriter, entries: vec<ListEntry>)
    modifies w
    ensures forall tail {:trigger PutEntries(entries, tail)} ::
      w.buffer + tail == old(w.buffer) + PutEntries(entries, tail)
  {
    hide Wire.PutFieldId, Wire.PutUleb, Wire.PutEnd;
    w.WriteUleb(|entries|);
    for i := 0 to |entries|
      invariant forall tail {:trigger PutEntries(entries, tail)} ::
        w.buffer + PutEntryList(entries[i..], tail) == old(w.buffer) + PutEntries(entries, tail)
    {
      assert entries[i..][0] == entries[i] && entries[i..][1..] == entries[i + 1..];
      w.WriteFieldId(100);
      w.WriteUleb(entries[i].offset);
      w.WriteFieldId(101);
      w.WriteUleb(entries[i].length);
      w.WriteEnd();
    }
  }

  // ---- reading ----

  method DecodeVector(reader: BinaryReader, t: LogicalType, count: u64) returns (r: Result<DecodedVector>)
    requires reader.Valid()
    modifies reader`offset
    ensures reader.Valid() && Agrees(ReadVector(t, count, old(reader.Remaining())), r, reader.Remaining())
    decreases |reader.Remaining()|, 2
  {
    hide ReadBody, Wire.ReadEnd;
    var vector :- DecodeVectorBody(reader, t, count);
    var _ :- reader.ReadEnd();
    r := Success(vector);
  }

  method DecodeVectorBody(reader: BinaryReader, t: LogicalType, count: u64) returns (r: Result<DecodedVector>)
    requires reader.Valid()
    modifies reader`offset
    ensures reader.Valid() && Agrees(ReadBody(t, count, old(reader.Remaining())), r, reader.Remaining())
    decreases |reader.Remaining()|, 1, 1
  {
    hide Wire.ReadUlebOrZero, Wire.ReadTag, Wire.ReadSleb, Wire.ReadUleb64, ReadFlat, ReadSelection, Select,
      SequenceValues;
    ghost var start := reader.Remaining();
    var code :- reader.ReadUlebOrZero(90);
    match code
    case 0 => r := DecodeFlatVectorBody(reader, t, count);
    case 1 => r := Failure(Unsupported);
    case 2 =>
      var one :- DecodeVectorBody(reader, t, if count > 0 then 1 else 0);
      var v := if one.values == [] then Null else one.values[0];
      r := Success(DecodedVector(t, Constant, Repeated(v, count)));
    case 3 =>
      var _ :- reader.ReadTag(91);
      var selection :- ReadSelectionVector(reader, count);
      var _ :- reader.ReadTag(92);
      var n :- reader.ReadUleb64();
      var dictionary :- DecodeVectorBody(reader, t, n);
      var vs :- SelectValues(dictionary.values, selection);
      r := Success(DecodedVector(t, Dictionary, vs));
    case 4 =>
      var _ :- reader.ReadTag(91);
      var first :- reader.ReadSleb();
      var _ :- reader.ReadTag(92);
      var increment :- reader.ReadSleb();
      var vs :- SequenceValues(t, first, increment, 0, count);
      r := Success(DecodedVector(t, Sequence, vs));
    case _ => r := Failure(Protocol);
  }

  method ReadSelectionVector(reader: BinaryReader, count: u64) returns (r: Result<seq<u32>>)
    requires reader.Valid()
    modifies reader`offset
    ensures reader.Valid() && Agrees(ReadSelection(count, old(reader.Remaining())), r, reader.Remaining())
  {
    hide Indexes, Wire.ReadBlob;
    if 4 * count >= TWO_64 {
      return Failure(Panic);
    }
    var data :- reader.ReadBlob();
    r := if |data| != 4 * count then Failure(Protocol) else Success(Indexes(data));
  }

  method SelectValues(dictionary: seq<Value>, selection: seq<u32>) returns (r: Result<seq<Value>>)
    ensures r == Select(dictionary, selection)
  {
    var values := [];
    SelectAfter([], dictionary, selection);
    for i := 0 to |selection|
      invariant After(values, Select(dictionary, selection[i..])) == Select(dictionary, selection)
    {
      SelectAfter(values, dictionary, selection[i..]);
      assert selection[i..][0] == selection[i] && selection[i..][1..] == selection[i + 1..];
      if selection[i] >= |dictionary| {
        return Failure(Protocol);
      }
      values := values + [dictionary[selection[i]]];
    }
    assert values + [] == values;
    r := Success(values);
  }

  lemma SelectAfter(done: seq<Value>, dictionary: seq<Value>, selection: seq<u32>)
    ensures After([], Select(dictionary, selection)) == Select(dictionary, selection)
    ensures selection != [] ==>
      (After(done, Select(dictionary, selection)) ==
       if selection[0] >= |dictionary| then Failure(Protocol)
       else After(done + [dictionary[selection[0]]], Select(dictionary, selection[1..])))
  {
    AfterNone(Select(dictionary, selection));
    if selection != [] && selection[0] < |dictionary| {
      AfterOne(done, dictionary[selection[0]], Select(dictionary, selection[1..]));
    }
  }

  method DecodeFlatVectorBody(reader: BinaryReader, t: LogicalType, count: u64) returns (r: Result<DecodedVector>)
    requires reader.Valid()
    modifies reader`offset
    ensures reader.Valid() && Agrees(ReadFlat(t, count, old(reader.Remaining())), r, reader.Remaining())
    decreases |reader.Remaining()|, 1, 0
  {
    hide ReadValidity, ReadData, ReadGeometryTag;
    var _ :- SkipGeometryTag(reader, t);
    var validity :- DecodeValidity(reader, count);
    var values :- DecodeData(reader, t, count, validity);
    r := Success(DecodedVector(t, Flat, values));
  }

  method SkipGeometryTag(reader: BinaryReader, t: LogicalType) returns (r: Result<()>)
    requires reader.Valid()
    modifies reader`offset
    ensures reader.Valid() && Agrees(ReadGeometryTag(t, old(reader.Remaining())), r, reader.Remaining())
  {
    hide Wire.ReadUleb64, Wire.Head;
    if t.id == Geometry {
      var next :- reader.PeekFieldId();
      if next == 99 {
        reader.SkipFieldId();
        var _ :- reader.ReadUleb64();
      }
    }
    r := Success(());
  }

  method DecodeValidity(reader: BinaryReader, count: u64) returns (r: Result<Option<seq<bool>>>)
    requires reader.Valid()
    modifies reader`offset
    ensures reader.Valid() && Agrees(ReadValidity(count, old(reader.Remaining())), r, reader.Remaining())
  {
    hide Wire.ReadTag, Wire.ReadBool, Wire.ReadBlob, Unmask;
    var _ :- reader.ReadTag(100);
    var present :- reader.ReadBool();
    if !present {
      return Success(None);
    }
    var _ :- reader.ReadTag(101);
    var mask :- reader.ReadBlob();
    if |mask| != MaskSize(count) {
      return Failure(Protocol);
    }
    var valid := ReadValidityMask(mask, count);
    r := Success(Some(valid));
  }

  method DecodeData(reader: BinaryReader, t: LogicalType, count: u64, validity: Option<seq<bool>>)
    returns (r: Result<seq<Value>>)
    requires reader.Valid() && (validity.Some? ==> |validity.value| == count)
    modifies reader`offset
    ensures reader.Valid() && Agrees(ReadData(t, count, validity, old(reader.Remaining())), r, reader.Remaining())
    decreases |reader.Remaining()|, 1
  {
    hide ReadFixedColumn, ReadStringColumn, ReadStructColumn, ReadListColumn, ReadArrayColumn;
    match GetPhysicalType(t)
    case Failure(e) => r := Failure(e);
    case Success(p) =>
      if PhysicalTypeSize(p).Some? {
        r := DecodeFixedColumn(reader, t, p, count, validity);
      } else if p == PVarchar {
        r := DecodeStringColumn(reader, t, validity);
      } else if p == PStruct {
        r := DecodeStructColumn(reader, t, count, validity);
      } else if p == PList {
        r := DecodeListColumn(reader, t, count, validity);
      } else if p == PArray {
        r := DecodeArrayColumn(reader, t, count, validity);
      } else {
        r := Failure(Unsupported);
      }
  }

  method DecodeFixedColumn(reader: BinaryReader, t: LogicalType, p: PhysicalType, count: u64,
                           validity: Option<seq<bool>>)
    returns (r: Result<seq<Value>>)
    requires reader.Valid() && PhysicalTypeSize(p).Some? && (validity.Some? ==> |validity.value| == count)
    modifies reader`offset
    ensures reader.Valid()
    ensures Agrees(ReadFixedColumn(t, p, count, validity, old(reader.Remaining())), r, reader.Remaining())
  {
    hide Wire.ReadTag, Wire.ReadBlob, FixedValues, SlotsSize;
    if SlotsSize(p, count) >= TWO_64 {
      return Failure(Panic);
    }
    var _ :- reader.ReadTag(102);
    var data :- reader.ReadBlob();
    if |data| != SlotsSize(p, count) {
      return Failure(Protocol);
    }
    r := DecodeFixedValues(t, p, data, count, validity);
  }

  method DecodeFixedValues(t: LogicalType, p: PhysicalType, data: seq<byte>, count: u64, validity: Option<seq<bool>>)
    returns (r: Result<seq<Value>>)
    requires PhysicalTypeSize(p).Some? && (validity.Some? ==> |validity.value| == count)
    ensures r == FixedValues(t, p, data, count, validity)
  {
    hide ReadSlots, PhysicalTypeSize;
    var reader := new BinaryReader(data);
    r := DecodeSlots(reader, t, p, count, validity);
    if r.Success? {
      var end := reader.AssertEof();
      if end.Fail? {
        r := Failure(end.error);
      }
    }
  }

  method DecodeSlots(reader: BinaryReader, t: LogicalType, p: PhysicalType, count: nat, validity: Option<seq<bool>>)
    returns (r: Result<seq<Value>>)
    requires reader.Valid() && PhysicalTypeSize(p).Some? && (validity.Some? ==> |validity.value| == count)
    modifies reader`offset
    ensures reader.Valid()
    ensures Agrees(ReadSlots(t, p, validity, 0, count, old(reader.Remaining())), r, reader.Remaining())
  {
    hide FixedCodec.ReadFixedValue, IsValid;
    var values := [];
    OntoNil(ReadSlots(t, p, validity, 0, count, reader.Remaining()));
    for index := 0 to count
      invariant reader.Valid()
      invariant Wire.Onto(values, ReadSlots(t, p, validity, index, count - index, reader.Remaining())) ==
        ReadSlots(t, p, validity, 0, count, old(reader.Remaining()))
    {
      SlotsStep(values, t, p, validity, index, count - index, reader.Remaining());
      var value :- DecodeFixedValue(reader, t, p);
      values := values + [Shown(validity, index, value)];
    }
    assert values + [] == values;
    r := Success(values);
  }

  lemma SlotsStep(done: seq<Value>, t: LogicalType, p: PhysicalType, validity: Option<seq<bool>>, i: nat, n: nat,
                  bs: seq<byte>)
    requires PhysicalTypeSize(p).Some? && n > 0 && (validity.Some? ==> i + n <= |validity.value|)
    ensures Wire.Onto(done, ReadSlots(t, p, validity, i, n, bs)) ==
      match ReadFixedValue(t, p, bs) {
        case Parse(v, rest) =>
          Wire.Onto(done + [Shown(validity, i, v)], ReadSlots(t, p, validity, i + 1, n - 1, rest))
        case NoParse(e) => NoParse(e)
      }
  {
    hide FixedCodec.ReadFixedValue, IsValid;
    var r := ReadFixedValue(t, p, bs);
    if r.Parse? {
      OntoOnto(done, Shown(validity, i, r.value), ReadSlots(t, p, validity, i + 1, n - 1, r.rest));
    }
  }

  method DecodeFixedValue(reader: BinaryReader, t: LogicalType, p: PhysicalType) returns (r: Result<Value>)
    requires reader.Valid() && PhysicalTypeSize(p).Some?
    modifies reader`offset
    ensures reader.Valid() && Agrees(ReadFixedValue(t, p, old(reader.Remaining())), r, reader.Remaining())
  {
    hide Wire.ReadSigned, Wire.ReadUnsigned, Wire.Range, FixedCodec.FromNumber, ReadNumber, PhysicalTypeSize, InSlot;
    Wire.RangeValues();
    if p == PInterval {
      var months :- reader.ReadSigned(4);
      var days :- reader.ReadSigned(4);
      var micros :- reader.ReadSigned(8);
      return Success(Value.Interval(months, days, micros));
    }
    var n :- DecodeNumber(reader, p);
    r := FromNumber(t, p, n);
  }

  method DecodeNumber(reader: BinaryReader, p: PhysicalType) returns (r: Result<int>)
    requires reader.Valid() && PhysicalTypeSize(p).Some? && p != PInterval
    modifies reader`offset
    ensures reader.Valid() && Agrees(ReadNumber(p, old(reader.Remaining())), r, reader.Remaining())
  {
    hide Wire.ReadSigned, Wire.ReadUnsigned, Wire.Range, InSlot;
    if p == PInt128 {
      var lower :- reader.ReadUnsigned(8);
      var upper :- reader.ReadSigned(8);
      return Success(upper * TWO_64 + lower);
    } else if p == PUInt128 {
      var lower :- reader.ReadUnsigned(8);
      var upper :- reader.ReadUnsigned(8);
      return Success(upper * TWO_64 + lower);
    }
    hide PhysicalTypeSize;
    if SignedSlot(p) {
      r := reader.ReadSigned(PhysicalTypeSize(p).value);
    } else {
      r := reader.ReadUnsigned(PhysicalTypeSize(p).value);
    }
  }

  method DecodeStringColumn(reader: BinaryReader, t: LogicalType, validity: Option<seq<bool>>)
    returns (r: Result<seq<Value>>)
    requires reader.Valid()
    modifies reader`offset
    ensures reader.Valid() && Agrees(ReadStringColumn(t, validity, old(reader.Remaining())), r, reader.Remaining())
  {
    hide Wire.ReadTag, Wire.ReadUleb64, ReadBlobs, StringValues;
    var _ :- reader.ReadTag(102);
    var n :- reader.ReadUleb64();
    var raws :- DecodeBlobs(reader, n);
    r := StringValues(t, validity, 0, raws);
  }

  method DecodeBlobs(reader: BinaryReader, n: nat) returns (r: Result<seq<vec<byte>>>)
    requires reader.Valid()
    modifies reader`offset
    ensures reader.Valid() && Agrees(ReadBlobs(n, old(reader.Remaining())), r, reader.Remaining())
  {
    hide Wire.ReadBlob;
    var raws := [];
    OntoNil(ReadBlobs(n, reader.Remaining()));
    for i := 0 to n
      invariant reader.Valid()
      invariant Wire.Onto(raws, ReadBlobs(n - i, reader.Remaining())) == ReadBlobs(n, old(reader.Remaining()))
    {
      BlobsStep(raws, n - i, reader.Remaining());
      var raw :- reader.ReadBlob();
      raws := raws + [raw];
    }
    assert raws + [] == raws;
    r := Success(raws);
  }

  lemma BlobsStep(done: seq<vec<byte>>, n: nat, bs: seq<byte>)
    requires n > 0
    ensures Wire.Onto(done, ReadBlobs(n, bs)) ==
      match Wire.ReadBlob(bs) {
        case Parse(b, rest) => Wire.Onto(done + [b], ReadBlobs(n - 1, rest))
        case NoParse(e) => NoParse(e)
      }
  {
    hide Wire.ReadBlob;
    var r := Wire.ReadBlob(bs);
    if r.Parse? {
      OntoOnto(done, r.value, ReadBlobs(n - 1, r.rest));
    }
  }

  method DecodeStructColumn(reader: BinaryReader, t: LogicalType, count: u64, validity: Option<seq<bool>>)
    returns (r: Result<seq<Value>>)
    requires reader.Valid() && (validity.Some? ==> |validity.value| == count)
    modifies reader`offset
    ensures reader.Valid()
    ensures Agrees(ReadStructColumn(t, count, validity, old(reader.Remaining())), r, reader.Remaining())
    decreases |reader.Remaining()|, 0
  {
    hide Wire.ReadTag, Wire.ReadUleb64, ReadColumns, StructRows;
    match GetStructChildren(t)
    case Failure(e) => r := Failure(e);
    case Success(children) =>
      var _ :- reader.ReadTag(103);
      var n :- reader.ReadUleb64();
      var columns :- DecodeColumns(reader, children, n, count);
      r := TransposeRows(children, columns, validity, count);
  }

  method DecodeColumns(reader: BinaryReader, children: seq<ChildType>, n: nat, count: u64)
    returns (r: Result<seq<seq<Value>>>)
    requires reader.Valid()
    modifies reader`offset
    ensures reader.Valid() && Agrees(ReadColumns(children, n, count, old(reader.Remaining())), r, reader.Remaining())
    decreases |reader.Remaining()|, 3
  {
    hide ReadVector;
    var columns: seq<seq<Value>> := [];
    OntoNil(ReadColumns(children, n, count, reader.Remaining()));
    assert children[0..] == children;
    for i := 0 to n
      invariant reader.Valid() && |reader.Remaining()| <= |old(reader.Remaining())| && i <= |children|
      invariant Wire.Onto(columns, ReadColumns(children[i..], n - i, count, reader.Remaining())) ==
        ReadColumns(children, n, count, old(reader.Remaining()))
    {
      ColumnsReadStep(columns, children[i..], n - i, count, reader.Remaining());
      if i >= |children| {
        return Failure(Protocol);
      }
      assert children[i..][0] == children[i] && children[i..][1..] == children[i + 1..];
      var vector :- DecodeVector(reader, children[i].logicalType, count);
      columns := columns + [vector.values];
    }
    assert columns + [] == columns;
    r := Success(columns);
  }

  lemma ColumnsReadStep(done: seq<seq<Value>>, children: seq<ChildType>, n: nat, count: u64, bs: seq<byte>)
    requires n > 0
    ensures Wire.Onto(done, ReadColumns(children, n, count, bs)) ==
      if children == [] then NoParse(Protocol)
      else
        match ReadVector(children[0].logicalType, count, bs) {
          case Parse(v, rest) => Wire.Onto(done + [v.values], ReadColumns(children[1..], n - 1, count, rest))
          case NoParse(e) => NoParse(e)
        }
  {
    hide ReadVector;
    if children != [] {
      var r := ReadVector(children[0].logicalType, count, bs);
      if r.Parse? {
        OntoOnto(done, r.value.values, ReadColumns(children[1..], n - 1, count, r.rest));
      }
    }
  }

  method TransposeRows(children: seq<ChildType>, columns: seq<seq<Value>>, validity: Option<seq<bool>>, count: nat)
    returns (r: Result<seq<Value>>)
    requires validity.Some? ==> |validity.value| == count
    ensures r == StructRows(children, columns, validity, 0, count)
  {
    hide StructRow;
    var values := [];
    AfterNone(StructRows(children, columns, validity, 0, count));
    for i := 0 to count
      invariant After(values, StructRows(children, columns, validity, i, count - i)) ==
        StructRows(children, columns, validity, 0, count)
    {
      StructRowsStep(values, children, columns, validity, i, count - i);
      if !IsValid(validity, i) {
        values := values + [Null];
      } else {
        var row :- TransposeRow(children, columns, i);
        values := values + [Value.Struct(row)];
      }
    }
    assert values + [] == values;
    r := Success(values);
  }

  lemma StructRowsStep(done: seq<Value>, children: seq<ChildType>, columns: seq<seq<Value>>,
                       validity: Option<seq<bool>>, i: nat, n: nat)
    requires n > 0 && (validity.Some? ==> i + n <= |validity.value|)
    ensures After(done, StructRows(children, columns, validity, i, n)) ==
      if !IsValid(validity, i) then After(done + [Null], StructRows(children, columns, validity, i + 1, n - 1))
      else
        match StructRow(children, columns, i, []) {
          case Success(row) =>
            After(done + [Value.Struct(row)], StructRows(children, columns, validity, i + 1, n - 1))
          case Failure(e) => Failure(e)
        }
  {
    hide StructRow;
    var v := if !IsValid(validity, i) then Success(Null) else StructValue(children, columns, i);
    if v.Success? {
      AfterOne(done, v.value, StructRows(children, columns, validity, i + 1, n - 1));
    }
  }

  method TransposeRow(children: seq<ChildType>, columns: seq<seq<Value>>, i: nat) returns (r: Result<seq<Field>>)
    ensures r == StructRow(children, columns, i, [])
  {
    var row := [];
    for k := 0 to |children|
      invariant k <= |columns|
      invariant StructRow(children[k..], columns[k..], i, row) == StructRow(children, columns, i, [])
    {
      if k >= |columns| {
        return Failure(Protocol);
      }
      assert children[k..][1..] == children[k + 1..] && columns[k..][1..] == columns[k + 1..];
      row := Insert(row, children[k].name, RowOf(columns[k], i));
    }
    r := Success(row);
  }

  method DecodeListColumn(reader: BinaryReader, t: LogicalType, count: u64, validity: Option<seq<bool>>)
    returns (r: Result<seq<Value>>)
    requires reader.Valid() && (validity.Some? ==> |validity.value| == count)
    modifies reader`offset
    ensures reader.Valid() && Agrees(ReadListColumn(t, count, validity, old(reader.Remaining())), r, reader.Remaining())
    decreases |reader.Remaining()|, 0
  {
    hide Wire.ReadTag, Wire.ReadUleb64, ReadEntries, ListRows, ReadVector;
    var _ :- reader.ReadTag(104);
    var n :- reader.ReadUleb64();
    var _ :- reader.ReadTag(105);
    var entries :- ReadListEntries(reader, count);
    match GetChildType(t)
    case Failure(e) => r := Failure(e);
    case Success(child) =>
      var _ :- reader.ReadTag(106);
      var items :- DecodeVector(reader, child, n);
      r := ListRows(items.values, validity, 0, entries);
  }

  method ReadListEntries(reader: BinaryReader, count: u64) returns (r: Result<seq<ListEntry>>)
    requires reader.Valid()
    modifies reader`offset
    ensures reader.Valid() && Agrees(ReadEntries(count, old(reader.Remaining())), r, reader.Remaining())
  {
    hide Wire.ReadTag, Wire.ReadUleb64, Wire.ReadEnd, ReadEntryList;
    var n :- reader.ReadUleb64();
    ghost var start := reader.Remaining();
    var entries: seq<ListEntry> := [];
    OntoNil(ReadEntryList(n, start));
    for i := 0 to n
      invariant reader.Valid() && |entries| == i
      invariant Wire.Onto(entries, ReadEntryList(n - i, reader.Remaining())) == ReadEntryList(n, start)
    {
      EntryListStep(entries, n - i, reader.Remaining());
      var _ :- reader.ReadTag(100);
      var offset :- reader.ReadUleb64();
      var _ :- reader.ReadTag(101);
      var length :- reader.ReadUleb64();
      var _ :- reader.ReadEnd();
      entries := entries + [ListEntry(offset, length)];
    }
    EntryListEnd(reader.Remaining());
    assert entries + [] == entries;
    r := if |entries| != count then Failure(Protocol) else Success(entries);
  }

  lemma EntryListEnd(bs: seq<byte>)
    ensures ReadEntryList(0, bs) == Parse([], bs)
  {
  }

  lemma EntryListStep(done: seq<ListEntry>, n: nat, bs: seq<byte>)
    requires n > 0
    ensures Wire.Onto(done, ReadEntryList(n, bs)) ==
      match ReadEntry(bs) {
        case Parse(e, rest) => Wire.Onto(done + [e], ReadEntryList(n - 1, rest))
        case NoParse(e) => NoParse(e)
      }
  {
    hide ReadEntry;
    var r := ReadEntry(bs);
    if r.Parse? {
      OntoOnto(done, r.value, ReadEntryList(n - 1, r.rest));
    }
  }

  method DecodeArrayColumn(reader: BinaryReader, t: LogicalType, count: u64, validity: Option<seq<bool>>)
    returns (r: Result<seq<Value>>)
    requires reader.Valid() && (validity.Some? ==> |validity.value| == count)
    modifies reader`offset
    ensures reader.Valid()
    ensures Agrees(ReadArrayColumn(t, count, validity, old(reader.Remaining())), r, reader.Remaining())
    decreases |reader.Remaining()|, 0
  {
    hide Wire.ReadTag, Wire.ReadUleb64, ArrayRows, ReadVector, Times;
    var _ :- reader.ReadTag(103);
    var size :- reader.ReadUleb64();
    match GetArraySize(t)
    case Failure(e) => r := Failure(e);
    case Success(expected) =>
      if size != expected {
        return Failure(Protocol);
      }
      match GetChildType(t)
      case Failure(e) => r := Failure(e);
      case Success(child) =>
        var _ :- reader.ReadTag(104);
        if Times(size, count) >= TWO_64 {
          return Failure(Panic);
        }
        var items :- DecodeVector(reader, child, Times(size, count));
        r := ArrayRows(items.values, size, validity, 0, count);
  }
}
