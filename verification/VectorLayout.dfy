/** Where everything stands in a column, byte by byte, for every physical type and every
    layout a server may choose. */
module VectorLayout {
  import opened Prelude
  import opened Arithmetic
  import opened Wire
  import opened Leb128
  import opened LogicalTypes
  import opened Values
  import opened Validity
  import opened FixedCodec
  import opened Vectors
  import opened VectorRoundTrips
  import opened PackedVectors
  import opened WireLayout
  import PhysicalLayout

  function Blob(b: seq<byte>): seq<byte> {
    Leb128.Uleb(|b|) + b
  }

  lemma BlobField(id: byte, b: vec<byte>, rest: seq<byte>)
    ensures PutBlob(b, rest) == Blob(b) + rest
    ensures PutFieldId(id, PutBlob(b, rest)) == Tagged(id, Some(Blob(b)), rest)
  {
    hide Leb128.Uleb;
    Glue(Leb128.Uleb(|b|), b, rest);
    TagField(id, Blob(b), rest);
  }

  /** A column, flat: the version of the format if it is geometry, whether there is a mask and the
      mask, and the data. */
  lemma ColumnLayout(t: LogicalType, vs: seq<Value>, rest: seq<byte>)
    requires CanEncode(t, vs)
    ensures var data := PutData(t, vs, Ending(rest));
      var mask := if Null in vs then [100, 0, 1] + Tagged(101, Some(Blob(Mask(ValidRows(vs)))), data)
        else [100, 0, 0] + data;
      PutVector(t, vs, rest) == Tagged(99, if t.id == Geometry then Some([1]) else None, mask)
  {
    hide CanEncode, PutData, Mask, ValidRows, Blob, Tagged, Wire.PutFieldId, Wire.PutBlob, Wire.PutUleb, Wire.PutEnd,
      Ending;
    TagField(0, [], rest);
    var data := PutData(t, vs, PutEnd(rest));
    MaskLayout(vs, data);
    GeometryLayout(t, PutValidity(vs, data));
  }

  lemma MaskLayout(vs: seq<Value>, rest: seq<byte>)
    requires |vs| < MAX_ROWS
    ensures PutValidity(vs, rest) == if Null in vs then [100, 0, 1] + Tagged(101, Some(Blob(Mask(ValidRows(vs)))), rest)
      else [100, 0, 0] + rest
  {
    hide Mask, ValidRows, Blob, Tagged, Wire.PutBlob, Wire.PutFieldId, Wire.PutBool;
    if Null in vs {
      MaskRoundTrip(ValidRows(vs));
      BlobField(101, Mask(ValidRows(vs)), rest);
      FlagLayout(true, Tagged(101, Some(Blob(Mask(ValidRows(vs)))), rest));
    } else {
      FlagLayout(false, rest);
    }
  }

  lemma FlagLayout(flag: bool, rest: seq<byte>)
    ensures PutFieldId(100, PutBool(flag, rest)) == [100, 0, if flag then 1 else 0] + rest
  {
    hide Wire.PutFieldId;
    TagField(100, [], PutBool(flag, rest));
    Glue([100, 0], [if flag then 1 else 0], rest);
  }

  lemma GeometryLayout(t: LogicalType, rest: seq<byte>)
    requires Head(rest) == 100
    ensures PutGeometryTag(t, rest) == Tagged(99, if t.id == Geometry then Some([1]) else None, rest)
  {
    assert Leb128.Uleb(1) == [1];
    hide Leb128.Uleb, Wire.PutFieldId, Wire.PutUleb;
    NumberField(99, 1, rest);
  }

  // ---- slots ----

  /** The bytes of one slot: zeros for a null, two's complement from the low byte up for a number,
      months, days and microseconds of an interval one after another. */
  function SlotOf(t: LogicalType, p: PhysicalType, v: Value): seq<byte>
    requires PhysicalTypeSize(p).Some? && SlotEncodes(t, p, v)
  {
    if v.Null? then seq(PhysicalTypeSize(p).value, _ => 0)
    else if p == PInterval then LowBytes(4, v.months) + LowBytes(4, v.days) + LowBytes(8, v.micros)
    else LowBytes(PhysicalTypeSize(p).value, Number(t, p, v).value)
  }

  lemma {:induction false} LeSplit(n: nat, m: nat, v: nat)
    ensures Le(n + m, v) == Le(n, Remainder(v, Range(n))) + Le(m, Quotient(v, Range(n)))
  {
    if n == 0 {
      assert Quotient(v, 1) == v;
      assert Le(0, Remainder(v, 1)) == [];
    } else {
      hide Wire.Le, Wire.Range, Quotient, Remainder;
      var low := Remainder(v, Range(n));
      RangeStep(n, v);
      LeSplit(n - 1, m, v / 0x100);
      LowFirst(n, m, v, low);
    }
  }

  lemma RangeStep(n: nat, v: nat)
    requires n > 0
    ensures Quotient(v, Range(n)) == Quotient(v / 0x100, Range(n - 1))
    ensures var low := Remainder(v, Range(n));
      low / 0x100 == Remainder(v / 0x100, Range(n - 1)) && low == 0x100 * (low / 0x100) + v % 0x100
  {
    hide Quotient, Remainder;
    DivStep(v, 0x100, Range(n - 1));
    var high := Remainder(v / 0x100, Range(n - 1));
    assert (0x100 * high + v % 0x100) / 0x100 == high;
  }

  lemma LowFirst(n: nat, m: nat, v: nat, low: nat)
    requires n > 0 && low == 0x100 * (low / 0x100) + v % 0x100
    ensures Le(n + m, v) == [v % 0x100] + Le(n - 1 + m, v / 0x100)
    ensures Le(n, low) == [v % 0x100] + Le(n - 1, low / 0x100)
  {
  }

  /** The halves of a 128-bit slot are its sixteen bytes from the low end. */
  lemma HalvesLayout(n: int, rest: seq<byte>)
    requires -TWO_127 <= n < TWO_128
    ensures PutHalves(n, rest) == LowBytes(16, n) + rest
  {
    RangeValues();
    PhysicalLayout.Ranges();
    hide Wire.Le, Wire.Range;
    LeSplit(8, 8, n % TWO_128);
    HalvesOf(n);
    Glue(LowBytes(8, n % TWO_64), LowBytes(8, n / TWO_64), rest);
  }

  lemma HalvesOf(n: int)
    requires -TWO_127 <= n < TWO_128
    ensures Remainder(n % TWO_128, TWO_64) == n % TWO_64 && n % TWO_64 % TWO_64 == n % TWO_64
    ensures Quotient(n % TWO_128, TWO_64) == n / TWO_64 % TWO_64
  {
    var q, r := n / TWO_64, n % TWO_64;
    assert n == q * TWO_64 + r;
    var high := if q < 0 then q + TWO_64 else q;
    assert n % TWO_128 == high * TWO_64 + r;
    DivUnique(n % TWO_128, TWO_64, high, r);
  }

  lemma SlotLayout(t: LogicalType, p: PhysicalType, v: Value, rest: seq<byte>)
    requires PhysicalTypeSize(p).Some? && SlotEncodes(t, p, v) && (p == PInterval && !v.Null? ==> v.Interval?)
    requires !v.Null? && p in {PInt128, PUInt128} ==> -TWO_127 <= Number(t, p, v).value < TWO_128
    ensures PutFixedValue(t, p, v, rest) == SlotOf(t, p, v) + rest
  {
    hide FixedCodec.Number, Wire.LowBytes, PutHalves;
    if v.Null? {
    } else if p == PInterval {
      IntervalLayout(LowBytes(4, v.months), LowBytes(4, v.days), LowBytes(8, v.micros), rest);
    } else if p in {PInt128, PUInt128} {
      HalvesLayout(Number(t, p, v).value, rest);
    }
  }

  lemma IntervalLayout(a: seq<byte>, b: seq<byte>, c: seq<byte>, rest: seq<byte>)
    ensures a + (b + (c + rest)) == (a + b + c) + rest
  {
  }

  /** The bytes of the slots one after another. */
  function SlotsOf(t: LogicalType, p: PhysicalType, vs: seq<Value>): seq<byte>
    requires PhysicalTypeSize(p).Some? && SlotsEncode(t, p, vs)
  {
    if vs == [] then []
    else
      assert SlotEncodes(t, p, vs[0]);
      SlotOf(t, p, vs[0]) + SlotsOf(t, p, vs[1..])
  }

  lemma {:induction false} SlotsLayout(t: LogicalType, p: PhysicalType, vs: seq<Value>)
    requires PhysicalTypeSize(p).Some? && SlotsEncode(t, p, vs)
    ensures Slots(t, p, vs) == SlotsOf(t, p, vs)
  {
    hide FixedCodec.Number, SlotOf, PutFixedValue;
    if vs != [] {
      assert SlotEncodes(t, p, vs[0]);
      NumberInRange(t, p, vs[0]);
      SlotLayout(t, p, vs[0], Slots(t, p, vs[1..]));
      SlotsLayout(t, p, vs[1..]);
    }
  }

  lemma NumberInRange(t: LogicalType, p: PhysicalType, v: Value)
    requires PhysicalTypeSize(p).Some? && SlotEncodes(t, p, v)
    ensures p == PInterval && !v.Null? ==> v.Interval?
    ensures !v.Null? && p in {PInt128, PUInt128} ==> -TWO_127 <= Number(t, p, v).value < TWO_128
  {
  }

  // ---- data ----

  /** The texts of a column, each behind its length. */
  function Texts(vs: seq<Value>, rest: seq<byte>): seq<byte>
    requires AllStringLike(vs)
  {
    if vs == [] then rest else Blob(StringLike(vs[0]).value) + Texts(vs[1..], rest)
  }

  lemma {:induction false} TextsLayout(vs: seq<Value>, rest: seq<byte>)
    requires AllStringLike(vs)
    ensures PutStringLikes(vs, rest) == Texts(vs, rest)
  {
    hide Wire.PutBlob, Blob, StringLike;
    if vs != [] {
      TextsLayout(vs[1..], rest);
      BlobField(0, StringLike(vs[0]).value, Texts(vs[1..], rest));
    }
  }

  /** Entries are objects of an offset and a length. */
  function EntryObjects(es: seq<ListEntry>, rest: seq<byte>): seq<byte> {
    if es == [] then rest
    else
      Tagged(100, Some(Leb128.Uleb(es[0].offset)), Tagged(101, Some(Leb128.Uleb(es[0].length)),
        Ending(EntryObjects(es[1..], rest))))
  }

  lemma {:induction false} EntriesLayout(es: seq<ListEntry>, rest: seq<byte>)
    ensures PutEntryList(es, rest) == EntryObjects(es, rest)
  {
    hide Wire.PutFieldId, Wire.PutUleb, Wire.PutEnd, Tagged, Ending, Leb128.Uleb;
    if es != [] {
      EntriesLayout(es[1..], rest);
      var more := EntryObjects(es[1..], rest);
      TagField(0, [], more);
      NumberField(101, es[0].length, PutEnd(more));
      NumberField(100, es[0].offset, PutFieldId(101, PutUleb(es[0].length, PutEnd(more))));
    }
  }

  /** The list in row `i` begins after the elements of the rows before; a null is all zeros. */
  lemma {:induction false} EntryAt(vs: seq<Value>, start: nat, i: nat)
    requires start + |Flatten(vs, 0)| < TWO_64 && i < |vs|
    ensures |Flatten(vs[..i], 0)| + |Items(vs[i], 0)| <= |Flatten(vs, 0)|
    ensures Entries(vs, start)[i] ==
      if vs[i].List? then ListEntry(start + |Flatten(vs[..i], 0)|, |vs[i].items|) else ListEntry(0, 0)
    decreases i
  {
    if i > 0 {
      EntryAt(vs[1..], start + |Items(vs[0], 0)|, i - 1);
      assert vs[..i][1..] == vs[1..][..i - 1];
    }
  }

  /** Slots behind their length, or texts behind their number. */
  lemma FlatDataLayout(t: LogicalType, vs: seq<Value>, rest: seq<byte>)
    requires CanEncode(t, vs)
    ensures var p := GetPhysicalType(t).value;
      && (PhysicalTypeSize(p).Some? ==> PutData(t, vs, rest) == Tagged(102, Some(Blob(SlotsOf(t, p, vs))), rest))
      && (p == PVarchar ==> PutData(t, vs, rest) == Tagged(102, Some(Leb128.Uleb(|vs|)), Texts(vs, rest)))
  {
    hide Slots, SlotsOf, PutStringLikes, Texts, Blob, Tagged, Wire.PutFieldId, Wire.PutUleb, Wire.PutBlob, Leb128.Uleb,
      GetPhysicalType, GetStructChildren, GetChildType, GetArraySize;
    var p := GetPhysicalType(t).value;
    if PhysicalTypeSize(p).Some? {
      SlotsLayout(t, p, vs);
      BlobField(102, Slots(t, p, vs), rest);
    } else if p == PVarchar {
      TextsLayout(vs, rest);
      NumberField(102, |vs|, PutStringLikes(vs, rest));
    }
  }

  /** The columns of the fields behind their number; the elements of all lists behind their number
      and the entries; the elements of all arrays behind the size of each. */
  lemma NestedDataLayout(t: LogicalType, vs: seq<Value>, rest: seq<byte>)
    requires CanEncode(t, vs)
    ensures var p := GetPhysicalType(t).value;
      && (p == PStruct ==>
            var children := GetStructChildren(t).value;
            PutData(t, vs, rest) == Tagged(103, Some(Leb128.Uleb(|children|)), PutColumns(children, vs, t, rest)))
      && (p == PList ==>
            var items := Flatten(vs, 0);
            && |items| < TWO_64
            && PutData(t, vs, rest) ==
              Tagged(104, Some(Leb128.Uleb(|items|)), Tagged(105, Some(Leb128.Uleb(|vs|)), EntryObjects(Entries(vs, 0),
                [106, 0] + PutVector(GetChildType(t).value, items, rest)))))
      && (p == PArray ==>
            PutData(t, vs, rest) ==
              Tagged(103, Some(Leb128.Uleb(GetArraySize(t).value)),
                [104, 0] + PutVector(GetChildType(t).value, Flatten(vs, GetArraySize(t).value), rest)))
  {
    hide PutColumns, PutVector, Entries, EntryObjects, PutEntryList, Flatten, Tagged, Wire.PutFieldId, Wire.PutUleb,
      Leb128.Uleb, GetPhysicalType, GetStructChildren, GetChildType, GetArraySize;
    var p := GetPhysicalType(t).value;
    if p == PStruct {
      var children := GetStructChildren(t).value;
      NumberField(103, |children|, PutColumns(children, vs, t, rest));
    } else if p == PList {
      var items := Flatten(vs, 0);
      var elements := PutVector(GetChildType(t).value, items, rest);
      TagField(106, [], elements);
      var es := Entries(vs, 0);
      EntriesLayout(es, PutFieldId(106, elements));
      NumberField(105, |es|, PutEntryList(es, PutFieldId(106, elements)));
      NumberField(104, |items|, PutFieldId(105, PutEntries(es, PutFieldId(106, elements))));
    } else if p == PArray {
      var items := PutVector(GetChildType(t).value, Flatten(vs, GetArraySize(t).value), rest);
      TagField(104, [], items);
      NumberField(103, GetArraySize(t).value, PutFieldId(104, items));
    }
  }

  // ---- compressed layouts ----

  /** Row numbers of four bytes each, from the low byte up. */
  function Rows(selection: seq<u32>): seq<byte> {
    if selection == [] then [] else LowBytes(4, selection[0]) + Rows(selection[1..])
  }

  /** Constants, dictionaries and sequences say so with a number in field 90. */
  lemma PackedLayout(t: LogicalType, w: Packed, rest: seq<byte>)
    requires Legal(t, w)
    ensures w.ConstantOf? ==> PutPacked(t, w, rest) == [90, 0, 2] + PutPacked(t, w.inner, rest)
    ensures w.DictionaryOf? ==> (PutPacked(t, w, rest) ==
      [90, 0, 3] + Tagged(91, Some(Blob(Rows(w.selection))),
        Tagged(92, Some(Leb128.Uleb(Count(w.inner))), PutPacked(t, w.inner, rest))))
    ensures w.SequenceOf? ==> (PutPacked(t, w, rest) ==
      [90, 0, 4] + Tagged(91, Some(Leb128.Sleb(w.start)), Tagged(92, Some(Leb128.Sleb(w.increment)), rest)))
  {
    match w
    case FlatValues(_) =>
    case ConstantOf(_, inner) =>
      KindTag(2, PutPacked(t, inner, rest));
    case DictionaryOf(selection, inner) =>
      DictionaryLayout(selection, Count(inner), PutPacked(t, inner, rest));
    case SequenceOf(_, start, increment) =>
      SequenceLayout(start, increment, rest);
  }

  lemma KindTag(kind: byte, rest: seq<byte>)
    requires kind < 0x80
    ensures PutFieldId(90, PutUleb(kind, rest)) == [90, 0, kind] + rest
  {
    assert Leb128.Uleb(kind) == [kind];
    hide Leb128.Uleb, Wire.PutFieldId, Wire.PutUleb;
    NumberField(90, kind, rest);
    assert [90, 0] + ([kind] + rest) == [90, 0, kind] + rest;
  }

  lemma {:induction false} RowsLayout(selection: seq<u32>)
    ensures SelectionBytes(selection) == Rows(selection)
  {
    if selection != [] {
      RowsLayout(selection[1..]);
      RangeValues();
      SmallMod(selection[0], TWO_32);
    }
  }

  lemma DictionaryLayout(selection: seq<u32>, n: u64, dictionary: seq<byte>)
    requires 4 * |selection| < TWO_64
    ensures PutFieldId(90, PutUleb(3, PutFieldId(91, PutBlob(SelectionBytes(selection),
        PutFieldId(92, PutUleb(n, dictionary)))))) ==
      [90, 0, 3] + Tagged(91, Some(Blob(Rows(selection))), Tagged(92, Some(Leb128.Uleb(n)), dictionary))
  {
    hide Leb128.Uleb, Wire.PutFieldId, Wire.PutUleb, Wire.PutBlob, Blob, Tagged, Rows, SelectionBytes;
    RowsLayout(selection);
    NumberField(92, n, dictionary);
    var sized := PutFieldId(92, PutUleb(n, dictionary));
    BlobField(91, SelectionBytes(selection), sized);
    KindTag(3, PutFieldId(91, PutBlob(SelectionBytes(selection), sized)));
  }

  lemma SequenceLayout(start: i128, increment: i128, rest: seq<byte>)
    ensures PutFieldId(90, PutUleb(4, PutFieldId(91, PutSleb(start, PutFieldId(92, PutSleb(increment, rest)))))) ==
      [90, 0, 4] + Tagged(91, Some(Leb128.Sleb(start)), Tagged(92, Some(Leb128.Sleb(increment)), rest))
  {
    hide Leb128.Sleb, Wire.PutFieldId, Wire.PutUleb;
    TagField(92, Leb128.Sleb(increment), rest);
    var more := PutFieldId(92, PutSleb(increment, rest));
    TagField(91, Leb128.Sleb(start), more);
    KindTag(4, PutFieldId(91, PutSleb(start, more)));
  }
}
