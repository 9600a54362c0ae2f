/** The loops that build arrays, refining `ArrowColumns`. */
module ArrowBuild {
  import opened Prelude
  import opened LogicalTypes
  import opened Values
  import opened Vectors
  import opened ArrowSchema
  import opened ArrowColumns

  lemma ListCase(t: LogicalType, d: ArrowType, vs: seq<Value>)
    requires t.id in {TypeId.List, Map}
    ensures BuildArray(t, d, vs) == if d.ListOf? then BuildList(t, d.item, vs) else Failure(Protocol)
  {
    hide BuildList, BuildFixedSizeList, BuildStruct, BuildDecimals, ByteStrings, Primitive, PrimitiveType;
  }

  lemma ArrayCase(t: LogicalType, d: ArrowType, vs: seq<Value>)
    requires t.id == TypeId.Array
    ensures BuildArray(t, d, vs) ==
      if d.FixedSizeListOf? then BuildFixedSizeList(t, d.item, d.size, vs) else Failure(Protocol)
  {
    hide BuildList, BuildFixedSizeList, BuildStruct, BuildDecimals, ByteStrings, Primitive, PrimitiveType;
  }

  lemma StructCase(t: LogicalType, d: ArrowType, vs: seq<Value>)
    requires t.id in {TypeId.Struct, Variant}
    ensures BuildArray(t, d, vs) == if d.StructOf? then BuildStruct(t, d.fields, vs) else Failure(Protocol)
  {
    hide BuildList, BuildFixedSizeList, BuildStruct, BuildDecimals, ByteStrings, Primitive, PrimitiveType;
  }

  lemma FlatCases(t: LogicalType, d: ArrowType, vs: seq<Value>)
    ensures t.id == SqlNull ==>
      BuildArray(t, d, vs) == if AllNull(vs) then Success(NullArray(|vs|)) else Failure(Protocol)
    ensures t.id == TypeId.Decimal ==> BuildArray(t, d, vs) == BuildDecimals(t, vs)
    ensures t.id in {Varchar, TypeId.Char, Enum, TypeId.Uuid} ==>
      BuildArray(t, d, vs) == ByteStrings(t.id, Utf8Text, vs)
    ensures t.id in {TypeId.Blob, Geometry, TypeId.Bit} ==> BuildArray(t, d, vs) == ByteStrings(t.id, Binary, vs)
    ensures t.id !in {SqlNull, TypeId.Decimal, Varchar, TypeId.Char, Enum, TypeId.Uuid, TypeId.Blob, Geometry,
                      TypeId.Bit, TypeId.List, Map, TypeId.Array, TypeId.Struct, Variant} ==>
      BuildArray(t, d, vs) == match PrimitiveType(t.id) {
        case Some(primitive) => Primitive(t.id, primitive, vs)
        case None => Failure(Unsupported)
      }
  {
    hide BuildList, BuildFixedSizeList, BuildStruct, BuildDecimals, ByteStrings, Primitive, PrimitiveType;
  }

  method Build(t: LogicalType, dataType: ArrowType, values: seq<Value>) returns (r: Result<ArrowArray>)
    ensures r == BuildArray(t, dataType, values)
    decreases t, 2
  {
    hide BuildArray, BuildList, BuildFixedSizeList, BuildStruct, BuildDecimals, ByteStrings, Primitive, PrimitiveType;
    FlatCases(t, dataType, values);
    match t.id
    case List | Map =>
      ListCase(t, dataType, values);
      if dataType.ListOf? {
        r := BuildListArray(t, dataType.item, values);
      } else {
        r := Failure(Protocol);
      }
    case Array =>
      ArrayCase(t, dataType, values);
      if dataType.FixedSizeListOf? {
        r := BuildFixedSizeListArray(t, dataType.item, dataType.size, values);
      } else {
        r := Failure(Protocol);
      }
    case Struct | Variant =>
      StructCase(t, dataType, values);
      if dataType.StructOf? {
        r := BuildStructArray(t, dataType.fields, values);
      } else {
        r := Failure(Protocol);
      }
    case SqlNull =>
      r := if AllNull(values) then Success(NullArray(|values|)) else Failure(Protocol);
    case Decimal => r := BuildDecimalArray(t, values);
    case Varchar | Char | Enum | Uuid => r := ByteStrings(t.id, Utf8Text, values);
    case Blob | Geometry | Bit => r := ByteStrings(t.id, Binary, values);
    case _ =>
      match PrimitiveType(t.id)
      case Some(primitive) => r := BuildPrimitive(t.id, primitive, values);
      case None => r := Failure(Unsupported);
  }

  method BuildDecimalArray(t: LogicalType, values: seq<Value>) returns (r: Result<ArrowArray>)
    ensures r == BuildDecimals(t, values)
  {
    hide ToCells;
    var parameters :- DecimalPrecisionAndScale(t);
    r := BuildPrimitive(t.id, Decimal128(parameters.0, parameters.1), values);
    if r.Success? && !ValidDecimal(parameters.0, parameters.1) {
      r := Failure(Protocol);
    }
  }

  method BuildPrimitive(id: TypeId, dataType: ArrowType, values: seq<Value>) returns (r: Result<ArrowArray>)
    ensures r == Primitive(id, dataType, values)
  {
    hide ToOptionalCell, ToCells, After;
    var cells: seq<Option<Cell>> := [];
    CellsAfter([], id, values);
    assert values[0..] == values;
    for i := 0 to |values|
      invariant After(cells, ToCells(id, values[i..])) == ToCells(id, values)
    {
      CellsAfter(cells, id, values[i..]);
      assert values[i..][0] == values[i] && values[i..][1..] == values[i + 1..];
      var cell :- ToOptionalCell(id, values[i]);
      cells := cells + [cell];
    }
    CellsAfter(cells, id, []);
    assert values[|values|..] == [];
    r := Success(Cells(dataType, cells));
  }

  lemma CellsAfter(done: seq<Option<Cell>>, id: TypeId, vs: seq<Value>)
    ensures After([], ToCells(id, vs)) == ToCells(id, vs)
    ensures vs == [] ==> After(done, ToCells(id, vs)) == Success(done)
    ensures vs != [] ==>
      (After(done, ToCells(id, vs)) ==
       match ToOptionalCell(id, vs[0]) {
         case Success(cell) => After(done + [cell], ToCells(id, vs[1..]))
         case Failure(e) => Failure(e)
       })
  {
    AfterNone(ToCells(id, vs));
    if vs == [] {
      assert done + [] == done;
    } else {
      hide ToOptionalCell;
      var first := ToOptionalCell(id, vs[0]);
      if first.Success? {
        AfterOne(done, first.value, ToCells(id, vs[1..]));
      }
    }
  }

  method BuildListArray(t: LogicalType, item: ArrowField, values: seq<Value>) returns (r: Result<ArrowArray>)
    ensures r == BuildList(t, item, values)
    decreases t, 1
  {
    hide BuildArray, Flatten, Offsets, Items, ValidRows;
    var offsets: seq<nat>, validity: seq<bool>, items: seq<Value> := [0], [], [];
    StartOfLists(values);
    for i := 0 to |values|
      invariant forall k | 0 <= k < i :: ListOrNull(values[k])
      invariant |items| <= I32_MAX && |offsets| == i + 1 && offsets[i] == |items|
      invariant items + Flatten(values[i..], 0) == Flatten(values, 0)
      invariant offsets[..i] + Offsets(values[i..], |items|) == Offsets(values, 0)
      invariant validity == ValidRows(values[..i])
    {
      ItemsStep(items, values, i, 0);
      OffsetsStep(offsets[..i], |items|, values, i);
      ValidStep(values, i);
      if !ListOrNull(values[i]) {
        return Failure(Protocol);
      }
      items := items + Items(values[i], 0);
      validity := validity + [!values[i].Null?];
      if |items| > I32_MAX {
        return Failure(Protocol);
      }
      assert offsets[..i] + [offsets[i]] == offsets;
      ghost var before := offsets;
      offsets := offsets + [|items|];
      assert offsets[..i + 1] == before;
    }
    assert values[|values|..] == [] && values[..|values|] == values;
    EndOfLists(offsets, items, |values|);
    var child :- GetChildType(t);
    var built :- Build(child, item.dataType, items);
    r := if TypeOf(built) != item.dataType then Failure(Protocol)
         else Success(ListArray(item, offsets, validity, built));
  }

  lemma StartOfLists(values: seq<Value>)
    ensures values[0..] == values && [] + Flatten(values, 0) == Flatten(values, 0)
    ensures [] + Offsets(values, 0) == Offsets(values, 0) && ValidRows(values[..0]) == []
  {
  }

  lemma EndOfLists(offsets: seq<nat>, items: seq<Value>, n: nat)
    requires |offsets| == n + 1 && offsets[n] == |items|
    ensures items + Flatten([], 0) == items && offsets[..n] + Offsets([], |items|) == offsets
  {
  }

  /** Taking the elements of row `i`. */
  lemma ItemsStep(items: seq<Value>, values: seq<Value>, i: nat, pad: nat)
    requires i < |values|
    ensures items + Flatten(values[i..], pad) == items + Items(values[i], pad) + Flatten(values[i + 1..], pad)
    ensures |items + Items(values[i], pad)| <= |items + Flatten(values[i..], pad)|
  {
    assert values[i..][0] == values[i] && values[i..][1..] == values[i + 1..];
    hide Items;
  }

  lemma OffsetsStep(before: seq<nat>, start: nat, values: seq<Value>, i: nat)
    requires i < |values|
    ensures before + Offsets(values[i..], start) ==
      before + [start] + Offsets(values[i + 1..], start + |Items(values[i], 0)|)
  {
    assert values[i..][0] == values[i] && values[i..][1..] == values[i + 1..];
    hide Items;
  }

  lemma ValidStep(values: seq<Value>, i: nat)
    requires i < |values|
    ensures ValidRows(values[..i + 1]) == ValidRows(values[..i]) + [!values[i].Null?]
  {
  }

  method BuildFixedSizeListArray(t: LogicalType, item: ArrowField, size: i32, values: seq<Value>)
    returns (r: Result<ArrowArray>)
    ensures r == BuildFixedSizeList(t, item, size, values)
    decreases t, 1
  {
    hide BuildArray;
    if size < 0 {
      return Failure(Protocol);
    }
    hide Flatten, Items, ValidRows;
    var validity: seq<bool>, items: seq<Value> := [], [];
    StartOfArrays(values, size);
    for i := 0 to |values|
      invariant forall k | 0 <= k < i :: ArrayOrNull(values[k], size)
      invariant items + Flatten(values[i..], size) == Flatten(values, size)
      invariant validity == ValidRows(values[..i])
    {
      ItemsStep(items, values, i, size);
      ValidStep(values, i);
      if !ArrayOrNull(values[i], size) {
        return Failure(Protocol);
      }
      items := items + Items(values[i], size);
      validity := validity + [!values[i].Null?];
    }
    assert values[|values|..] == [] && values[..|values|] == values;
    EndOfArrays(items, size);
    var child :- GetChildType(t);
    var built :- Build(child, item.dataType, items);
    r := if TypeOf(built) != item.dataType then Failure(Protocol)
         else Success(FixedSizeListArray(item, size, validity, built));
  }

  lemma StartOfArrays(values: seq<Value>, size: nat)
    ensures values[0..] == values && [] + Flatten(values, size) == Flatten(values, size) && ValidRows(values[..0]) == []
  {
  }

  lemma EndOfArrays(items: seq<Value>, size: nat)
    ensures items + Flatten([], size) == items
  {
  }

  method BuildStructArray(t: LogicalType, fields: seq<ArrowField>, values: seq<Value>) returns (r: Result<ArrowArray>)
    ensures r == BuildStruct(t, fields, values)
    decreases t, 1
  {
    hide BuildArray, ChildValues;
    var children :- GetStructChildren(t);
    if |children| != |fields| {
      return Failure(Protocol);
    }
    var validity := [];
    for i := 0 to |values|
      invariant forall k | 0 <= k < i :: StructOrNull(values[k], |children|)
      invariant validity == ValidRows(values[..i])
    {
      assert ValidRows(values[..i + 1]) == ValidRows(values[..i]) + [!values[i].Null?];
      if !StructOrNull(values[i], |children|) {
        return Failure(Protocol);
      }
      validity := validity + [values[i].Struct?];
    }
    assert values[..|values|] == values;
    var arrays :- BuildColumnArrays(t, children, fields, values);
    if exists k | 0 <= k < |fields| :: TypeOf(arrays[k]) != fields[k].dataType {
      return Failure(Protocol);
    }
    r := Success(StructArray(fields, validity, arrays));
  }

  method BuildColumnArrays(ghost t: LogicalType, children: seq<ChildType>, fields: seq<ArrowField>, values: seq<Value>)
    returns (r: Result<seq<ArrowArray>>)
    requires Inside(children, t) && |fields| == |children|
    ensures r == BuildColumns(t, children, fields, 0, values)
    decreases t, 0
  {
    hide BuildArray, ChildValues, BuildColumns, After;
    var arrays: seq<ArrowArray> := [];
    AfterNone(BuildColumns(t, children, fields, 0, values));
    for k := 0 to |children|
      invariant |arrays| == k
      invariant After(arrays, BuildColumns(t, children, fields, k, values)) ==
        BuildColumns(t, children, fields, 0, values)
    {
      ColumnsAfter(arrays, t, children, fields, k, values);
      var column :- ChildValues(values, k, children[k].name);
      var built :- Build(children[k].logicalType, fields[k].dataType, column);
      arrays := arrays + [built];
    }
    ColumnsAfter(arrays, t, children, fields, |children|, values);
    r := Success(arrays);
  }

  /** What one round does to the arrays still to be built. */
  function OneColumn(done: seq<ArrowArray>, t: LogicalType, children: seq<ChildType>, fields: seq<ArrowField>, k: nat,
                     vs: seq<Value>): Result<seq<ArrowArray>>
    requires Inside(children, t) && |fields| == |children| && k < |children|
  {
    var column :- ChildValues(vs, k, children[k].name);
    var built :- BuildArray(children[k].logicalType, fields[k].dataType, column);
    After(done + [built], BuildColumns(t, children, fields, k + 1, vs))
  }

  lemma ColumnsAfter(done: seq<ArrowArray>, t: LogicalType, children: seq<ChildType>, fields: seq<ArrowField>, k: nat,
                     vs: seq<Value>)
    requires Inside(children, t) && |fields| == |children| && k <= |children|
    ensures var r := After(done, BuildColumns(t, children, fields, k, vs));
      r == if k == |children| then Success(done) else OneColumn(done, t, children, fields, k, vs)
  {
    hide BuildArray, ChildValues;
    if k == |children| {
      assert done + [] == done;
    } else {
      var column := ChildValues(vs, k, children[k].name);
      if column.Success? {
        var built := BuildArray(children[k].logicalType, fields[k].dataType, column.value);
        if built.Success? {
          AfterOne(done, built.value, BuildColumns(t, children, fields, k + 1, vs));
        }
      }
    }
  }
}
