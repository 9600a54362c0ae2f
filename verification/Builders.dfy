/** Building chunks to append: rows become columns, and values are brought into the
    shape of their column type first. */
module Builders {
  import opened Prelude
  import opened Wire
  import opened LogicalTypes
  import opened TypeCodec
  import opened Values
  import opened Vectors
  import opened VectorRoundTrips
  import opened Chunks

  // ---- the shape of a column type ----

  function Normalize(v: Value, t: LogicalType): Result<Value>
    decreases t, 0
  {
    if v.List? && t.id in {TypeId.List, Map, TypeId.Array} then
      var child :- GetChildType(t);
      var items :- NormalizeAll(v.items, child);
      Success(Value.List(items))
    else if v.Struct? && t.id == TypeId.Struct then
      var children :- GetStructChildren(t);
      var row :- NormalizeRow(v.row, children, []);
      Success(Value.Struct(row))
    else Success(v)
  }

  function NormalizeAll(vs: seq<Value>, t: LogicalType): (r: Result<seq<Value>>)
    ensures r.Success? ==> |r.value| == |vs|
    decreases t, 1, |vs|
  {
    if vs == [] then Success([])
    else
      var u :- Normalize(vs[0], t);
      var us :- NormalizeAll(vs[1..], t);
      Success([u] + us)
  }

  /** `out` with the remaining children of the row inserted; a missing field is null. */
  function NormalizeRow(row: seq<Field>, children: seq<ChildType>, out: seq<Field>): Result<seq<Field>>
    decreases children
  {
    if children == [] then Success(out)
    else
      var u :- Normalize(Get(row, children[0].name).GetOr(Null), children[0].logicalType);
      NormalizeRow(row, children[1..], Insert(out, children[0].name, u))
  }

  method NormalizeAppendValue(v: Value, t: LogicalType) returns (r: Result<Value>)
    ensures r == Normalize(v, t)
    decreases t
  {
    if v.List? && t.id in {TypeId.List, Map, TypeId.Array} {
      var child :- GetChildType(t);
      var items :- NormalizeAll(v.items, child);
      return Success(Value.List(items));
    }
    if v.Struct? && t.id == TypeId.Struct {
      var children :- GetStructChildren(t);
      var normalized := [];
      assert children[0..] == children;
      for k := 0 to |children|
        invariant NormalizeRow(v.row, children[k..], normalized) == NormalizeRow(v.row, children, [])
      {
        assert children[k..][0] == children[k] && children[k..][1..] == children[k + 1..];
        var u :- NormalizeAppendValue(Get(v.row, children[k].name).GetOr(Null), children[k].logicalType);
        normalized := Insert(normalized, children[k].name, u);
      }
      return Success(Value.Struct(normalized));
    }
    r := Success(v);
  }

  // ---- chunks ----

  datatype ColumnInput = ColumnInput(name: Option<text>, logicalType: LogicalType, values: vec<Value>)

  datatype ColumnDefinition = ColumnDefinition(name: text, logicalType: LogicalType)

  predicate SameLengths(inputs: seq<ColumnInput>) {
    forall k | 0 <= k < |inputs| :: |inputs[k].values| == |inputs[0].values|
  }

  function InputName(input: ColumnInput, k: u64): text {
    input.name.GetOr(DefaultName(k))
  }

  /** The chunk of some columns: at least one of them, and all of one length. */
  method BuildDataChunk(inputs: vec<ColumnInput>) returns (r: Result<DataChunk>)
    ensures r.Success? <==> inputs != [] && SameLengths(inputs)
    ensures r.Failure? ==> r.error == Protocol
    ensures r.Success? ==> r.value == ChunkOf(inputs)
  {
    if inputs == [] {
      return Failure(Protocol);
    }
    var rowCount := |inputs[0].values|;
    var types, columns, names := [], [], [];
    for k := 0 to |inputs|
      invariant forall j | 0 <= j < k :: |inputs[j].values| == rowCount
      invariant types == seq(k, j requires 0 <= j < k => inputs[j].logicalType)
      invariant columns == seq(k, j requires 0 <= j < k => DecodedVector(inputs[j].logicalType, Flat, inputs[j].values))
      invariant names == seq(k, j requires 0 <= j < k => InputName(inputs[j], j))
    {
      if |inputs[k].values| != rowCount {
        return Failure(Protocol);
      }
      names := names + [inputs[k].name.GetOr(DefaultName(k))];
      types := types + [inputs[k].logicalType];
      columns := columns + [DecodedVector(inputs[k].logicalType, Flat, inputs[k].values)];
    }
    r := Success(DataChunk(rowCount, types, columns, Some(names)));
  }

  function ChunkOf(inputs: vec<ColumnInput>): DataChunk
    requires inputs != []
  {
    DataChunk(|inputs[0].values|,
      seq(|inputs|, k requires 0 <= k < |inputs| => inputs[k].logicalType),
      seq(|inputs|, k requires 0 <= k < |inputs| => DecodedVector(inputs[k].logicalType, Flat, inputs[k].values)),
      Some(seq(|inputs|, k requires 0 <= k < |inputs| => InputName(inputs[k], k))))
  }

  function Structs(rows: seq<seq<Field>>): (vs: seq<Value>)
    ensures |vs| == |rows|
  {
    seq(|rows|, i requires 0 <= i < |rows| => Value.Struct(rows[i]))
  }

  /** The inputs of the rows, column by column. */
  function InputsFromRows(rows: vec<seq<Field>>, definitions: seq<ColumnDefinition>): (r: Result<seq<ColumnInput>>)
    ensures r.Success? ==> |r.value| == |definitions|
  {
    if definitions == [] then Success([])
    else
      var d := definitions[0];
      var values :- NormalizeAll(Column(Structs(rows), d.name), d.logicalType);
      var inputs :- InputsFromRows(rows, definitions[1..]);
      Success([ColumnInput(Some(d.name), d.logicalType, values)] + inputs)
  }

  function ChunkFromRows(rows: vec<seq<Field>>, definitions: vec<ColumnDefinition>): Result<DataChunk> {
    var inputs :- InputsFromRows(rows, definitions);
    if inputs == [] then Failure(Protocol) else Success(ChunkOf(inputs))
  }

  method DataChunkFromRows(rows: vec<seq<Field>>, definitions: vec<ColumnDefinition>) returns (r: Result<DataChunk>)
    ensures r == ChunkFromRows(rows, definitions)
  {
    var inputs :- InputsFromRows(rows, definitions);
    forall k | 0 <= k < |inputs|
      ensures |inputs[k].values| == |rows|
    {
      InputAt(rows, definitions, k);
    }
    r := BuildDataChunk(inputs);
  }

  lemma {:induction false} InputAt(rows: vec<seq<Field>>, definitions: seq<ColumnDefinition>, k: nat)
    requires k < |definitions| && InputsFromRows(rows, definitions).Success?
    ensures var d := definitions[k];
      var input := InputsFromRows(rows, definitions).value[k];
      input.name == Some(d.name) && input.logicalType == d.logicalType
      && NormalizeAll(Column(Structs(rows), d.name), d.logicalType) == Success(input.values)
  {
    if k > 0 {
      InputAt(rows, definitions[1..], k - 1);
    }
  }

  // ---- what normalising does to the parts ----

  predicate AllNormalized(t: LogicalType, vs: seq<Value>, us: seq<Value>) {
    |us| == |vs| && forall i | 0 <= i < |vs| :: Normalize(vs[i], t) == Success(us[i])
  }

  lemma {:induction false} NormalizeEach(t: LogicalType, vs: seq<Value>, us: seq<Value>)
    ensures NormalizeAll(vs, t) == Success(us) <==> AllNormalized(t, vs, us)
    decreases |vs|
  {
    hide Normalize;
    if vs != [] {
      if |us| > 0 {
        NormalizeEach(t, vs[1..], us[1..]);
        assert us == [us[0]] + us[1..];
        assert AllNormalized(t, vs, us) <==>
          Normalize(vs[0], t) == Success(us[0]) && AllNormalized(t, vs[1..], us[1..]) by {
          assert forall i | 0 < i < |vs| :: vs[1..][i - 1] == vs[i];
          assert forall i | 0 < i < |us| :: us[1..][i - 1] == us[i];
        }
      }
    }
  }

  predicate DistinctChildren(children: seq<ChildType>) {
    forall i, j | 0 <= i < j < |children| :: children[i].name != children[j].name
  }

  /** `out` is the row of the first `k` children, each with its normalised value. */
  predicate RowPrefix(row: seq<Field>, children: seq<ChildType>, k: nat, out: seq<Field>)
    requires k <= |children|
  {
    |out| == k && forall j | 0 <= j < k :: FieldNormalized(row, children[j], out[j])
  }

  predicate FieldNormalized(row: seq<Field>, c: ChildType, f: Field) {
    f.name == c.name && Normalize(Get(row, c.name).GetOr(Null), c.logicalType) == Success(f.value)
  }

  predicate RowNormalized(row: seq<Field>, children: seq<ChildType>, out: seq<Field>) {
    RowPrefix(row, children, |children|, out)
  }

  lemma {:induction false} RowBuilt(row: seq<Field>, children: seq<ChildType>, out: seq<Field>, k: nat)
    requires k <= |children| && DistinctChildren(children) && RowNormalized(row, children, out)
    ensures NormalizeRow(row, children[k..], out[..k]) == Success(out)
    decreases |children| - k
  {
    hide Normalize;
    if k == |children| {
      assert out[..k] == out;
    } else {
      assert FieldNormalized(row, children[k], out[k]);
      assert forall i | 0 <= i < k :: FieldNormalized(row, children[i], out[i]);
      InsertFresh(out[..k], children[k].name, out[k].value);
      assert children[k..][1..] == children[k + 1..] && out[..k] + [out[k]] == out[..k + 1];
      hide FieldNormalized, DistinctChildren;
      RowBuilt(row, children, out, k + 1);
    }
  }

  lemma {:induction false} RowParts(row: seq<Field>, children: seq<ChildType>, k: nat, done: seq<Field>)
    requires k <= |children| && DistinctChildren(children) && RowPrefix(row, children, k, done)
    requires NormalizeRow(row, children[k..], done).Success?
    ensures RowNormalized(row, children, NormalizeRow(row, children[k..], done).value)
    decreases |children| - k
  {
    hide Normalize;
    if k < |children| {
      var c := children[k];
      var u := Normalize(Get(row, c.name).GetOr(Null), c.logicalType).value;
      assert FieldNormalized(row, c, Field(c.name, u));
      assert forall i | 0 <= i < k :: done[i].name != c.name;
      InsertFresh(done, c.name, u);
      assert children[k..][1..] == children[k + 1..];
      hide FieldNormalized;
      RowParts(row, children, k + 1, done + [Field(c.name, u)]);
    }
  }

  /** A normalised row, in one step. */
  lemma NormalizeRowIs(row: seq<Field>, children: seq<ChildType>, out: seq<Field>)
    requires DistinctChildren(children)
    ensures NormalizeRow(row, children, []) == Success(out) <==> RowNormalized(row, children, out)
  {
    hide Normalize;
    assert children[0..] == children;
    if RowNormalized(row, children, out) {
      RowBuilt(row, children, out, 0);
      assert out[..0] == [];
    }
    if NormalizeRow(row, children, []) == Success(out) {
      RowParts(row, children, 0, []);
    }
  }

  /** Struct types whose fields have different names, at every depth. */
  predicate Tidy(t: LogicalType)
    decreases t
  {
    && (GetChildType(t).Success? ==> Tidy(GetChildType(t).value))
    && (GetStructChildren(t).Success? ==>
          && DistinctChildren(GetStructChildren(t).value)
          && forall k | 0 <= k < |GetStructChildren(t).value| :: Tidy(GetStructChildren(t).value[k].logicalType))
  }

  /** Normalising twice is normalising once. */
  lemma {:induction false} NormalizeIdempotent(v: Value, t: LogicalType)
    requires Tidy(t) && Normalize(v, t).Success?
    ensures Normalize(Normalize(v, t).value, t) == Normalize(v, t)
    decreases t
  {
    hide GetChildType, GetStructChildren, NormalizeAll, NormalizeRow;
    var u := Normalize(v, t).value;
    if v.List? && t.id in {TypeId.List, Map, TypeId.Array} {
      var child := GetChildType(t).value;
      NormalizeEach(child, v.items, u.items);
      forall i | 0 <= i < |u.items|
        ensures Normalize(u.items[i], child) == Success(u.items[i])
      {
        NormalizeIdempotent(v.items[i], child);
      }
      NormalizeEach(child, u.items, u.items);
    } else if v.Struct? && t.id == TypeId.Struct {
      var children := GetStructChildren(t).value;
      NormalizeRowIs(v.row, children, u.row);
      forall k | 0 <= k < |children|
        ensures FieldNormalized(u.row, children[k], u.row[k])
      {
        assert FieldNormalized(v.row, children[k], u.row[k]);
        assert forall i | 0 <= i < |children| :: FieldNormalized(v.row, children[i], u.row[i]);
        assert DistinctNames(u.row);
        GetAt(u.row, k);
        NormalizeIdempotent(Get(v.row, children[k].name).GetOr(Null), children[k].logicalType);
      }
      NormalizeRowIs(u.row, children, u.row);
    }
  }

  /** Every struct in the value has the fields of its type, in order and no others. */
  predicate Conforms(t: LogicalType, v: Value)
    decreases t
  {
    if v.List? && t.id in {TypeId.List, Map, TypeId.Array} then
      GetChildType(t).Success? && forall i | 0 <= i < |v.items| :: Conforms(GetChildType(t).value, v.items[i])
    else if v.Struct? && t.id == TypeId.Struct then
      && GetStructChildren(t).Success? && |v.row| == |GetStructChildren(t).value|
      && (forall k | 0 <= k < |v.row| :: v.row[k].name == GetStructChildren(t).value[k].name)
      && (forall k | 0 <= k < |v.row| :: Conforms(GetStructChildren(t).value[k].logicalType, v.row[k].value))
    else true
  }

  /** A normalised value conforms to its type at every depth, and a value that conforms
      already is left alone: normalising is the projection onto those values. */
  lemma {:induction false} NormalizeConforms(v: Value, t: LogicalType)
    requires Tidy(t)
    ensures Normalize(v, t).Success? ==> Conforms(t, Normalize(v, t).value)
    ensures Conforms(t, v) ==> Normalize(v, t) == Success(v)
    decreases t
  {
    hide GetChildType, GetStructChildren, NormalizeAll, NormalizeRow;
    if v.List? && t.id in {TypeId.List, Map, TypeId.Array} {
      if GetChildType(t).Success? {
        ItemsConform(v.items, t);
      }
    } else if v.Struct? && t.id == TypeId.Struct {
      if GetStructChildren(t).Success? {
        RowConforms(v.row, t);
      }
    }
  }

  lemma {:induction false} ItemsConform(vs: seq<Value>, t: LogicalType)
    requires Tidy(t) && GetChildType(t).Success?
    ensures var child := GetChildType(t).value;
      var r := NormalizeAll(vs, child);
      && (r.Success? ==> forall i | 0 <= i < |r.value| :: Conforms(child, r.value[i]))
      && ((forall i | 0 <= i < |vs| :: Conforms(child, vs[i])) ==> r == Success(vs))
    decreases t, 0
  {
    hide GetChildType, NormalizeAll, Normalize;
    var child := GetChildType(t).value;
    ChildIsTidy(t);
    forall i | 0 <= i < |vs|
      ensures Normalize(vs[i], child).Success? ==> Conforms(child, Normalize(vs[i], child).value)
      ensures Conforms(child, vs[i]) ==> Normalize(vs[i], child) == Success(vs[i])
    {
      NormalizeConforms(vs[i], child);
    }
    var r := NormalizeAll(vs, child);
    if r.Success? {
      NormalizeEach(child, vs, r.value);
    }
    NormalizeEach(child, vs, vs);
  }

  lemma {:induction false} RowConforms(row: seq<Field>, t: LogicalType)
    requires Tidy(t) && GetStructChildren(t).Success?
    ensures var children := GetStructChildren(t).value;
      var r := NormalizeRow(row, children, []);
      && (r.Success? ==> RowFits(children, r.value))
      && (RowFits(children, row) ==> r == Success(row))
    decreases t, 0
  {
    hide GetStructChildren, NormalizeRow, Normalize;
    var children := GetStructChildren(t).value;
    forall k | 0 <= k < |children|
      ensures var v := Get(row, children[k].name).GetOr(Null);
        var c := children[k].logicalType;
        && (Normalize(v, c).Success? ==> Conforms(c, Normalize(v, c).value))
        && (Conforms(c, v) ==> Normalize(v, c) == Success(v))
    {
      NormalizeConforms(Get(row, children[k].name).GetOr(Null), children[k].logicalType);
    }
    var r := NormalizeRow(row, children, []);
    if r.Success? {
      NormalizeRowIs(row, children, r.value);
      assert forall k | 0 <= k < |children| :: FieldNormalized(row, children[k], r.value[k]);
    }
    if RowFits(children, row) {
      assert DistinctNames(row);
      forall k | 0 <= k < |children|
        ensures FieldNormalized(row, children[k], row[k])
      {
        GetAt(row, k);
      }
      NormalizeRowIs(row, children, row);
    }
  }

  predicate RowFits(children: seq<ChildType>, row: seq<Field>) {
    && |row| == |children|
    && (forall k | 0 <= k < |row| :: row[k].name == children[k].name)
    && (forall k | 0 <= k < |row| :: Conforms(children[k].logicalType, row[k].value))
  }

  // ---- normalising leaves the bytes alone ----

  /** What the writer looks at first is not touched. */
  lemma ShapeKept(t: LogicalType, v: Value, u: Value)
    requires Normalize(v, t) == Success(u)
    ensures u.Null? == v.Null? && u.List? == v.List?
    ensures u.List? ==> |u.items| == |v.items|
    ensures t.id !in {TypeId.List, Map, TypeId.Array, TypeId.Struct} ==> u == v
  {
  }

  lemma {:induction false} FlattenNormalized(t: LogicalType, vs: seq<Value>, us: seq<Value>, pad: nat)
    requires t.id in {TypeId.List, Map, TypeId.Array} && GetChildType(t).Success? && AllNormalized(t, vs, us)
    requires forall i | 0 <= i < |vs| :: ListOrNull(vs[i])
    ensures AllNormalized(GetChildType(t).value, Flatten(vs, pad), Flatten(us, pad))
    decreases |vs|
  {
    hide GetChildType, Normalize;
    if vs != [] {
      assert Normalize(vs[0], t) == Success(us[0]);
      ItemsNormalized(t, vs[0], us[0], pad);
      FlattenNormalized(t, vs[1..], us[1..], pad);
      hide AllNormalized, Items;
      BothNormalized(GetChildType(t).value, Items(vs[0], pad), Items(us[0], pad),
                     Flatten(vs[1..], pad), Flatten(us[1..], pad));
    }
  }

  lemma ItemsNormalized(t: LogicalType, v: Value, u: Value, pad: nat)
    requires t.id in {TypeId.List, Map, TypeId.Array} && GetChildType(t).Success?
    requires ListOrNull(v) && Normalize(v, t) == Success(u)
    ensures AllNormalized(GetChildType(t).value, Items(v, pad), Items(u, pad))
  {
    if v.List? {
      NormalizeEach(GetChildType(t).value, v.items, u.items);
    }
  }

  lemma BothNormalized(t: LogicalType, vs: seq<Value>, us: seq<Value>, vs': seq<Value>, us': seq<Value>)
    requires AllNormalized(t, vs, us) && AllNormalized(t, vs', us')
    ensures AllNormalized(t, vs + vs', us + us')
  {
    hide Normalize;
  }

  lemma {:induction false} SameEntries(t: LogicalType, vs: seq<Value>, us: seq<Value>, start: nat)
    requires AllNormalized(t, vs, us)
    ensures |Flatten(us, 0)| == |Flatten(vs, 0)|
    ensures start + |Flatten(vs, 0)| < TWO_64 ==> Entries(us, start) == Entries(vs, start)
    decreases |vs|
  {
    hide Normalize;
    if vs != [] {
      assert Normalize(vs[0], t) == Success(us[0]);
      ShapeKept(t, vs[0], us[0]);
      SameEntries(t, vs[1..], us[1..], start + |Items(vs[0], 0)|);
    }
  }

  lemma ColumnNormalized(t: LogicalType, vs: seq<Value>, us: seq<Value>, k: nat)
    requires t.id == TypeId.Struct && GetStructChildren(t).Success? && AllNormalized(t, vs, us)
    requires DistinctChildren(GetStructChildren(t).value) && k < |GetStructChildren(t).value|
    ensures var c := GetStructChildren(t).value[k];
      AllNormalized(c.logicalType, Column(vs, c.name), Column(us, c.name))
  {
    hide NormalizeRow, GetStructChildren;
    var children := GetStructChildren(t).value;
    forall i | 0 <= i < |vs|
      ensures Normalize(FieldOf(vs[i], children[k].name), children[k].logicalType) ==
        Success(FieldOf(us[i], children[k].name))
    {
      assert Normalize(vs[i], t) == Success(us[i]);
      if vs[i].Struct? {
        NormalizeRowIs(vs[i].row, children, us[i].row);
        assert forall j | 0 <= j < |children| :: FieldNormalized(vs[i].row, children[j], us[i].row[j]);
        assert DistinctNames(us[i].row);
        GetAt(us[i].row, k);
      }
    }
  }

  lemma Unchanged(t: LogicalType, vs: seq<Value>, us: seq<Value>)
    requires AllNormalized(t, vs, us) && t.id !in {TypeId.List, Map, TypeId.Array, TypeId.Struct}
    ensures us == vs
  {
    forall i | 0 <= i < |vs|
      ensures us[i] == vs[i]
    {
      ShapeKept(t, vs[i], us[i]);
    }
  }

  lemma SameShapes(t: LogicalType, vs: seq<Value>, us: seq<Value>)
    requires AllNormalized(t, vs, us)
    ensures forall i | 0 <= i < |vs| :: us[i].Null? == vs[i].Null? && ListOrNull(us[i]) == ListOrNull(vs[i])
    ensures forall i, n: nat | 0 <= i < |vs| :: ArrayOrNull(us[i], n) == ArrayOrNull(vs[i], n)
    ensures ValidRows(us) == ValidRows(vs) && (Null in us <==> Null in vs)
  {
    forall i | 0 <= i < |vs|
      ensures us[i].Null? == vs[i].Null? && us[i].List? == vs[i].List?
      ensures us[i].List? ==> |us[i].items| == |vs[i].items|
    {
      ShapeKept(t, vs[i], us[i]);
    }
    if Null in vs {
      var i :| 0 <= i < |vs| && vs[i] == Null;
      assert us[i] == Null;
    }
    if Null in us {
      var i :| 0 <= i < |us| && us[i] == Null;
      assert vs[i] == Null;
    }
  }

  /** The writer accepts the normalised values exactly when it accepts the originals. */
  lemma {:induction false} NormalizedEncodes(t: LogicalType, vs: seq<Value>, us: seq<Value>)
    requires Tidy(t) && AllNormalized(t, vs, us)
    ensures CanEncode(t, us) == CanEncode(t, vs)
    decreases t
  {
    hide Normalize, GetChildType, GetStructChildren, GetArraySize, Flatten, Column;
    if t.id !in {TypeId.List, Map, TypeId.Array, TypeId.Struct} {
      Unchanged(t, vs, us);
    } else if t.id == TypeId.Struct {
      if GetStructChildren(t).Success? {
        var children := GetStructChildren(t).value;
        forall k | 0 <= k < |children|
          ensures CanEncode(children[k].logicalType, Column(us, children[k].name)) ==
                  CanEncode(children[k].logicalType, Column(vs, children[k].name))
        {
          ColumnNormalized(t, vs, us, k);
          NormalizedEncodes(children[k].logicalType, Column(vs, children[k].name), Column(us, children[k].name));
        }
      }
    } else {
      NormalizedNestedEncodes(t, vs, us);
    }
  }

  lemma {:induction false} NormalizedNestedEncodes(t: LogicalType, vs: seq<Value>, us: seq<Value>)
    requires Tidy(t) && AllNormalized(t, vs, us) && t.id in {TypeId.List, Map, TypeId.Array}
    ensures CanEncode(t, us) == CanEncode(t, vs)
    decreases t, 0
  {
    hide Normalize, GetChildType, GetArraySize, Flatten, Tidy, CanEncode;
    SameShapes(t, vs, us);
    NestedEncodes(t, vs);
    NestedEncodes(t, us);
    if GetChildType(t).Success? && forall i | 0 <= i < |vs| :: ListOrNull(vs[i]) {
      var child := GetChildType(t).value;
      ChildIsTidy(t);
      FlattenNormalized(t, vs, us, Padding(t));
      NormalizedEncodes(child, Flatten(vs, Padding(t)), Flatten(us, Padding(t)));
    }
  }

  /** How many elements a null takes. */
  function Padding(t: LogicalType): nat {
    if t.id == TypeId.Array && GetArraySize(t).Success? then GetArraySize(t).value else 0
  }

  predicate NestedOrNull(t: LogicalType, v: Value) {
    ListOrNull(v) && (t.id == TypeId.Array ==> ArrayOrNull(v, Padding(t)))
  }

  /** The writer's conditions for a column of lists or arrays. */
  lemma NestedEncodes(t: LogicalType, vs: seq<Value>)
    requires t.id in {TypeId.List, Map, TypeId.Array}
    ensures CanEncode(t, vs) <==>
      && |vs| < MAX_ROWS && GetChildType(t).Success? && (t.id == TypeId.Array ==> GetArraySize(t).Success?)
      && (forall i | 0 <= i < |vs| :: NestedOrNull(t, vs[i]))
      && CanEncode(GetChildType(t).value, Flatten(vs, Padding(t)))
  {
    hide GetChildType, GetArraySize, Flatten;
    if t.id == TypeId.Array {
      assert GetPhysicalType(t) == Success(PArray);
      hide GetPhysicalType;
      assert GetArraySize(t).Success? ==> forall v :: NestedOrNull(t, v) <==> ArrayOrNull(v, GetArraySize(t).value);
    } else {
      assert GetPhysicalType(t) == Success(PList);
      hide GetPhysicalType;
    }
  }

  lemma ChildIsTidy(t: LogicalType)
    requires Tidy(t) && GetChildType(t).Success?
    ensures Tidy(GetChildType(t).value) && GetChildType(t).value < t
  {
  }

  /** Normalised or not, the bytes are the same. */
  lemma {:induction false} NormalizedVector(t: LogicalType, vs: seq<Value>, us: seq<Value>, tail: seq<byte>)
    requires Tidy(t) && AllNormalized(t, vs, us) && CanEncode(t, vs) && CanEncode(t, us)
    ensures PutVector(t, us, tail) == PutVector(t, vs, tail)
    decreases t, 2
  {
    hide PutData, CanEncode, Tidy, Normalize, Wire.PutEnd;
    SameShapes(t, vs, us);
    NormalizedData(t, vs, us, PutEnd(tail));
  }

  lemma {:induction false} NormalizedData(t: LogicalType, vs: seq<Value>, us: seq<Value>, tail: seq<byte>)
    requires Tidy(t) && AllNormalized(t, vs, us) && CanEncode(t, vs) && CanEncode(t, us)
    ensures PutData(t, us, tail) == PutData(t, vs, tail)
    decreases t, 1
  {
    hide Normalize, GetChildType, GetStructChildren, GetArraySize, Flatten, Column, PutVector, PutColumns, PutEntries,
      Entries, Wire.PutFieldId, Wire.PutUleb, Wire.PutBlob, Slots, PutStringLikes;
    if t.id !in {TypeId.List, Map, TypeId.Array, TypeId.Struct} {
      Unchanged(t, vs, us);
    } else if t.id == TypeId.Struct {
      var children := GetStructChildren(t).value;
      forall k | 0 <= k < |children|
        ensures AllNormalized(children[k].logicalType, Column(vs, children[k].name), Column(us, children[k].name))
      {
        ColumnNormalized(t, vs, us, k);
      }
      NormalizedColumns(t, children, vs, us, tail);
    } else {
      assert forall i | 0 <= i < |vs| :: ListOrNull(vs[i]);
      var pad := if t.id == TypeId.Array then GetArraySize(t).value else 0;
      FlattenNormalized(t, vs, us, pad);
      SameEntries(t, vs, us, 0);
      NormalizedVector(GetChildType(t).value, Flatten(vs, pad), Flatten(us, pad), tail);
    }
  }

  lemma {:induction false} NormalizedColumns(t: LogicalType, children: seq<ChildType>, vs: seq<Value>, us: seq<Value>,
                                             tail: seq<byte>)
    requires Inside(children, t) && ColumnsEncode(children, vs) && ColumnsEncode(children, us)
    requires forall k | 0 <= k < |children| :: Tidy(children[k].logicalType)
    requires forall k | 0 <= k < |children| ::
      AllNormalized(children[k].logicalType, Column(vs, children[k].name), Column(us, children[k].name))
    ensures PutColumns(children, us, t, tail) == PutColumns(children, vs, t, tail)
    decreases t, 0, |children|
  {
    hide PutVector, CanEncode, Column, AllNormalized, Tidy;
    if children != [] {
      var rest, name := children[1..], children[0].name;
      assert forall k | 0 <= k < |rest| :: rest[k] == children[k + 1];
      NormalizedColumns(t, rest, vs, us, tail);
      NormalizedVector(children[0].logicalType, Column(vs, name), Column(us, name), PutColumns(rest, vs, t, tail));
    }
  }

  /** Appending normalised values or the originals sends byte-identical vectors. */
  lemma NormalizeInvisible(t: LogicalType, vs: seq<Value>, suffix: seq<byte>)
    requires Tidy(t) && NormalizeAll(vs, t).Success?
    ensures var us := NormalizeAll(vs, t).value;
      CanEncode(t, us) == CanEncode(t, vs)
      && (CanEncode(t, vs) ==> PutVector(t, us, suffix) == PutVector(t, vs, suffix))
  {
    hide NormalizeAll, CanEncode, PutVector, Tidy, AllNormalized;
    var us := NormalizeAll(vs, t).value;
    NormalizeEach(t, vs, us);
    NormalizedEncodes(t, vs, us);
    if CanEncode(t, vs) {
      NormalizedVector(t, vs, us, suffix);
    }
  }

  // ---- appending rows ----

  function Names(definitions: seq<ColumnDefinition>): (names: seq<text>)
    ensures |names| == |definitions|
  {
    seq(|definitions|, k requires 0 <= k < |definitions| => definitions[k].name)
  }

  /** `out` holds, in column order, each field of `row` in the shape of its column. */
  predicate AppendedRow(row: seq<Field>, definitions: seq<ColumnDefinition>, out: seq<Field>) {
    && |out| == |definitions|
    && forall k | 0 <= k < |definitions| ::
      FieldNormalized(row, ChildType(definitions[k].name, definitions[k].logicalType), out[k])
  }

  /** Rows made into a chunk, sent, read and made into rows again are the normalised rows. */
  lemma AppendRoundTrip(rows: vec<seq<Field>>, definitions: vec<ColumnDefinition>, c: DataChunk, suffix: seq<byte>)
    requires DistinctTexts(Names(definitions)) && ChunkFromRows(rows, definitions) == Success(c)
    requires CanEncodeChunk(c) && TypedChunk(c) && ReadableChunk(c)
    ensures var p := ReadChunk(PutChunk(c, suffix));
      p.Parse? && p.rest == suffix
      && var out := RowsFromChunk(p.value, Names(definitions));
         |out| == |rows| && forall i | 0 <= i < |rows| :: AppendedRow(rows[i], definitions, out[i])
  {
    hide PutChunk, ReadChunk, CanEncodeColumns, TypedColumns, ReadableColumns, NormTypes, Norm;
    ChunkRoundTrip(c, suffix);
    var d := NormChunk(c);
    InputAt(rows, definitions, 0);
    assert d.rowCount == |rows|;
    forall i | 0 <= i < |rows|
      ensures AppendedRow(rows[i], definitions, RowsFromChunk(d, Names(definitions))[i])
    {
      RowFields(d.columns, Names(definitions), i, 0);
      assert FieldsAt(d.columns, Names(definitions), i)[..0] == [];
      forall k | 0 <= k < |definitions|
        ensures FieldNormalized(rows[i], ChildType(definitions[k].name, definitions[k].logicalType),
          FieldsAt(d.columns, Names(definitions), i)[k])
      {
        CellAt(rows, definitions, i, k);
      }
    }
  }

  lemma CellAt(rows: vec<seq<Field>>, definitions: vec<ColumnDefinition>, i: nat, k: nat)
    requires i < |rows| && k < |definitions| && InputsFromRows(rows, definitions).Success?
    ensures Normalize(Get(rows[i], definitions[k].name).GetOr(Null), definitions[k].logicalType) ==
      Success(RowOf(InputsFromRows(rows, definitions).value[k].values, i))
  {
    hide Normalize, NormalizeAll, InputsFromRows;
    InputAt(rows, definitions, k);
    var d := definitions[k];
    var column := Column(Structs(rows), d.name);
    NormalizeEach(d.logicalType, column, InputsFromRows(rows, definitions).value[k].values);
    assert column[i] == Get(rows[i], d.name).GetOr(Null);
  }
}
