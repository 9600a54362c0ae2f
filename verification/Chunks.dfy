/** Data chunks: columns of one length with their types, and the rows they stand for. */
module Chunks {
  import opened Prelude
  import opened Wire
  import opened LogicalTypes
  import opened TypeCodec
  import opened Values
  import opened Vectors
  import opened VectorRoundTrips
  import opened VectorNorm
  import DecimalText = Decimal

  /** Column names are not part of the wire form. */
  datatype DataChunk = DataChunk(
    rowCount: u64, types: vec<LogicalType>, columns: vec<DecodedVector>, columnNames: Option<vec<text>>)

  // ---- writing ----

  predicate CanEncodeChunk(c: DataChunk) {
    |c.types| == |c.columns| && EncodableTypes(c.types) && CanEncodeColumns(c.types, c.columns, c.rowCount)
  }

  predicate CanEncodeColumns(types: seq<LogicalType>, columns: seq<DecodedVector>, count: nat)
    requires |types| == |columns|
  {
    forall k | 0 <= k < |types| :: |columns[k].values| == count && CanEncode(types[k], columns[k].values)
  }

  function PutChunk(c: DataChunk, tail: seq<byte>): seq<byte>
    requires CanEncodeChunk(c)
  {
    PutFieldId(100, PutUleb(c.rowCount, PutFieldId(101, PutUleb(|c.types|, PutTypes(c.types,
      PutFieldId(102, PutUleb(|c.columns|, PutChunkColumns(c.types, c.columns, c.rowCount, PutEnd(tail)))))))))
  }

  function PutChunkColumns(types: seq<LogicalType>, columns: seq<DecodedVector>, count: nat, tail: seq<byte>): seq<byte>
    requires |types| == |columns| && CanEncodeColumns(types, columns, count)
  {
    if columns == [] then tail
    else PutVector(types[0], columns[0].values, PutChunkColumns(types[1..], columns[1..], count, tail))
  }

  /** A chunk inside a message. */
  function PutChunkWrapper(c: DataChunk, tail: seq<byte>): seq<byte>
    requires CanEncodeChunk(c)
  {
    PutFieldId(300, PutChunk(c, PutEnd(tail)))
  }

  // ---- reading ----

  function ReadChunk(bs: seq<byte>): (r: Parsed<DataChunk>)
    ensures Shrinks(r, bs)
  {
    var (_, bs) :- ReadTag(100, bs);
    var (count, bs) :- ReadUleb64(bs);
    var (_, bs) :- ReadTag(101, bs);
    var (n, bs) :- ReadUleb64(bs);
    var (types, bs) :- ReadTypes(n, bs);
    var (_, bs) :- ReadTag(102, bs);
    var (m, bs) :- ReadUleb64(bs);
    var (columns, bs) :- ReadChunkColumns(types, m, count, bs);
    if |columns| != |types| then NoParse(Protocol)
    else
      var (_, bs) :- ReadEnd(bs);
      Parse(DataChunk(count, types, columns, None), bs)
  }

  /** `n` columns, which need a type each. */
  function ReadChunkColumns(types: seq<LogicalType>, n: nat, count: u64, bs: seq<byte>): (r: Parsed<seq<DecodedVector>>)
    ensures r.Parse? ==> |r.value| == n && |r.rest| <= |bs|
  {
    if n == 0 then Parse([], bs)
    else if types == [] then NoParse(Protocol)
    else
      var (column, bs) :- ReadVector(types[0], count, bs);
      var (columns, bs) :- ReadChunkColumns(types[1..], n - 1, count, bs);
      Parse([column] + columns, bs)
  }

  function ReadChunkWrapper(bs: seq<byte>): (r: Parsed<DataChunk>)
    ensures Shrinks(r, bs)
  {
    var (_, bs) :- ReadTag(300, bs);
    var (c, bs) :- ReadChunk(bs);
    var (_, bs) :- ReadEnd(bs);
    Parse(c, bs)
  }

  // ---- the round trip ----

  predicate TypedColumns(types: seq<LogicalType>, columns: seq<DecodedVector>)
    requires |types| == |columns|
  {
    forall k | 0 <= k < |types| :: AllTyped(types[k], columns[k].values)
  }

  predicate TypedChunk(c: DataChunk) {
    |c.types| == |c.columns| && TypedColumns(c.types, c.columns)
  }

  predicate ReadableColumns(types: seq<LogicalType>, columns: seq<DecodedVector>, count: nat)
    requires |types| == |columns| && CanEncodeColumns(types, columns, count)
  {
    forall k | 0 <= k < |types| :: Readable(types[k], columns[k].values)
  }

  predicate ReadableChunk(c: DataChunk)
    requires CanEncodeChunk(c)
  {
    ReadableColumns(c.types, c.columns, c.rowCount)
  }

  function NormColumns(types: seq<LogicalType>, columns: seq<DecodedVector>): (r: seq<DecodedVector>)
    requires |types| == |columns|
    ensures |r| == |columns|
  {
    seq(|types|, k requires 0 <= k < |types| => DecodedVector(Norm(types[k]), Flat, columns[k].values))
  }

  /** What comes back: no empty aliases, no column names, flat columns that know their types. */
  function NormChunk(c: DataChunk): (r: DataChunk)
    requires |c.types| == |c.columns|
  {
    DataChunk(c.rowCount, NormTypes(c.types), NormColumns(c.types, c.columns), None)
  }

  lemma {:induction false} ChunkColumnsRoundTrip(types: seq<LogicalType>, columns: seq<DecodedVector>, count: u64,
                                                 suffix: seq<byte>)
    requires |types| == |columns| && CanEncodeColumns(types, columns, count) && TypedColumns(types, columns)
    ensures ReadChunkColumns(NormTypes(types), |columns|, count, PutChunkColumns(types, columns, count, suffix)) ==
      RoundTripped(NormColumns(types, columns), ReadableColumns(types, columns, count), suffix)
  {
    hide PutVector, ReadVector, Norm, AllTyped, CanEncode, Readable;
    if columns != [] {
      var ts, cs := types[1..], columns[1..];
      assert forall k | 0 <= k < |ts| :: ts[k] == types[k + 1] && cs[k] == columns[k + 1];
      ChunkColumnsRoundTrip(ts, cs, count, suffix);
      NormVectorRoundTrip(types[0], columns[0].values, PutChunkColumns(ts, cs, count, suffix));
      assert NormTypes(types)[1..] == NormTypes(ts);
      ReadableFirst(types, columns, count);
      NormFirst(types, columns);
      hide NormColumns, ReadableColumns;
    }
  }

  lemma ReadableFirst(types: seq<LogicalType>, columns: seq<DecodedVector>, count: nat)
    requires |types| == |columns| > 0 && CanEncodeColumns(types, columns, count)
    ensures CanEncodeColumns(types[1..], columns[1..], count)
    ensures ReadableColumns(types, columns, count) <==>
      Readable(types[0], columns[0].values) && ReadableColumns(types[1..], columns[1..], count)
  {
    hide CanEncode, Readable;
    var ts, cs := types[1..], columns[1..];
    assert forall k | 0 <= k < |ts| :: ts[k] == types[k + 1] && cs[k] == columns[k + 1];
    assert forall k | 0 < k < |types| :: ts[k - 1] == types[k] && cs[k - 1] == columns[k];
  }

  lemma NormFirst(types: seq<LogicalType>, columns: seq<DecodedVector>)
    requires |types| == |columns| > 0
    ensures NormColumns(types, columns) ==
      [DecodedVector(Norm(types[0]), Flat, columns[0].values)] + NormColumns(types[1..], columns[1..])
  {
    hide Norm;
  }

  /** A chunk of well-typed columns comes back in its normal form. */
  lemma ChunkRoundTrip(c: DataChunk, suffix: seq<byte>)
    requires CanEncodeChunk(c) && TypedChunk(c)
    ensures ReadChunk(PutChunk(c, suffix)) == RoundTripped(NormChunk(c), ReadableChunk(c), suffix)
    ensures ReadChunkWrapper(PutChunkWrapper(c, suffix)) == RoundTripped(NormChunk(c), ReadableChunk(c), suffix)
  {
    hide Wire.PutFieldId, Wire.PutEnd, Wire.ReadTag, Wire.ReadEnd;
    ChunkBodyRoundTrip(c, suffix);
    ChunkBodyRoundTrip(c, PutEnd(suffix));
    hide PutChunk, ReadChunk, NormChunk, ReadableChunk;
  }

  lemma ChunkBodyRoundTrip(c: DataChunk, suffix: seq<byte>)
    requires CanEncodeChunk(c) && TypedChunk(c)
    ensures ReadChunk(PutChunk(c, suffix)) == RoundTripped(NormChunk(c), ReadableChunk(c), suffix)
  {
    hide Wire.PutFieldId, Wire.PutUleb, Wire.PutEnd, Wire.ReadTag, Wire.ReadUleb64, Wire.ReadEnd;
    hide PutTypes, ReadTypes, PutChunkColumns, ReadChunkColumns, NormColumns, NormTypes, ReadableColumns;
    var columns := PutChunkColumns(c.types, c.columns, c.rowCount, PutEnd(suffix));
    ChunkColumnsRoundTrip(c.types, c.columns, c.rowCount, PutEnd(suffix));
    TypesRoundTrip(c.types, PutFieldId(102, PutUleb(|c.columns|, columns)));
  }

  // ---- rows ----

  /** The name of a column that has none: "column" and its number. */
  function DefaultName(k: u64): text {
    var s := [99, 111, 108, 117, 109, 110] + DecimalText.Digits(k);
    assert DecimalText.Pow10(10) == 100_0000_0000;
    assert DecimalText.Pow10(20) == 1_0000_0000_0000_0000_0000;
    DecimalText.DigitsBound(k, 20);
    AsciiIsUtf8(s);
    s
  }

  function NameAt(names: seq<text>, k: u64): text {
    if k < |names| then names[k] else DefaultName(k)
  }

  /** `row` with the values that columns `k`, `k + 1`, ... have in row `i`. */
  function RowFrom(columns: vec<DecodedVector>, names: seq<text>, i: nat, k: nat, row: seq<Field>): seq<Field>
    requires k <= |columns|
    decreases |columns| - k
  {
    if k == |columns| then row
    else RowFrom(columns, names, i, k + 1, Insert(row, NameAt(names, k), RowOf(columns[k].values, i)))
  }

  function RowsFromChunk(c: DataChunk, names: seq<text>): (rows: seq<seq<Field>>)
    ensures |rows| == c.rowCount
  {
    seq(c.rowCount, i requires 0 <= i < c.rowCount => RowFrom(c.columns, names, i, 0, []))
  }

  method RowsFromChunkWithNames(c: DataChunk, names: seq<text>) returns (rows: seq<seq<Field>>)
    ensures rows == RowsFromChunk(c, names)
  {
    rows := [];
    for i := 0 to c.rowCount
      invariant rows == RowsFromChunk(c, names)[..i]
    {
      var row := [];
      for k := 0 to |c.columns|
        invariant RowFrom(c.columns, names, i, k, row) == RowFrom(c.columns, names, i, 0, [])
      {
        row := Insert(row, NameAt(names, k), RowOf(c.columns[k].values, i));
      }
      rows := rows + [row];
    }
  }

  predicate DistinctTexts(names: seq<text>) {
    forall i, j | 0 <= i < j < |names| :: names[i] != names[j]
  }

  /** Row `i`, one field per column. */
  function FieldsAt(columns: seq<DecodedVector>, names: seq<text>, i: nat): (row: seq<Field>)
    requires |names| == |columns|
    ensures |row| == |columns|
  {
    seq(|columns|, j requires 0 <= j < |columns| => Field(names[j], RowOf(columns[j].values, i)))
  }

  /** With distinct names a row holds one field per column, in column order. */
  lemma {:induction false} RowFields(columns: vec<DecodedVector>, names: seq<text>, i: nat, k: nat)
    requires DistinctTexts(names) && |names| == |columns| && k <= |columns|
    ensures RowFrom(columns, names, i, k, FieldsAt(columns, names, i)[..k]) == FieldsAt(columns, names, i)
    decreases |columns| - k
  {
    hide RowOf;
    var row := FieldsAt(columns, names, i);
    if k < |columns| {
      InsertFresh(row[..k], names[k], row[k].value);
      assert row[..k] + [row[k]] == row[..k + 1];
      RowFields(columns, names, i, k + 1);
    } else {
      assert row[..k] == row;
    }
  }

  /** Transposing the rows again gives the columns. */
  lemma TransposeTwice(c: DataChunk, names: seq<text>, k: nat)
    requires DistinctTexts(names) && |names| == |c.columns| && k < |c.columns|
    requires |c.columns[k].values| == c.rowCount
    ensures var rows := RowsFromChunk(c, names);
      Column(seq(c.rowCount, i requires 0 <= i < c.rowCount => Value.Struct(rows[i])), names[k]) == c.columns[k].values
  {
    forall i | 0 <= i < c.rowCount
      ensures Get(RowsFromChunk(c, names)[i], names[k]) == Some(c.columns[k].values[i])
    {
      RowFields(c.columns, names, i, 0);
      assert FieldsAt(c.columns, names, i)[..0] == [];
      GetAt(FieldsAt(c.columns, names, i), k);
    }
  }
}
