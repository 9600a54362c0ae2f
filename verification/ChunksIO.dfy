/** The writer and reader methods for data chunks, refining `Chunks`. */
module ChunksIO {
  import opened Prelude
  import Wire
  import opened BinaryIO
  import opened LogicalTypes
  import opened TypeCodec
  import opened TypeCodecIO
  import opened Vectors
  import opened VectorsIO
  import opened Chunks

  method EncodeDataChunkWrapper(w: BinaryWriter, c: DataChunk) returns (r: Outcome)
    modifies w
    ensures r.Pass? <==> CanEncodeChunk(c)
    ensures r.Pass? ==> forall tail {:trigger PutChunkWrapper(c, tail)} ::
      w.buffer + tail == old(w.buffer) + PutChunkWrapper(c, tail)
  {
    hide PutChunk, Wire.PutFieldId, Wire.PutEnd;
    w.WriteFieldId(300);
    :- EncodeDataChunk(w, c);
    w.WriteEnd();
    r := Pass;
  }

  method EncodeDataChunk(w: BinaryWriter, c: DataChunk) returns (r: Outcome)
    modifies w
    ensures r.Pass? <==> CanEncodeChunk(c)
    ensures r.Pass? ==> forall tail {:trigger PutChunk(c, tail)} ::
      w.buffer + tail == old(w.buffer) + PutChunk(c, tail)
  {
    hide PutTypes, PutChunkColumns, CanEncodeColumns, Wire.PutFieldId, Wire.PutUleb, Wire.PutEnd;
    if |c.types| != |c.columns| {
      return Fail(Protocol);
    }
    w.WriteFieldId(100);
    w.WriteUleb(c.rowCount);
    w.WriteFieldId(101);
    w.WriteUleb(|c.types|);
    :- EncodeLogicalTypes(w, c.types);
    w.WriteFieldId(102);
    w.WriteUleb(|c.columns|);
    :- EncodeColumns(w, c);
    w.WriteEnd();
    r := Pass;
  }

  method EncodeColumns(w: BinaryWriter, c: DataChunk) returns (r: Outcome)
    requires |c.types| == |c.columns|
    modifies w
    ensures r.Pass? <==> CanEncodeColumns(c.types, c.columns, c.rowCount)
    ensures r.Pass? ==> forall tail {:trigger PutChunkColumns(c.types, c.columns, c.rowCount, tail)} ::
      w.buffer + tail == old(w.buffer) + PutChunkColumns(c.types, c.columns, c.rowCount, tail)
  {
    hide PutVector, CanEncode;
    assert c.types[0..] == c.types && c.columns[0..] == c.columns;
    for k := 0 to |c.columns|
      invariant forall j | 0 <= j < k ::
        |c.columns[j].values| == c.rowCount && CanEncode(c.types[j], c.columns[j].values)
      invariant CanEncodeColumns(c.types, c.columns, c.rowCount) ==>
        CanEncodeColumns(c.types[k..], c.columns[k..], c.rowCount)
        && forall tail {:trigger PutChunkColumns(c.types, c.columns, c.rowCount, tail)} ::
          w.buffer + PutChunkColumns(c.types[k..], c.columns[k..], c.rowCount, tail) ==
          old(w.buffer) + PutChunkColumns(c.types, c.columns, c.rowCount, tail)
    {
      assert c.types[k..][0] == c.types[k] && c.types[k..][1..] == c.types[k + 1..];
      assert c.columns[k..][0] == c.columns[k] && c.columns[k..][1..] == c.columns[k + 1..];
      if CanEncodeColumns(c.types, c.columns, c.rowCount) {
        ReadableFirst(c.types[k..], c.columns[k..], c.rowCount);
      }
      if |c.columns[k].values| != c.rowCount {
        return Fail(Protocol);
      }
      :- EncodeVector(w, c.types[k], c.columns[k].values, c.rowCount);
    }
    r := Pass;
  }

  method DecodeDataChunkWrapper(reader: BinaryReader) returns (r: Result<DataChunk>)
    requires reader.Valid()
    modifies reader`offset
    ensures reader.Valid() && Agrees(ReadChunkWrapper(old(reader.Remaining())), r, reader.Remaining())
  {
    hide ReadChunk, Wire.ReadTag, Wire.ReadEnd;
    var _ :- reader.ReadTag(300);
    var c :- DecodeDataChunk(reader);
    var _ :- reader.ReadEnd();
    r := Success(c);
  }

  method DecodeDataChunk(reader: BinaryReader) returns (r: Result<DataChunk>)
    requires reader.Valid()
    modifies reader`offset
    ensures reader.Valid() && Agrees(ReadChunk(old(reader.Remaining())), r, reader.Remaining())
  {
    hide ReadTypes, ReadChunkColumns, Wire.ReadTag, Wire.ReadUleb64, Wire.ReadEnd;
    var _ :- reader.ReadTag(100);
    var count :- reader.ReadUleb64();
    var _ :- reader.ReadTag(101);
    var n :- reader.ReadUleb64();
    var types :- DecodeLogicalTypes(reader, n);
    var _ :- reader.ReadTag(102);
    var m :- reader.ReadUleb64();
    var columns :- DecodeColumns(reader, types, m, count);
    if |columns| != |types| {
      return Failure(Protocol);
    }
    var _ :- reader.ReadEnd();
    r := Success(DataChunk(count, types, columns, None));
  }

  method DecodeColumns(reader: BinaryReader, types: seq<LogicalType>, n: nat, count: u64)
    returns (r: Result<seq<DecodedVector>>)
    requires reader.Valid()
    modifies reader`offset
    ensures reader.Valid() && Agrees(ReadChunkColumns(types, n, count, old(reader.Remaining())), r, reader.Remaining())
  {
    hide ReadVector;
    var columns: seq<DecodedVector> := [];
    OntoNil(ReadChunkColumns(types, n, count, reader.Remaining()));
    assert types[0..] == types;
    for k := 0 to n
      invariant reader.Valid() && k <= |types|
      invariant Wire.Onto(columns, ReadChunkColumns(types[k..], n - k, count, reader.Remaining())) ==
        ReadChunkColumns(types, n, count, old(reader.Remaining()))
    {
      ChunkColumnsStep(columns, types[k..], n - k, count, reader.Remaining());
      if k >= |types| {
        return Failure(Protocol);
      }
      assert types[k..][0] == types[k] && types[k..][1..] == types[k + 1..];
      var column :- DecodeVector(reader, types[k], count);
      columns := columns + [column];
    }
    assert columns + [] == columns;
    r := Success(columns);
  }

  lemma ChunkColumnsStep(done: seq<DecodedVector>, types: seq<LogicalType>, n: nat, count: u64, bs: seq<byte>)
    requires n > 0
    ensures Wire.Onto(done, ReadChunkColumns(types, n, count, bs)) ==
      if types == [] then NoParse(Protocol)
      else
        match ReadVector(types[0], count, bs) {
          case Parse(v, rest) => Wire.Onto(done + [v], ReadChunkColumns(types[1..], n - 1, count, rest))
          case NoParse(e) => NoParse(e)
        }
  {
    hide ReadVector;
    if types != [] {
      var r := ReadVector(types[0], count, bs);
      if r.Parse? {
        OntoOnto(done, r.value, ReadChunkColumns(types[1..], n - 1, count, r.rest));
      }
    }
  }
}
