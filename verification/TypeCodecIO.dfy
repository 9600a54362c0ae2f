/** The writer and reader methods for logical types, refining `TypeCodec`. */
module TypeCodecIO {
  import opened Prelude
  import Wire
  import opened BinaryIO
  import opened LogicalTypes
  import opened TypeCodec

  method EncodeLogicalType(w: BinaryWriter, t: LogicalType) returns (r: Outcome)
    modifies w
    ensures r.Pass? <==> Encodable(t)
    ensures r.Pass? ==> forall tail {:trigger PutType(t, tail)} ::
      w.buffer + tail == old(w.buffer) + PutType(t, tail)
    decreases t
  {
    hide Wire.PutFieldId, Wire.PutUleb, Wire.PutString, Wire.PutStringList, Wire.PutBool, Wire.PutEnd,
      Wire.PutPresentString, Wire.PutOptionalString, Wire.Head;
    w.WriteFieldId(100);
    w.WriteUleb(TypeCode(t.id));
    if t.info.Some? {
      w.WriteFieldId(101);
      w.WriteBool(true);
      :- EncodeExtraTypeInfo(w, t.info.value);
    }
    w.WriteEnd();
    r := Pass;
  }

  method EncodeExtraTypeInfo(w: BinaryWriter, info: ExtraTypeInfo) returns (r: Outcome)
    modifies w
    ensures r.Pass? <==> EncodableInfo(info)
    ensures r.Pass? ==> forall tail {:trigger PutInfo(info, tail)} ::
      w.buffer + tail == old(w.buffer) + PutInfo(info, tail)
    decreases info, 1
  {
    hide Wire.PutFieldId, Wire.PutUleb, Wire.PutString, Wire.PutEnd, Wire.PutOptionalString, Wire.Head;
    hide PutDetails;
    w.WriteFieldId(100);
    w.WriteUleb(InfoCode(info));
    w.WriteOptionalString(101, info.alias);
    :- EncodeDetails(w, info);
    w.WriteEnd();
    r := Pass;
  }

  method EncodeDetails(w: BinaryWriter, info: ExtraTypeInfo) returns (r: Outcome)
    modifies w
    ensures r.Pass? <==> EncodableInfo(info)
    ensures r.Pass? ==> forall tail {:trigger PutDetails(info, tail)} :: Wire.Head(tail) == Wire.FIELD_END ==>
      w.buffer + tail == old(w.buffer) + PutDetails(info, tail)
    decreases info, 0
  {
    hide Wire.PutFieldId, Wire.PutUleb, Wire.PutString, Wire.PutStringList, Wire.PutEnd, Wire.PutPresentString,
      Wire.Head;
    hide PutType, PutTypes, PutChildren;
    match info {
      case InvalidInfo(_) =>
      case GenericInfo(_) =>
      case DecimalInfo(_, width, scale) =>
        w.WriteFieldId(200);
        w.WriteUleb(width);
        w.WriteFieldId(201);
        w.WriteUleb(scale);
      case StringInfo(_, collation) =>
        w.WriteFieldId(200);
        w.WriteString(collation);
      case ListInfo(_, child) =>
        w.WriteFieldId(200);
        :- EncodeLogicalType(w, child);
      case StructInfo(_, children) =>
        w.WriteFieldId(200);
        w.WriteUleb(|children|);
        :- EncodeChildTypes(w, children);
      case EnumInfo(_, values) =>
        w.WriteFieldId(200);
        w.WriteUleb(|values|);
        w.WriteFieldId(201);
        w.WriteStringList(values);
      case AggregateInfo(_, name, ret, arguments) =>
        w.WriteFieldId(200);
        w.WriteString(name);
        w.WriteFieldId(201);
        :- EncodeLogicalType(w, ret);
        w.WriteFieldId(202);
        w.WriteUleb(|arguments|);
        :- EncodeLogicalTypes(w, arguments);
      case ArrayInfo(_, child, size) =>
        w.WriteFieldId(200);
        :- EncodeLogicalType(w, child);
        w.WriteFieldId(201);
        w.WriteUleb(size);
      case AnyInfo(_, target, score) =>
        w.WriteFieldId(200);
        :- EncodeLogicalType(w, target);
        w.WriteFieldId(201);
        w.WriteUleb(score);
      case TemplateInfo(_, name) =>
        w.WriteFieldId(200);
        w.WriteString(name);
      case IntegerLiteralInfo(_) =>
        return Fail(Unsupported);
      case GeoInfo(_, crs) =>
        w.WriteFieldId(200);
        w.WritePresentString(100, crs);
        w.WriteEnd();
      case UnboundInfo(_, name, catalog, schema) =>
        w.WritePresentString(200, name);
        w.WritePresentString(201, catalog);
        w.WritePresentString(202, schema);
    }
    r := Pass;
  }

  /** The elements of a list of types, after its length. */
  method EncodeLogicalTypes(w: BinaryWriter, ts: seq<LogicalType>) returns (r: Outcome)
    modifies w
    ensures r.Pass? <==> EncodableTypes(ts)
    ensures r.Pass? ==> forall tail {:trigger PutTypes(ts, tail)} ::
      w.buffer + tail == old(w.buffer) + PutTypes(ts, tail)
    decreases ts
  {
    hide PutType;
    for i := 0 to |ts|
      invariant EncodableTypes(ts) <==> EncodableTypes(ts[i..])
      invariant EncodableTypes(ts) ==> forall tail {:trigger PutTypes(ts, tail)} ::
        w.buffer + PutTypes(ts[i..], tail) == old(w.buffer) + PutTypes(ts, tail)
    {
      assert ts[i..][0] == ts[i] && ts[i..][1..] == ts[i + 1..];
      :- EncodeLogicalType(w, ts[i]);
    }
    r := Pass;
  }

  method EncodeChildTypes(w: BinaryWriter, cs: seq<ChildType>) returns (r: Outcome)
    modifies w
    ensures r.Pass? <==> EncodableChildren(cs)
    ensures r.Pass? ==> forall tail {:trigger PutChildren(cs, tail)} ::
      w.buffer + tail == old(w.buffer) + PutChildren(cs, tail)
    decreases cs
  {
    hide Wire.PutFieldId, Wire.PutUleb, Wire.PutString, Wire.PutEnd, Wire.Head;
    hide PutType;
    for i := 0 to |cs|
      invariant EncodableChildren(cs) <==> EncodableChildren(cs[i..])
      invariant EncodableChildren(cs) ==> forall tail {:trigger PutChildren(cs, tail)} ::
        w.buffer + PutChildren(cs[i..], tail) == old(w.buffer) + PutChildren(cs, tail)
    {
      assert cs[i..][0] == cs[i] && cs[i..][1..] == cs[i + 1..];
      w.WriteFieldId(0);
      w.WriteString(cs[i].name);
      w.WriteFieldId(1);
      :- EncodeLogicalType(w, cs[i].logicalType);
      w.WriteEnd();
    }
    r := Pass;
  }

  method DecodeLogicalType(reader: BinaryReader) returns (r: Result<LogicalType>)
    requires reader.Valid()
    modifies reader`offset
    ensures reader.Valid() && Agrees(ReadType(old(reader.Remaining())), r, reader.Remaining())
    decreases |reader.Remaining()|, 1
  {
    hide Wire.ReadTag, Wire.ReadUleb64, Wire.ReadString, Wire.ReadStringList, Wire.ReadBool, Wire.ReadEnd,
      Wire.ReadOptionalString, Wire.ReadStringOrEmpty, Wire.ReadUlebOrZero, Wire.Head;
    var _ :- reader.ReadTag(100);
    var code :- reader.ReadUleb64();
    var id :- FromOption(TypeOfCode(code), Protocol);
    var next :- reader.PeekFieldId();
    var info := None;
    if next == 101 {
      reader.SkipFieldId();
      var present :- reader.ReadBool();
      if present {
        var value :- DecodeExtraTypeInfo(reader);
        info := Some(value);
      }
    }
    var _ :- reader.ReadEnd();
    r := Success(LogicalType(id, info));
  }

  method DecodeExtraTypeInfo(reader: BinaryReader) returns (r: Result<ExtraTypeInfo>)
    requires reader.Valid()
    modifies reader`offset
    ensures reader.Valid() && Agrees(ReadInfo(old(reader.Remaining())), r, reader.Remaining())
    decreases |reader.Remaining()|, 1
  {
    hide Wire.ReadTag, Wire.ReadUleb64, Wire.ReadString, Wire.ReadEnd, Wire.ReadOptionalString, Wire.Head;
    hide ReadDetails;
    var _ :- reader.ReadTag(100);
    var code :- reader.ReadUleb64();
    if code > 13 {
      return Failure(Protocol);
    }
    var alias :- reader.ReadOptionalString(101);
    var next :- reader.PeekFieldId();
    if next == 103 {
      return Failure(Unsupported);
    }
    var info :- DecodeDetails(reader, code, alias);
    var _ :- reader.ReadEnd();
    r := Success(info);
  }

  method DecodeDetails(reader: BinaryReader, code: u64, alias: Option<text>) returns (r: Result<ExtraTypeInfo>)
    requires reader.Valid() && code <= 13
    modifies reader`offset
    ensures reader.Valid() && Agrees(ReadDetails(code, alias, old(reader.Remaining())), r, reader.Remaining())
    decreases |reader.Remaining()|, 0, 1
  {
    hide Wire.ReadTag, Wire.ReadUleb64, Wire.ReadString, Wire.ReadStringList, Wire.ReadEnd, Wire.ReadOptionalString,
      Wire.ReadStringOrEmpty, Wire.ReadUlebOrZero, Wire.Head;
    hide ReadType, ReadTypes, ReadChildren;
    match code
    case 0 => r := Success(InvalidInfo(alias));
    case 1 => r := Success(GenericInfo(alias));
    case 2 =>
      var width :- reader.ReadUlebOrZero(200);
      var scale :- reader.ReadUlebOrZero(201);
      r := Success(DecimalInfo(alias, width, scale));
    case 3 =>
      var collation :- reader.ReadStringOrEmpty(200);
      r := Success(StringInfo(alias, collation));
    case 4 =>
      var _ :- reader.ReadTag(200);
      var child :- DecodeLogicalType(reader);
      r := Success(ListInfo(alias, child));
    case 5 =>
      r := DecodeStruct(reader, alias);
    case 6 =>
      var _ :- reader.ReadTag(200);
      var n :- reader.ReadUleb64();
      var _ :- reader.ReadTag(201);
      var values :- reader.ReadStringList();
      r := if |values| != n then Failure(Protocol) else Success(EnumInfo(alias, values));
    case 7 =>
      r := DecodeUnbound(reader, alias);
    case 8 =>
      r := DecodeAggregate(reader, alias);
    case 9 =>
      var _ :- reader.ReadTag(200);
      var child :- DecodeLogicalType(reader);
      var _ :- reader.ReadTag(201);
      var size :- reader.ReadUleb64();
      r := Success(ArrayInfo(alias, child, size));
    case 10 =>
      var _ :- reader.ReadTag(200);
      var target :- DecodeLogicalType(reader);
      var _ :- reader.ReadTag(201);
      var score :- reader.ReadUleb64();
      r := Success(AnyInfo(alias, target, score));
    case 11 =>
      var next :- reader.PeekFieldId();
      r := if next == 200 then Failure(Unsupported) else Success(IntegerLiteralInfo(alias));
    case 12 =>
      var name :- reader.ReadStringOrEmpty(200);
      r := Success(TemplateInfo(alias, name));
    case _ =>
      var next :- reader.PeekFieldId();
      if next != 200 {
        return Success(GeoInfo(alias, None));
      }
      reader.SkipFieldId();
      var crs :- reader.ReadOptionalString(100);
      var _ :- reader.ReadEnd();
      r := Success(GeoInfo(alias, crs));
  }

  method DecodeStruct(reader: BinaryReader, alias: Option<text>) returns (r: Result<ExtraTypeInfo>)
    requires reader.Valid()
    modifies reader`offset
    ensures reader.Valid() && Agrees(ReadDetails(5, alias, old(reader.Remaining())), r, reader.Remaining())
    decreases |reader.Remaining()|, 0, 0
  {
    hide Wire.ReadTag, Wire.ReadUleb64, Wire.ReadString, Wire.ReadStringList, Wire.ReadEnd, Wire.ReadOptionalString,
      Wire.ReadStringOrEmpty, Wire.ReadUlebOrZero, Wire.Head;
    hide ReadType, ReadTypes, ReadChildren;
    var next :- reader.PeekFieldId();
    if next != 200 {
      return Success(StructInfo(alias, []));
    }
    reader.SkipFieldId();
    var n :- reader.ReadUleb64();
    var children :- DecodeChildTypes(reader, n);
    r := Success(StructInfo(alias, children));
  }

  method DecodeUnbound(reader: BinaryReader, alias: Option<text>) returns (r: Result<ExtraTypeInfo>)
    requires reader.Valid()
    modifies reader`offset
    ensures reader.Valid() && Agrees(ReadDetails(7, alias, old(reader.Remaining())), r, reader.Remaining())
    decreases |reader.Remaining()|, 0, 0
  {
    hide Wire.ReadTag, Wire.ReadUleb64, Wire.ReadString, Wire.ReadStringList, Wire.ReadEnd, Wire.ReadOptionalString,
      Wire.ReadStringOrEmpty, Wire.ReadUlebOrZero, Wire.Head;
    hide ReadType, ReadTypes, ReadChildren;
    var next :- reader.PeekFieldId();
    if next == 204 {
      return Failure(Unsupported);
    }
    var name :- reader.ReadOptionalString(200);
    var catalog :- reader.ReadOptionalString(201);
    var schema :- reader.ReadOptionalString(202);
    r := Success(UnboundInfo(alias, name, catalog, schema));
  }

  method DecodeAggregate(reader: BinaryReader, alias: Option<text>) returns (r: Result<ExtraTypeInfo>)
    requires reader.Valid()
    modifies reader`offset
    ensures reader.Valid() && Agrees(ReadDetails(8, alias, old(reader.Remaining())), r, reader.Remaining())
    decreases |reader.Remaining()|, 0, 0
  {
    hide Wire.ReadTag, Wire.ReadUleb64, Wire.ReadString, Wire.ReadStringList, Wire.ReadEnd, Wire.ReadOptionalString,
      Wire.ReadStringOrEmpty, Wire.ReadUlebOrZero, Wire.Head;
    hide ReadType, ReadTypes, ReadChildren;
    var _ :- reader.ReadTag(200);
    var name :- reader.ReadString();
    var _ :- reader.ReadTag(201);
    var ret :- DecodeLogicalType(reader);
    var _ :- reader.ReadTag(202);
    var n :- reader.ReadUleb64();
    var arguments :- DecodeLogicalTypes(reader, n);
    r := Success(AggregateInfo(alias, name, ret, arguments));
  }

  method DecodeLogicalTypes(reader: BinaryReader, n: nat) returns (r: Result<seq<LogicalType>>)
    requires reader.Valid()
    modifies reader`offset
    ensures reader.Valid() && Agrees(ReadTypes(n, old(reader.Remaining())), r, reader.Remaining())
    decreases |reader.Remaining()|, 2
  {
    hide ReadType;
    var ts := [];
    OntoNil(ReadTypes(n, reader.Remaining()));
    for i := 0 to n
      invariant reader.Valid() && |reader.Remaining()| <= |old(reader.Remaining())|
      invariant Wire.Onto(ts, ReadTypes(n - i, reader.Remaining())) == ReadTypes(n, old(reader.Remaining()))
    {
      TypesStep(ts, n - i, reader.Remaining());
      var t :- DecodeLogicalType(reader);
      ts := ts + [t];
    }
    assert ts + [] == ts;
    r := Success(ts);
  }

  method DecodeChildType(reader: BinaryReader) returns (r: Result<ChildType>)
    requires reader.Valid()
    modifies reader`offset
    ensures reader.Valid() && Agrees(ReadChild(old(reader.Remaining())), r, reader.Remaining())
    decreases |reader.Remaining()|, 2
  {
    hide Wire.ReadTag, Wire.ReadUleb64, Wire.ReadString, Wire.ReadEnd, Wire.Head;
    hide ReadType;
    var _ :- reader.ReadTag(0);
    var name :- reader.ReadString();
    var _ :- reader.ReadTag(1);
    var t :- DecodeLogicalType(reader);
    var _ :- reader.ReadEnd();
    r := Success(ChildType(name, t));
  }

  method DecodeChildTypes(reader: BinaryReader, n: nat) returns (r: Result<seq<ChildType>>)
    requires reader.Valid()
    modifies reader`offset
    ensures reader.Valid() && Agrees(ReadChildren(n, old(reader.Remaining())), r, reader.Remaining())
    decreases |reader.Remaining()|, 3
  {
    hide ReadChild;
    var cs := [];
    OntoNil(ReadChildren(n, reader.Remaining()));
    for i := 0 to n
      invariant reader.Valid() && |reader.Remaining()| <= |old(reader.Remaining())|
      invariant Wire.Onto(cs, ReadChildren(n - i, reader.Remaining())) == ReadChildren(n, old(reader.Remaining()))
    {
      ChildrenStep(cs, n - i, reader.Remaining());
      var c :- DecodeChildType(reader);
      cs := cs + [c];
    }
    assert cs + [] == cs;
    r := Success(cs);
  }

  /** What one round of the loop does to the types still to come. */
  lemma TypesStep(done: seq<LogicalType>, n: nat, bs: seq<byte>)
    requires n > 0
    ensures Wire.Onto(done, ReadTypes(n, bs)) ==
      match ReadType(bs) {
        case Parse(t, rest) => Wire.Onto(done + [t], ReadTypes(n - 1, rest))
        case NoParse(e) => NoParse(e)
      }
  {
    hide ReadType;
    var p := ReadType(bs);
    if p.Parse? {
      OntoOnto(done, p.value, ReadTypes(n - 1, p.rest));
    }
  }

  lemma ChildrenStep(done: seq<ChildType>, n: nat, bs: seq<byte>)
    requires n > 0
    ensures Wire.Onto(done, ReadChildren(n, bs)) ==
      match ReadChild(bs) {
        case Parse(c, rest) => Wire.Onto(done + [c], ReadChildren(n - 1, rest))
        case NoParse(e) => NoParse(e)
      }
  {
    hide ReadChild;
    var p := ReadChild(bs);
    if p.Parse? {
      OntoOnto(done, p.value, ReadChildren(n - 1, p.rest));
    }
  }
}
