/** The wire form of logical types. A type may carry metadata, metadata may carry
    types and lists of types, so both directions are mutually recursive. */
module TypeCodec {
  import opened Prelude
  import opened Wire
  import opened LogicalTypes

  /** INTEGER_LITERAL metadata holds a value that the writer refuses, at any depth. */
  predicate Encodable(t: LogicalType)
    decreases t
  {
    t.info.Some? ==> EncodableInfo(t.info.value)
  }

  predicate EncodableInfo(info: ExtraTypeInfo)
    decreases info
  {
    match info
    case ListInfo(_, child) => Encodable(child)
    case StructInfo(_, children) => EncodableChildren(children)
    case AggregateInfo(_, _, ret, arguments) => Encodable(ret) && EncodableTypes(arguments)
    case ArrayInfo(_, child, _) => Encodable(child)
    case AnyInfo(_, target, _) => Encodable(target)
    case IntegerLiteralInfo(_) => false
    case _ => true
  }

  predicate EncodableTypes(ts: seq<LogicalType>)
    decreases ts
  {
    ts == [] || (Encodable(ts[0]) && EncodableTypes(ts[1..]))
  }

  predicate EncodableChildren(cs: seq<ChildType>)
    decreases cs
  {
    cs == [] || (Encodable(cs[0].logicalType) && EncodableChildren(cs[1..]))
  }

  // ---- the form a type has after a trip over the wire: no empty aliases ----

  function Norm(t: LogicalType): (r: LogicalType)
    decreases t
  {
    LogicalType(t.id, if t.info.Some? then Some(NormInfo(t.info.value)) else None)
  }

  function NormInfo(info: ExtraTypeInfo): (r: ExtraTypeInfo)
    ensures r.alias == NonEmpty(info.alias)
    decreases info
  {
    var alias := NonEmpty(info.alias);
    match info
    case InvalidInfo(_) => InvalidInfo(alias)
    case GenericInfo(_) => GenericInfo(alias)
    case DecimalInfo(_, width, scale) => DecimalInfo(alias, width, scale)
    case StringInfo(_, collation) => StringInfo(alias, collation)
    case ListInfo(_, child) => ListInfo(alias, Norm(child))
    case StructInfo(_, children) => StructInfo(alias, NormChildren(children))
    case EnumInfo(_, values) => EnumInfo(alias, values)
    case UnboundInfo(_, name, catalog, schema) => UnboundInfo(alias, name, catalog, schema)
    case AggregateInfo(_, name, ret, arguments) => AggregateInfo(alias, name, Norm(ret), NormTypes(arguments))
    case ArrayInfo(_, child, size) => ArrayInfo(alias, Norm(child), size)
    case AnyInfo(_, target, score) => AnyInfo(alias, Norm(target), score)
    case IntegerLiteralInfo(_) => IntegerLiteralInfo(alias)
    case TemplateInfo(_, name) => TemplateInfo(alias, name)
    case GeoInfo(_, crs) => GeoInfo(alias, crs)
  }

  function NormTypes(ts: seq<LogicalType>): (r: seq<LogicalType>)
    ensures |r| == |ts|
    decreases ts
  {
    if ts == [] then [] else [Norm(ts[0])] + NormTypes(ts[1..])
  }

  function NormChildren(cs: seq<ChildType>): (r: seq<ChildType>)
    ensures |r| == |cs|
    decreases cs
  {
    if cs == [] then [] else [ChildType(cs[0].name, Norm(cs[0].logicalType))] + NormChildren(cs[1..])
  }

  // ---- writing ----

  function PutType(t: LogicalType, tail: seq<byte>): (r: seq<byte>)
    requires Encodable(t)
    decreases t
  {
    PutFieldId(100, PutUleb(TypeCode(t.id),
      if t.info.Some? then PutFieldId(101, PutBool(true, PutInfo(t.info.value, PutEnd(tail)))) else PutEnd(tail)))
  }

  function PutInfo(info: ExtraTypeInfo, tail: seq<byte>): (r: seq<byte>)
    requires EncodableInfo(info)
    decreases info, 1
  {
    var details := PutDetails(info, PutEnd(tail));
    PutFieldId(100, PutUleb(InfoCode(info), PutOptionalString(101, info.alias, details)))
  }

  /** The fields that depend on the kind of metadata. */
  function PutDetails(info: ExtraTypeInfo, tail: seq<byte>): (r: seq<byte>)
    requires EncodableInfo(info) && Head(tail) == FIELD_END
    ensures Head(r) >= 200
    ensures info.UnboundInfo? ==> Head(r) in {200, 201, 202, FIELD_END}
    decreases info, 0
  {
    hide Wire.PutFieldId, Wire.PutUleb, Wire.PutString, Wire.PutStringList, Wire.PutEnd, Wire.Head, Wire.ReadTag,
      Wire.ReadUleb64, Wire.ReadString, Wire.ReadStringList, Wire.ReadEnd, Wire.ReadFieldId;
    match info
    case InvalidInfo(_) => tail
    case GenericInfo(_) => tail
    case DecimalInfo(_, width, scale) => PutFieldId(200, PutUleb(width, PutFieldId(201, PutUleb(scale, tail))))
    case StringInfo(_, collation) => PutFieldId(200, PutString(collation, tail))
    case ListInfo(_, child) => PutFieldId(200, PutType(child, tail))
    case StructInfo(_, children) => PutFieldId(200, PutUleb(|children|, PutChildren(children, tail)))
    case EnumInfo(_, values) =>
      PutFieldId(200, PutUleb(|values|, PutFieldId(201, PutStringList(values, tail))))
    case AggregateInfo(_, name, ret, arguments) =>
      PutFieldId(200, PutString(name, PutFieldId(201, PutType(ret,
        PutFieldId(202, PutUleb(|arguments|, PutTypes(arguments, tail)))))))
    case ArrayInfo(_, child, size) => PutFieldId(200, PutType(child, PutFieldId(201, PutUleb(size, tail))))
    case AnyInfo(_, target, score) => PutFieldId(200, PutType(target, PutFieldId(201, PutUleb(score, tail))))
    case TemplateInfo(_, name) => PutFieldId(200, PutString(name, tail))
    case GeoInfo(_, crs) => PutFieldId(200, PutPresentString(100, crs, PutEnd(tail)))
    case UnboundInfo(_, name, catalog, schema) =>
      PutPresentString(200, name, PutPresentString(201, catalog, PutPresentString(202, schema, tail)))
  }

  function PutTypes(ts: seq<LogicalType>, tail: seq<byte>): (r: seq<byte>)
    requires EncodableTypes(ts)
    decreases ts
  {
    if ts == [] then tail else PutType(ts[0], PutTypes(ts[1..], tail))
  }

  function PutChildren(cs: seq<ChildType>, tail: seq<byte>): (r: seq<byte>)
    requires EncodableChildren(cs)
    decreases cs
  {
    if cs == [] then tail
    else
      PutFieldId(0, PutString(cs[0].name, PutFieldId(1, PutType(cs[0].logicalType,
        PutEnd(PutChildren(cs[1..], tail))))))
  }

  // ---- reading ----

  function ReadType(bs: seq<byte>): (p: Parsed<LogicalType>)
    ensures Shrinks(p, bs)
    decreases |bs|, 1
  {
    var (_, bs) :- ReadTag(100, bs);
    var (code, bs) :- ReadUleb64(bs);
    var id := TypeOfCode(code);
    if id.None? then NoParse(Protocol)
    else if |bs| < 2 then NoParse(Protocol)
    else if Head(bs) != 101 then
      var (_, bs) :- ReadEnd(bs);
      Parse(LogicalType(id.value, None), bs)
    else
      var bs := bs[2..];
      var (present, bs) :- ReadBool(bs);
      if !present then
        var (_, bs) :- ReadEnd(bs);
        Parse(LogicalType(id.value, None), bs)
      else
        var (info, bs) :- ReadInfo(bs);
        var (_, bs) :- ReadEnd(bs);
        Parse(LogicalType(id.value, Some(info)), bs)
  }

  function ReadInfo(bs: seq<byte>): (p: Parsed<ExtraTypeInfo>)
    ensures Shrinks(p, bs)
    decreases |bs|, 1
  {
    var (_, bs) :- ReadTag(100, bs);
    var (code, bs) :- ReadUleb64(bs);
    if code > 13 then NoParse(Protocol)
    else
      var (alias, bs) :- ReadOptionalString(101, bs);
      if |bs| < 2 then NoParse(Protocol)
      else if Head(bs) == 103 then NoParse(Unsupported)
      else
        var (info, bs) :- ReadDetails(code, alias, bs);
        var (_, bs) :- ReadEnd(bs);
        Parse(info, bs)
  }

  function ReadDetails(code: u64, alias: Option<text>, bs: seq<byte>): (p: Parsed<ExtraTypeInfo>)
    requires code <= 13
    ensures p.Parse? ==> |p.rest| <= |bs| && p.value.alias == alias
    decreases |bs|, 0
  {
    match code
    case 0 => Parse(InvalidInfo(alias), bs)
    case 1 => Parse(GenericInfo(alias), bs)
    case 2 =>
      var (width, bs) :- ReadUlebOrZero(200, bs);
      var (scale, bs) :- ReadUlebOrZero(201, bs);
      Parse(DecimalInfo(alias, width, scale), bs)
    case 3 =>
      var (collation, bs) :- ReadStringOrEmpty(200, bs);
      Parse(StringInfo(alias, collation), bs)
    case 4 =>
      var (_, bs) :- ReadTag(200, bs);
      var (child, bs) :- ReadType(bs);
      Parse(ListInfo(alias, child), bs)
    case 5 =>
      if |bs| < 2 then NoParse(Protocol)
      else if Head(bs) != 200 then Parse(StructInfo(alias, []), bs)
      else
        var bs := bs[2..];
        var (n, bs) :- ReadUleb64(bs);
        var (children, bs) :- ReadChildren(n, bs);
        Parse(StructInfo(alias, children), bs)
    case 6 =>
      var (_, bs) :- ReadTag(200, bs);
      var (n, bs) :- ReadUleb64(bs);
      var (_, bs) :- ReadTag(201, bs);
      var (values, bs) :- ReadStringList(bs);
      if |values| != n then NoParse(Protocol) else Parse(EnumInfo(alias, values), bs)
    case 7 =>
      if |bs| < 2 then NoParse(Protocol)
      else if Head(bs) == 204 then NoParse(Unsupported)
      else
        var (name, bs) :- ReadOptionalString(200, bs);
        var (catalog, bs) :- ReadOptionalString(201, bs);
        var (schema, bs) :- ReadOptionalString(202, bs);
        Parse(UnboundInfo(alias, name, catalog, schema), bs)
    case 8 =>
      var (_, bs) :- ReadTag(200, bs);
      var (name, bs) :- ReadString(bs);
      var (_, bs) :- ReadTag(201, bs);
      var (ret, bs) :- ReadType(bs);
      var (_, bs) :- ReadTag(202, bs);
      var (n, bs) :- ReadUleb64(bs);
      var (arguments, bs) :- ReadTypes(n, bs);
      Parse(AggregateInfo(alias, name, ret, arguments), bs)
    case 9 =>
      var (_, bs) :- ReadTag(200, bs);
      var (child, bs) :- ReadType(bs);
      var (_, bs) :- ReadTag(201, bs);
      var (size, bs) :- ReadUleb64(bs);
      Parse(ArrayInfo(alias, child, size), bs)
    case 10 =>
      var (_, bs) :- ReadTag(200, bs);
      var (target, bs) :- ReadType(bs);
      var (_, bs) :- ReadTag(201, bs);
      var (score, bs) :- ReadUleb64(bs);
      Parse(AnyInfo(alias, target, score), bs)
    case 11 =>
      if |bs| < 2 then NoParse(Protocol)
      else if Head(bs) == 200 then NoParse(Unsupported)
      else Parse(IntegerLiteralInfo(alias), bs)
    case 12 =>
      var (name, bs) :- ReadStringOrEmpty(200, bs);
      Parse(TemplateInfo(alias, name), bs)
    case _ =>
      if |bs| < 2 then NoParse(Protocol)
      else if Head(bs) != 200 then Parse(GeoInfo(alias, None), bs)
      else
        var bs := bs[2..];
        var (crs, bs) :- ReadOptionalString(100, bs);
        var (_, bs) :- ReadEnd(bs);
        Parse(GeoInfo(alias, crs), bs)
  }

  function ReadTypes(n: nat, bs: seq<byte>): (p: Parsed<seq<LogicalType>>)
    ensures p.Parse? ==> |p.value| == n && |p.rest| <= |bs|
    decreases |bs|, 2
  {
    if n == 0 then Parse([], bs)
    else
      var (t, bs) :- ReadType(bs);
      var (ts, bs) :- ReadTypes(n - 1, bs);
      Parse([t] + ts, bs)
  }

  function ReadChild(bs: seq<byte>): (p: Parsed<ChildType>)
    ensures Shrinks(p, bs)
    decreases |bs|, 2
  {
    var (_, bs) :- ReadTag(0, bs);
    var (name, bs) :- ReadString(bs);
    var (_, bs) :- ReadTag(1, bs);
    var (t, bs) :- ReadType(bs);
    var (_, bs) :- ReadEnd(bs);
    Parse(ChildType(name, t), bs)
  }

  function ReadChildren(n: nat, bs: seq<byte>): (p: Parsed<seq<ChildType>>)
    ensures p.Parse? ==> |p.value| == n && |p.rest| <= |bs|
    decreases |bs|, 3
  {
    if n == 0 then Parse([], bs)
    else
      var (c, bs) :- ReadChild(bs);
      var (cs, bs) :- ReadChildren(n - 1, bs);
      Parse([c] + cs, bs)
  }

  // ---- the round trip ----

  /** Reading back what was written gives the normal form and stops at the suffix. */
  lemma {:induction false} TypeRoundTrip(t: LogicalType, suffix: seq<byte>)
    requires Encodable(t)
    ensures ReadType(PutType(t, suffix)) == Parse(Norm(t), suffix)
    decreases t
  {
    hide Wire.PutFieldId, Wire.PutUleb, Wire.PutBool, Wire.PutEnd, Wire.Head, Wire.ReadFieldId, Wire.ReadTag,
      Wire.ReadUleb64, Wire.ReadBool, Wire.ReadEnd;
    hide PutInfo, ReadInfo, NormInfo, LogicalTypes.TypeCode, LogicalTypes.TypeOfCode;
    if t.info.Some? {
      InfoRoundTrip(t.info.value, PutEnd(suffix));
    }
  }

  lemma {:induction false} InfoRoundTrip(info: ExtraTypeInfo, suffix: seq<byte>)
    requires EncodableInfo(info)
    ensures ReadInfo(PutInfo(info, suffix)) == Parse(NormInfo(info), suffix)
    decreases info, 1
  {
    hide Wire.PutFieldId, Wire.PutUleb, Wire.PutEnd, Wire.Head, Wire.ReadFieldId, Wire.ReadTag, Wire.ReadUleb64,
      Wire.ReadString, Wire.ReadEnd;
    hide PutDetails, ReadDetails, NormInfo, Wire.PutOptionalString, Wire.ReadOptionalString;
    DetailsRoundTrip(info, NonEmpty(info.alias), PutEnd(suffix));
  }

  lemma {:induction false} DetailsRoundTrip(info: ExtraTypeInfo, alias: Option<text>, suffix: seq<byte>)
    requires EncodableInfo(info) && Head(suffix) == FIELD_END && alias == NonEmpty(info.alias)
    ensures ReadDetails(InfoCode(info), alias, PutDetails(info, suffix)) == Parse(NormInfo(info), suffix)
    decreases info, 0
  {
    hide PutType, PutTypes, PutChildren, ReadType, ReadTypes, ReadChildren, Norm, NormTypes, NormChildren;
    hide Wire.PutFieldId, Wire.PutUleb, Wire.Head, Wire.ReadFieldId, Wire.ReadTag, Wire.ReadUleb64;
    match info
    case AggregateInfo(_, _, ret, arguments) =>
      TypesRoundTrip(arguments, suffix);
      TypeRoundTrip(ret, PutFieldId(202, PutUleb(|arguments|, PutTypes(arguments, suffix))));
    case StructInfo(_, children) =>
      ChildrenRoundTrip(children, suffix);
    case ListInfo(_, child) =>
      TypeRoundTrip(child, suffix);
    case ArrayInfo(_, child, size) =>
      TypeRoundTrip(child, PutFieldId(201, PutUleb(size, suffix)));
    case AnyInfo(_, target, score) =>
      TypeRoundTrip(target, PutFieldId(201, PutUleb(score, suffix)));
    case _ =>
      hide PutDetails, ReadDetails, NormInfo;
      PlainDetailsRoundTrip(info, alias, suffix);
  }

  /** Metadata without types inside. */
  lemma PlainDetailsRoundTrip(info: ExtraTypeInfo, alias: Option<text>, suffix: seq<byte>)
    requires EncodableInfo(info) && Head(suffix) == FIELD_END && alias == NonEmpty(info.alias)
    requires InfoCode(info) in {0, 1, 2, 3, 6, 7, 12, 13}
    ensures ReadDetails(InfoCode(info), alias, PutDetails(info, suffix)) == Parse(NormInfo(info), suffix)
  {
    hide PutType, PutTypes, PutChildren, ReadType, ReadTypes, ReadChildren, Norm, NormTypes, NormChildren;
    hide Wire.PutFieldId, Wire.PutUleb, Wire.PutString, Wire.PutStringList, Wire.PutEnd, Wire.Head, Wire.ReadFieldId,
      Wire.ReadTag, Wire.ReadUleb64, Wire.ReadString, Wire.ReadStringList, Wire.ReadEnd;
    match info
    case DecimalInfo(_, width, scale) =>
    case EnumInfo(_, values) =>
    case UnboundInfo(_, name, catalog, schema) =>
      var rest := PutPresentString(202, schema, suffix);
      assert Head(PutPresentString(201, catalog, rest)) >= 201;
    case _ =>
  }

  lemma {:induction false} TypesRoundTrip(ts: seq<LogicalType>, suffix: seq<byte>)
    requires EncodableTypes(ts)
    ensures ReadTypes(|ts|, PutTypes(ts, suffix)) == Parse(NormTypes(ts), suffix)
    decreases ts
  {
    hide PutType, ReadType, Norm;
    if ts != [] {
      TypesRoundTrip(ts[1..], suffix);
      TypeRoundTrip(ts[0], PutTypes(ts[1..], suffix));
    }
  }

  lemma {:induction false} ChildrenRoundTrip(cs: seq<ChildType>, suffix: seq<byte>)
    requires EncodableChildren(cs)
    ensures ReadChildren(|cs|, PutChildren(cs, suffix)) == Parse(NormChildren(cs), suffix)
    decreases cs
  {
    hide PutType, ReadType, Norm;
    hide Wire.PutFieldId, Wire.PutString, Wire.PutEnd, Wire.Head, Wire.ReadFieldId, Wire.ReadTag, Wire.ReadUleb64,
      Wire.ReadString, Wire.ReadEnd;
    if cs != [] {
      ChildrenRoundTrip(cs[1..], suffix);
      TypeRoundTrip(cs[0].logicalType, PutEnd(PutChildren(cs[1..], suffix)));
    }
  }

  /** The normal form is a fixed point: a second trip changes nothing. */
  lemma {:induction false} NormIdempotent(t: LogicalType)
    ensures Norm(Norm(t)) == Norm(t)
    decreases t
  {
    if t.info.Some? {
      match t.info.value
      case ListInfo(_, child) => NormIdempotent(child);
      case StructInfo(_, children) => NormChildrenIdempotent(children);
      case AggregateInfo(_, _, ret, arguments) =>
        NormIdempotent(ret);
        NormTypesIdempotent(arguments);
      case ArrayInfo(_, child, _) => NormIdempotent(child);
      case AnyInfo(_, target, _) => NormIdempotent(target);
      case _ =>
    }
  }

  lemma {:induction false} NormTypesIdempotent(ts: seq<LogicalType>)
    ensures NormTypes(NormTypes(ts)) == NormTypes(ts)
    decreases ts
  {
    if ts != [] {
      NormIdempotent(ts[0]);
      NormTypesIdempotent(ts[1..]);
      assert NormTypes(ts)[1..] == NormTypes(ts[1..]);
    }
  }

  lemma {:induction false} NormChildrenIdempotent(cs: seq<ChildType>)
    ensures NormChildren(NormChildren(cs)) == NormChildren(cs)
    decreases cs
  {
    if cs != [] {
      NormIdempotent(cs[0].logicalType);
      NormChildrenIdempotent(cs[1..]);
      assert NormChildren(cs)[1..] == NormChildren(cs[1..]);
    }
  }
}
