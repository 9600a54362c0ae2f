/** Where everything stands in a message, byte by byte: an object is a row of fields, each a
    two-byte tag and its bytes, a field with its default left out, and two bytes of ones. */
module WireLayout {
  import opened Prelude
  import opened Wire
  import opened Leb128
  import opened LogicalTypes
  import opened TypeCodec
  import opened VectorRoundTrips
  import opened Chunks
  import opened Messages
  import opened MessageBodies

  // ---- fields ----

  /** Field number `id`, unless it is left out. */
  function Tagged(id: byte, bytes: Option<seq<byte>>, rest: seq<byte>): seq<byte> {
    match bytes
    case None => rest
    case Some(b) => [id, 0] + (b + rest)
  }

  function Ending(rest: seq<byte>): seq<byte> {
    [255, 255] + rest
  }

  function Text(s: text): seq<byte> {
    Leb128.Uleb(|s|) + s
  }

  /** Absent and empty texts are left out. */
  function TextIfAny(s: Option<text>): Option<seq<byte>> {
    if s.Some? && s.value != [] then Some(Text(s.value)) else None
  }

  function NumberIfAny(v: Option<u64>): Option<seq<byte>> {
    if v.Some? then Some(Leb128.Uleb(v.value)) else None
  }

  /** Zero is left out. */
  function NumberUnlessZero(v: u64): Option<seq<byte>> {
    if v != 0 then Some(Leb128.Uleb(v)) else None
  }

  function Huge(v: HugeIntParts): seq<byte> {
    Leb128.Sleb(v.upper) + Leb128.Uleb(v.lower)
  }

  lemma Glue(a: seq<byte>, b: seq<byte>, rest: seq<byte>)
    ensures a + (b + rest) == (a + b) + rest
  {
  }

  lemma TagField(id: byte, b: seq<byte>, rest: seq<byte>)
    ensures PutFieldId(id, b + rest) == Tagged(id, Some(b), rest)
    ensures PutFieldId(id, rest) == [id, 0] + rest
    ensures PutEnd(rest) == Ending(rest)
  {
  }

  lemma NumberField(id: byte, v: u64, rest: seq<byte>)
    ensures PutFieldId(id, PutUleb(v, rest)) == Tagged(id, Some(Leb128.Uleb(v)), rest)
    ensures PutUleb(v, rest) == Leb128.Uleb(v) + rest
  {
    hide Leb128.Uleb;
    TagField(id, Leb128.Uleb(v), rest);
  }

  lemma TextField(id: byte, s: text, rest: seq<byte>)
    ensures PutString(s, rest) == Text(s) + rest
    ensures PutFieldId(id, PutString(s, rest)) == Tagged(id, Some(Text(s)), rest)
  {
    hide Leb128.Uleb;
    Glue(Leb128.Uleb(|s|), s, rest);
    TagField(id, Text(s), rest);
  }

  lemma OptionalFields(id: byte, s: Option<text>, v: Option<u64>, n: u64, rest: seq<byte>)
    requires Head(rest) > id
    ensures PutOptionalString(id, s, rest) == Tagged(id, TextIfAny(s), rest)
    ensures PutOptionalUleb(id, v, rest) == Tagged(id, NumberIfAny(v), rest)
    ensures PutUlebOrZero(id, n, rest) == Tagged(id, NumberUnlessZero(n), rest)
  {
    hide Leb128.Uleb, Wire.PutFieldId, Wire.PutUleb, Wire.PutString, Text;
    if s.Some? {
      TextField(id, s.value, rest);
    }
    NumberField(id, v.GetOr(0), rest);
    NumberField(id, n, rest);
  }

  lemma HugeField(id: byte, v: HugeIntParts, rest: seq<byte>)
    ensures PutFieldId(id, PutHugeInt(v, rest)) == Tagged(id, Some(Huge(v)), rest)
  {
    hide Leb128.Uleb, Leb128.Sleb;
    Glue(Leb128.Sleb(v.upper), Leb128.Uleb(v.lower), rest);
    TagField(id, Huge(v), rest);
  }

  // ---- headers ----

  /** The query number of a header, all ones if it has none. */
  function QueryNumber(h: MessageHeader): u64 {
    match h.clientQueryId
    case Some(q) => q
    case None => TWO_64 - 1
  }

  lemma HeaderLayout(h: MessageHeader, rest: seq<byte>)
    ensures PutHeader(h, rest) ==
      Tagged(1, Some(Leb128.Uleb(MessageCode(h.messageType))), Tagged(2, TextIfAny(h.connectionId),
        Tagged(3, Some(Leb128.Uleb(QueryNumber(h))), Ending(rest))))
  {
    hide Wire.PutFieldId, Wire.PutUleb, Wire.PutEnd, Wire.PutOptionalString, Wire.Head, Tagged, Ending, Leb128.Uleb,
      TextIfAny, NumberIfAny, NumberUnlessZero;
    TagField(0, [], rest);
    var end := PutEnd(rest);
    NumberField(3, QueryNumber(h), end);
    var query := PutFieldId(3, PutUleb(QueryNumber(h), end));
    OptionalFields(2, h.connectionId, None, 0, query);
    NumberField(1, MessageCode(h.messageType), PutOptionalString(2, h.connectionId, query));
  }

  // ---- bodies of fields alone ----

  /** Both versions ask to connect alike, apart from two fields version 1 does not know. */
  lemma ConnectionRequestLayout(m: QuackMessage, rest: seq<byte>)
    requires m.ConnectionRequest?
    ensures PutConnectionRequestV1(m, rest) ==
      Tagged(1, TextIfAny(m.authString), Tagged(2, TextIfAny(m.clientVersion), Tagged(3, TextIfAny(m.clientPlatform),
        Tagged(4, NumberUnlessZero(m.minVersion), Tagged(5, NumberUnlessZero(m.maxVersion), Ending(rest))))))
    ensures PutConnectionRequestV3(m, rest) ==
      Tagged(1, TextIfAny(m.authString), Tagged(2, TextIfAny(m.clientVersion), Tagged(3, TextIfAny(m.clientPlatform),
        Tagged(4, NumberUnlessZero(m.minVersion), Tagged(5, NumberUnlessZero(m.maxVersion),
          Tagged(6, TextIfAny(m.clientId), Tagged(7, NumberUnlessZero(m.heartbeatTimeout), Ending(rest))))))))
  {
    hide Wire.PutEnd, Wire.PutOptionalString, Wire.PutUlebOrZero, Wire.Head, Wire.ReadEnd, Tagged, Ending, TextIfAny,
      NumberIfAny, NumberUnlessZero, ReadConnectionRequestV1, ReadConnectionRequestV3;
    TagField(0, [], rest);
    RequestFields(m, PutEnd(rest));
    OptionalFields(7, None, None, m.heartbeatTimeout, PutEnd(rest));
    var lease := PutUlebOrZero(7, m.heartbeatTimeout, PutEnd(rest));
    OptionalFields(6, m.clientId, None, 0, lease);
    RequestFields(m, PutOptionalString(6, m.clientId, lease));
  }

  /** The five fields that open a CONNECTION_REQUEST. */
  lemma RequestFields(m: QuackMessage, rest: seq<byte>)
    requires m.ConnectionRequest? && Head(rest) > 5
    ensures PutOptionalString(1, m.authString, PutOptionalString(2, m.clientVersion,
        PutOptionalString(3, m.clientPlatform, PutUlebOrZero(4, m.minVersion,
          PutUlebOrZero(5, m.maxVersion, rest))))) ==
      Tagged(1, TextIfAny(m.authString), Tagged(2, TextIfAny(m.clientVersion), Tagged(3, TextIfAny(m.clientPlatform),
        Tagged(4, NumberUnlessZero(m.minVersion), Tagged(5, NumberUnlessZero(m.maxVersion), rest)))))
  {
    hide Wire.PutOptionalString, Wire.PutUlebOrZero, Wire.Head, Tagged, TextIfAny, NumberIfAny, NumberUnlessZero;
    OptionalFields(5, None, None, m.maxVersion, rest);
    var max := PutUlebOrZero(5, m.maxVersion, rest);
    OptionalFields(4, None, None, m.minVersion, max);
    var min := PutUlebOrZero(4, m.minVersion, max);
    OptionalFields(3, m.clientPlatform, None, 0, min);
    var platform := PutOptionalString(3, m.clientPlatform, min);
    OptionalFields(2, m.clientVersion, None, 0, platform);
    OptionalFields(1, m.authString, None, 0, PutOptionalString(2, m.clientVersion, platform));
  }

  lemma ConnectionResponseLayout(m: QuackMessage, rest: seq<byte>)
    requires m.ConnectionResponse?
    ensures PutConnectionResponseV1(m, rest) ==
      Tagged(1, TextIfAny(m.serverVersion), Tagged(2, TextIfAny(m.serverPlatform),
        Tagged(3, NumberIfAny(m.quackVersion),
        Ending(rest))))
    ensures PutConnectionResponseV3(m, rest) ==
      Tagged(1, TextIfAny(m.serverVersion), Tagged(2, TextIfAny(m.serverPlatform),
        Tagged(3, NumberIfAny(m.quackVersion),
        Tagged(4, NumberIfAny(m.serverTimeout), Ending(rest)))))
  {
    hide Wire.PutEnd, Wire.PutOptionalString, Wire.PutOptionalUleb, Wire.Head, Wire.ReadEnd, Tagged, Ending, TextIfAny,
      NumberIfAny, NumberUnlessZero, ReadConnectionResponseV1, ReadConnectionResponseV3;
    TagField(0, [], rest);
    ResponseFields(m, PutEnd(rest));
    OptionalFields(4, None, m.serverTimeout, 0, PutEnd(rest));
    ResponseFields(m, PutOptionalUleb(4, m.serverTimeout, PutEnd(rest)));
  }

  lemma ResponseFields(m: QuackMessage, rest: seq<byte>)
    requires m.ConnectionResponse? && Head(rest) > 3
    ensures PutOptionalString(1, m.serverVersion, PutOptionalString(2, m.serverPlatform,
        PutOptionalUleb(3, m.quackVersion, rest))) ==
      Tagged(1, TextIfAny(m.serverVersion), Tagged(2, TextIfAny(m.serverPlatform),
        Tagged(3, NumberIfAny(m.quackVersion), rest)))
  {
    hide Wire.PutOptionalString, Wire.PutOptionalUleb, Wire.Head, Tagged, TextIfAny, NumberIfAny, NumberUnlessZero;
    OptionalFields(3, None, m.quackVersion, 0, rest);
    var quack := PutOptionalUleb(3, m.quackVersion, rest);
    OptionalFields(2, m.serverPlatform, None, 0, quack);
    OptionalFields(1, m.serverVersion, None, 0, PutOptionalString(2, m.serverPlatform, quack));
  }

  lemma PrepareRequestLayout(m: QuackMessage, rest: seq<byte>)
    requires m.PrepareRequest?
    ensures PutPrepareRequestV1(m, rest) == Tagged(1, TextIfAny(Some(m.sql)), Ending(rest))
    ensures m.queryUuid.Some? ==>
      PutPrepareRequestV3(m, rest) ==
      Tagged(1, TextIfAny(Some(m.sql)), Tagged(2, Some(Huge(m.queryUuid.value)), Tagged(3, NumberIfAny(m.inlineRows),
        Ending(rest))))
  {
    hide Wire.PutFieldId, Wire.PutEnd, Wire.PutOptionalString, Wire.PutOptionalUleb, Wire.PutHugeInt, Wire.Head,
      Wire.ReadEnd, Tagged, Ending, Huge, TextIfAny, NumberIfAny, NumberUnlessZero, ReadPrepareRequestV1,
      ReadPrepareRequestV3;
    TagField(0, [], rest);
    OptionalFields(1, Some(m.sql), None, 0, PutEnd(rest));
    OptionalFields(3, None, m.inlineRows, 0, PutEnd(rest));
    if m.queryUuid.Some? {
      var inline := PutOptionalUleb(3, m.inlineRows, PutEnd(rest));
      HugeField(2, m.queryUuid.value, inline);
      OptionalFields(1, Some(m.sql), None, 0, PutFieldId(2, PutHugeInt(m.queryUuid.value, inline)));
    }
  }

  lemma FetchRequestLayout(m: QuackMessage, rest: seq<byte>)
    requires m.FetchRequest?
    ensures PutFetchRequestV1(m, rest) == Tagged(1, Some(Huge(m.resultUuid)), Ending(rest))
    ensures m.batchIndex.Some? ==>
      PutFetchRequestV3(m, rest) ==
      Tagged(1, Some(Huge(m.resultUuid)), Tagged(2, NumberUnlessZero(m.batchIndex.value),
        Tagged(3, NumberUnlessZero(m.ackIndex.GetOr(0)), Ending(rest))))
  {
    hide Wire.PutFieldId, Wire.PutEnd, Wire.PutUlebOrZero, Wire.PutHugeInt, Wire.Head, Wire.ReadEnd, Tagged, Ending,
      Huge, TextIfAny, NumberIfAny, NumberUnlessZero, ReadFetchRequestV1, ReadFetchRequestV3;
    TagField(0, [], rest);
    HugeField(1, m.resultUuid, PutEnd(rest));
    OptionalFields(3, None, None, m.ackIndex.GetOr(0), PutEnd(rest));
    if m.batchIndex.Some? {
      var ack := PutUlebOrZero(3, m.ackIndex.GetOr(0), PutEnd(rest));
      OptionalFields(2, None, None, m.batchIndex.value, ack);
      HugeField(1, m.resultUuid, PutUlebOrZero(2, m.batchIndex.value, ack));
    }
  }

  lemma ErrorResponseLayout(m: QuackMessage, rest: seq<byte>)
    requires m.ErrorResponse?
    ensures PutErrorResponse(m, rest) == Tagged(1, TextIfAny(Some(m.message)), Ending(rest))
  {
    hide Wire.PutEnd, Wire.PutOptionalString, Wire.Head, Wire.ReadEnd, Tagged, Ending, TextIfAny, NumberIfAny,
      NumberUnlessZero, ReadErrorResponse;
    TagField(0, [], rest);
    OptionalFields(1, Some(m.message), None, 0, PutEnd(rest));
  }

  // ---- bodies with chunks ----

  /** Chunks behind pointers: a byte that says the pointer is not null, and an object whose only
      field, number 300, is the chunk. */
  function PointedChunks(cs: seq<DataChunk>, rest: seq<byte>): seq<byte>
    requires CanEncodeChunks(cs)
  {
    if cs == [] then rest else [1, 44, 1] + PutChunk(cs[0], Ending(PointedChunks(cs[1..], rest)))
  }

  lemma {:induction false} PointersLayout(cs: seq<DataChunk>, rest: seq<byte>)
    requires CanEncodeChunks(cs)
    ensures PutPointers(cs, rest) == PointedChunks(cs, rest)
  {
    hide CanEncodeChunk, PutChunk;
    if cs != [] {
      PointersLayout(cs[1..], rest);
      TagField(0, [], PointedChunks(cs[1..], rest));
      WrapperLayout(PutChunk(cs[0], Ending(PointedChunks(cs[1..], rest))));
    }
  }

  lemma WrapperLayout(rest: seq<byte>)
    ensures PutBool(true, PutFieldId(300, rest)) == [1, 44, 1] + rest
  {
    assert [1] + ([44, 1] + rest) == [1, 44, 1] + rest;
  }

  /** A list is left out when it is empty. */
  function Listed(id: byte, n: u64, items: seq<byte>, rest: seq<byte>): seq<byte> {
    if n == 0 then rest else [id, 0] + (Leb128.Uleb(n) + items)
  }

  lemma PointerListLayout(id: byte, cs: vec<DataChunk>, rest: seq<byte>)
    requires CanEncodeChunks(cs) && Head(rest) > id
    ensures PutPointerList(id, cs, rest) == Listed(id, |cs|, PointedChunks(cs, rest), rest)
  {
    hide CanEncodeChunks, PutPointers, PointedChunks, Wire.PutFieldId, Wire.PutUleb, Leb128.Uleb, Tagged;
    PointersLayout(cs, rest);
    NumberField(id, |cs|, PutPointers(cs, rest));
    TagField(id, [], PutUleb(|cs|, PutPointers(cs, rest)));
  }

  function Names(names: seq<text>, rest: seq<byte>): seq<byte> {
    if names == [] then rest else Text(names[0]) + Names(names[1..], rest)
  }

  lemma {:induction false} NamesLayout(names: seq<text>, rest: seq<byte>)
    ensures PutStrings(names, rest) == Names(names, rest)
  {
    if names != [] {
      NamesLayout(names[1..], rest);
      TextField(0, names[0], Names(names[1..], rest));
    }
  }

  lemma TypeListLayout(id: byte, ts: vec<LogicalType>, rest: seq<byte>)
    requires EncodableTypes(ts) && Head(rest) > id
    ensures PutTypeList(id, ts, rest) == Listed(id, |ts|, PutTypes(ts, rest), rest)
  {
    hide EncodableTypes, PutTypes, Wire.PutFieldId, Wire.PutUleb, Leb128.Uleb, ReadTypeList;
    NumberField(id, |ts|, PutTypes(ts, rest));
    TagField(id, [], PutUleb(|ts|, PutTypes(ts, rest)));
  }

  /** A flag is left out when it is false. */
  lemma NamesAndFlag(id: byte, names: vec<text>, flag: bool, rest: seq<byte>)
    requires Head(rest) > id
    ensures PutNameList(id, names, rest) == Listed(id, |names|, Names(names, rest), rest)
    ensures PutFlag(id, flag, rest) == Tagged(id, if flag then Some([1]) else None, rest)
  {
    hide Wire.PutFieldId, Wire.PutUleb, Leb128.Uleb, Wire.PutStrings, Names, ReadNameList;
    NamesLayout(names, rest);
    NumberField(id, |names|, PutStrings(names, rest));
    TagField(id, [1], rest);
    TagField(id, [], PutUleb(|names|, PutStrings(names, rest)));
  }

  lemma PrepareResponseLayout(m: QuackMessage, rest: seq<byte>)
    requires m.PrepareResponse? && EncodableTypes(m.resultTypes) && CanEncodeChunks(m.results)
    ensures var uuid := Tagged(5, Some(Huge(m.resultUuid)), Ending(rest));
      var results := Listed(4, |m.results|, PointedChunks(m.results, uuid), uuid);
      var more := Tagged(3, if m.needsMoreFetch then Some([1]) else None, results);
      var names := Listed(2, |m.resultNames|, Names(m.resultNames, more), more);
      PutPrepareResponse(m, rest) == Listed(1, |m.resultTypes|, PutTypes(m.resultTypes, names), names)
  {
    hide EncodableTypes, CanEncodeChunks, PutTypes, PointedChunks, Names, Listed, Tagged, Ending, Huge, PutTypeList,
      PutNameList, PutFlag, PutPointerList, Wire.PutFieldId, Wire.PutHugeInt, Wire.PutEnd, Wire.Head, Wire.ReadEnd,
      ReadTypeList, ReadNameList, ReadFlag;
    TagField(0, [], rest);
    HugeField(5, m.resultUuid, PutEnd(rest));
    var uuid := PutFieldId(5, PutHugeInt(m.resultUuid, PutEnd(rest)));
    PointerListLayout(4, m.results, uuid);
    var results := PutPointerList(4, m.results, uuid);
    assert Head(uuid) == 5 && Head(results) > 3;
    NamesAndFlag(3, [], m.needsMoreFetch, results);
    var more := PutFlag(3, m.needsMoreFetch, results);
    NamesAndFlag(2, m.resultNames, false, more);
    TypeListLayout(1, m.resultTypes, PutNameList(2, m.resultNames, more));
  }

  /** Version 1 has the chunks behind pointers; in version 3 they follow the object that counts them. */
  lemma FetchResponseLayout(m: QuackMessage, rest: seq<byte>)
    requires m.FetchResponse? && CanEncodeChunks(m.results)
    ensures var batch := Tagged(2, Some(Leb128.Uleb(if m.batchIndex.Some? then m.batchIndex.value else TWO_64 - 1)),
        Ending(rest));
      PutFetchResponseV1(m, rest) == Listed(1, |m.results|, PointedChunks(m.results, batch), batch)
    ensures PutFetchResponseV3(m, rest) ==
      Tagged(1, NumberUnlessZero(|m.results|), Tagged(2, NumberIfAny(m.totalBatches),
        Tagged(3, NumberIfAny(m.batchIndex),
        Ending(PutChunks(m.results, rest)))))
  {
    hide CanEncodeChunks, PutChunks, PointedChunks, Listed, Tagged, Ending, NumberIfAny, NumberUnlessZero, TextIfAny,
      PutPointerList, Wire.PutFieldId, Wire.PutUleb, Wire.PutEnd, Wire.PutOptionalUleb, Wire.PutUlebOrZero, Wire.Head,
      Wire.ReadEnd, Leb128.Uleb;
    TagField(0, [], rest);
    var index: u64 := m.batchIndex.GetOr(TWO_64 - 1);
    NumberField(2, index, PutEnd(rest));
    PointerListLayout(1, m.results, PutFieldId(2, PutUleb(index, PutEnd(rest))));
    var chunks := PutChunks(m.results, rest);
    TagField(0, [], chunks);
    OptionalFields(3, None, m.batchIndex, 0, PutEnd(chunks));
    var batch := PutOptionalUleb(3, m.batchIndex, PutEnd(chunks));
    OptionalFields(2, None, m.totalBatches, 0, batch);
    OptionalFields(1, None, None, |m.results|, PutOptionalUleb(2, m.totalBatches, batch));
  }

  lemma AppendRequestLayout(m: QuackMessage, rest: seq<byte>)
    requires m.AppendRequest? && CanEncodeChunk(m.appendChunk)
    ensures PutAppendRequest(m, rest) ==
      Tagged(1, TextIfAny(m.schemaName), Tagged(2, TextIfAny(Some(m.tableName)),
        [3, 0] + ([1, 44, 1] + PutChunk(m.appendChunk, Ending(Ending(rest))))))
  {
    hide CanEncodeChunk, PutChunk, Tagged, Ending, TextIfAny, NumberIfAny, NumberUnlessZero, Wire.PutFieldId,
      Wire.PutEnd, Wire.PutOptionalString, Wire.Head, Wire.ReadEnd, Wire.PutBool;
    TagField(0, [], rest);
    TagField(0, [], PutEnd(rest));
    var chunk := PutChunk(m.appendChunk, PutEnd(PutEnd(rest)));
    WrapperLayout(chunk);
    TagField(3, [], PutBool(true, PutFieldId(300, chunk)));
    var append := PutFieldId(3, PutBool(true, PutFieldId(300, chunk)));
    OptionalFields(2, Some(m.tableName), None, 0, append);
    OptionalFields(1, m.schemaName, None, 0, PutOptionalString(2, Some(m.tableName), append));
  }

  lemma ChunkLayout(c: DataChunk, rest: seq<byte>)
    requires CanEncodeChunk(c)
    ensures PutChunk(c, rest) ==
      Tagged(100, Some(Leb128.Uleb(c.rowCount)), Tagged(101, Some(Leb128.Uleb(|c.types|)), PutTypes(c.types,
        Tagged(102, Some(Leb128.Uleb(|c.types|)), PutChunkColumns(c.types, c.columns, c.rowCount, Ending(rest))))))
  {
    hide EncodableTypes, CanEncodeColumns, PutTypes, PutChunkColumns, Tagged, Ending, Wire.PutFieldId, Wire.PutUleb,
      Wire.PutEnd, Leb128.Uleb;
    TagField(0, [], rest);
    var columns := PutChunkColumns(c.types, c.columns, c.rowCount, PutEnd(rest));
    NumberField(102, |c.columns|, columns);
    var types := PutTypes(c.types, PutFieldId(102, PutUleb(|c.columns|, columns)));
    NumberField(101, |c.types|, types);
    NumberField(100, c.rowCount, PutFieldId(101, PutUleb(|c.types|, types)));
  }

  // ---- types ----

  lemma TypeLayout(t: LogicalType, rest: seq<byte>)
    requires Encodable(t)
    ensures PutType(t, rest) ==
      Tagged(100, Some(Leb128.Uleb(TypeCode(t.id))),
        if t.info.Some? then [101, 0] + ([1] + PutInfo(t.info.value, Ending(rest))) else Ending(rest))
  {
    hide Encodable, EncodableInfo, PutInfo, Tagged, Ending, Wire.PutFieldId, Wire.PutUleb, Wire.PutEnd, Leb128.Uleb;
    assert t.info.Some? ==> EncodableInfo(t.info.value) by {
      EncodableInside(t);
    }
    TagField(0, [], rest);
    if t.info.Some? {
      var info := PutBool(true, PutInfo(t.info.value, PutEnd(rest)));
      TagField(101, [], info);
      NumberField(100, TypeCode(t.id), PutFieldId(101, info));
    } else {
      NumberField(100, TypeCode(t.id), PutEnd(rest));
    }
  }

  lemma EncodableInside(t: LogicalType)
    requires Encodable(t)
    ensures t.info.Some? ==> EncodableInfo(t.info.value)
  {
  }

  lemma InfoLayout(info: ExtraTypeInfo, rest: seq<byte>)
    requires EncodableInfo(info)
    ensures PutInfo(info, rest) ==
      Tagged(100, Some(Leb128.Uleb(InfoCode(info))), Tagged(101, TextIfAny(info.alias),
        PutDetails(info, Ending(rest))))
  {
    hide EncodableInfo, PutDetails, Tagged, Ending, TextIfAny, NumberIfAny, NumberUnlessZero, Wire.PutFieldId,
      Wire.PutUleb, Wire.PutEnd, Wire.PutOptionalString, Wire.Head, Wire.ReadEnd, Leb128.Uleb;
    TagField(0, [], rest);
    var details := PutDetails(info, PutEnd(rest));
    OptionalFields(101, info.alias, None, 0, details);
    NumberField(100, InfoCode(info), PutOptionalString(101, info.alias, details));
  }

  /** What follows the alias, kind by kind. */
  function Details(info: ExtraTypeInfo, rest: seq<byte>): seq<byte>
    requires EncodableInfo(info)
  {
    match info
    case InvalidInfo(_) => rest
    case GenericInfo(_) => rest
    case DecimalInfo(_, width, scale) =>
      Tagged(200, Some(Leb128.Uleb(width)), Tagged(201, Some(Leb128.Uleb(scale)), rest))
    case StringInfo(_, collation) => Tagged(200, Some(Text(collation)), rest)
    case ListInfo(_, child) => [200, 0] + PutType(child, rest)
    case StructInfo(_, children) => Tagged(200, Some(Leb128.Uleb(|children|)), NamedTypes(children, rest))
    case EnumInfo(_, values) =>
      Tagged(200, Some(Leb128.Uleb(|values|)), Tagged(201, Some(Leb128.Uleb(|values|)), Names(values, rest)))
    case UnboundInfo(_, name, catalog, schema) =>
      Tagged(200, TextIfPresent(name), Tagged(201, TextIfPresent(catalog), Tagged(202, TextIfPresent(schema), rest)))
    case AggregateInfo(_, name, ret, arguments) =>
      Tagged(200, Some(Text(name)), [201, 0] + PutType(ret,
        Tagged(202, Some(Leb128.Uleb(|arguments|)), PutTypes(arguments, rest))))
    case ArrayInfo(_, child, size) => [200, 0] + PutType(child, Tagged(201, Some(Leb128.Uleb(size)), rest))
    case AnyInfo(_, target, score) => [200, 0] + PutType(target, Tagged(201, Some(Leb128.Uleb(score)), rest))
    case TemplateInfo(_, name) => Tagged(200, Some(Text(name)), rest)
    case GeoInfo(_, crs) => [200, 0] + Tagged(100, TextIfPresent(crs), Ending(rest))
  }

  /** A present text is written even when it is empty. */
  function TextIfPresent(s: Option<text>): Option<seq<byte>> {
    if s.Some? then Some(Text(s.value)) else None
  }

  /** Objects of a name and a type. */
  function NamedTypes(cs: seq<ChildType>, rest: seq<byte>): seq<byte>
    requires EncodableChildren(cs)
  {
    if cs == [] then rest
    else Tagged(0, Some(Text(cs[0].name)), [1, 0] + PutType(cs[0].logicalType, Ending(NamedTypes(cs[1..], rest))))
  }

  lemma {:induction false} NamedTypesLayout(cs: seq<ChildType>, rest: seq<byte>)
    requires EncodableChildren(cs)
    ensures PutChildren(cs, rest) == NamedTypes(cs, rest)
  {
    hide PutType, Tagged, Ending, Text, Wire.PutFieldId, Wire.PutString, Wire.PutEnd;
    if cs != [] {
      NamedTypesLayout(cs[1..], rest);
      TagField(0, [], NamedTypes(cs[1..], rest));
      var t := PutType(cs[0].logicalType, Ending(NamedTypes(cs[1..], rest)));
      TagField(1, [], t);
      TextField(0, cs[0].name, PutFieldId(1, t));
    }
  }

  lemma PresentField(id: byte, s: Option<text>, rest: seq<byte>)
    requires Head(rest) > id
    ensures PutPresentString(id, s, rest) == Tagged(id, TextIfPresent(s), rest)
  {
    hide Wire.PutFieldId, Wire.PutString, Text;
    if s.Some? {
      TextField(id, s.value, rest);
    }
  }

  lemma DetailsLayout(info: ExtraTypeInfo, rest: seq<byte>)
    requires EncodableInfo(info) && Head(rest) == FIELD_END
    ensures PutDetails(info, rest) == Details(info, rest)
  {
    hide PutType, PutTypes, PutChildren, NamedTypes, Names, Tagged, Ending, Text, TextIfPresent, Wire.PutFieldId,
      Wire.PutString, Wire.PutEnd, Wire.PutUleb, Wire.PutStrings, Wire.PutPresentString, Wire.Head, Wire.ReadEnd,
      Leb128.Uleb,
      Encodable, EncodableTypes, EncodableChildren;
    match info
    case InvalidInfo(_) =>
    case GenericInfo(_) =>
    case DecimalInfo(_, width, scale) =>
      NumberField(201, scale, rest);
      NumberField(200, width, PutFieldId(201, PutUleb(scale, rest)));
    case StringInfo(_, collation) => TextField(200, collation, rest);
    case ListInfo(_, child) => TagField(200, [], PutType(child, rest));
    case StructInfo(_, children) =>
      NamedTypesLayout(children, rest);
      NumberField(200, |children|, PutChildren(children, rest));
    case EnumInfo(_, values) =>
      NamesLayout(values, rest);
      NumberField(201, |values|, PutStrings(values, rest));
      NumberField(200, |values|, PutFieldId(201, PutStringList(values, rest)));
    case UnboundInfo(_, name, catalog, schema) =>
      PresentField(202, schema, rest);
      PresentField(201, catalog, PutPresentString(202, schema, rest));
      PresentField(200, name, PutPresentString(201, catalog, PutPresentString(202, schema, rest)));
    case AggregateInfo(_, name, ret, arguments) =>
      NumberField(202, |arguments|, PutTypes(arguments, rest));
      var t := PutType(ret, PutFieldId(202, PutUleb(|arguments|, PutTypes(arguments, rest))));
      TagField(201, [], t);
      TextField(200, name, PutFieldId(201, t));
    case ArrayInfo(_, child, size) =>
      NumberField(201, size, rest);
      TagField(200, [], PutType(child, PutFieldId(201, PutUleb(size, rest))));
    case AnyInfo(_, target, score) =>
      NumberField(201, score, rest);
      TagField(200, [], PutType(target, PutFieldId(201, PutUleb(score, rest))));
    case TemplateInfo(_, name) => TextField(200, name, rest);
    case GeoInfo(_, crs) =>
      TagField(0, [], rest);
      PresentField(100, crs, PutEnd(rest));
      TagField(200, [], PutPresentString(100, crs, PutEnd(rest)));
  }
}
