/** The bodies of messages, version by version. */
module MessageBodies {
  import opened Prelude
  import opened Wire
  import opened LogicalTypes
  import opened TypeCodec
  import opened VectorRoundTrips
  import opened Chunks
  import opened Messages

  // ---- connecting ----

  function PutConnectionRequestV1(m: QuackMessage, tail: seq<byte>): (r: seq<byte>)
    requires m.ConnectionRequest?
    ensures ReadConnectionRequestV1(NormHeader(m.header), r) == Parse(ProjectMessage(m), tail)
  {
    hide Wire.PutEnd, Wire.PutOptionalString, Wire.PutUlebOrZero, Wire.Head, Wire.ReadTag, Wire.ReadUleb64,
      Wire.ReadEnd, Wire.ReadOptionalString, Wire.ReadUlebOrZero;
    PutOptionalString(1, m.authString, PutOptionalString(2, m.clientVersion, PutOptionalString(3, m.clientPlatform,
      PutUlebOrZero(4, m.minVersion, PutUlebOrZero(5, m.maxVersion, PutEnd(tail))))))
  }

  function ReadConnectionRequestV1(h: MessageHeader, bs: seq<byte>): Parsed<QuackMessage> {
    var (auth, bs) :- ReadOptionalString(1, bs);
    var (version, bs) :- ReadOptionalString(2, bs);
    var (platform, bs) :- ReadOptionalString(3, bs);
    var (min, bs) :- ReadUlebOrZero(4, bs);
    var (max, bs) :- ReadUlebOrZero(5, bs);
    var (_, bs) :- ReadEnd(bs);
    Parse(ConnectionRequest(h, auth, version, platform, min, max, None, 0), bs)
  }

  function PutConnectionRequestV3(m: QuackMessage, tail: seq<byte>): (r: seq<byte>)
    requires m.ConnectionRequest?
    ensures ReadConnectionRequestV3(NormHeader(m.header), r) == Parse(NormMessage(m), tail)
  {
    hide Wire.PutEnd, Wire.PutOptionalString, Wire.PutUlebOrZero, Wire.Head, Wire.ReadTag, Wire.ReadUleb64,
      Wire.ReadEnd, Wire.ReadOptionalString, Wire.ReadUlebOrZero;
    PutOptionalString(1, m.authString, PutOptionalString(2, m.clientVersion, PutOptionalString(3, m.clientPlatform,
      PutUlebOrZero(4, m.minVersion, PutUlebOrZero(5, m.maxVersion, PutOptionalString(6, m.clientId,
        PutUlebOrZero(7, m.heartbeatTimeout, PutEnd(tail))))))))
  }

  function ReadConnectionRequestV3(h: MessageHeader, bs: seq<byte>): Parsed<QuackMessage> {
    var (auth, bs) :- ReadOptionalString(1, bs);
    var (version, bs) :- ReadOptionalString(2, bs);
    var (platform, bs) :- ReadOptionalString(3, bs);
    var (min, bs) :- ReadUlebOrZero(4, bs);
    var (max, bs) :- ReadUlebOrZero(5, bs);
    var (client, bs) :- ReadOptionalString(6, bs);
    var (timeout, bs) :- ReadUlebOrZero(7, bs);
    var (_, bs) :- ReadEnd(bs);
    Parse(ConnectionRequest(h, auth, version, platform, min, max, client, timeout), bs)
  }

  function PutConnectionResponseV1(m: QuackMessage, tail: seq<byte>): (r: seq<byte>)
    requires m.ConnectionResponse?
    ensures ReadConnectionResponseV1(NormHeader(m.header), r) == Parse(ProjectMessage(m), tail)
  {
    hide Wire.PutEnd, Wire.PutOptionalString, Wire.PutOptionalUleb, Wire.Head, Wire.ReadTag, Wire.ReadUleb64,
      Wire.ReadEnd, Wire.ReadOptionalString, Wire.ReadOptionalUleb;
    PutOptionalString(1, m.serverVersion, PutOptionalString(2, m.serverPlatform,
      PutOptionalUleb(3, m.quackVersion, PutEnd(tail))))
  }

  function ReadConnectionResponseV1(h: MessageHeader, bs: seq<byte>): Parsed<QuackMessage> {
    var (version, bs) :- ReadOptionalString(1, bs);
    var (platform, bs) :- ReadOptionalString(2, bs);
    var (quack, bs) :- ReadOptionalUleb(3, bs);
    var (_, bs) :- ReadEnd(bs);
    Parse(ConnectionResponse(h, version, platform, quack, None), bs)
  }

  function PutConnectionResponseV3(m: QuackMessage, tail: seq<byte>): (r: seq<byte>)
    requires m.ConnectionResponse?
    ensures ReadConnectionResponseV3(NormHeader(m.header), r) == Parse(NormMessage(m), tail)
  {
    hide Wire.PutEnd, Wire.PutOptionalString, Wire.PutOptionalUleb, Wire.Head, Wire.ReadTag, Wire.ReadUleb64,
      Wire.ReadEnd, Wire.ReadOptionalString, Wire.ReadOptionalUleb;
    PutOptionalString(1, m.serverVersion, PutOptionalString(2, m.serverPlatform,
      PutOptionalUleb(3, m.quackVersion, PutOptionalUleb(4, m.serverTimeout, PutEnd(tail)))))
  }

  function ReadConnectionResponseV3(h: MessageHeader, bs: seq<byte>): Parsed<QuackMessage> {
    var (version, bs) :- ReadOptionalString(1, bs);
    var (platform, bs) :- ReadOptionalString(2, bs);
    var (quack, bs) :- ReadOptionalUleb(3, bs);
    var (timeout, bs) :- ReadOptionalUleb(4, bs);
    var (_, bs) :- ReadEnd(bs);
    Parse(ConnectionResponse(h, version, platform, quack, timeout), bs)
  }

  // ---- queries ----

  function PutPrepareRequestV1(m: QuackMessage, tail: seq<byte>): (r: seq<byte>)
    requires m.PrepareRequest?
    ensures ReadPrepareRequestV1(NormHeader(m.header), r) == Parse(ProjectMessage(m), tail)
  {
    hide Wire.PutEnd, Wire.PutOptionalString, Wire.Head, Wire.ReadTag, Wire.ReadUleb64, Wire.ReadEnd,
      Wire.ReadOptionalString;
    PutOptionalString(1, Some(m.sql), PutEnd(tail))
  }

  function ReadPrepareRequestV1(h: MessageHeader, bs: seq<byte>): Parsed<QuackMessage> {
    var (sql, bs) :- ReadStringOrEmpty(1, bs);
    var (_, bs) :- ReadEnd(bs);
    Parse(PrepareRequest(h, sql, None, None), bs)
  }

  function PutPrepareRequestV3(m: QuackMessage, tail: seq<byte>): (r: seq<byte>)
    requires m.PrepareRequest? && m.queryUuid.Some?
    ensures ReadPrepareRequestV3(NormHeader(m.header), r) == Parse(NormMessage(m), tail)
  {
    hide Wire.PutFieldId, Wire.PutEnd, Wire.PutOptionalString, Wire.PutOptionalUleb, Wire.PutHugeInt, Wire.Head,
      Wire.ReadTag, Wire.ReadUleb64, Wire.ReadEnd, Wire.ReadOptionalString, Wire.ReadOptionalUleb, Wire.ReadHugeInt;
    PutOptionalString(1, Some(m.sql), PutFieldId(2, PutHugeInt(m.queryUuid.value,
      PutOptionalUleb(3, m.inlineRows, PutEnd(tail)))))
  }

  function ReadPrepareRequestV3(h: MessageHeader, bs: seq<byte>): Parsed<QuackMessage> {
    var (sql, bs) :- ReadStringOrEmpty(1, bs);
    var (_, bs) :- ReadTag(2, bs);
    var (uuid, bs) :- ReadHugeInt(bs);
    var (inline, bs) :- ReadOptionalIndex(3, bs);
    var (_, bs) :- ReadEnd(bs);
    Parse(PrepareRequest(h, sql, Some(uuid), inline), bs)
  }

  /** The same in both versions. */
  function PutPrepareResponse(m: QuackMessage, tail: seq<byte>): (r: seq<byte>)
    requires m.PrepareResponse? && EncodableTypes(m.resultTypes) && CanEncodeChunks(m.results)
  {
    hide Wire.PutFieldId, Wire.PutUleb, Wire.PutEnd, Wire.PutOptionalString, Wire.PutHugeInt, Wire.Head, Wire.ReadTag,
      Wire.ReadUleb64, Wire.ReadEnd, Wire.ReadOptionalString, Wire.ReadUlebOrZero, Wire.ReadHugeInt;
    PutTypeList(1, m.resultTypes, PutNameList(2, m.resultNames, PutFlag(3, m.needsMoreFetch,
      PutPointerList(4, m.results, PutFieldId(5, PutHugeInt(m.resultUuid, PutEnd(tail)))))))
  }

  function ReadPrepareResponse(h: MessageHeader, bs: seq<byte>): Parsed<QuackMessage> {
    var (types, bs) :- ReadTypeList(1, bs);
    var (names, bs) :- ReadNameList(2, bs);
    var (more, bs) :- ReadFlag(3, bs);
    var (results, bs) :- ReadPointerList(4, bs);
    var (_, bs) :- ReadTag(5, bs);
    var (uuid, bs) :- ReadHugeInt(bs);
    var (_, bs) :- ReadEnd(bs);
    Parse(PrepareResponse(h, types, names, more, results, uuid), bs)
  }

  lemma PrepareResponseRoundTrip(m: QuackMessage, tail: seq<byte>)
    requires m.PrepareResponse? && EncodableTypes(m.resultTypes) && CanEncodeChunks(m.results) && TypedMessage(m)
    ensures ReadPrepareResponse(NormHeader(m.header), PutPrepareResponse(m, tail)) ==
      RoundTripped(NormMessage(m), ReadableChunks(m.results), tail)
    ensures ProjectMessage(m) == NormMessage(m)
  {
    hide PutTypeList, PutNameList, PutFlag, PutPointerList, ReadTypeList, ReadNameList, ReadFlag, ReadPointerList,
      CanEncodeChunks, TypedChunks, ReadableChunks, EncodableTypes, NormTypes, NormChunks;
    hide Wire.PutFieldId, Wire.PutEnd, Wire.PutHugeInt, Wire.Head, Wire.ReadTag, Wire.ReadUleb64, Wire.ReadEnd,
      Wire.ReadHugeInt;
    PointerListRoundTrip(4, m.results, PutFieldId(5, PutHugeInt(m.resultUuid, PutEnd(tail))));
  }

  function PutFetchRequestV1(m: QuackMessage, tail: seq<byte>): (r: seq<byte>)
    requires m.FetchRequest?
    ensures ReadFetchRequestV1(NormHeader(m.header), r) == Parse(ProjectMessage(m), tail)
  {
    hide Wire.PutFieldId, Wire.PutEnd, Wire.PutHugeInt, Wire.Head, Wire.ReadTag, Wire.ReadUleb64, Wire.ReadEnd,
      Wire.ReadHugeInt;
    PutFieldId(1, PutHugeInt(m.resultUuid, PutEnd(tail)))
  }

  function ReadFetchRequestV1(h: MessageHeader, bs: seq<byte>): Parsed<QuackMessage> {
    var (_, bs) :- ReadTag(1, bs);
    var (uuid, bs) :- ReadHugeInt(bs);
    var (_, bs) :- ReadEnd(bs);
    Parse(FetchRequest(h, uuid, None, None), bs)
  }

  function PutFetchRequestV3(m: QuackMessage, tail: seq<byte>): (r: seq<byte>)
    requires m.FetchRequest? && m.batchIndex.Some?
    ensures ReadFetchRequestV3(NormHeader(m.header), r) == Parse(NormMessage(m), tail)
  {
    hide Wire.PutFieldId, Wire.PutEnd, Wire.PutUlebOrZero, Wire.PutHugeInt, Wire.Head, Wire.ReadTag, Wire.ReadUleb64,
      Wire.ReadEnd, Wire.ReadUlebOrZero, Wire.ReadOptionalUleb, Wire.ReadHugeInt;
    ElidedIndex(2, m.batchIndex.value, PutUlebOrZero(3, m.ackIndex.GetOr(0), PutEnd(tail)));
    PutFieldId(1, PutHugeInt(m.resultUuid, PutUlebOrZero(2, m.batchIndex.value,
      PutUlebOrZero(3, m.ackIndex.GetOr(0), PutEnd(tail)))))
  }

  function ReadFetchRequestV3(h: MessageHeader, bs: seq<byte>): Parsed<QuackMessage> {
    var (_, bs) :- ReadTag(1, bs);
    var (uuid, bs) :- ReadHugeInt(bs);
    var (batch, bs) :- ReadOptionalIndex(2, bs);
    var (ack, bs) :- ReadUlebOrZero(3, bs);
    var (_, bs) :- ReadEnd(bs);
    Parse(FetchRequest(h, uuid, batch, Some(ack)), bs)
  }

  /** An index written with zero elided and read as optional: zero becomes absent. */
  lemma ElidedIndex(id: u16, v: u64, tail: seq<byte>)
    requires Head(tail) > id
    ensures ReadOptionalUleb(id, PutUlebOrZero(id, v, tail)) == Parse(if v == 0 then None else Some(v), tail)
  {
    hide Wire.PutFieldId, Wire.PutUleb, Wire.ReadUleb64, Wire.Head;
  }

  function PutFetchResponseV1(m: QuackMessage, tail: seq<byte>): (r: seq<byte>)
    requires m.FetchResponse? && CanEncodeChunks(m.results)
  {
    hide Wire.PutFieldId, Wire.PutUleb, Wire.PutEnd, Wire.PutOptionalString, Wire.Head, Wire.ReadTag, Wire.ReadUleb64,
      Wire.ReadEnd, Wire.ReadOptionalString;
    PutPointerList(1, m.results, PutFieldId(2, PutUleb(m.batchIndex.GetOr(NO_INDEX), PutEnd(tail))))
  }

  function ReadFetchResponseV1(h: MessageHeader, bs: seq<byte>): Parsed<QuackMessage> {
    var (results, bs) :- ReadPointerList(1, bs);
    var (_, bs) :- ReadTag(2, bs);
    var (batch, bs) :- ReadUleb64(bs);
    var (_, bs) :- ReadEnd(bs);
    Parse(FetchResponse(h, results, None, NormIndex(Some(batch))), bs)
  }

  lemma FetchResponseV1RoundTrip(m: QuackMessage, tail: seq<byte>)
    requires m.FetchResponse? && CanEncodeChunks(m.results) && TypedMessage(m)
    ensures ReadFetchResponseV1(NormHeader(m.header), PutFetchResponseV1(m, tail)) ==
      RoundTripped(ProjectMessage(m), ReadableChunks(m.results), tail)
  {
    hide PutPointerList, ReadPointerList, CanEncodeChunks, TypedChunks, ReadableChunks, NormChunks;
    hide Wire.PutFieldId, Wire.PutUleb, Wire.PutEnd, Wire.Head, Wire.ReadTag, Wire.ReadUleb64, Wire.ReadEnd;
    PointerListRoundTrip(1, m.results, PutFieldId(2, PutUleb(m.batchIndex.GetOr(NO_INDEX), PutEnd(tail))));
  }

  /** The chunks follow the object that counts them. */
  function PutFetchResponseV3(m: QuackMessage, tail: seq<byte>): (r: seq<byte>)
    requires m.FetchResponse? && CanEncodeChunks(m.results)
  {
    hide Wire.PutFieldId, Wire.PutUleb, Wire.PutEnd, Wire.PutOptionalString, Wire.PutUlebOrZero, Wire.PutOptionalUleb,
      Wire.Head, Wire.ReadTag, Wire.ReadUleb64, Wire.ReadEnd, Wire.ReadOptionalString, Wire.ReadUlebOrZero,
      Wire.ReadOptionalUleb;
    PutUlebOrZero(1, |m.results|, PutOptionalUleb(2, m.totalBatches, PutOptionalUleb(3, m.batchIndex,
      PutEnd(PutChunks(m.results, tail)))))
  }

  function ReadFetchResponseV3(h: MessageHeader, bs: seq<byte>): Parsed<QuackMessage> {
    var (n, bs) :- ReadUlebOrZero(1, bs);
    var (total, bs) :- ReadOptionalIndex(2, bs);
    var (batch, bs) :- ReadOptionalIndex(3, bs);
    var (_, bs) :- ReadEnd(bs);
    var (results, bs) :- ReadChunks(n, bs);
    Parse(FetchResponse(h, results, total, batch), bs)
  }

  lemma FetchResponseV3RoundTrip(m: QuackMessage, tail: seq<byte>)
    requires m.FetchResponse? && CanEncodeChunks(m.results) && TypedMessage(m)
    ensures ReadFetchResponseV3(NormHeader(m.header), PutFetchResponseV3(m, tail)) ==
      RoundTripped(NormMessage(m), ReadableChunks(m.results), tail)
  {
    hide PutChunks, ReadChunks, CanEncodeChunks, TypedChunks, ReadableChunks, NormChunks;
    hide Wire.PutFieldId, Wire.PutUleb, Wire.PutEnd, Wire.PutOptionalString, Wire.PutUlebOrZero, Wire.PutOptionalUleb,
      Wire.Head, Wire.ReadTag, Wire.ReadUleb64, Wire.ReadEnd, Wire.ReadOptionalString, Wire.ReadUlebOrZero,
      Wire.ReadOptionalUleb, Wire.ReadHugeInt;
    ChunksRoundTrip(m.results, tail);
  }

  // ---- appending ----

  function PutAppendRequest(m: QuackMessage, tail: seq<byte>): (r: seq<byte>)
    requires m.AppendRequest? && CanEncodeChunk(m.appendChunk)
  {
    hide Wire.PutFieldId, Wire.PutUleb, Wire.PutEnd, Wire.PutOptionalString, Wire.Head, Wire.ReadTag, Wire.ReadUleb64,
      Wire.ReadEnd, Wire.ReadOptionalString;
    PutOptionalString(1, m.schemaName, PutOptionalString(2, Some(m.tableName),
      PutFieldId(3, PutBool(true, PutChunkWrapper(m.appendChunk, PutEnd(tail))))))
  }

  function ReadAppendRequest(h: MessageHeader, bs: seq<byte>): Parsed<QuackMessage> {
    var (schema, bs) :- ReadOptionalString(1, bs);
    var (table, bs) :- ReadStringOrEmpty(2, bs);
    var (present, bs) :- ReadFlag(3, bs);
    if !present then NoParse(Protocol) else ReadAppended(h, schema, table, bs)
  }

  /** The chunk that is appended, which ends the message. */
  function ReadAppended(h: MessageHeader, schema: Option<text>, table: text, bs: seq<byte>): Parsed<QuackMessage> {
    var (chunk, bs) :- ReadChunkWrapper(bs);
    var (_, bs) :- ReadEnd(bs);
    Parse(AppendRequest(h, schema, table, chunk), bs)
  }

  lemma AppendRequestRoundTrip(m: QuackMessage, tail: seq<byte>)
    requires m.AppendRequest? && CanEncodeChunk(m.appendChunk) && TypedMessage(m)
    ensures ReadAppendRequest(NormHeader(m.header), PutAppendRequest(m, tail)) ==
      RoundTripped(ProjectMessage(m), ReadableChunk(m.appendChunk), tail)
  {
    AppendParts(m);
    hide PutChunkWrapper, CanEncodeChunk, TypedChunk, ReadableChunk, NormChunk, ProjectMessage, TypedMessage,
      ReadAppended, ReadAppendRequest, Wire.PutFieldId, Wire.PutBool, Wire.PutEnd, Wire.PutOptionalString, Wire.Head,
      Wire.ReadEnd;
    var chunk := PutChunkWrapper(m.appendChunk, PutEnd(tail));
    AppendFields(NormHeader(m.header), m.schemaName, m.tableName, chunk);
    AppendedReads(NormHeader(m.header), NonEmpty(m.schemaName), m.tableName, m.appendChunk, tail);
  }

  lemma AppendFields(h: MessageHeader, schema: Option<text>, table: text, chunk: seq<byte>)
    ensures ReadAppendRequest(h, PutOptionalString(1, schema, PutOptionalString(2, Some(table),
        PutFieldId(3, PutBool(true, chunk))))) ==
      ReadAppended(h, NonEmpty(schema), table, chunk)
  {
    FlagReads(3, chunk);
    hide ReadAppended, ReadFlag, Wire.PutFieldId, Wire.PutBool, Wire.PutOptionalString, Wire.Head,
      Wire.ReadOptionalString;
  }

  lemma AppendedReads(h: MessageHeader, schema: Option<text>, table: text, c: DataChunk, tail: seq<byte>)
    requires CanEncodeChunk(c) && TypedChunk(c)
    ensures ReadAppended(h, schema, table, PutChunkWrapper(c, PutEnd(tail))) ==
      RoundTripped(AppendRequest(h, schema, table, NormChunk(c)), ReadableChunk(c), tail)
  {
    hide PutChunkWrapper, ReadChunkWrapper, CanEncodeChunk, TypedChunk, ReadableChunk, NormChunk, Wire.PutEnd,
      Wire.ReadEnd;
    ChunkRoundTrip(c, PutEnd(tail));
  }

  lemma AppendParts(m: QuackMessage)
    requires m.AppendRequest? && CanEncodeChunk(m.appendChunk) && TypedMessage(m)
    ensures TypedChunk(m.appendChunk) && Rectangular(ChunksOf(m))
    ensures ProjectMessage(m) ==
      AppendRequest(NormHeader(m.header), NonEmpty(m.schemaName), m.tableName, NormChunk(m.appendChunk))
  {
    assert ChunksOf(m)[0] == m.appendChunk;
    hide TypedChunk, NormChunk, NormHeader;
  }

  lemma FlagReads(id: u16, tail: seq<byte>)
    ensures ReadFlag(id, PutFieldId(id, PutBool(true, tail))) == Parse(true, tail)
  {
    hide Wire.PutFieldId, Wire.PutBool, Wire.ReadBool, Wire.Head;
  }

  // ---- the rest ----

  /** A body without fields. */
  function ReadEmpty(m: QuackMessage, bs: seq<byte>): Parsed<QuackMessage> {
    var (_, bs) :- ReadEnd(bs);
    Parse(m, bs)
  }

  function PutErrorResponse(m: QuackMessage, tail: seq<byte>): (r: seq<byte>)
    requires m.ErrorResponse?
    ensures ReadErrorResponse(NormHeader(m.header), r) == Parse(NormMessage(m), tail)
    ensures ProjectMessage(m) == NormMessage(m)
  {
    hide Wire.PutEnd, Wire.PutOptionalString, Wire.Head, Wire.ReadTag, Wire.ReadUleb64, Wire.ReadEnd,
      Wire.ReadOptionalString;
    PutOptionalString(1, Some(m.message), PutEnd(tail))
  }

  function ReadErrorResponse(h: MessageHeader, bs: seq<byte>): Parsed<QuackMessage> {
    var (message, bs) :- ReadStringOrEmpty(1, bs);
    var (_, bs) :- ReadEnd(bs);
    Parse(ErrorResponse(h, message), bs)
  }

  // ---- whole messages ----

  function PutBodyV1(m: QuackMessage, tail: seq<byte>): seq<byte>
    requires CanEncodeMessage(m, V1)
  {
    match m
    case ConnectionRequest(_, _, _, _, _, _, _, _) => PutConnectionRequestV1(m, tail)
    case ConnectionResponse(_, _, _, _, _) => PutConnectionResponseV1(m, tail)
    case PrepareRequest(_, _, _, _) => PutPrepareRequestV1(m, tail)
    case PrepareResponse(_, _, _, _, _, _) => PutPrepareResponse(m, tail)
    case FetchRequest(_, _, _, _) => PutFetchRequestV1(m, tail)
    case FetchResponse(_, _, _, _) => PutFetchResponseV1(m, tail)
    case AppendRequest(_, _, _, chunk) =>
      assert CanEncodeChunk(ChunksOf(m)[0]);
      PutAppendRequest(m, tail)
    case ErrorResponse(_, _) => PutErrorResponse(m, tail)
    case _ => PutEnd(tail)
  }

  function PutBodyV3(m: QuackMessage, tail: seq<byte>): seq<byte>
    requires CanEncodeMessage(m, V3)
  {
    match m
    case ConnectionRequest(_, _, _, _, _, _, _, _) => PutConnectionRequestV3(m, tail)
    case ConnectionResponse(_, _, _, _, _) => PutConnectionResponseV3(m, tail)
    case PrepareRequest(_, _, _, _) => PutPrepareRequestV3(m, tail)
    case PrepareResponse(_, _, _, _, _, _) => PutPrepareResponse(m, tail)
    case FetchRequest(_, _, _, _) => PutFetchRequestV3(m, tail)
    case FetchResponse(_, _, _, _) => PutFetchResponseV3(m, tail)
    case ErrorResponse(_, _) => PutErrorResponse(m, tail)
    case _ => PutEnd(tail)
  }

  function ReadBodyV1(h: MessageHeader, bs: seq<byte>): Parsed<QuackMessage> {
    match h.messageType
    case ConnectionRequestType => ReadConnectionRequestV1(h, bs)
    case ConnectionResponseType => ReadConnectionResponseV1(h, bs)
    case PrepareRequestType => ReadPrepareRequestV1(h, bs)
    case PrepareResponseType => ReadPrepareResponse(h, bs)
    case FetchRequestType => ReadFetchRequestV1(h, bs)
    case FetchResponseType => ReadFetchResponseV1(h, bs)
    case SendDataRequestType => ReadAppendRequest(h, bs)
    case SuccessResponseType => ReadEmpty(SuccessResponse(h), bs)
    case DisconnectType => ReadEmpty(Disconnect(h), bs)
    case ErrorResponseType => ReadErrorResponse(h, bs)
    case _ => NoParse(Protocol)
  }

  function ReadBodyV3(h: MessageHeader, bs: seq<byte>): Parsed<QuackMessage> {
    match h.messageType
    case ConnectionRequestType => ReadConnectionRequestV3(h, bs)
    case ConnectionResponseType => ReadConnectionResponseV3(h, bs)
    case PrepareRequestType => ReadPrepareRequestV3(h, bs)
    case PrepareResponseType => ReadPrepareResponse(h, bs)
    case FetchRequestType => ReadFetchRequestV3(h, bs)
    case FetchResponseType => ReadFetchResponseV3(h, bs)
    case SuccessResponseType => ReadEmpty(SuccessResponse(h), bs)
    case DisconnectType => ReadEmpty(Disconnect(h), bs)
    case HeartbeatRequestType => ReadEmpty(HeartbeatRequest(h), bs)
    case ErrorResponseType => ReadErrorResponse(h, bs)
    case _ => NoParse(Protocol)
  }

  /** The bytes of a message. */
  function Encode(m: QuackMessage, version: u64): seq<byte>
    requires CanEncodeMessage(m, version)
  {
    PutHeader(m.header, if version == V1 then PutBodyV1(m, []) else PutBodyV3(m, []))
  }

  /** A message and nothing after it. */
  function Decode(bs: seq<byte>, version: u64): Result<QuackMessage> {
    match ReadHeader(bs)
    case NoParse(e) => Failure(e)
    case Parse(h, bs) => Whole(ReadBody(version, h, bs))
  }

  function Whole(p: Parsed<QuackMessage>): Result<QuackMessage> {
    match p
    case NoParse(e) => Failure(e)
    case Parse(m, rest) => if rest == [] then Success(m) else Failure(Protocol)
  }

  /** What is sent as `m` can be sent, and is `seen` on the other side. */
  predicate Arrives(m: QuackMessage, version: u64, seen: QuackMessage) {
    CanEncodeMessage(m, version) && Decode(Encode(m, version), version) == Success(seen)
  }

  function ReadBody(version: u64, h: MessageHeader, bs: seq<byte>): Parsed<QuackMessage> {
    if version == V1 then ReadBodyV1(h, bs)
    else if version == V3 then ReadBodyV3(h, bs)
    else NoParse(Protocol)
  }

  lemma BodyV1RoundTrip(m: QuackMessage, tail: seq<byte>)
    requires CanEncodeMessage(m, V1) && TypedMessage(m) && m.header.messageType == BodyType(m)
    ensures ReadBodyV1(NormHeader(m.header), PutBodyV1(m, tail)) ==
      RoundTripped(ProjectMessage(m), ReadableMessage(m, V1), tail)
  {
    hide PutConnectionRequestV1, PutConnectionResponseV1, PutPrepareRequestV1, PutPrepareResponse, PutFetchRequestV1,
      PutFetchResponseV1, PutAppendRequest, PutErrorResponse, ReadConnectionRequestV1, ReadConnectionResponseV1,
      ReadPrepareRequestV1, ReadPrepareResponse, ReadFetchRequestV1, ReadFetchResponseV1, ReadAppendRequest,
      ReadErrorResponse;
    hide CanEncodeChunk, TypedChunk, ReadableChunk, NormChunk, NormTypes, NormChunks, Wire.PutEnd, Wire.ReadEnd,
      EncodableTypes;
    match m
    case PrepareResponse(_, _, _, _, _, _) => PrepareResponseRoundTrip(m, tail);
    case FetchResponse(_, _, _, _) => FetchResponseV1RoundTrip(m, tail);
    case AppendRequest(_, _, _, _) =>
      assert CanEncodeChunk(ChunksOf(m)[0]);
      AppendRequestRoundTrip(m, tail);
    case _ =>
  }

  lemma BodyV3RoundTrip(m: QuackMessage, tail: seq<byte>)
    requires CanEncodeMessage(m, V3) && TypedMessage(m) && m.header.messageType == BodyType(m)
    ensures ReadBodyV3(NormHeader(m.header), PutBodyV3(m, tail)) ==
      RoundTripped(NormMessage(m), ReadableMessage(m, V3), tail)
  {
    hide PutConnectionRequestV3, PutConnectionResponseV3, PutPrepareRequestV3, PutPrepareResponse, PutFetchRequestV3,
      PutFetchResponseV3, PutErrorResponse, ReadConnectionRequestV3, ReadConnectionResponseV3, ReadPrepareRequestV3,
      ReadPrepareResponse, ReadFetchRequestV3, ReadFetchResponseV3, ReadErrorResponse;
    hide CanEncodeChunk, TypedChunk, ReadableChunk, NormChunk, NormTypes, NormChunks, Wire.PutEnd, Wire.ReadEnd,
      EncodableTypes;
    match m
    case PrepareResponse(_, _, _, _, _, _) => PrepareResponseRoundTrip(m, tail);
    case FetchResponse(_, _, _, _) => FetchResponseV3RoundTrip(m, tail);
    case _ =>
  }

  /** What survives of a message on its way through either version. */
  lemma MessageRoundTrip(m: QuackMessage, version: u64)
    requires CanEncodeMessage(m, version) && TypedMessage(m) && m.header.messageType == BodyType(m)
    ensures Decode(Encode(m, version), version) ==
      (EncodableIsRectangular(m, version);
       if ReadableMessage(m, version) then Success(SurvivingMessage(m, version)) else Failure(Protocol))
  {
    hide *;
    VersionsOf(m, version);
    if version == V1 {
      MessageV1RoundTrip(m);
    } else {
      MessageV3RoundTrip(m);
    }
  }

  lemma VersionsOf(m: QuackMessage, version: u64)
    requires CanEncodeMessage(m, version)
    ensures version == V1 || version == V3
  {
  }

  lemma MessageV1RoundTrip(m: QuackMessage)
    requires CanEncodeMessage(m, V1) && TypedMessage(m) && m.header.messageType == BodyType(m)
    ensures Decode(Encode(m, V1), V1) ==
      (EncodableIsRectangular(m, V1);
       if ReadableMessage(m, V1) then Success(SurvivingMessage(m, V1)) else Failure(Protocol))
  {
    EncodableIsRectangular(m, V1);
    BodyV1RoundTrip(m, []);
    DecodeBody(m.header, PutBodyV1(m, []), V1);
    hide PutHeader, PutBodyV1, PutBodyV3, ReadBodyV1, ReadBodyV3, ProjectMessage, NormMessage, TypedMessage,
      CanEncodeMessage, ReadableMessage, NormHeader, ChunksOf, Rectangular, BodyType, Decode;
  }

  lemma MessageV3RoundTrip(m: QuackMessage)
    requires CanEncodeMessage(m, V3) && TypedMessage(m) && m.header.messageType == BodyType(m)
    ensures Decode(Encode(m, V3), V3) ==
      (EncodableIsRectangular(m, V3);
       if ReadableMessage(m, V3) then Success(SurvivingMessage(m, V3)) else Failure(Protocol))
  {
    EncodableIsRectangular(m, V3);
    BodyV3RoundTrip(m, []);
    DecodeBody(m.header, PutBodyV3(m, []), V3);
    hide PutHeader, PutBodyV1, PutBodyV3, ReadBodyV1, ReadBodyV3, ProjectMessage, NormMessage, TypedMessage,
      CanEncodeMessage, ReadableMessage, NormHeader, ChunksOf, Rectangular, BodyType, Decode;
  }

  /** Decoding reads the header, then the body the header announces, and then nothing. */
  lemma DecodeBody(h: MessageHeader, body: seq<byte>, version: u64)
    ensures Decode(PutHeader(h, body), version) == Whole(ReadBody(version, NormHeader(h), body))
  {
    hide PutHeader, ReadHeader, ReadBody;
  }
}
