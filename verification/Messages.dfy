/** Protocol messages: a header and a body whose fields depend on the protocol
    version. Version 3 keeps every field up to the elided defaults; version 1 knows
    fewer fields and loses the others. */
module Messages {
  import opened Prelude
  import opened Wire
  import opened LogicalTypes
  import opened TypeCodec
  import opened VectorRoundTrips
  import opened Chunks

  const V1: u64 := 1
  const V3: u64 := 3

  /** The index that means "none". */
  const NO_INDEX: u64 := 0xFFFF_FFFF_FFFF_FFFF

  datatype MessageType =
    | InvalidType | ConnectionRequestType | ConnectionResponseType | PrepareRequestType | PrepareResponseType
    | FetchRequestType | FetchResponseType | SendDataRequestType | SuccessResponseType | DisconnectType
    | CancelRequestType | SendDataResponseType | AcknowledgementType | HeartbeatRequestType | ErrorResponseType

  function MessageCode(t: MessageType): (code: u64)
    ensures MessageOfCode(code) == Some(t)
  {
    match t
    case InvalidType => 0
    case ConnectionRequestType => 1
    case ConnectionResponseType => 2
    case PrepareRequestType => 3
    case PrepareResponseType => 4
    case FetchRequestType => 7
    case FetchResponseType => 8
    case SendDataRequestType => 9
    case SuccessResponseType => 10
    case DisconnectType => 11
    case CancelRequestType => 12
    case SendDataResponseType => 14
    case AcknowledgementType => 15
    case HeartbeatRequestType => 16
    case ErrorResponseType => 100
  }

  function MessageOfCode(code: u64): Option<MessageType> {
    match code
    case 0 => Some(InvalidType)
    case 1 => Some(ConnectionRequestType)
    case 2 => Some(ConnectionResponseType)
    case 3 => Some(PrepareRequestType)
    case 4 => Some(PrepareResponseType)
    case 7 => Some(FetchRequestType)
    case 8 => Some(FetchResponseType)
    case 9 => Some(SendDataRequestType)
    case 10 => Some(SuccessResponseType)
    case 11 => Some(DisconnectType)
    case 12 => Some(CancelRequestType)
    case 14 => Some(SendDataResponseType)
    case 15 => Some(AcknowledgementType)
    case 16 => Some(HeartbeatRequestType)
    case 100 => Some(ErrorResponseType)
    case _ => None
  }

  datatype MessageHeader = MessageHeader(messageType: MessageType, connectionId: Option<text>,
                                         clientQueryId: Option<u64>)

  datatype QuackMessage =
    | ConnectionRequest(header: MessageHeader, authString: Option<text>, clientVersion: Option<text>,
                        clientPlatform: Option<text>, minVersion: u64, maxVersion: u64, clientId: Option<text>,
                        heartbeatTimeout: u64)
    | ConnectionResponse(header: MessageHeader, serverVersion: Option<text>, serverPlatform: Option<text>,
                         quackVersion: Option<u64>, serverTimeout: Option<u64>)
    | PrepareRequest(header: MessageHeader, sql: text, queryUuid: Option<HugeIntParts>, inlineRows: Option<u64>)
    | PrepareResponse(header: MessageHeader, resultTypes: vec<LogicalType>, resultNames: vec<text>,
                      needsMoreFetch: bool, results: vec<DataChunk>, resultUuid: HugeIntParts)
    | FetchRequest(header: MessageHeader, resultUuid: HugeIntParts, batchIndex: Option<u64>, ackIndex: Option<u64>)
    | FetchResponse(header: MessageHeader, results: vec<DataChunk>, totalBatches: Option<u64>, batchIndex: Option<u64>)
    | HeartbeatRequest(header: MessageHeader)
    | AppendRequest(header: MessageHeader, schemaName: Option<text>, tableName: text, appendChunk: DataChunk)
    | SuccessResponse(header: MessageHeader)
    | Disconnect(header: MessageHeader)
    | ErrorResponse(header: MessageHeader, message: text)

  /** The header type a decoder needs to recognise the body. */
  function BodyType(m: QuackMessage): MessageType {
    match m
    case ConnectionRequest(_, _, _, _, _, _, _, _) => ConnectionRequestType
    case ConnectionResponse(_, _, _, _, _) => ConnectionResponseType
    case PrepareRequest(_, _, _, _) => PrepareRequestType
    case PrepareResponse(_, _, _, _, _, _) => PrepareResponseType
    case FetchRequest(_, _, _, _) => FetchRequestType
    case FetchResponse(_, _, _, _) => FetchResponseType
    case HeartbeatRequest(_) => HeartbeatRequestType
    case AppendRequest(_, _, _, _) => SendDataRequestType
    case SuccessResponse(_) => SuccessResponseType
    case Disconnect(_) => DisconnectType
    case ErrorResponse(_, _) => ErrorResponseType
  }

  // ---- the header ----

  function NormIndex(v: Option<u64>): Option<u64> {
    if v == Some(NO_INDEX) then None else v
  }

  function NormHeader(h: MessageHeader): MessageHeader {
    MessageHeader(h.messageType, NonEmpty(h.connectionId), NormIndex(h.clientQueryId))
  }

  function PutHeader(h: MessageHeader, tail: seq<byte>): (r: seq<byte>)
    ensures ReadHeader(r) == Parse(NormHeader(h), tail)
  {
    hide Wire.PutFieldId, Wire.PutUleb, Wire.PutEnd, Wire.PutOptionalString, Wire.ReadTag, Wire.ReadUleb64,
      Wire.ReadEnd, Wire.ReadOptionalString, Wire.Head;
    PutFieldId(1, PutUleb(MessageCode(h.messageType), PutOptionalString(2, h.connectionId,
      PutFieldId(3, PutUleb(h.clientQueryId.GetOr(NO_INDEX), PutEnd(tail))))))
  }

  function ReadHeader(bs: seq<byte>): (r: Parsed<MessageHeader>)
    ensures Shrinks(r, bs)
  {
    var (_, bs) :- ReadTag(1, bs);
    var (code, bs) :- ReadUleb64(bs);
    if MessageOfCode(code).None? then NoParse(Protocol)
    else
      var (connectionId, bs) :- ReadOptionalString(2, bs);
      var (_, bs) :- ReadTag(3, bs);
      var (query, bs) :- ReadUleb64(bs);
      var (_, bs) :- ReadEnd(bs);
      Parse(MessageHeader(MessageOfCode(code).value, NonEmpty(connectionId), NormIndex(Some(query))), bs)
  }

  // ---- fields of several bodies ----

  /** An optional index, where the largest index means none. */
  function ReadOptionalIndex(id: u16, bs: seq<byte>): (r: Parsed<Option<u64>>)
    ensures r.Parse? ==> |r.rest| <= |bs|
  {
    var (v, bs) :- ReadOptionalUleb(id, bs);
    Parse(NormIndex(v), bs)
  }

  /** A list of types, left out when empty. */
  function PutTypeList(id: u16, ts: vec<LogicalType>, tail: seq<byte>): (r: seq<byte>)
    requires EncodableTypes(ts) && Head(tail) > id
    ensures Head(r) >= id && ReadTypeList(id, r) == Parse(NormTypes(ts), tail)
  {
    TypesRoundTrip(ts, tail);
    if ts == [] then tail else PutFieldId(id, PutUleb(|ts|, PutTypes(ts, tail)))
  }

  function ReadTypeList(id: u16, bs: seq<byte>): (r: Parsed<vec<LogicalType>>)
    ensures r.Parse? ==> |r.rest| <= |bs|
  {
    if |bs| < 2 then NoParse(Protocol)
    else if Head(bs) != id then Parse([], bs)
    else
      var bs := bs[2..];
      var (n, bs) :- ReadUleb64(bs);
      var (ts, bs) :- ReadTypes(n, bs);
      Parse(ts, bs)
  }

  function PutNameList(id: u16, names: vec<text>, tail: seq<byte>): (r: seq<byte>)
    requires Head(tail) > id
    ensures Head(r) >= id && ReadNameList(id, r) == Parse(names, tail)
  {
    if names == [] then tail else PutFieldId(id, PutStringList(names, tail))
  }

  function ReadNameList(id: u16, bs: seq<byte>): (r: Parsed<vec<text>>)
    ensures r.Parse? ==> |r.rest| <= |bs|
  {
    if |bs| < 2 then NoParse(Protocol)
    else if Head(bs) != id then Parse([], bs)
    else
      var bs := bs[2..];
      ReadStringList(bs)
  }

  function PutFlag(id: u16, b: bool, tail: seq<byte>): (r: seq<byte>)
    requires Head(tail) > id
    ensures Head(r) >= id && ReadFlag(id, r) == Parse(b, tail)
  {
    if b then PutFieldId(id, PutBool(true, tail)) else tail
  }

  function ReadFlag(id: u16, bs: seq<byte>): (r: Parsed<bool>)
    ensures r.Parse? ==> |r.rest| <= |bs|
  {
    if |bs| < 2 then NoParse(Protocol)
    else if Head(bs) != id then Parse(false, bs)
    else
      var bs := bs[2..];
      ReadBool(bs)
  }

  // ---- lists of chunks ----

  predicate CanEncodeChunks(cs: seq<DataChunk>) {
    forall i | 0 <= i < |cs| :: CanEncodeChunk(cs[i])
  }

  predicate TypedChunks(cs: seq<DataChunk>) {
    forall i | 0 <= i < |cs| :: TypedChunk(cs[i])
  }

  predicate ReadableChunks(cs: seq<DataChunk>)
    requires CanEncodeChunks(cs)
  {
    forall i | 0 <= i < |cs| :: ReadableChunk(cs[i])
  }

  /** As many columns as types. */
  predicate Rectangular(cs: seq<DataChunk>) {
    forall i | 0 <= i < |cs| :: |cs[i].types| == |cs[i].columns|
  }

  function NormChunks(cs: seq<DataChunk>): (ds: seq<DataChunk>)
    requires Rectangular(cs)
    ensures |ds| == |cs|
  {
    if cs == [] then [] else [NormChunk(cs[0])] + NormChunks(cs[1..])
  }

  /** Chunks behind pointers, none of them null. */
  function PutPointers(cs: seq<DataChunk>, tail: seq<byte>): seq<byte>
    requires CanEncodeChunks(cs)
  {
    if cs == [] then tail else PutBool(true, PutChunkWrapper(cs[0], PutPointers(cs[1..], tail)))
  }

  function ReadPointer(bs: seq<byte>): (r: Parsed<DataChunk>)
    ensures Shrinks(r, bs)
  {
    var (present, bs) :- ReadBool(bs);
    if !present then NoParse(Protocol) else ReadChunkWrapper(bs)
  }

  function ReadPointers(n: nat, bs: seq<byte>): (r: Parsed<seq<DataChunk>>)
    ensures r.Parse? ==> |r.value| == n && |r.rest| <= |bs|
  {
    if n == 0 then Parse([], bs)
    else
      var (c, bs) :- ReadPointer(bs);
      var (cs, bs) :- ReadPointers(n - 1, bs);
      Parse([c] + cs, bs)
  }

  function PutPointerList(id: u16, cs: vec<DataChunk>, tail: seq<byte>): (r: seq<byte>)
    requires CanEncodeChunks(cs) && Head(tail) > id
    ensures Head(r) >= id
  {
    if cs == [] then tail else PutFieldId(id, PutUleb(|cs|, PutPointers(cs, tail)))
  }

  function ReadPointerList(id: u16, bs: seq<byte>): (r: Parsed<vec<DataChunk>>)
    ensures r.Parse? ==> |r.rest| <= |bs|
  {
    if |bs| < 2 then NoParse(Protocol)
    else if Head(bs) != id then Parse([], bs)
    else
      var bs := bs[2..];
      var (n, bs) :- ReadUleb64(bs);
      var (cs, bs) :- ReadPointers(n, bs);
      Parse(cs, bs)
  }

  /** Chunks one after another, as in a version 3 FETCH_RESPONSE. */
  function PutChunks(cs: seq<DataChunk>, tail: seq<byte>): seq<byte>
    requires CanEncodeChunks(cs)
  {
    if cs == [] then tail else PutChunk(cs[0], PutChunks(cs[1..], tail))
  }

  function ReadChunks(n: nat, bs: seq<byte>): (r: Parsed<seq<DataChunk>>)
    ensures r.Parse? ==> |r.value| == n && |r.rest| <= |bs|
  {
    if n == 0 then Parse([], bs)
    else
      var (c, bs) :- ReadChunk(bs);
      var (cs, bs) :- ReadChunks(n - 1, bs);
      Parse([c] + cs, bs)
  }

  lemma {:induction false} ChunksRoundTrip(cs: seq<DataChunk>, tail: seq<byte>)
    requires CanEncodeChunks(cs) && TypedChunks(cs)
    ensures ReadPointers(|cs|, PutPointers(cs, tail)) == RoundTripped(NormChunks(cs), ReadableChunks(cs), tail)
    ensures ReadChunks(|cs|, PutChunks(cs, tail)) == RoundTripped(NormChunks(cs), ReadableChunks(cs), tail)
  {
    hide Wire.PutBool, Wire.ReadBool, PutChunk, PutChunkWrapper, ReadChunk, ReadChunkWrapper, NormChunk,
      CanEncodeChunk, TypedChunk, ReadableChunk;
    if cs != [] {
      var rest := cs[1..];
      ChunksRoundTrip(rest, tail);
      ChunkRoundTrip(cs[0], PutPointers(rest, tail));
      ChunkRoundTrip(cs[0], PutChunks(rest, tail));
      assert ReadableChunks(cs) <==> ReadableChunk(cs[0]) && ReadableChunks(rest) by {
        assert forall i | 0 < i < |cs| :: rest[i - 1] == cs[i];
      }
    }
  }

  lemma PointerListRoundTrip(id: u16, cs: vec<DataChunk>, tail: seq<byte>)
    requires CanEncodeChunks(cs) && TypedChunks(cs) && Head(tail) > id
    ensures ReadPointerList(id, PutPointerList(id, cs, tail)) ==
      RoundTripped(NormChunks(cs), ReadableChunks(cs), tail)
  {
    hide Wire.PutFieldId, Wire.PutUleb, Wire.ReadUleb64, Wire.Head, PutPointers, ReadPointers, CanEncodeChunk,
      TypedChunk, ReadableChunk;
    ChunksRoundTrip(cs, tail);
  }

  // ---- what a message may hold ----

  function ChunksOf(m: QuackMessage): vec<DataChunk> {
    match m
    case PrepareResponse(_, _, _, _, results, _) => results
    case FetchResponse(_, results, _, _) => results
    case AppendRequest(_, _, _, chunk) => [chunk]
    case _ => []
  }

  predicate CanEncodeMessage(m: QuackMessage, version: u64) {
    && version in {V1, V3}
    && CanEncodeChunks(ChunksOf(m))
    && (m.PrepareResponse? ==> EncodableTypes(m.resultTypes))
    && (version == V1 ==> !m.HeartbeatRequest?)
    && (version == V3 ==>
          && !m.AppendRequest?
          && (m.PrepareRequest? ==> m.queryUuid.Some?)
          && (m.FetchRequest? ==> m.batchIndex.Some?))
  }

  predicate TypedMessage(m: QuackMessage) {
    TypedChunks(ChunksOf(m))
  }

  lemma EncodableIsRectangular(m: QuackMessage, version: u64)
    requires CanEncodeMessage(m, version)
    ensures Rectangular(ChunksOf(m))
  {
    forall i | 0 <= i < |ChunksOf(m)|
      ensures |ChunksOf(m)[i].types| == |ChunksOf(m)[i].columns|
    {
      assert CanEncodeChunk(ChunksOf(m)[i]);
    }
  }

  predicate ReadableMessage(m: QuackMessage, version: u64)
    requires CanEncodeMessage(m, version)
  {
    ReadableChunks(ChunksOf(m))
  }

  // ---- what comes back ----

  /** Version 3: defaults and the index that means none are indistinguishable from absence. */
  function NormMessage(m: QuackMessage): QuackMessage
    requires Rectangular(ChunksOf(m))
  {
    var h := NormHeader(m.header);
    match m
    case ConnectionRequest(_, auth, version, platform, min, max, client, timeout) =>
      ConnectionRequest(h, NonEmpty(auth), NonEmpty(version), NonEmpty(platform), min, max, NonEmpty(client), timeout)
    case ConnectionResponse(_, version, platform, quack, timeout) =>
      ConnectionResponse(h, NonEmpty(version), NonEmpty(platform), quack, timeout)
    case PrepareRequest(_, sql, uuid, inline) => PrepareRequest(h, sql, uuid, NormIndex(inline))
    case PrepareResponse(_, types, names, more, results, uuid) =>
      PrepareResponse(h, NormTypes(types), names, more, NormChunks(results), uuid)
    case FetchRequest(_, uuid, batch, ack) =>
      FetchRequest(h, uuid, if batch == Some(0) then None else NormIndex(batch), Some(ack.GetOr(0)))
    case FetchResponse(_, results, total, batch) =>
      FetchResponse(h, NormChunks(results), NormIndex(total), NormIndex(batch))
    case _ => WithHeader(m, h)
  }

  /** Version 1: besides, no client, lease, query or batch bookkeeping. */
  function ProjectMessage(m: QuackMessage): QuackMessage
    requires Rectangular(ChunksOf(m))
  {
    var h := NormHeader(m.header);
    match m
    case ConnectionRequest(_, auth, version, platform, min, max, _, _) =>
      ConnectionRequest(h, NonEmpty(auth), NonEmpty(version), NonEmpty(platform), min, max, None, 0)
    case ConnectionResponse(_, version, platform, quack, _) =>
      ConnectionResponse(h, NonEmpty(version), NonEmpty(platform), quack, None)
    case PrepareRequest(_, sql, _, _) => PrepareRequest(h, sql, None, None)
    case PrepareResponse(_, types, names, more, results, uuid) =>
      PrepareResponse(h, NormTypes(types), names, more, NormChunks(results), uuid)
    case FetchRequest(_, uuid, _, _) => FetchRequest(h, uuid, None, None)
    case FetchResponse(_, results, _, batch) => FetchResponse(h, NormChunks(results), None, NormIndex(batch))
    case AppendRequest(_, schema, table, chunk) =>
      assert ChunksOf(m)[0] == chunk;
      AppendRequest(h, NonEmpty(schema), table, NormChunk(chunk))
    case _ => WithHeader(m, h)
  }

  /** A body without fields to lose, under another header. */
  function WithHeader(m: QuackMessage, h: MessageHeader): QuackMessage {
    match m
    case HeartbeatRequest(_) => HeartbeatRequest(h)
    case SuccessResponse(_) => SuccessResponse(h)
    case Disconnect(_) => Disconnect(h)
    case ErrorResponse(_, message) => ErrorResponse(h, message)
    case _ => m
  }

  function SurvivingMessage(m: QuackMessage, version: u64): QuackMessage
    requires Rectangular(ChunksOf(m))
  {
    if version == V1 then ProjectMessage(m) else NormMessage(m)
  }
}
