/** The writer and reader methods for messages, refining `MessageBodies`. */
module MessagesIO {
  import opened Prelude
  import Wire
  import opened BinaryIO
  import opened LogicalTypes
  import opened TypeCodec
  import opened TypeCodecIO
  import opened Chunks
  import opened ChunksIO
  import opened Messages
  import opened MessageBodies

  // ---- writing ----

  method EncodeMessageForVersion(m: QuackMessage, version: u64) returns (r: Result<seq<byte>>)
    ensures r.Success? <==> CanEncodeMessage(m, version)
    ensures r.Success? ==> r.value == Encode(m, version)
  {
    hide PutHeader, PutBodyV1, PutBodyV3, CanEncodeMessage;
    var w := new BinaryWriter();
    EncodeHeader(w, m.header);
    var body;
    if version == V1 {
      body := EncodeBodyV1(w, m);
    } else if version == V3 {
      body := EncodeBodyV3(w, m);
    } else {
      OtherVersions(m, version);
      body := Fail(Protocol);
    }
    if body.Fail? {
      return Failure(body.error);
    }
    assert w.buffer + [] == w.buffer;
    r := Success(w.buffer);
  }

  lemma OtherVersions(m: QuackMessage, version: u64)
    requires version != V1 && version != V3
    ensures !CanEncodeMessage(m, version)
  {
  }

  method EncodeHeader(w: BinaryWriter, h: MessageHeader)
    modifies w
    ensures forall tail {:trigger PutHeader(h, tail)} :: w.buffer + tail == old(w.buffer) + PutHeader(h, tail)
  {
    hide Wire.PutFieldId, Wire.PutUleb, Wire.PutEnd, Wire.PutOptionalString, Wire.Head;
    w.WriteFieldId(1);
    w.WriteUleb(MessageCode(h.messageType));
    w.WriteOptionalString(2, h.connectionId);
    w.WriteFieldId(3);
    w.WriteUleb(h.clientQueryId.GetOr(NO_INDEX));
    w.WriteEnd();
  }

  method EncodeBodyV1(w: BinaryWriter, m: QuackMessage) returns (r: Outcome)
    modifies w
    ensures r.Pass? <==> CanEncodeMessage(m, V1)
    ensures r.Pass? ==> forall tail {:trigger PutBodyV1(m, tail)} ::
      w.buffer + tail == old(w.buffer) + PutBodyV1(m, tail)
  {
    hide CanEncodeChunk, EncodableTypes, PutPrepareResponse, PutFetchResponseV1, PutAppendRequest;
    hide Wire.PutFieldId, Wire.PutUleb, Wire.PutEnd, Wire.PutOptionalString, Wire.PutUlebOrZero, Wire.PutOptionalUleb,
      Wire.PutHugeInt, Wire.Head;
    match m {
      case ConnectionRequest(_, auth, version, platform, min, max, _, _) =>
        w.WriteOptionalString(1, auth);
        w.WriteOptionalString(2, version);
        w.WriteOptionalString(3, platform);
        w.WriteUlebOrZero(4, min);
        w.WriteUlebOrZero(5, max);
      case ConnectionResponse(_, version, platform, quack, _) =>
        w.WriteOptionalString(1, version);
        w.WriteOptionalString(2, platform);
        w.WriteOptionalUleb(3, quack);
      case PrepareRequest(_, sql, _, _) =>
        w.WriteOptionalString(1, Some(sql));
      case PrepareResponse(_, _, _, _, _, _) =>
        r := EncodePrepareResponse(w, m);
        return;
      case FetchRequest(_, uuid, _, _) =>
        w.WriteFieldId(1);
        w.WriteHugeInt(uuid);
      case FetchResponse(_, _, _, _) =>
        r := EncodeFetchResponseV1(w, m);
        return;
      case AppendRequest(_, _, _, chunk) =>
        assert ChunksOf(m)[0] == chunk;
        r := EncodeAppendRequest(w, m);
        return;
      case HeartbeatRequest(_) =>
        return Fail(Protocol);
      case SuccessResponse(_) =>
      case Disconnect(_) =>
      case ErrorResponse(_, message) =>
        w.WriteOptionalString(1, Some(message));
    }
    w.WriteEnd();
    r := Pass;
  }

  method EncodeBodyV3(w: BinaryWriter, m: QuackMessage) returns (r: Outcome)
    modifies w
    ensures r.Pass? <==> CanEncodeMessage(m, V3)
    ensures r.Pass? ==> forall tail {:trigger PutBodyV3(m, tail)} ::
      w.buffer + tail == old(w.buffer) + PutBodyV3(m, tail)
  {
    hide CanEncodeChunk, EncodableTypes, PutPrepareResponse, PutFetchResponseV3;
    hide Wire.PutFieldId, Wire.PutUleb, Wire.PutEnd, Wire.PutOptionalString, Wire.PutUlebOrZero, Wire.PutOptionalUleb,
      Wire.PutHugeInt, Wire.Head;
    match m {
      case ConnectionRequest(_, auth, version, platform, min, max, client, timeout) =>
        w.WriteOptionalString(1, auth);
        w.WriteOptionalString(2, version);
        w.WriteOptionalString(3, platform);
        w.WriteUlebOrZero(4, min);
        w.WriteUlebOrZero(5, max);
        w.WriteOptionalString(6, client);
        w.WriteUlebOrZero(7, timeout);
      case ConnectionResponse(_, version, platform, quack, timeout) =>
        w.WriteOptionalString(1, version);
        w.WriteOptionalString(2, platform);
        w.WriteOptionalUleb(3, quack);
        w.WriteOptionalUleb(4, timeout);
      case PrepareRequest(_, sql, uuid, inline) =>
        if uuid.None? {
          return Fail(Protocol);
        }
        w.WriteOptionalString(1, Some(sql));
        w.WriteFieldId(2);
        w.WriteHugeInt(uuid.value);
        w.WriteOptionalUleb(3, inline);
      case PrepareResponse(_, _, _, _, _, _) =>
        r := EncodePrepareResponse(w, m);
        return;
      case FetchRequest(_, uuid, batch, ack) =>
        if batch.None? {
          return Fail(Protocol);
        }
        w.WriteFieldId(1);
        w.WriteHugeInt(uuid);
        w.WriteUlebOrZero(2, batch.value);
        w.WriteUlebOrZero(3, ack.GetOr(0));
      case FetchResponse(_, _, _, _) =>
        r := EncodeFetchResponseV3(w, m);
        return;
      case AppendRequest(_, _, _, _) =>
        return Fail(Protocol);
      case SuccessResponse(_) =>
      case Disconnect(_) =>
      case HeartbeatRequest(_) =>
      case ErrorResponse(_, message) =>
        w.WriteOptionalString(1, Some(message));
    }
    w.WriteEnd();
    r := Pass;
  }

  method EncodePrepareResponse(w: BinaryWriter, m: QuackMessage) returns (r: Outcome)
    requires m.PrepareResponse?
    modifies w
    ensures r.Pass? <==> EncodableTypes(m.resultTypes) && CanEncodeChunks(m.results)
    ensures r.Pass? ==> forall tail {:trigger PutPrepareResponse(m, tail)} ::
      w.buffer + tail == old(w.buffer) + PutPrepareResponse(m, tail)
  {
    hide CanEncodeChunks, EncodableTypes, PutTypeList, PutNameList, PutFlag, PutPointerList;
    hide Wire.PutFieldId, Wire.PutUleb, Wire.PutEnd, Wire.PutHugeInt, Wire.Head;
    :- WriteTypeList(w, 1, m.resultTypes);
    WriteNameList(w, 2, m.resultNames);
    WriteFlag(w, 3, m.needsMoreFetch);
    :- WriteChunkPointerList(w, 4, m.results);
    w.WriteFieldId(5);
    w.WriteHugeInt(m.resultUuid);
    w.WriteEnd();
    r := Pass;
  }

  method WriteTypeList(w: BinaryWriter, id: u16, types: vec<LogicalType>) returns (r: Outcome)
    modifies w
    ensures r.Pass? <==> EncodableTypes(types)
    ensures r.Pass? ==> forall tail {:trigger PutTypeList(id, types, tail)} :: Wire.Head(tail) > id ==>
      w.buffer + tail == old(w.buffer) + PutTypeList(id, types, tail)
  {
    hide PutTypes, Wire.PutFieldId, Wire.PutUleb, Wire.Head;
    if types != [] {
      w.WriteFieldId(id);
      w.WriteUleb(|types|);
      :- EncodeLogicalTypes(w, types);
    }
    r := Pass;
  }

  method WriteNameList(w: BinaryWriter, id: u16, names: vec<text>)
    modifies w
    ensures forall tail {:trigger PutNameList(id, names, tail)} :: Wire.Head(tail) > id ==>
      w.buffer + tail == old(w.buffer) + PutNameList(id, names, tail)
  {
    hide Wire.PutFieldId, Wire.PutStringList, Wire.Head;
    if names != [] {
      w.WriteFieldId(id);
      w.WriteStringList(names);
    }
  }

  method WriteFlag(w: BinaryWriter, id: u16, b: bool)
    modifies w
    ensures forall tail {:trigger PutFlag(id, b, tail)} :: Wire.Head(tail) > id ==>
      w.buffer + tail == old(w.buffer) + PutFlag(id, b, tail)
  {
    hide Wire.PutFieldId, Wire.PutBool, Wire.Head;
    if b {
      w.WriteFieldId(id);
      w.WriteBool(true);
    }
  }

  /** A list of chunks behind pointers, left out when empty. */
  method WriteChunkPointerList(w: BinaryWriter, id: u16, chunks: vec<DataChunk>) returns (r: Outcome)
    modifies w
    ensures r.Pass? <==> CanEncodeChunks(chunks)
    ensures r.Pass? ==> forall tail {:trigger PutPointerList(id, chunks, tail)} :: Wire.Head(tail) > id ==>
      w.buffer + tail == old(w.buffer) + PutPointerList(id, chunks, tail)
  {
    hide PutChunkWrapper, CanEncodeChunk;
    hide Wire.PutFieldId, Wire.PutUleb, Wire.PutBool, Wire.Head;
    if chunks == [] {
      return Pass;
    }
    w.WriteFieldId(id);
    w.WriteUleb(|chunks|);
    ghost var before := w.buffer;
    for i := 0 to |chunks|
      invariant forall k | 0 <= k < i :: CanEncodeChunk(chunks[k])
      invariant CanEncodeChunks(chunks) ==> CanEncodeChunks(chunks[i..])
      invariant CanEncodeChunks(chunks) ==> forall tail {:trigger PutPointers(chunks, tail)} ::
        w.buffer + PutPointers(chunks[i..], tail) == before + PutPointers(chunks, tail)
    {
      assert chunks[i..][0] == chunks[i] && chunks[i..][1..] == chunks[i + 1..];
      w.WriteBool(true);
      :- EncodeDataChunkWrapper(w, chunks[i]);
    }
    r := Pass;
  }

  method EncodeFetchResponseV1(w: BinaryWriter, m: QuackMessage) returns (r: Outcome)
    requires m.FetchResponse?
    modifies w
    ensures r.Pass? <==> CanEncodeChunks(m.results)
    ensures r.Pass? ==> forall tail {:trigger PutFetchResponseV1(m, tail)} ::
      w.buffer + tail == old(w.buffer) + PutFetchResponseV1(m, tail)
  {
    hide CanEncodeChunks, PutPointerList;
    hide Wire.PutFieldId, Wire.PutUleb, Wire.PutEnd, Wire.Head;
    :- WriteChunkPointerList(w, 1, m.results);
    w.WriteFieldId(2);
    w.WriteUleb(m.batchIndex.GetOr(NO_INDEX));
    w.WriteEnd();
    r := Pass;
  }

  method EncodeFetchResponseV3(w: BinaryWriter, m: QuackMessage) returns (r: Outcome)
    requires m.FetchResponse?
    modifies w
    ensures r.Pass? <==> CanEncodeChunks(m.results)
    ensures r.Pass? ==> forall tail {:trigger PutFetchResponseV3(m, tail)} ::
      w.buffer + tail == old(w.buffer) + PutFetchResponseV3(m, tail)
  {
    hide PutChunk, CanEncodeChunk;
    hide Wire.PutFieldId, Wire.PutUleb, Wire.PutEnd, Wire.PutUlebOrZero, Wire.PutOptionalUleb, Wire.Head;
    w.WriteUlebOrZero(1, |m.results|);
    w.WriteOptionalUleb(2, m.totalBatches);
    w.WriteOptionalUleb(3, m.batchIndex);
    w.WriteEnd();
    for i := 0 to |m.results|
      invariant forall k | 0 <= k < i :: CanEncodeChunk(m.results[k])
      invariant CanEncodeChunks(m.results) ==> CanEncodeChunks(m.results[i..])
      invariant CanEncodeChunks(m.results) ==> forall tail {:trigger PutFetchResponseV3(m, tail)} ::
        w.buffer + PutChunks(m.results[i..], tail) == old(w.buffer) + PutFetchResponseV3(m, tail)
    {
      assert m.results[i..][0] == m.results[i] && m.results[i..][1..] == m.results[i + 1..];
      :- EncodeDataChunk(w, m.results[i]);
    }
    r := Pass;
  }

  method EncodeAppendRequest(w: BinaryWriter, m: QuackMessage) returns (r: Outcome)
    requires m.AppendRequest?
    modifies w
    ensures r.Pass? <==> CanEncodeChunk(m.appendChunk)
    ensures r.Pass? ==> forall tail {:trigger PutAppendRequest(m, tail)} ::
      w.buffer + tail == old(w.buffer) + PutAppendRequest(m, tail)
  {
    hide PutChunkWrapper, CanEncodeChunk;
    hide Wire.PutFieldId, Wire.PutUleb, Wire.PutEnd, Wire.PutOptionalString, Wire.PutBool, Wire.Head;
    w.WriteOptionalString(1, m.schemaName);
    w.WriteOptionalString(2, Some(m.tableName));
    w.WriteFieldId(3);
    w.WriteBool(true);
    :- EncodeDataChunkWrapper(w, m.appendChunk);
    w.WriteEnd();
    r := Pass;
  }

  // ---- reading ----

  method DecodeMessageForVersion(bytes: seq<byte>, version: u64) returns (r: Result<QuackMessage>)
    ensures r == Decode(bytes, version)
  {
    hide Decode;
    var reader := new BinaryReader(bytes);
    r := DecodeWhole(reader, version);
  }

  method DecodeWhole(reader: BinaryReader, version: u64) returns (r: Result<QuackMessage>)
    requires reader.Valid()
    modifies reader`offset
    ensures r == Decode(old(reader.Remaining()), version)
  {
    hide ReadHeader, ReadBody;
    var header :- DecodeHeader(reader);
    var m :- DecodeBody(reader, version, header);
    var end := reader.AssertEof();
    if end.Fail? {
      return Failure(end.error);
    }
    r := Success(m);
  }

  method DecodeBody(reader: BinaryReader, version: u64, h: MessageHeader) returns (r: Result<QuackMessage>)
    requires reader.Valid()
    modifies reader`offset
    ensures reader.Valid() && Agrees(ReadBody(version, h, old(reader.Remaining())), r, reader.Remaining())
  {
    hide ReadBodyV1, ReadBodyV3;
    if version == V1 {
      r := DecodeBodyV1(reader, h);
    } else if version == V3 {
      r := DecodeBodyV3(reader, h);
    } else {
      r := Failure(Protocol);
    }
  }

  method DecodeHeader(reader: BinaryReader) returns (r: Result<MessageHeader>)
    requires reader.Valid()
    modifies reader`offset
    ensures reader.Valid() && Agrees(ReadHeader(old(reader.Remaining())), r, reader.Remaining())
  {
    hide Wire.ReadTag, Wire.ReadUleb64, Wire.ReadEnd, Wire.ReadOptionalString, Wire.Head;
    var _ :- reader.ReadTag(1);
    var code :- reader.ReadUleb64();
    var messageType :- FromOption(MessageOfCode(code), Protocol);
    var connectionId :- reader.ReadOptionalString(2);
    var _ :- reader.ReadTag(3);
    var query :- reader.ReadUleb64();
    var _ :- reader.ReadEnd();
    r := Success(MessageHeader(messageType, Wire.NonEmpty(connectionId), NormIndex(Some(query))));
  }

  method DecodeBodyV1(reader: BinaryReader, h: MessageHeader) returns (r: Result<QuackMessage>)
    requires reader.Valid()
    modifies reader`offset
    ensures reader.Valid() && Agrees(ReadBodyV1(h, old(reader.Remaining())), r, reader.Remaining())
  {
    hide ReadConnectionRequestV1, ReadConnectionResponseV1, ReadPrepareRequestV1, ReadPrepareResponse,
      ReadFetchRequestV1, ReadFetchResponseV1, ReadErrorResponse, ReadEmpty, ReadAppendRequest;
    hide Wire.ReadTag, Wire.ReadUleb64, Wire.ReadEnd, Wire.ReadOptionalString, Wire.ReadStringOrEmpty,
      Wire.ReadUlebOrZero, Wire.ReadOptionalUleb, Wire.ReadHugeInt, Wire.ReadBool, Wire.Head;
    match h.messageType
    case ConnectionRequestType => r := DecodeConnectionRequestV1(reader, h);
    case ConnectionResponseType => r := DecodeConnectionResponseV1(reader, h);
    case PrepareRequestType => r := DecodePrepareRequestV1(reader, h);
    case PrepareResponseType => r := DecodePrepareResponse(reader, h);
    case FetchRequestType => r := DecodeFetchRequestV1(reader, h);
    case FetchResponseType => r := DecodeFetchResponseV1(reader, h);
    case SendDataRequestType => r := DecodeAppendRequest(reader, h);
    case SuccessResponseType => r := DecodeEmpty(reader, SuccessResponse(h));
    case DisconnectType => r := DecodeEmpty(reader, Disconnect(h));
    case ErrorResponseType => r := DecodeErrorResponse(reader, h);
    case _ => r := Failure(Protocol);
  }

  method DecodeBodyV3(reader: BinaryReader, h: MessageHeader) returns (r: Result<QuackMessage>)
    requires reader.Valid()
    modifies reader`offset
    ensures reader.Valid() && Agrees(ReadBodyV3(h, old(reader.Remaining())), r, reader.Remaining())
  {
    hide ReadConnectionRequestV3, ReadConnectionResponseV3, ReadPrepareRequestV3, ReadPrepareResponse,
      ReadFetchRequestV3, ReadFetchResponseV3, ReadErrorResponse, ReadEmpty;
    hide Wire.ReadTag, Wire.ReadUleb64, Wire.ReadEnd, Wire.ReadOptionalString, Wire.ReadStringOrEmpty,
      Wire.ReadUlebOrZero, Wire.ReadOptionalUleb, Wire.ReadHugeInt, Wire.ReadBool, Wire.Head;
    match h.messageType
    case ConnectionRequestType => r := DecodeConnectionRequestV3(reader, h);
    case ConnectionResponseType => r := DecodeConnectionResponseV3(reader, h);
    case PrepareRequestType => r := DecodePrepareRequestV3(reader, h);
    case PrepareResponseType => r := DecodePrepareResponse(reader, h);
    case FetchRequestType => r := DecodeFetchRequestV3(reader, h);
    case FetchResponseType => r := DecodeFetchResponseV3(reader, h);
    case SuccessResponseType => r := DecodeEmpty(reader, SuccessResponse(h));
    case DisconnectType => r := DecodeEmpty(reader, Disconnect(h));
    case HeartbeatRequestType => r := DecodeEmpty(reader, HeartbeatRequest(h));
    case ErrorResponseType => r := DecodeErrorResponse(reader, h);
    case _ => r := Failure(Protocol);
  }

  method DecodeConnectionRequestV1(reader: BinaryReader, h: MessageHeader) returns (r: Result<QuackMessage>)
    requires reader.Valid()
    modifies reader`offset
    ensures reader.Valid() && Agrees(ReadConnectionRequestV1(h, old(reader.Remaining())), r, reader.Remaining())
  {
    hide Wire.ReadTag, Wire.ReadUleb64, Wire.ReadEnd, Wire.ReadOptionalString, Wire.ReadUlebOrZero, Wire.Head;
    var auth :- reader.ReadOptionalString(1);
    var version :- reader.ReadOptionalString(2);
    var platform :- reader.ReadOptionalString(3);
    var min :- reader.ReadUlebOrZero(4);
    var max :- reader.ReadUlebOrZero(5);
    var _ :- reader.ReadEnd();
    r := Success(ConnectionRequest(h, auth, version, platform, min, max, None, 0));
  }

  method DecodeConnectionRequestV3(reader: BinaryReader, h: MessageHeader) returns (r: Result<QuackMessage>)
    requires reader.Valid()
    modifies reader`offset
    ensures reader.Valid() && Agrees(ReadConnectionRequestV3(h, old(reader.Remaining())), r, reader.Remaining())
  {
    hide Wire.ReadTag, Wire.ReadUleb64, Wire.ReadEnd, Wire.ReadOptionalString, Wire.ReadUlebOrZero, Wire.Head;
    var auth :- reader.ReadOptionalString(1);
    var version :- reader.ReadOptionalString(2);
    var platform :- reader.ReadOptionalString(3);
    var min :- reader.ReadUlebOrZero(4);
    var max :- reader.ReadUlebOrZero(5);
    var client :- reader.ReadOptionalString(6);
    var timeout :- reader.ReadUlebOrZero(7);
    var _ :- reader.ReadEnd();
    r := Success(ConnectionRequest(h, auth, version, platform, min, max, client, timeout));
  }

  method DecodeConnectionResponseV1(reader: BinaryReader, h: MessageHeader) returns (r: Result<QuackMessage>)
    requires reader.Valid()
    modifies reader`offset
    ensures reader.Valid() && Agrees(ReadConnectionResponseV1(h, old(reader.Remaining())), r, reader.Remaining())
  {
    hide Wire.ReadTag, Wire.ReadUleb64, Wire.ReadEnd, Wire.ReadOptionalString, Wire.ReadOptionalUleb, Wire.Head;
    var version :- reader.ReadOptionalString(1);
    var platform :- reader.ReadOptionalString(2);
    var quack :- reader.ReadOptionalUleb(3);
    var _ :- reader.ReadEnd();
    r := Success(ConnectionResponse(h, version, platform, quack, None));
  }

  method DecodeConnectionResponseV3(reader: BinaryReader, h: MessageHeader) returns (r: Result<QuackMessage>)
    requires reader.Valid()
    modifies reader`offset
    ensures reader.Valid() && Agrees(ReadConnectionResponseV3(h, old(reader.Remaining())), r, reader.Remaining())
  {
    hide Wire.ReadTag, Wire.ReadUleb64, Wire.ReadEnd, Wire.ReadOptionalString, Wire.ReadOptionalUleb, Wire.Head;
    var version :- reader.ReadOptionalString(1);
    var platform :- reader.ReadOptionalString(2);
    var quack :- reader.ReadOptionalUleb(3);
    var timeout :- reader.ReadOptionalUleb(4);
    var _ :- reader.ReadEnd();
    r := Success(ConnectionResponse(h, version, platform, quack, timeout));
  }

  method DecodePrepareRequestV1(reader: BinaryReader, h: MessageHeader) returns (r: Result<QuackMessage>)
    requires reader.Valid()
    modifies reader`offset
    ensures reader.Valid() && Agrees(ReadPrepareRequestV1(h, old(reader.Remaining())), r, reader.Remaining())
  {
    hide Wire.ReadTag, Wire.ReadUleb64, Wire.ReadEnd, Wire.ReadOptionalString, Wire.ReadStringOrEmpty, Wire.Head;
    var sql :- reader.ReadStringOrEmpty(1);
    var _ :- reader.ReadEnd();
    r := Success(PrepareRequest(h, sql, None, None));
  }

  method DecodePrepareRequestV3(reader: BinaryReader, h: MessageHeader) returns (r: Result<QuackMessage>)
    requires reader.Valid()
    modifies reader`offset
    ensures reader.Valid() && Agrees(ReadPrepareRequestV3(h, old(reader.Remaining())), r, reader.Remaining())
  {
    hide Wire.ReadTag, Wire.ReadUleb64, Wire.ReadEnd, Wire.ReadOptionalString, Wire.ReadStringOrEmpty,
      Wire.ReadOptionalUleb, Wire.ReadHugeInt, Wire.Head;
    var sql :- reader.ReadStringOrEmpty(1);
    var _ :- reader.ReadTag(2);
    var uuid :- reader.ReadHugeInt();
    var inline :- reader.ReadOptionalUleb(3);
    var _ :- reader.ReadEnd();
    r := Success(PrepareRequest(h, sql, Some(uuid), NormIndex(inline)));
  }

  method DecodePrepareResponse(reader: BinaryReader, h: MessageHeader) returns (r: Result<QuackMessage>)
    requires reader.Valid()
    modifies reader`offset
    ensures reader.Valid() && Agrees(ReadPrepareResponse(h, old(reader.Remaining())), r, reader.Remaining())
  {
    hide ReadTypeList, ReadNameList, ReadFlag, ReadPointerList;
    hide Wire.ReadTag, Wire.ReadUleb64, Wire.ReadEnd, Wire.ReadHugeInt, Wire.Head;
    var types :- DecodeTypeList(reader, 1);
    var names :- DecodeNameList(reader, 2);
    var more :- DecodeFlag(reader, 3);
    var results :- ReadChunkPointerList(reader, 4);
    var _ :- reader.ReadTag(5);
    var uuid :- reader.ReadHugeInt();
    var _ :- reader.ReadEnd();
    r := Success(PrepareResponse(h, types, names, more, results, uuid));
  }

  method DecodeFetchRequestV1(reader: BinaryReader, h: MessageHeader) returns (r: Result<QuackMessage>)
    requires reader.Valid()
    modifies reader`offset
    ensures reader.Valid() && Agrees(ReadFetchRequestV1(h, old(reader.Remaining())), r, reader.Remaining())
  {
    hide Wire.ReadTag, Wire.ReadUleb64, Wire.ReadEnd, Wire.ReadHugeInt, Wire.Head;
    var _ :- reader.ReadTag(1);
    var uuid :- reader.ReadHugeInt();
    var _ :- reader.ReadEnd();
    r := Success(FetchRequest(h, uuid, None, None));
  }

  method DecodeFetchRequestV3(reader: BinaryReader, h: MessageHeader) returns (r: Result<QuackMessage>)
    requires reader.Valid()
    modifies reader`offset
    ensures reader.Valid() && Agrees(ReadFetchRequestV3(h, old(reader.Remaining())), r, reader.Remaining())
  {
    hide Wire.ReadTag, Wire.ReadUleb64, Wire.ReadEnd, Wire.ReadUlebOrZero, Wire.ReadOptionalUleb, Wire.ReadHugeInt,
      Wire.Head;
    var _ :- reader.ReadTag(1);
    var uuid :- reader.ReadHugeInt();
    var batch :- reader.ReadOptionalUleb(2);
    var ack :- reader.ReadUlebOrZero(3);
    var _ :- reader.ReadEnd();
    r := Success(FetchRequest(h, uuid, NormIndex(batch), Some(ack)));
  }

  method DecodeFetchResponseV1(reader: BinaryReader, h: MessageHeader) returns (r: Result<QuackMessage>)
    requires reader.Valid()
    modifies reader`offset
    ensures reader.Valid() && Agrees(ReadFetchResponseV1(h, old(reader.Remaining())), r, reader.Remaining())
  {
    hide ReadPointerList;
    hide Wire.ReadTag, Wire.ReadUleb64, Wire.ReadEnd, Wire.Head;
    var results :- ReadChunkPointerList(reader, 1);
    var _ :- reader.ReadTag(2);
    var batch :- reader.ReadUleb64();
    var _ :- reader.ReadEnd();
    r := Success(FetchResponse(h, results, None, NormIndex(Some(batch))));
  }

  method DecodeFetchResponseV3(reader: BinaryReader, h: MessageHeader) returns (r: Result<QuackMessage>)
    requires reader.Valid()
    modifies reader`offset
    ensures reader.Valid() && Agrees(ReadFetchResponseV3(h, old(reader.Remaining())), r, reader.Remaining())
  {
    hide ReadChunks;
    hide Wire.ReadTag, Wire.ReadUleb64, Wire.ReadEnd, Wire.ReadUlebOrZero, Wire.ReadOptionalUleb, Wire.Head;
    var n :- reader.ReadUlebOrZero(1);
    var total :- reader.ReadOptionalUleb(2);
    var batch :- reader.ReadOptionalUleb(3);
    var _ :- reader.ReadEnd();
    var results :- DecodeChunks(reader, n);
    r := Success(FetchResponse(h, results, NormIndex(total), NormIndex(batch)));
  }

  method DecodeAppendRequest(reader: BinaryReader, h: MessageHeader) returns (r: Result<QuackMessage>)
    requires reader.Valid()
    modifies reader`offset
    ensures reader.Valid() && Agrees(ReadAppendRequest(h, old(reader.Remaining())), r, reader.Remaining())
  {
    hide ReadFlag, ReadChunkWrapper;
    hide Wire.ReadTag, Wire.ReadUleb64, Wire.ReadEnd, Wire.ReadOptionalString, Wire.ReadStringOrEmpty, Wire.Head;
    var schema :- reader.ReadOptionalString(1);
    var table :- reader.ReadStringOrEmpty(2);
    var present :- DecodeFlag(reader, 3);
    if !present {
      return Failure(Protocol);
    }
    var chunk :- DecodeDataChunkWrapper(reader);
    var _ :- reader.ReadEnd();
    r := Success(AppendRequest(h, schema, table, chunk));
  }

  method DecodeErrorResponse(reader: BinaryReader, h: MessageHeader) returns (r: Result<QuackMessage>)
    requires reader.Valid()
    modifies reader`offset
    ensures reader.Valid() && Agrees(ReadErrorResponse(h, old(reader.Remaining())), r, reader.Remaining())
  {
    hide Wire.ReadTag, Wire.ReadUleb64, Wire.ReadEnd, Wire.ReadOptionalString, Wire.ReadStringOrEmpty, Wire.Head;
    var message :- reader.ReadStringOrEmpty(1);
    var _ :- reader.ReadEnd();
    r := Success(ErrorResponse(h, message));
  }

  method DecodeEmpty(reader: BinaryReader, m: QuackMessage) returns (r: Result<QuackMessage>)
    requires reader.Valid()
    modifies reader`offset
    ensures reader.Valid() && Agrees(ReadEmpty(m, old(reader.Remaining())), r, reader.Remaining())
  {
    hide Wire.ReadEnd;
    var _ :- reader.ReadEnd();
    r := Success(m);
  }

  method DecodeTypeList(reader: BinaryReader, id: u16) returns (r: Result<vec<LogicalType>>)
    requires reader.Valid()
    modifies reader`offset
    ensures reader.Valid() && Agrees(ReadTypeList(id, old(reader.Remaining())), r, reader.Remaining())
  {
    hide ReadTypes, Wire.ReadUleb64, Wire.Head;
    var next :- reader.PeekFieldId();
    if next != id {
      return Success([]);
    }
    reader.SkipFieldId();
    var n :- reader.ReadUleb64();
    var types :- DecodeLogicalTypes(reader, n);
    r := Success(types);
  }

  method DecodeNameList(reader: BinaryReader, id: u16) returns (r: Result<vec<text>>)
    requires reader.Valid()
    modifies reader`offset
    ensures reader.Valid() && Agrees(ReadNameList(id, old(reader.Remaining())), r, reader.Remaining())
  {
    hide Wire.ReadUleb64, Wire.ReadStringList, Wire.Head;
    var next :- reader.PeekFieldId();
    if next != id {
      return Success([]);
    }
    reader.SkipFieldId();
    r := reader.ReadStringList();
  }

  method DecodeFlag(reader: BinaryReader, id: u16) returns (r: Result<bool>)
    requires reader.Valid()
    modifies reader`offset
    ensures reader.Valid() && Agrees(ReadFlag(id, old(reader.Remaining())), r, reader.Remaining())
  {
    hide Wire.ReadBool, Wire.Head;
    var next :- reader.PeekFieldId();
    if next != id {
      return Success(false);
    }
    reader.SkipFieldId();
    r := reader.ReadBool();
  }

  method ReadChunkPointerList(reader: BinaryReader, id: u16) returns (r: Result<vec<DataChunk>>)
    requires reader.Valid()
    modifies reader`offset
    ensures reader.Valid() && Agrees(ReadPointerList(id, old(reader.Remaining())), r, reader.Remaining())
  {
    hide ReadPointers, Wire.ReadUleb64, Wire.Head;
    var next :- reader.PeekFieldId();
    if next != id {
      return Success([]);
    }
    reader.SkipFieldId();
    var n :- reader.ReadUleb64();
    var chunks :- DecodePointers(reader, n);
    r := Success(chunks);
  }

  method DecodePointers(reader: BinaryReader, n: nat) returns (r: Result<seq<DataChunk>>)
    requires reader.Valid()
    modifies reader`offset
    ensures reader.Valid() && Agrees(ReadPointers(n, old(reader.Remaining())), r, reader.Remaining())
  {
    hide ReadChunkWrapper, Wire.ReadBool;
    var chunks: seq<DataChunk> := [];
    OntoNil(ReadPointers(n, reader.Remaining()));
    for i := 0 to n
      invariant reader.Valid()
      invariant Wire.Onto(chunks, ReadPointers(n - i, reader.Remaining())) == ReadPointers(n, old(reader.Remaining()))
    {
      PointersStep(chunks, n - i, reader.Remaining());
      var present :- reader.ReadBool();
      if !present {
        return Failure(Protocol);
      }
      var chunk :- DecodeDataChunkWrapper(reader);
      chunks := chunks + [chunk];
    }
    assert chunks + [] == chunks;
    r := Success(chunks);
  }

  lemma PointersStep(done: seq<DataChunk>, n: nat, bs: seq<byte>)
    requires n > 0
    ensures Wire.Onto(done, ReadPointers(n, bs)) ==
      match ReadPointer(bs) {
        case Parse(c, rest) => Wire.Onto(done + [c], ReadPointers(n - 1, rest))
        case NoParse(e) => NoParse(e)
      }
  {
    hide ReadPointer;
    var r := ReadPointer(bs);
    if r.Parse? {
      OntoOnto(done, r.value, ReadPointers(n - 1, r.rest));
    }
  }

  method DecodeChunks(reader: BinaryReader, n: nat) returns (r: Result<seq<DataChunk>>)
    requires reader.Valid()
    modifies reader`offset
    ensures reader.Valid() && Agrees(ReadChunks(n, old(reader.Remaining())), r, reader.Remaining())
  {
    hide ReadChunk;
    var chunks: seq<DataChunk> := [];
    OntoNil(ReadChunks(n, reader.Remaining()));
    for i := 0 to n
      invariant reader.Valid()
      invariant Wire.Onto(chunks, ReadChunks(n - i, reader.Remaining())) == ReadChunks(n, old(reader.Remaining()))
    {
      ChunksStep(chunks, n - i, reader.Remaining());
      var chunk :- DecodeDataChunk(reader);
      chunks := chunks + [chunk];
    }
    assert chunks + [] == chunks;
    r := Success(chunks);
  }

  lemma ChunksStep(done: seq<DataChunk>, n: nat, bs: seq<byte>)
    requires n > 0
    ensures Wire.Onto(done, ReadChunks(n, bs)) ==
      match ReadChunk(bs) {
        case Parse(c, rest) => Wire.Onto(done + [c], ReadChunks(n - 1, rest))
        case NoParse(e) => NoParse(e)
      }
  {
    hide ReadChunk;
    var r := ReadChunk(bs);
    if r.Parse? {
      OntoOnto(done, r.value, ReadChunks(n - 1, r.rest));
    }
  }
}
