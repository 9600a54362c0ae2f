/** What the decoders refuse. A reader that accepts too much passes every round trip; these
    lemmas say of each kind of malformed input that it is an error, and which. */
module Malformed {
  import opened Prelude
  import opened Wire
  import opened LogicalTypes
  import opened TypeCodec
  import opened Values
  import opened FixedCodec
  import opened Validity
  import opened Vectors
  import opened VectorRoundTrips
  import opened Chunks
  import opened Messages
  import opened MessageBodies
  import Leb128

  // ---- fields and numbers ----

  /** A flag is the byte 0 or 1. */
  lemma BadFlag(b: byte, rest: seq<byte>)
    ensures ReadBool([b] + rest) ==
      if b == 0 then Parse(false, rest) else if b == 1 then Parse(true, rest) else NoParse(Protocol)
  {
    assert ([b] + rest)[1..] == rest;
  }

  /** A required field has its own tag. */
  lemma WrongTag(id: u16, other: u16, rest: seq<byte>)
    ensures ReadTag(id, PutFieldId(other, rest)) == if id == other then Parse((), rest) else NoParse(Protocol)
    ensures ReadEnd(PutFieldId(other, rest)) == if other == 0xFFFF then Parse((), rest) else NoParse(Protocol)
  {
    hide Wire.PutFieldId, Wire.Head;
  }

  /** Numbers that do not fit 64 bits are refused where 64 bits are wanted. */
  lemma TooWide(v: u128, n: i128, rest: seq<byte>)
    requires n >= Leb128.LEAST_SLEB
    ensures ReadUleb64(PutUleb(v, rest)) ==
      if v < 0x1_0000_0000_0000_0000 then Parse(v, rest) else NoParse(Protocol)
    ensures ReadSleb64(PutSleb(n, rest)) ==
      if -0x8000_0000_0000_0000 <= n < 0x8000_0000_0000_0000 then Parse(n, rest) else NoParse(Protocol)
  {
    hide Wire.ReadUleb, Wire.ReadSleb, Wire.PutUleb, Wire.PutSleb;
  }

  /** Bytes that are no text are refused as text. */
  lemma NotText(b: vec<byte>, rest: seq<byte>)
    ensures ReadString(PutBlob(b, rest)) == if IsUtf8(b) then Parse(b, rest) else NoParse(Error.Utf8)
  {
    hide Wire.ReadBlob, Wire.PutBlob, IsUtf8;
  }

  /** Text or bytes that are announced and not there. */
  lemma CutShort(n: u64, rest: seq<byte>)
    requires |rest| < n
    ensures ReadBlob(PutUleb(n, rest)) == NoParse(Protocol)
  {
    hide Wire.ReadUleb, Wire.PutUleb;
  }

  // ---- types ----

  /** A number that is the code of no type, of no kind of metadata, or of no message. */
  lemma UnknownCodes(code: u64, rest: seq<byte>)
    ensures TypeOfCode(code).None? ==> ReadType(PutFieldId(100, PutUleb(code, rest))) == NoParse(Protocol)
    ensures code > 13 ==> ReadInfo(PutFieldId(100, PutUleb(code, rest))) == NoParse(Protocol)
    ensures MessageOfCode(code).None? ==> ReadHeader(PutFieldId(1, PutUleb(code, rest))) == NoParse(Protocol)
  {
    hide Wire.PutFieldId, Wire.PutUleb, Wire.ReadTag, Wire.ReadUleb64, TypeOfCode, MessageOfCode;
  }

  /** Extensions of metadata, values of integer literals and expressions of unbound types are not
      supported. */
  lemma Unsupporteds(code: u64, alias: Option<text>, rest: seq<byte>)
    ensures code <= 13 ==>
      ReadInfo(PutFieldId(100, PutUleb(code, PutOptionalString(101, alias, PutFieldId(103, rest))))) ==
      NoParse(Unsupported)
    ensures ReadDetails(11, alias, PutFieldId(200, rest)) == NoParse(Unsupported)
    ensures ReadDetails(7, alias, PutFieldId(204, rest)) == NoParse(Unsupported)
  {
    hide Wire.PutFieldId, Wire.PutUleb, Wire.ReadTag, Wire.ReadUleb64, Wire.Head, Wire.PutOptionalString,
      Wire.ReadOptionalString;
  }

  /** An enum has to announce as many values as it has. */
  lemma WrongEnumCount(alias: Option<text>, n: u64, values: vec<text>, rest: seq<byte>)
    ensures ReadDetails(6, alias, PutFieldId(200, PutUleb(n, PutFieldId(201, PutStringList(values, rest))))) ==
      if n == |values| then Parse(EnumInfo(alias, values), rest) else NoParse(Protocol)
  {
    hide Wire.PutFieldId, Wire.PutUleb, Wire.ReadTag, Wire.ReadUleb64, Wire.PutStringList, Wire.ReadStringList;
  }

  // ---- vectors ----

  /** The kinds of vectors are 0 and 2 to 4; kind 1 exists but is not supported. */
  lemma WrongKind(t: LogicalType, count: u64, kind: u64, rest: seq<byte>)
    ensures kind > 4 ==> Vectors.ReadBody(t, count, PutFieldId(90, PutUleb(kind, rest))) == NoParse(Protocol)
    ensures kind == 1 ==> Vectors.ReadBody(t, count, PutFieldId(90, PutUleb(kind, rest))) == NoParse(Unsupported)
    ensures kind == 0 ==> Vectors.ReadBody(t, count, PutFieldId(90, PutUleb(kind, rest))) == ReadFlat(t, count, rest)
  {
    hide Wire.PutFieldId, Wire.PutUleb, Wire.ReadUleb64, Wire.Head, ReadFlat;
  }

  /** A mask has one bit per row, in whole words. */
  lemma WrongMask(count: u64, mask: vec<byte>, rest: seq<byte>)
    ensures ReadValidity(count, PutFieldId(100, PutBool(true, PutFieldId(101, PutBlob(mask, rest))))) ==
      if |mask| == MaskSize(count) then Parse(Some(Unmask(mask, count)), rest) else NoParse(Protocol)
  {
    hide Wire.PutFieldId, Wire.PutBool, Wire.ReadBool, Wire.PutBlob, Wire.ReadBlob, Wire.ReadTag, MaskSize, Unmask;
  }

  /** Slots have to be as many as rows. */
  lemma WrongSlots(t: LogicalType, p: PhysicalType, count: u64, validity: Option<seq<bool>>, data: vec<byte>,
                   rest: seq<byte>)
    requires PhysicalTypeSize(p).Some? && (validity.Some? ==> |validity.value| == count)
    requires SlotsSize(p, count) < TWO_64 && |data| != SlotsSize(p, count)
    ensures ReadFixedColumn(t, p, count, validity, PutFieldId(102, PutBlob(data, rest))) == NoParse(Protocol)
  {
    hide Wire.PutFieldId, Wire.PutBlob, Wire.ReadBlob, Wire.ReadTag, SlotsSize;
  }

  /** Lists have to have an entry per row. */
  lemma WrongEntries(count: u64, es: vec<ListEntry>, rest: seq<byte>)
    ensures ReadEntries(count, PutEntries(es, rest)) == if |es| == count then Parse(es, rest) else NoParse(Protocol)
  {
    hide Wire.PutUleb, Wire.ReadUleb64, PutEntryList, ReadEntryList;
    assert ReadEntries(|es|, PutEntries(es, rest)) == Parse(es, rest);
  }

  /** The arrays of a column have to have the size of its type. */
  lemma WrongArraySize(t: LogicalType, count: u64, validity: Option<seq<bool>>, size: u64, rest: seq<byte>)
    requires validity.Some? ==> |validity.value| == count
    requires GetArraySize(t).Success? && GetArraySize(t).value != size
    ensures ReadArrayColumn(t, count, validity, PutFieldId(103, PutUleb(size, rest))) == NoParse(Protocol)
  {
    hide Wire.PutFieldId, Wire.PutUleb, Wire.ReadUleb64, Wire.ReadTag, GetArraySize;
  }

  /** A dictionary has to have the entries that are selected. */
  lemma {:induction false} WrongSelection(dictionary: seq<Value>, selection: seq<u32>)
    ensures Select(dictionary, selection).Success? <==>
      forall i | 0 <= i < |selection| :: selection[i] < |dictionary|
  {
    if selection != [] {
      WrongSelection(dictionary, selection[1..]);
      assert forall i | 0 < i < |selection| :: selection[1..][i - 1] == selection[i];
    }
  }

  /** A row needs a column for every field, and a column needs a type. */
  lemma {:induction false} WrongColumns(children: seq<ChildType>, columns: seq<seq<Value>>, i: nat, row: seq<Field>)
    ensures StructRow(children, columns, i, row).Success? <==> |columns| >= |children|
    ensures StructRow(children, columns, i, row).Failure? ==> StructRow(children, columns, i, row).error == Protocol
    decreases |children|
  {
    hide RowOf;
    if children != [] && columns != [] {
      WrongColumns(children[1..], columns[1..], i, Insert(row, children[0].name, RowOf(columns[0], i)));
    }
  }

  // ---- chunks and messages ----

  /** The chunk behind a pointer has to be there. */
  lemma NullPointer(rest: seq<byte>)
    ensures ReadPointer(PutBool(false, rest)) == NoParse(Protocol)
    ensures ReadColumns([], 1, 0, rest) == NoParse(Protocol)
    ensures ReadChunkColumns([], 1, 0, rest) == NoParse(Protocol)
  {
    hide Wire.PutBool, Wire.ReadBool;
  }

  /** The messages each version has a body for. */
  predicate HasBody(t: MessageType, version: u64) {
    || t in {ConnectionRequestType, ConnectionResponseType, PrepareRequestType, PrepareResponseType, FetchRequestType,
             FetchResponseType, SuccessResponseType, DisconnectType, ErrorResponseType}
    || (t == SendDataRequestType && version == 1)
    || (t == HeartbeatRequestType && version == 3)
  }

  /** A message of another type, or of another version, is refused whatever follows its header. */
  lemma WrongMessage(h: MessageHeader, version: u64, body: seq<byte>)
    requires version !in {1, 3} || !HasBody(h.messageType, version)
    ensures Decode(PutHeader(h, body), version) == Failure(Protocol)
  {
    DecodeBody(h, body, version);
    hide PutHeader, Decode, ReadConnectionRequestV1, ReadConnectionResponseV1, ReadPrepareRequestV1,
      ReadPrepareResponse, ReadFetchRequestV1, ReadFetchResponseV1, ReadAppendRequest, ReadErrorResponse,
      ReadConnectionRequestV3, ReadConnectionResponseV3, ReadPrepareRequestV3, ReadFetchRequestV3,
      ReadFetchResponseV3, ReadEmpty;
  }

  /** Nothing may follow a message. */
  lemma TrailingBytes(m: QuackMessage, version: u64, extra: seq<byte>)
    requires CanEncodeMessage(m, version) && TypedMessage(m) && m.header.messageType == BodyType(m) && extra != []
    ensures Decode(PutHeader(m.header, if version == V1 then PutBodyV1(m, extra) else PutBodyV3(m, extra)), version) ==
      Failure(Protocol)
  {
    VersionsOf(m, version);
    if version == V1 {
      BodyV1RoundTrip(m, extra);
      DecodeBody(m.header, PutBodyV1(m, extra), V1);
    } else {
      BodyV3RoundTrip(m, extra);
      DecodeBody(m.header, PutBodyV3(m, extra), V3);
    }
    hide PutHeader, PutBodyV1, PutBodyV3, ReadBodyV1, ReadBodyV3, ProjectMessage, NormMessage, TypedMessage,
      CanEncodeMessage, ReadableMessage, NormHeader, BodyType, Decode;
  }
}
