/** Bytes of small messages, written out. They fix the field tags and the order of
    fields, which a round trip alone does not. */
module WorkedExamples {
  import opened Prelude
  import opened Wire
  import Leb128
  import opened LogicalTypes
  import opened TypeCodec
  import opened Values
  import opened FixedCodec
  import opened Validity
  import opened Vectors
  import opened Messages
  import opened MessageBodies
  import opened Chunks
  import DecimalText = Decimal
  import SqlLexing
  import WireLayout

  lemma TagBytes(id: u16, tail: seq<byte>)
    requires id < 0x100
    ensures PutFieldId(id, tail) == [id, 0] + tail
    ensures PutEnd(tail) == [255, 255] + tail
  {
  }

  lemma SmallUleb(v: u128, tail: seq<byte>)
    requires v < 0x80
    ensures PutUleb(v, tail) == [v] + tail
  {
  }

  lemma Glue(a: seq<byte>, b: seq<byte>, tail: seq<byte>)
    ensures a + (b + tail) == (a + b) + tail
  {
  }

  /** A tag and a small number behind it. */
  lemma SmallField(id: u16, v: u128, tail: seq<byte>)
    requires id < 0x100 && v < 0x80
    ensures PutFieldId(id, PutUleb(v, tail)) == [id, 0, v] + tail
  {
    hide Wire.PutFieldId, Wire.PutUleb;
    SmallUleb(v, tail);
    TagBytes(id, PutUleb(v, tail));
    Glue([id, 0], [v], tail);
    assert [id, 0] + [v] == [id, 0, v];
  }

  lemma IntegerTypeBytes(tail: seq<byte>)
    ensures PutType(LogicalType(TypeId.Integer, None), tail) == [100, 0, 13, 255, 255] + tail
  {
    hide Wire.PutFieldId, Wire.PutUleb, Wire.PutEnd;
    TagBytes(0, tail);
    SmallField(100, 13, PutEnd(tail));
    Glue([100, 0, 13], [255, 255], tail);
    assert [100, 0, 13] + [255, 255] == [100, 0, 13, 255, 255];
  }

  lemma ListInfoBytes(tail: seq<byte>)
    ensures PutInfo(ListInfo(None, LogicalType(TypeId.Integer, None)), tail) ==
      [100, 0, 4, 200, 0, 100, 0, 13, 255, 255, 255, 255] + tail
  {
    hide Wire.PutFieldId, Wire.PutUleb, Wire.PutEnd, PutType;
    var integer := LogicalType(TypeId.Integer, None);
    var end := PutEnd(tail);
    TagBytes(0, tail);
    IntegerTypeBytes(end);
    TagBytes(200, PutType(integer, end));
    var details := PutFieldId(200, PutType(integer, end));
    assert PutDetails(ListInfo(None, integer), end) == details;
    SmallField(100, 4, details);
    hide PutDetails;
    Glue([100, 0, 13, 255, 255], [255, 255], tail);
    Glue([200, 0], [100, 0, 13, 255, 255] + [255, 255], tail);
    Glue([100, 0, 4], [200, 0] + ([100, 0, 13, 255, 255] + [255, 255]), tail);
    assert [100, 0, 4] + ([200, 0] + ([100, 0, 13, 255, 255] + [255, 255])) ==
      [100, 0, 4, 200, 0, 100, 0, 13, 255, 255, 255, 255];
  }

  /** LIST(INTEGER), without aliases: id, metadata present, metadata, end. */
  lemma ListTypeBytes(tail: seq<byte>)
    ensures PutType(LogicalType(TypeId.List, Some(ListInfo(None, LogicalType(TypeId.Integer, None)))), tail) ==
      [100, 0, 101] + ([101, 0] + ([1]
      + ([100, 0, 4, 200, 0, 100, 0, 13, 255, 255, 255, 255] + ([255, 255] + tail))))
  {
    hide Wire.PutFieldId, Wire.PutUleb, Wire.PutEnd, PutInfo, Wire.Head, Wire.ReadFieldId, Wire.ReadTag,
      Wire.ReadUleb, Wire.ReadUleb64, Wire.ReadBool, Wire.ReadByte, Wire.ReadEnd, TypeCode, TypeOfCode;
    NestedTypeCodes(TypeCode(TypeId.List));
    var info := PutInfo(ListInfo(None, LogicalType(TypeId.Integer, None)), PutEnd(tail));
    TagBytes(0, tail);
    ListInfoBytes(PutEnd(tail));
    TagBytes(101, PutBool(true, info));
    SmallField(100, 101, PutFieldId(101, PutBool(true, info)));
  }

  /** Eight bytes behind a tag and their length. */
  lemma EightBytes(id: u16, b: vec<byte>, tail: seq<byte>)
    requires id < 0x100 && |b| == 8
    ensures PutFieldId(id, PutBlob(b, tail)) == [id, 0, 8] + b + tail
  {
    hide Wire.PutFieldId, Wire.PutUleb;
    SmallField(id, 8, PutBytes(b, tail));
    Glue([id, 0, 8], b, tail);
  }

  lemma IntegerDataBytes(tail: seq<byte>)
    ensures CanEncode(LogicalType(TypeId.Integer, None), [Int(1), Null])
    ensures PutData(LogicalType(TypeId.Integer, None), [Int(1), Null], tail) ==
      [102, 0, 8] + [1, 0, 0, 0, 0, 0, 0, 0] + tail
  {
    hide Slots, Wire.PutFieldId, Wire.PutBlob;
    IntegerSlots();
    hide SlotsEncode;
    EightBytes(102, [1, 0, 0, 0, 0, 0, 0, 0], tail);
  }

  /** An INTEGER column with the rows 1 and null: the mask, then the slots. */
  lemma IntegerColumnBytes(tail: seq<byte>)
    ensures CanEncode(LogicalType(TypeId.Integer, None), [Int(1), Null])
    ensures PutVector(LogicalType(TypeId.Integer, None), [Int(1), Null], tail) ==
      [100, 0] + ([1] + ([101, 0, 8] + [1, 0, 0, 0, 0, 0, 0, 0]
      + ([102, 0, 8] + [1, 0, 0, 0, 0, 0, 0, 0] + ([255, 255] + tail))))
  {
    hide Mask, ValidRows, CanEncode, PutData, Wire.PutFieldId, Wire.PutBlob, Wire.PutEnd;
    var vs := [Int(1), Null];
    IntegerDataBytes(PutEnd(tail));
    var data := PutData(LogicalType(TypeId.Integer, None), vs, PutEnd(tail));
    TagBytes(0, tail);
    OneOfTwo();
    EightBytes(101, [1, 0, 0, 0, 0, 0, 0, 0], data);
    var masked := PutFieldId(101, PutBlob(Mask(ValidRows(vs)), data));
    assert vs[1] == Null;
    TagBytes(100, PutBool(true, masked));
  }

  lemma OneOfTwo()
    ensures Mask(ValidRows([Int(1), Null])) == [1, 0, 0, 0, 0, 0, 0, 0]
  {
    var valid := ValidRows([Int(1), Null]);
    assert valid == [true, false];
    PackNone(valid, 2, 6);
    assert Pack(valid, 1, 7) == 0 && Pack(valid, 0, 8) == 1;
    forall j | 1 <= j < 8
      ensures MaskByte(valid, j) == 0
    {
      PackNone(valid, 8 * j, 8);
    }
  }

  lemma OneInFourBytes(tail: seq<byte>)
    ensures PutFixed(4, 1, tail) == [1, 0, 0, 0] + tail
  {
    RangeValues();
    assert 1 % Range(4) == 1;
    assert Le(0, 0) == [] && Le(1, 0) == [0] && Le(2, 0) == [0, 0] && Le(3, 0) == [0, 0, 0];
    assert LowBytes(4, 1) == [1, 0, 0, 0];
  }

  lemma IntegerSlots()
    ensures SlotsEncode(LogicalType(TypeId.Integer, None), PInt32, [Int(1), Null])
    ensures Slots(LogicalType(TypeId.Integer, None), PInt32, [Int(1), Null]) == [1, 0, 0, 0, 0, 0, 0, 0]
  {
    hide Wire.PutFixed, Wire.Range, Wire.ReadSigned, Wire.ReadUnsigned;
    var t := LogicalType(TypeId.Integer, None);
    var vs := [Int(1), Null];
    assert Number(t, PInt32, Int(1)) == Success(1);
    hide FixedCodec.Number;
    assert SlotEncodes(t, PInt32, vs[0]) && SlotEncodes(t, PInt32, vs[1]);
    assert vs[1..] == [Null] && [Null][1..] == [];
    assert Slots(t, PInt32, []) == [];
    assert PutFixedValue(t, PInt32, Null, []) == [0, 0, 0, 0];
    assert Slots(t, PInt32, [Null]) == [0, 0, 0, 0];
    OneInFourBytes([0, 0, 0, 0]);
    assert PutFixedValue(t, PInt32, Int(1), [0, 0, 0, 0]) == PutFixed(4, 1, [0, 0, 0, 0]);
    hide FixedCodec.PutFixedValue;
  }

  /** The header of a numbered request on connection "c". */
  lemma HeaderBytes(tail: seq<byte>)
    ensures PutHeader(MessageHeader(FetchRequestType, Some(Ascii("c")), Some(5)), tail) ==
      [1, 0, 7] + ([2, 0, 1] + [99] + ([3, 0, 5] + ([255, 255] + tail)))
  {
    hide Wire.PutFieldId, Wire.PutUleb, Wire.PutEnd, Wire.Head;
    var name := Ascii("c");
    assert name == [99];
    var end := PutEnd(tail);
    TagBytes(0, tail);
    SmallField(3, 5, end);
    var query := PutFieldId(3, PutUleb(5, end));
    SmallField(2, 1, PutBytes(name, query));
    Glue([2, 0, 1], name, query);
    SmallField(1, 7, PutOptionalString(2, Some(name), query));
  }

  /** A version 3 FETCH of batch 2 that acknowledges batch 1. */
  lemma FetchRequestBytes(h: MessageHeader, tail: seq<byte>)
    ensures PutFetchRequestV3(FetchRequest(h, HugeIntParts(0, 9), Some(2), Some(1)), tail) ==
      [1, 0] + ([0] + ([9] + ([2, 0, 2] + ([3, 0, 1] + ([255, 255] + tail)))))
  {
    hide Wire.PutFieldId, Wire.PutUleb, Wire.PutSleb, Wire.PutEnd, Wire.Head;
    TagBytes(0, tail);
    SmallField(3, 1, PutEnd(tail));
    var ack := PutFieldId(3, PutUleb(1, PutEnd(tail)));
    SmallField(2, 2, ack);
    var batch := PutFieldId(2, PutUleb(2, ack));
    SmallUleb(9, batch);
    ZeroSleb(PutUleb(9, batch));
    TagBytes(1, PutHugeInt(HugeIntParts(0, 9), batch));
  }

  lemma ZeroSleb(tail: seq<byte>)
    ensures PutSleb(0, tail) == [0] + tail
  {
  }

  // ---- variable-length numbers ----

  lemma UlebExamples()
    ensures Leb128.Uleb(2) == [2] && Leb128.Uleb(127) == [127]
    ensures Leb128.Uleb(128) == [0x80, 1] && Leb128.Uleb(129) == [0x81, 1] && Leb128.Uleb(12857) == [0xB9, 0x64]
  {
  }

  lemma SlebExamples()
    ensures Leb128.Sleb(2) == [2] && Leb128.Sleb(-2) == [0x7E]
    ensures Leb128.Sleb(127) == [0xFF, 0] && Leb128.Sleb(-127) == [0x81, 0x7F]
    ensures Leb128.Sleb(128) == [0x80, 1] && Leb128.Sleb(-128) == [0x80, 0x7F]
    ensures Leb128.Sleb(129) == [0x81, 1] && Leb128.Sleb(-129) == [0xFF, 0x7E]
  {
  }

  /** A one and seven times `k` ones behind it, in binary. */
  function OnesValue(k: nat): (v: nat)
    ensures v > 0
  {
    if k == 0 then 1 else 0x80 * OnesValue(k - 1) + 0x7F
  }

  function OnesBytes(k: nat): (b: seq<byte>)
    ensures |b| == k + 1 && b[k] == 1 && forall i | 0 <= i < k :: b[i] == 255
  {
    if k == 0 then [1] else [255] + OnesBytes(k - 1)
  }

  lemma {:induction false} OnesEncode(k: nat)
    ensures Leb128.Uleb(OnesValue(k)) == OnesBytes(k)
  {
    if k > 0 {
      OnesEncode(k - 1);
      var v := OnesValue(k);
      assert v / 0x80 == OnesValue(k - 1) && v % 0x80 == 0x7F;
    }
  }

  lemma OnesValues()
    ensures OnesValue(9) == 0xFFFF_FFFF_FFFF_FFFF
  {
    assert OnesValue(3) == 0x3F_FFFF;
    assert OnesValue(6) == 0x7FF_FFFF_FFFF;
  }

  /** The largest 64-bit number takes ten bytes. */
  lemma AllOnesBytes()
    ensures Leb128.Uleb(0xFFFF_FFFF_FFFF_FFFF) == [255, 255, 255, 255, 255, 255, 255, 255, 255, 1]
  {
    hide Leb128.Uleb, OnesValue, OnesBytes;
    OnesEncode(9);
    OnesValues();
    assert OnesBytes(9) == [255, 255, 255, 255, 255, 255, 255, 255, 255, 1];
  }

  // ---- the index that means none ----

  /** A request to connect is sent before there is a connection or a query to name: its header
      has no field 2 and nine bytes of ones and a one in field 3. */
  lemma OpeningHeaderBytes(tail: seq<byte>)
    ensures PutHeader(MessageHeader(ConnectionRequestType, None, None), tail) ==
      [1, 0, 1] + ([3, 0, 255, 255, 255, 255, 255, 255, 255, 255, 255, 1] + ([255, 255] + tail))
  {
    hide Leb128.Uleb, PutHeader, MessageCode, WireLayout.Tagged, WireLayout.TextIfAny;
    var h := MessageHeader(ConnectionRequestType, None, None);
    WireLayout.HeaderLayout(h, tail);
    OpeningCode();
    var end := WireLayout.Ending(tail);
    assert end == [255, 255] + tail;
    OnesField(3, end);
    OneByteField(1, 1, [3, 0, 255, 255, 255, 255, 255, 255, 255, 255, 255, 1] + end);
    AbsentField(2, [3, 0, 255, 255, 255, 255, 255, 255, 255, 255, 255, 1] + end);
  }

  lemma OpeningCode()
    ensures MessageCode(ConnectionRequestType) == 1
  {
  }

  lemma AbsentField(id: byte, rest: seq<byte>)
    ensures WireLayout.Tagged(id, WireLayout.TextIfAny(None), rest) == rest
  {
  }

  lemma OnesField(id: byte, rest: seq<byte>)
    ensures WireLayout.Tagged(id, Some(Leb128.Uleb(TWO_64 - 1)), rest) ==
      [id, 0, 255, 255, 255, 255, 255, 255, 255, 255, 255, 1] + rest
  {
    hide Leb128.Uleb;
    AllOnesBytes();
    var ones := [255, 255, 255, 255, 255, 255, 255, 255, 255, 1];
    Glue([id, 0], ones, rest);
    assert [id, 0] + ones == [id, 0, 255, 255, 255, 255, 255, 255, 255, 255, 255, 1];
  }

  lemma OneByteField(id: byte, n: byte, rest: seq<byte>)
    requires n < 0x80
    ensures WireLayout.Tagged(id, Some(Leb128.Uleb(n)), rest) == [id, 0, n] + rest
  {
    OneByte(n);
    hide Leb128.Uleb;
    Glue([id, 0], [n], rest);
    assert [id, 0] + [n] == [id, 0, n];
  }

  lemma OneByte(n: nat)
    requires n < 0x80
    ensures Leb128.Uleb(n) == [n]
  {
  }

  /** So has a version 1 answer to a FETCH that brings neither chunks nor the number of a batch. */
  lemma EmptyFetchResponseBytes(h: MessageHeader, tail: seq<byte>)
    ensures PutFetchResponseV1(FetchResponse(h, [], None, None), tail) ==
      [2, 0, 255, 255, 255, 255, 255, 255, 255, 255, 255, 1] + ([255, 255] + tail)
  {
    hide Leb128.Uleb, PutFetchResponseV1, WireLayout.Tagged;
    WireLayout.FetchResponseLayout(FetchResponse(h, [], None, None), tail);
    OnesField(2, WireLayout.Ending(tail));
  }

  /** Of all query numbers just the largest is lost on the way, and nothing else is mistaken for it. */
  lemma QueryNumberSurvives(t: MessageType, connection: Option<text>, q: u64, tail: seq<byte>)
    ensures ReadHeader(PutHeader(MessageHeader(t, connection, Some(q)), tail)) ==
      Parse(MessageHeader(t, NonEmpty(connection), if q == TWO_64 - 1 then None else Some(q)), tail)
    ensures ReadHeader(PutHeader(MessageHeader(t, connection, None), tail)) ==
      Parse(MessageHeader(t, NonEmpty(connection), None), tail)
  {
    hide PutHeader, ReadHeader;
    assert NormHeader(MessageHeader(t, connection, Some(q))).clientQueryId == if q == TWO_64 - 1 then None else Some(q);
  }

  /** The same of the batch numbers of a version 1 answer. */
  lemma BatchNumberSurvives(h: MessageHeader, batch: u64, tail: seq<byte>)
    ensures ReadFetchResponseV1(NormHeader(h), PutFetchResponseV1(FetchResponse(h, [], None, Some(batch)), tail)) ==
      Parse(FetchResponse(NormHeader(h), [], None, if batch == TWO_64 - 1 then None else Some(batch)), tail)
  {
    hide PutFetchResponseV1, ReadFetchResponseV1;
    var m := FetchResponse(h, [], None, Some(batch));
    FetchResponseV1RoundTrip(m, tail);
    assert ProjectMessage(m) ==
      FetchResponse(NormHeader(h), [], None, if batch == TWO_64 - 1 then None else Some(batch));
  }

  // ---- codes ----

  /** The numbers that are codes, and the messages they are the codes of. */
  lemma MessageCodes(code: u64)
    ensures (code == 0 <==> MessageOfCode(code) == Some(InvalidType))
      && (code == 1 <==> MessageOfCode(code) == Some(ConnectionRequestType))
      && (code == 2 <==> MessageOfCode(code) == Some(ConnectionResponseType))
      && (code == 3 <==> MessageOfCode(code) == Some(PrepareRequestType))
      && (code == 4 <==> MessageOfCode(code) == Some(PrepareResponseType))
      && (code == 7 <==> MessageOfCode(code) == Some(FetchRequestType))
      && (code == 8 <==> MessageOfCode(code) == Some(FetchResponseType))
      && (code == 9 <==> MessageOfCode(code) == Some(SendDataRequestType))
      && (code == 10 <==> MessageOfCode(code) == Some(SuccessResponseType))
      && (code == 11 <==> MessageOfCode(code) == Some(DisconnectType))
      && (code == 12 <==> MessageOfCode(code) == Some(CancelRequestType))
      && (code == 14 <==> MessageOfCode(code) == Some(SendDataResponseType))
      && (code == 15 <==> MessageOfCode(code) == Some(AcknowledgementType))
      && (code == 16 <==> MessageOfCode(code) == Some(HeartbeatRequestType))
      && (code == 100 <==> MessageOfCode(code) == Some(ErrorResponseType))
    ensures MessageOfCode(code).Some? <==> code <= 4 || 7 <= code <= 12 || 14 <= code <= 16 || code == 100
  {
  }

  // ---- names and text ----

  /** A column without a name is called "column" and its number, and a row it is too short for is null. */
  lemma DefaultNames(names: seq<text>, k: u64, column: seq<Value>)
    requires |names| <= k
    ensures |column| <= k ==> RowOf(column, k) == Null
    ensures var name := NameAt(names, k);
      && |name| > 6
      && name[..6] == ['c' as int, 'o' as int, 'l' as int, 'u' as int, 'm' as int, 'n' as int]
      && DecimalText.ParseU128(name[6..]) == Success(k)
  {
    var digits := DecimalText.Digits(k);
    assert DecimalText.IsDigit(digits[0]);
    hide DecimalText.NatOf, DecimalText.Digits, IsUtf8;
    assert DefaultName(k)[6..] == digits;
  }

  /** The text a value turns into in a column of text: numbers parse back, truth values are words. */
  lemma TextOfValues(v: Value)
    ensures v == Bool(true) ==> LossyText(v) == Some(['t' as int, 'r' as int, 'u' as int, 'e' as int])
    ensures v == Bool(false) ==> LossyText(v) == Some(['f' as int, 'a' as int, 'l' as int, 's' as int, 'e' as int])
    ensures v.Int? ==> TextDenotes(v, v.i)
    ensures v.UInt? ==> TextDenotes(v, v.u)
    ensures v.HugeInt? ==> TextDenotes(v, v.h)
    ensures v.Date? ==> TextDenotes(v, v.days)
    ensures v.Time? || v.Timestamp? ==> TextDenotes(v, v.ticks)
    ensures v.TimeTz? ==> TextDenotes(v, v.bits)
    ensures v.List? || v.Struct? ==> LossyText(v) == Some([])
    ensures v.Float? || v.Double? ==> LossyText(v) == None
  {
    hide DecimalText.IntegerText, DecimalText.ParseI128, DecimalText.DecimalToString;
    match v
    case Bool(_) =>
      assert Ascii("true") == ['t' as int, 'r' as int, 'u' as int, 'e' as int];
      assert Ascii("false") == ['f' as int, 'a' as int, 'l' as int, 's' as int, 'e' as int];
    case Int(i) => SqlLexing.IntegerReadsBack(i);
    case UInt(u) => SqlLexing.IntegerReadsBack(u);
    case HugeInt(h) => SqlLexing.IntegerReadsBack(h);
    case Date(days) => SqlLexing.IntegerReadsBack(days);
    case Time(_, ticks) => SqlLexing.IntegerReadsBack(ticks);
    case Timestamp(_, ticks, _) => SqlLexing.IntegerReadsBack(ticks);
    case TimeTz(bits) => SqlLexing.IntegerReadsBack(bits);
    case _ =>
  }

  /** Text that fits in memory, and parses as the number. */
  predicate TextDenotes(v: Value, n: i128) {
    LossyText(v).Some? ==> DecimalText.ParseI128(LossyText(v).value) == Success(n)
  }

  /** Inserting a key that is there replaces its value in place. */
  lemma {:induction false} InsertReplaces(row: seq<Field>, k: nat, v: Value)
    requires k < |row| && DistinctNames(row)
    ensures Insert(row, row[k].name, v) == row[k := Field(row[k].name, v)]
  {
    if k > 0 {
      InsertReplaces(row[1..], k - 1, v);
    }
  }

  /** An enum value is the number of its first occurrence in the dictionary. */
  lemma {:induction false} IndexOfIsFirst(values: seq<text>, s: text, k: nat)
    requires IndexOf(values, s).Some? && k < IndexOf(values, s).value
    ensures values[k] != s
  {
    if k > 0 {
      IndexOfIsFirst(values[1..], s, k - 1);
    }
  }

  /** A mask takes whole words of 64 rows. */
  lemma MaskIsWords(count: nat, words: nat)
    ensures MaskSize(count) == 8 * words <==> 64 * words - 64 < count <= 64 * words
    ensures MaskSize(count) % 8 == 0
  {
  }

  /** Columns are shorter than 2 to the power 59: that many values of 16 bytes fill the 2 to the power 63
      bytes an allocation may not reach. */
  lemma RowLimit()
    ensures 16 * MAX_ROWS == TWO_63
  {
  }
}
