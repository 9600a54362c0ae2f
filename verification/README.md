# A verified model of the Quack client

Quack is the wire protocol of a remote DuckDB. This project models the client
library: the binary codec stack, from LEB128 integers up to whole protocol
messages, and the protocols that run on top of it, namely fetching results over
one shared connection, keeping a lease alive, agreeing on a version, putting
parameters into SQL, building chunks to append and turning columns into Arrow
arrays. `dafny verify dfyconfig.toml` checks all of it.

## How the model is built

- Byte formats are pairs of functions. `PutX(x, tail)` is `tail` with the bytes
  of `x` in front; `ReadX(bs)` is what a reader makes of `bs`: a value and the
  bytes left over, or an error. Round trips say what `ReadX(PutX(x, tail))` is
  for every `tail`.
- The writer and the reader are classes, a growing buffer and an offset. A writer
  method says, for any bytes that may come later, what the buffer followed by
  them is; a reader method agrees with the function on the bytes that remained,
  errors included. The `*IO` modules and `ArrowBuild` hold the loops and
  recursive methods and refine the functions of the module they are named after.
- Errors are the variants of the crate without their texts. `Panic` stands for an
  abort: an index or slice out of range, or an arithmetic overflow in a build
  that checks for it. `usize` has 64 bits.
- Strings are UTF-8 byte sequences. Floating-point numbers are bit patterns. Rows
  are association lists in insertion order.
- The server, the clock and the scheduler are arbitrary: lists of answers, lists
  of timed events, and any interleaving of steps.

| modules | what they model |
|---|---|
| Leb128, Wire, BinaryIO | integers, strings, tagged fields, the writer and the reader |
| LogicalTypes, TypeCodec, TypeCodecIO | logical types and their wire form |
| Decimal, Uuid, FixedCodec, Values, Validity | scalar values, slots, masks |
| PhysicalLayout, SlotNumbers | which slot each type has, which values its columns hold, and what becomes of others |
| DecimalDenotes, Characters | what numeric text means, and which bytes are which characters |
| Vectors, VectorsIO, VectorRoundTrips, PackedVectors, VectorReads, VectorNorm | column vectors |
| Chunks, ChunksIO, Builders | data chunks, rows, appending |
| Messages, MessageBodies, MessagesIO | protocol messages, versions 1 and 3 |
| FetchProtocol, CursorProtocol, CursorProgress, Lease, Negotiation | the client's protocols |
| SqlLiterals, SqlDenotations, SqlScanner, SqlLexing, SqlRoles | literals and placeholders |
| WireLayout, VectorLayout | where every field stands, byte by byte |
| Malformed | what the decoders refuse |
| WorkedExamples | bytes of small messages, written out |
| ArrowSchema, ArrowColumns, ArrowBuild, ArrowReadBack | Arrow types and arrays |

## What does not hold, and exactly when it does

- A signed LEB128 value below -2^125 is written in 19 bytes and drives the reader
  into a shift of 133 bits: `SlebRoundTrip` holds from -2^125 up and shows the
  abort below.
- A null in a column of an enum without values is written but cannot be read,
  since its slot is looked up in the dictionary. `VectorRoundTrip` and everything
  built on it says: the values come back if and only if there is no such slot.
- Empty aliases, empty optional strings, the index that means none, chunk column
  names and, in version 3, batch index 0 do not survive; the normal forms say so.
- The lenient decimal parser accepts more than the strict one: a second sign, as in
  `--5`, and any text behind the scale, as in `5.x`. `ParsersAgreeExactlyWhen` says
  for every text when they agree.
- SQL outside quotes and comments that is not ASCII comes out changed
  (`UnchangedExactlyWhen`).
- A negative number in place of the placeholder in `1-?` gives `1--5`, where the
  rest of the line is a comment (`DashMeetsMinus`). A string in place of the
  placeholder in `?'y'` gives `'x''y'`, one string instead of two
  (`QuoteMeetsQuote`). `FormattingKeepsLexing` in `SqlRoles` shows that
  formatting changes how SQL lexes exactly when a minus sign
  meets a dash or a single quote meets another at the edge of a literal.
- An element of a SEQUENCE vector is cut to 64 bits, or 32 for a date, and in a type without a
  sequence form it is still an integer: `SequenceExactlyInTicks` says for every type
  and number when the element is the value that a flat vector would hold, and
  `SequenceExactlyFits` says it of whole vectors.
- A text column read from arbitrary bytes has as many values as it announces, not as
  were requested (`BodyCount`), and a list row whose entry reaches outside the elements
  aborts (`ListRowsAbort`).

## Model

| member | source | states |
|---|---|---|
| Leb128.UlebRoundTrip | src/binary.rs:90-97 | every 128-bit value reads back from its encoding whatever follows it, in at most 19 bytes, and 10 for 64-bit values |
| Leb128.UlebLength | src/binary.rs:90-97 | an encoding fits k bytes if and only if the value has at most 7k bits |
| Leb128.UlebMinimal | src/binary.rs:323-335 | no byte string the reader accepts for a value is shorter than the encoding the writer makes |
| Leb128.UlebPrefixFree | src/binary.rs:90-97 | no encoding is a proper prefix of another |
| Leb128.SlebRoundTrip | src/binary.rs:347-362 | a signed value reads back exactly from -2^125 up; below that the reader always runs into an overflowing shift |
| Leb128.SlebLength | src/binary.rs:99-114 | a signed encoding fits k bytes if and only if the value fits a two's complement word of 7k bits |
| Leb128.SlebBounds | src/binary.rs:99-114 | at most 19 bytes, fewer exactly between -2^125 and 2^125, and at most 10 for 64-bit values |
| Leb128.SlebMinimal | src/binary.rs:347-362 | no accepted byte string for a signed value is shorter than its encoding |
| Leb128.SlebPrefixFree | src/binary.rs:99-114 | no signed encoding is a proper prefix of another |
| Leb128.Gather | src/binary.rs:323-335 | what a reader holds after i bytes stays a word of at most 7i bits, so that OR is a sum |
| Wire.PutFieldId | src/binary.rs:71-74 | a tag is seen by peeking, by reading and as a required field, and the bytes after it are untouched |
| Wire.PutHugeInt | src/binary.rs:156-159 | both halves of a 128-bit value read back |
| Wire.PutString | src/binary.rs:116-128 | a string reads back, whatever follows it |
| Wire.PutStringList | src/binary.rs:130-140 | a list of strings reads back, whatever follows it |
| Wire.PutFixed | src/binary.rs:161-199 | a little-endian integer reads back signed or unsigned if it fits the width |
| Wire.PutOptionalString | src/messages.rs:767-776 | an optional string reads back except that an empty one becomes absent, provided a later tag follows |
| Wire.PutUlebOrZero | src/messages.rs:778-787 | an index with zero elided reads back with zero as the default, provided a later tag follows |
| Wire.PutOptionalUleb | src/messages.rs:789-798 | an optional index reads back, provided a later tag follows |
| Wire.ReadUlebOrZero | src/binary.rs:285-296 | an optional field consumes bytes unless it takes its default, and never more than there are |
| Wire.Head | src/binary.rs:260-266 | peeking gives a tag exactly when two bytes are there |
| BinaryIO.BinaryWriter.WriteUleb | src/binary.rs:90-97 | the loop appends exactly the bytes of the specification |
| BinaryIO.BinaryWriter.WriteSleb | src/binary.rs:99-114 | the signed loop appends exactly the bytes of the specification, for either sign |
| BinaryIO.BinaryWriter.WriteStringList | src/binary.rs:130-140 | the list loop appends length and elements in order |
| BinaryIO.BinaryWriter.WriteOptionalString | src/binary.rs:62-74 | appends a tagged string or nothing |
| BinaryIO.BinaryReader.ReadUleb | src/binary.rs:323-335 | the loop returns what the specification reads, errors included, and moves the offset to the unread bytes |
| BinaryIO.BinaryReader.ReadSleb | src/binary.rs:347-362 | the signed loop agrees with the specification, the overflowing shift included |
| BinaryIO.BinaryReader.ReadBytes | src/binary.rs:305-310 | returns the next n bytes, or an error exactly when fewer are left, for lengths that do not overflow the offset |
| BinaryIO.BinaryReader.PeekFieldId | src/binary.rs:260-266 | shows the next tag without moving |
| BinaryIO.BinaryReader.ReadStringList | src/binary.rs:383-393 | the list loop agrees with the recursive reader |
| BinaryIO.BinaryReader.AssertEof | src/binary.rs:221-230 | passes exactly when nothing is left |
| LogicalTypes.TypeCode | src/logical_types.rs:86-152 | every logical type id is recovered from its wire code |
| LogicalTypes.GetChildType | src/logical_types.rs:822-831 | the element type is structurally smaller, so recursion over types ends |
| LogicalTypes.GetStructChildren | src/logical_types.rs:833-848 | the field types are structurally smaller; VARIANT and UNION without metadata have none |
| TypeCodec.TypeRoundTrip | src/logical_types.rs:506-533 | for every type tree without INTEGER_LITERAL metadata, decoding what was encoded, followed by any suffix, gives the tree without empty aliases at any level and stops at the suffix |
| TypeCodec.InfoRoundTrip | src/logical_types.rs:535-738 | the same for each kind of metadata, through the mutual recursion with types |
| TypeCodec.ChildrenRoundTrip | src/logical_types.rs:879-898 | the same for lists of named children |
| TypeCodec.NormIdempotent | src/logical_types.rs:535-625 | a second trip over the wire changes nothing more |
| TypeCodec.ReadType | src/logical_types.rs:521-533 | on every byte string the type decoder ends, and success consumes at least one byte and never more than there are |
| TypeCodec.ReadDetails | src/logical_types.rs:627-738 | metadata of every kind keeps the alias that was read and consumes no more than there is |
| TypeCodecIO.EncodeLogicalType | src/logical_types.rs:506-519 | succeeds exactly for trees without INTEGER_LITERAL metadata and appends the specified bytes |
| TypeCodecIO.EncodeDetails | src/logical_types.rs:541-625 | every kind of metadata is appended as specified |
| TypeCodecIO.DecodeLogicalType | src/logical_types.rs:521-533 | agrees with the specification on every input: value, error and unread bytes |
| TypeCodecIO.DecodeExtraTypeInfo | src/logical_types.rs:627-738 | agrees with the specification on every input |
| TypeCodecIO.DecodeDetails | src/logical_types.rs:640-738 | agrees with the specification on every input, for every kind of metadata |
| TypeCodecIO.EncodeChildTypes | src/logical_types.rs:879-887 | the loop appends the children in order and stops at the first that has no wire form |
| TypeCodecIO.DecodeChildTypes | src/logical_types.rs:889-898 | the loop agrees with the recursive reader of children |
| Decimal.PrintParse | src/vector.rs:330-350 | for every value but the least and every scale up to 38, both parsers return the value that was printed |
| Decimal.PrintFails | src/vector.rs:330-350 | printing aborts exactly for the least i128, or for a scale whose low 32 bits exceed 38 |
| Decimal.ParsesBack | src/vector.rs:1090-1117 | a text of sign, whole part, dot and as many digits as the scale parses to its digits, by both parsers |
| Decimal.StrictIsLenient | src/values.rs:52-77 | whatever the strict parser accepts, the lenient one reads as the same number |
| Decimal.ParsersAgreeExactlyWhen | src/vector.rs:1090-1117 | for every text and scale, the strict parser accepts if and only if the lenient one does and all bytes before and behind the dot are digits, behind the scale too; then both give the same number |
| Decimal.LenientTakesTwoSigns | src/vector.rs:1099-1116 | an instance: a second sign is taken by the lenient parser only, and lost |
| Decimal.LenientDropsText | src/vector.rs:1103-1107 | an instance: text behind the scale is dropped unread by the lenient parser only |
| Decimal.ParseDecimalValue | src/values.rs:52-77 | the padding loop computes what the strict specification says |
| Decimal.ParseDecimalString | src/vector.rs:1090-1117 | the padding loop computes what the lenient specification says |
| Uuid.ParseDisplay | src/vector.rs:1176-1187 | parsing the text of a UUID gives its two halves back |
| Uuid.DisplayParse | src/binary.rs:11-26 | canonical UUID text is the text of the halves it parses to |
| FixedCodec.SlotRoundTrip | src/vector.rs:637-777 | every well-typed value of a fixed-size type comes back from its slot, followed by anything |
| FixedCodec.NullSlotReads | src/vector.rs:712-714 | a null slot reads as some value, unless the type is an enum without values: then reading it fails |
| FixedCodec.NumberStandsFor | src/vector.rs:988-1080 | for each physical type, the number written for a well-typed value stands for that value again |
| FixedCodec.IndexOf | src/vector.rs:977-981 | the index of an enum value exists exactly for members and points at the value |
| FixedCodec.PutHalves | src/vector.rs:743-759 | a 128-bit number in two 64-bit halves reads back, signed or unsigned |
| FixedCodec.ReadNumber | src/vector.rs:642-704 | a number read from a slot is within the range of the slot, and exactly the size of the slot is consumed |
| Validity.MaskRoundTrip | src/vector.rs:897-926 | every row's validity is read back from the packed mask, and all padding bits are zero |
| Validity.PackStep | src/vector.rs:914-922 | taking one more row into account sets its bit if it is valid and changes no other |
| Validity.SetBitBit | src/vector.rs:918 | setting a bit makes it one and leaves the others |
| Validity.WriteValidityMask | src/vector.rs:914-922 | the in-place loop fills the array with the specified mask |
| Validity.ReadValidityMask | src/vector.rs:897-912 | the loop reads one bit per row |
| VectorRoundTrips.VectorRoundTrip | src/vector.rs:287-302 | for every nested type and every column of well-typed values with nulls at any depth, decoding what was encoded, followed by any suffix, returns exactly the values and stops at the suffix, if and only if no slot belongs to an enum without values |
| VectorRoundTrips.FlatRoundTrip | src/vector.rs:409-614 | the same for the body of a flat vector, whose vector type is elided |
| VectorRoundTrips.DataRoundTrip | src/vector.rs:425-613 | the same for the part that depends on the physical type |
| VectorRoundTrips.FixedColumnRoundTrip | src/vector.rs:426-447 | fixed-size columns come back, nulls by the mask |
| VectorRoundTrips.EmptyEnumFails | src/vector.rs:960-968 | a non-empty column of an enum without values cannot be read back |
| VectorRoundTrips.StringColumnRoundTrip | src/vector.rs:450-470 | text and blob columns come back, nulls by the mask |
| VectorRoundTrips.StructColumnRoundTrip | src/vector.rs:471-510 | struct columns are transposed back into rows |
| VectorRoundTrips.RowRoundTrip | src/vector.rs:489-503 | inserting the fields child by child rebuilds the row in order |
| VectorRoundTrips.ListColumnRoundTrip | src/vector.rs:511-535 | list columns come back through entries and flattened elements |
| VectorRoundTrips.ListsRoundTrip | src/vector.rs:822-852 | every list is the slice its entry says; a null row has an empty entry |
| VectorRoundTrips.ArrayColumnRoundTrip | src/vector.rs:536-562 | fixed-size array columns come back; a null row takes the full width of null elements |
| VectorRoundTrips.ColumnTyped | src/vector.rs:810-816 | the column of a struct field holds values of the type of the field, null where the row is null |
| VectorRoundTrips.WellTypedEncodes | src/vector.rs:569-614 | every column of well-typed values of a supported type that fits in memory is accepted by the encoder |
| Vectors.ReadVector | src/vector.rs:287-293 | on every byte string the vector decoder ends, through any nesting, and success consumes at least one byte and never more than there are |
| Vectors.ReadValidity | src/vector.rs:419-424 | a mask that is read has one entry per row |
| Vectors.ReadSelection | src/vector.rs:882-895 | a selection vector that is read has one index per row |
| Vectors.PutValidity | src/vector.rs:584-591 | a mask is written exactly when some row is null, and reads back as the rows that are not |
| VectorsIO.EncodeVector | src/vector.rs:295-302 | succeeds exactly for the columns the specification accepts and appends the specified bytes; unlike the original it refuses text columns of floats and conversions to floats, which are left out |
| VectorsIO.EncodeFlatVectorBody | src/vector.rs:569-614 | the same for a flat body; a wrong count is refused, and so are the texts of floats and conversions to floats |
| VectorsIO.EncodeFixedValue | src/vector.rs:706-777 | appends the slot of one value; float slots refuse all but floats of their width, which the original would convert |
| VectorsIO.EncodeStringLikes | src/vector.rs:602-606 | the loop appends texts and blobs, and the texts that other values are turned into, floats excepted |
| VectorsIO.EncodeStructVectorBody | src/vector.rs:801-820 | appends one column per field, in field order |
| VectorsIO.EncodeListVectorBody | src/vector.rs:822-852 | appends length, entries and elements |
| VectorsIO.FlattenLists | src/vector.rs:828-846 | the loop computes entries and flattened elements, and fails exactly when a row is no list or too much is flattened |
| VectorsIO.EncodeArrayVectorBody | src/vector.rs:854-880 | appends size and elements |
| VectorsIO.FlattenArrays | src/vector.rs:861-875 | the loop flattens rows of exactly the declared size and fails exactly on others |
| VectorsIO.WriteListEntries | src/vector.rs:950-958 | the loop appends the entries in order |
| VectorsIO.DecodeVector | src/vector.rs:287-293 | agrees with the specification on every input: value, error and unread bytes |
| VectorsIO.DecodeVectorBody | src/vector.rs:352-407 | agrees with the specification for every vector type |
| VectorsIO.DecodeFlatVectorBody | src/vector.rs:409-567 | agrees with the specification of flat bodies |
| VectorsIO.DecodeFixedValues | src/vector.rs:616-635 | the loop reads every slot, masks it, and insists on the end of the data |
| VectorsIO.DecodeFixedValue | src/vector.rs:637-704 | agrees with the specification of one slot |
| VectorsIO.TransposeRows | src/vector.rs:483-504 | the nested loops build the specified rows, errors included |
| VectorsIO.ReadListEntries | src/vector.rs:932-948 | the loop agrees with the recursive reader; a wrong number of entries is refused |
| VectorsIO.SelectValues | src/vector.rs:382-387 | the loop looks up every index, or fails at the first out of range |
| PackedVectors.PackedRefinesFlat | src/vector.rs:352-407 | for every nesting of CONSTANT and DICTIONARY over flat or SEQUENCE vectors whose elements fit the column, the decoder finds the values, and stops at the place, it would with the flat encoding of the expanded values |
| PackedVectors.PackedDecodes | src/vector.rs:362-406 | each layout decodes to the values it stands for |
| PackedVectors.ExpandTyped | src/vector.rs:362-406 | the expanded values are well typed |
| PackedVectors.SequenceNeverOverflows | src/vector.rs:397-399 | 64-bit start, increment and row number never overflow the 128-bit arithmetic |
| PackedVectors.SequenceExactlyInTicks | src/vector.rs:1167-1174 | for every type and number, a sequence element is a value of its column that stands for its number if and only if the type is SQLNULL, a signed integer of up to 64 bits, DECIMAL, a date, a time or a timestamp and the number fits its slot and 64 bits |
| PackedVectors.SequenceExactlyFits | src/vector.rs:394-405 | a sequence vector decodes to values of its column that stand, row by row, for its elements if and only if every element fits |
| PackedVectors.FittingNeverOverflows | src/vector.rs:397-399 | a sequence whose elements fit never overflows the 128-bit arithmetic, whatever its start and increment |
| PackedVectors.SequenceRows | src/vector.rs:394-405 | row i of a sequence is start plus i increments, in the type of the column |
| PackedVectors.SelectionRoundTrip | src/vector.rs:882-895 | a selection vector reads back |
| VectorNorm.NormVectorRoundTrip | src/vector.rs:226-238 | a column written for a type reads back under the type as decoded, although empty aliases are gone |
| VectorNorm.NormPutVector | src/vector.rs:295-302 | a type and its normal form lay the same values out in the same bytes |
| VectorReads.BodyCount | src/vector.rs:352-407 | whatever the bytes, a body that decodes has exactly the requested number of values, unless it is flat text: then it has as many as it announces |
| VectorReads.StringCount | src/vector.rs:450-464 | text values are as many as the strings read, and with a mask no more than rows |
| VectorReads.ListRowsAbort | src/vector.rs:518-529 | decoding list rows aborts if and only if the entry of a row that is not null reaches outside the elements; otherwise every row is the slice its entry says |
| Chunks.ChunkRoundTrip | src/vector.rs:209-285 | a chunk of well-typed columns comes back in its normal form (flat columns, no empty aliases, no column names) exactly when its columns are readable, bare and wrapped |
| Chunks.ReadChunk | src/vector.rs:223-253 | the chunk decoder ends on every byte string and consumes no more than there is |
| Chunks.RowsFromChunkWithNames | src/vector.rs:313-328 | the nested loops build one row per row number |
| Chunks.RowFields | src/vector.rs:315-326 | with distinct names a row holds one field per column, in column order |
| Chunks.TransposeTwice | src/vector.rs:313-328 | transposing the rows again gives the columns |
| ChunksIO.EncodeDataChunk | src/vector.rs:255-285 | succeeds exactly for chunks whose types and lengths match and whose columns are accepted, and appends the specified bytes |
| ChunksIO.DecodeDataChunk | src/vector.rs:223-253 | agrees with the specification on every input |
| Builders.NormalizeIdempotent | src/builders.rs:175-210 | normalising twice is normalising once, for types whose structs have distinct field names |
| Builders.NormalizeConforms | src/builders.rs:175-210 | a normalised value has, at every depth, exactly the fields of its struct types in their order, and a value of that form is left alone |
| Builders.NormalizeInvisible | src/builders.rs:175-210 | normalised and original values are accepted alike and give byte-identical vectors |
| Builders.NormalizeAppendValue | src/builders.rs:175-210 | the field loop and the recursion compute the specified value or error |
| Builders.NormalizeRowIs | src/builders.rs:194-207 | a normalised row holds the children in order, each with its own normalised value, null where the row had none |
| Builders.BuildDataChunk | src/builders.rs:34-67 | succeeds exactly for one or more columns of one length; the three loops give types, columns and names in order |
| Builders.DataChunkFromRows | src/builders.rs:69-97 | builds the specified chunk from rows and definitions, or reports the first value that has no normal form |
| Builders.AppendRoundTrip | src/builders.rs:69-97 | rows made into a chunk, encoded, decoded and made into rows again are the normalised rows, for distinct column names |
| MessageBodies.MessageRoundTrip | src/messages.rs:179-216 | for each message whose header type matches its body, version 3 decode after encode is the stated normal form, version 1 the stated projection, and the whole input is consumed, if and only if its chunks are readable |
| MessageBodies.BodyV3RoundTrip | src/messages.rs:360-489 | version 3 keeps every field up to defaults and the index that means none; batch index 0 becomes absent and an absent acknowledgement becomes 0 |
| MessageBodies.BodyV1RoundTrip | src/messages.rs:254-358 | version 1 loses client id, lease, query uuid, inline rows, batch and acknowledgement, and keeps the rest |
| MessageBodies.PutFetchRequestV3 | src/messages.rs:445-460 | the FETCH request reads back in its normal form |
| MessageBodies.FetchResponseV3RoundTrip | src/messages.rs:461-477 | the chunks after the object that counts them come back in order |
| MessageBodies.PrepareResponseRoundTrip | src/messages.rs:416-444 | types, names, flag, chunks and uuid come back; both versions agree |
| MessageBodies.AppendRequestRoundTrip | src/messages.rs:334-346 | the appended chunk comes back, which the wire would let be null |
| Messages.PutHeader | src/messages.rs:218-252 | a header reads back without an empty connection id and without the query id that means none |
| Messages.MessageCode | src/messages.rs:10-57 | every message type is recovered from its code |
| Messages.ChunksRoundTrip | src/messages.rs:751-765 | lists of chunks come back, nullable and bare, exactly when all are readable |
| MessagesIO.EncodeMessageForVersion | src/messages.rs:179-195 | succeeds exactly for the messages a version can carry and returns the specified bytes |
| MessagesIO.DecodeMessageForVersion | src/messages.rs:202-216 | returns what the specification says for every input, and insists on its end |
| MessagesIO.EncodeBodyV1 | src/messages.rs:254-358 | appends the specified body, or refuses a heartbeat |
| MessagesIO.EncodeBodyV3 | src/messages.rs:360-489 | appends the specified body, or refuses an append and requests without uuid or batch index |
| MessagesIO.DecodeBodyV1 | src/messages.rs:491-614 | agrees with the specification for every message type |
| MessagesIO.DecodeBodyV3 | src/messages.rs:616-749 | agrees with the specification for every message type |
| MessagesIO.DecodeChunks | src/messages.rs:713-718 | the loop agrees with the recursive reader of chunks |
| FetchProtocol.FetchAll | src/client.rs:284-392 | against any answers: request i asks for batch i+1 and acknowledges i, the next batch index stays one above the acknowledged one, the chunks yielded are batches 1 to k in order with no gap or repeat, there is a request per batch and at most one more, the stream stops with the right verdict at the first answer that does not bring its batch, and a stream that completes has had the number of batches announced |
| FetchProtocol.CheckBatch | src/client.rs:325-360 | an answer is taken, ends the stream or is refused exactly as the protocol says, and the indexes move by one only when it is taken |
| FetchProtocol.RunQuery | src/client.rs:222-282 | a query sends one PREPARE and then exactly the FETCHes of its k batches and the one that stops it; it yields the chunks of the PREPARE under the names as sent, followed by the batches under one name per column that has a name and a type, and completes only after the announced number |
| FetchProtocol.DrainsServer | src/client.rs:306-377 | from a server that answers each request with the batch it asks for, a stream gets every batch once and in order, and does not stop before the last |
| FetchProtocol.FetchRequestSurvives | src/client.rs:648-662 | a version 3 FETCH request reaches the server unchanged if and only if its connection has a name and neither its number nor its batch is the index that means none |
| FetchProtocol.SumRows | src/client.rs:362-363 | the rows delivered are the sum of the row counts |
| FetchProtocol.Connection.FetchMessage | src/client.rs:648-662 | each request takes the next number and carries batch and acknowledgement only in version 3 |
| FetchProtocol.Connection.PrepareMessage | src/client.rs:633-646 | each PREPARE takes the next number and, in version 3, the next query uuid |
| CursorProtocol.CursorSafety | src/client.rs:127-148 | over every interleaving of queries, appends, disconnects, drops, heartbeats and lease expiries, every FETCH reaches the cursor opened by its own query, and nothing that resets the cursor is sent while a stream is undrained |
| CursorProtocol.StepKeeps | src/client.rs:222-282 | every step keeps the invariant: the lock belongs to the one operation that is holding or streaming, and the cursor is the stream's |
| CursorProtocol.FetchFollowsPrepare | src/client.rs:227-231 | before a FETCH there is a PREPARE of its own query, and between the two only FETCHes of that query and heartbeats |
| CursorProtocol.QueryCompletes | src/client.rs:201-392 | from any reachable state with the connection open and free, a query with any number of FETCHes can run to its end, sends just its PREPARE and those FETCHes, and leaves the lock free |
| CursorProtocol.ClosedIsSilent | src/client.rs:705-711 | once closed, a connection stays closed and sends no request |
| Lease.ClosedIsFinal | src/client.rs:833-838 | closed is absorbing: no later event changes anything, a late success included |
| Lease.ClosedExactlyWhen | src/client.rs:844-855 | a lease is closed if and only if something closed it, or a heartbeat failed a whole timeout or more after the last success before it |
| Lease.ThreeFailuresBeforeExpiry | src/client.rs:762-798 | with an accepted timeout and heartbeats at exact intervals, the beat that finds the lease expired is at least the third failure in a row |
| Lease.ConnectionLease.RecordSuccess | src/client.rs:833-838 | renews an open lease and leaves a closed one alone |
| Lease.ConnectionLease.CloseIfExpired | src/client.rs:844-851 | closes exactly an expired or closed lease and says whether it is closed |
| Lease.HeartbeatLoop | src/client.rs:763-799 | the loop applies the answers in order, stops at the first that closes the lease and sends nothing after it |
| Negotiation.Connect | src/client.rs:494-625 | the loop over versions asks for the specified versions in order, each in a request of its own with the options of the caller, and returns the specified outcome; by default the range is 1 to 3 and the timeout 60 seconds |
| Negotiation.SessionIsSound | src/client.rs:568-612 | for every sequence of replies, a session has a version in the range of the caller and in 1 and 3, the one the server confirmed, the version and platform the server reported, and in version 3 alone a lease, with the timeout it granted |
| Negotiation.FallbackOnlyOnRefusal | src/client.rs:552-566 | version 1 is tried after version 3 if and only if both are allowed and the server turned version 3 down; if it turns both down the first error is reported |
| Negotiation.NegotiationTexts | src/client.rs:883-895 | an error is about versions if and only if it is one of the protocol or the server and its text has one of six phrases inside, in any mix of letter cases |
| Negotiation.WillingServer | src/client.rs:529-612 | a server that confirms an allowed version, after refusing version 3 if that is asked first, is connected to in that version |
| SqlScanner.FormatSql | src/sql.rs:58-64 | formatting equals the specification; with positional parameters it equals the lexer that looks at one byte at a time |
| SqlScanner.ScanSql | src/sql.rs:209-269 | the scanner, which jumps over spans, computes what the byte-wise specification says |
| SqlScanner.RewriteIsPositional | src/sql.rs:172-191 | names and jumps make no difference to positional parameters |
| SqlScanner.SucceedsExactlyWhen | src/sql.rs:172-191 | formatting succeeds if and only if the placeholders outside quotes and comments are as many as the parameters and every parameter has a literal |
| SqlScanner.UnchangedExactlyWhen | src/sql.rs:265-266 | in any statement that can be formatted, the text between the literals is unchanged if and only if everything outside quotes and comments is ASCII; otherwise it grows |
| SqlScanner.NothingToFill | src/sql.rs:265-266 | without placeholders the text to compare with is the statement itself |
| SqlScanner.QuotedSpan | src/sql.rs:216-227 | a quoted span is copied whole, doubled quotes included, and an open one to the end |
| SqlScanner.LineSpan | src/sql.rs:228-236 | a line comment is copied up to its newline |
| SqlScanner.BlockSpan | src/sql.rs:237-245 | a block comment is copied up to its end, or to the end of the text |
| SqlScanner.ReadQuoted | src/sql.rs:271-301 | the loop finds the end of a quoted span |
| SqlLexing.QuotingRoundTrip | src/sql.rs:139 | the scanner, started at a string literal, stops exactly at its last quote if and only if no quote follows, and undoubling what lies between gives the string back |
| SqlLexing.LiteralLexes | src/sql.rs:105-170 | every literal leaves the lexer in plain SQL, unless a minus sign meets a dash before it |
| SqlRoles.FormattingKeepsLexing | src/sql.rs:172-191 | after formatting, every literal is to the lexer what it is alone and every other byte what it is in the text with placeholders, if and only if no literal that begins with a minus sign follows a dash and no single quote meets another across the edge of a literal |
| SqlRoles.RolesKept | src/sql.rs:172-191 | the same from any place in a statement, behind a literal or not |
| SqlRoles.LiteralAlone | src/sql.rs:105-170 | in plain SQL a literal lexes as it does alone if and only if its first byte is not a minus sign behind a dash or a quote behind a closing quote |
| SqlRoles.ModelledKeepToThemselves | src/sql.rs:105-170 | every literal built here is lexed from plain SQL back to plain SQL, as that theorem asks of each |
| SqlRoles.RolesShowSpan | src/sql.rs:271-301 | the roles of bytes show the quoted spans: they are exactly those the scanner copies |
| SqlRoles.QuoteMeetsQuote | src/sql.rs:139 | an instance: a string put before a quoted string makes one span with it |
| SqlLexing.FormattingEndsAlike | src/sql.rs:172-191 | if no negative number is put directly behind a dash, formatted SQL ends in the lexical state in which the text with placeholders ends |
| SqlLexing.DashMeetsMinus | src/sql.rs:123 | a negative number put directly behind a dash comments out what follows it |
| SqlLexing.IntegerReadsBack | src/sql.rs:123-126 | an integer literal denotes its integer |
| SqlLexing.HexReadsBack | src/sql.rs:311-313 | the hexadecimal text of a blob literal denotes its bytes |
| WorkedExamples.ListTypeBytes | src/logical_types.rs:506-519 | the bytes of the type LIST(INTEGER), tag by tag |
| WorkedExamples.IntegerColumnBytes | src/vector.rs:569-600 | the bytes of an INTEGER column with a value and a null: flag, mask, slots, end |
| WorkedExamples.HeaderBytes | src/messages.rs:218-233 | the bytes of a request header |
| WorkedExamples.FetchRequestBytes | src/messages.rs:445-460 | the bytes of a version 3 FETCH request |
| ArrowReadBack.BuildFaithful | src/arrow/columns.rs:36-174 | building a column of well-typed values against its declared Arrow type succeeds if and only if the values are in range, and the array then has that type, one row per value, the required layout, and, read by the types in the array, holds the values at every depth, with their precision, scale, unit, time zone and field names |
| ArrowReadBack.ListFaithful | src/arrow/columns.rs:176-208 | the same for lists and maps |
| ArrowReadBack.FixedFaithful | src/arrow/columns.rs:210-244 | the same for fixed-size lists, null rows taking their full width |
| ArrowReadBack.StructFaithful | src/arrow/columns.rs:246-321 | the same for structs and variants, whose fields are found by position or name |
| ArrowReadBack.OffsetBounds | src/arrow/columns.rs:182-197 | list offsets start at zero, never decrease and end at the length of the elements, across null rows |
| ArrowReadBack.OffsetSlice | src/arrow/columns.rs:184-196 | the elements between two offsets are those of the row |
| ArrowReadBack.CellRoundTrip | src/arrow/values.rs:14-150 | a well-typed value has a native form if and only if it is in range, and the form stands for the value under the Arrow type of its column |
| ArrowReadBack.PrimitiveAgrees | src/arrow/schema.rs:22-68 | the table of the schema and the table of the builders agree |
| ArrowSchema.StructFieldAt | src/arrow/schema.rs:81-87 | each struct field has the name and the Arrow type of its child |
| ArrowBuild.Build | src/arrow/columns.rs:36-174 | the builder computes the specified array or error, through all nested loops |
| ArrowBuild.BuildListArray | src/arrow/columns.rs:176-208 | the loop over rows gives offsets, validity and elements |
| ArrowBuild.BuildFixedSizeListArray | src/arrow/columns.rs:210-244 | the loop over rows gives validity and elements |
| ArrowBuild.BuildStructArray | src/arrow/columns.rs:246-321 | the loops over rows and children give validity and arrays |
| ArrowBuild.BuildPrimitive | src/arrow/columns.rs:344-356 | the loop gives one cell per row, or the first error |
| PhysicalLayout.DecimalIsNarrowest | src/logical_types.rs:926-941 | for every width and scale, a decimal takes the narrowest of 2, 4, 8 and 16 bytes whose signed range holds all numbers of that many digits; there is no such type if and only if the width exceeds 38 |
| PhysicalLayout.DigitsFitExactly | src/logical_types.rs:926-941 | numbers of 4, 9, 18 and 38 digits are the longest that 2, 4, 8 and 16 signed bytes hold |
| PhysicalLayout.EnumIsNarrowest | src/logical_types.rs:943-952 | an enum takes 1 byte up to 255 values, 2 up to 65535 and 4 beyond, unsigned |
| PhysicalLayout.SlotWidths | src/logical_types.rs:740-820 | the slots of every other type have 1, 2, 4, 8 or 16 bytes, or there are none, type by type |
| PhysicalLayout.ColumnsHold | src/logical_types.rs:740-785 | the values for which all round trips are proved are, for each logical type, exactly those of its kind within its signed or unsigned range |
| PhysicalLayout.Accessors | src/logical_types.rs:822-858 | element type, array size and fields are those of the metadata; VARIANT and UNION without metadata have no fields |
| SlotNumbers.PutFixedWraps | src/binary.rs:161-199 | a slot too narrow for a number keeps its low bytes, read back signed or unsigned |
| SlotNumbers.SignedReadsBack | src/vector.rs:1119-1134 | any whole number or truth value below 2^127 is taken by a signed integer column and comes back as what its low bytes say; a 128-bit column loses nothing |
| SlotNumbers.SignedTakes | src/vector.rs:1119-1134 | a signed column takes exactly the whole numbers below 2^127 |
| SlotNumbers.UnsignedReadsBack | src/vector.rs:1136-1150 | any whole number from zero on is taken by an unsigned column and comes back modulo the range of the slot |
| SlotNumbers.UnsignedTakes | src/vector.rs:970-986 | an unsigned column takes exactly the whole numbers that are not negative |
| SlotNumbers.TextOfInteger | src/vector.rs:1119-1150 | the text of a number in an integer column stands for the number; a minus sign is refused in unsigned columns |
| SlotNumbers.DecimalTakes | src/vector.rs:1082-1088 | a decimal column takes the digits of a decimal whatever its own scale, and a whole number without scaling it |
| SlotNumbers.TextOfDecimal | src/vector.rs:1090-1117 | the printed text of a decimal in a column of its scale stands for the decimal |
| SlotNumbers.OthersTake | src/vector.rs:706-777 | truth columns refuse nothing and only true is not zero; floats, intervals and UUIDs have columns of their own |
| SlotNumbers.TicksTake | src/vector.rs:1031-1067 | times and timestamps of any unit put their ticks into the slot, dates their days |
| SlotNumbers.IndexesTake | src/vector.rs:970-986 | an enum column takes an index as it is and refuses negative ones |
| WireLayout.HeaderLayout | src/messages.rs:218-233 | a header is fields 1, 2 and 3 in order: type code, connection unless empty, and the query number or all ones |
| WireLayout.ConnectionRequestLayout | src/messages.rs:362-380 | the fields of a CONNECTION_REQUEST in both versions, by number and order, with the defaults left out |
| WireLayout.ConnectionResponseLayout | src/messages.rs:381-397 | the fields of a CONNECTION_RESPONSE in both versions |
| WireLayout.PrepareRequestLayout | src/messages.rs:398-415 | the fields of a PREPARE_REQUEST in both versions |
| WireLayout.PrepareResponseLayout | src/messages.rs:416-444 | the fields of a PREPARE_RESPONSE, with its lists of types, names and chunks |
| WireLayout.FetchRequestLayout | src/messages.rs:445-460 | the fields of a FETCH_REQUEST in both versions |
| WireLayout.FetchResponseLayout | src/messages.rs:461-477 | the fields of a FETCH_RESPONSE: chunks behind pointers in version 1, behind the object that counts them in version 3 |
| WireLayout.AppendRequestLayout | src/messages.rs:334-346 | the fields of an append request and the chunk in field 300 of its wrapper |
| WireLayout.ChunkLayout | src/vector.rs:255-285 | a chunk is fields 100 to 102: row count, types, columns |
| WireLayout.TypeLayout | src/logical_types.rs:506-519 | a type is its code in field 100 and its metadata, if any, in field 101 |
| WireLayout.DetailsLayout | src/logical_types.rs:541-625 | the fields of each kind of metadata, by number and order |
| VectorLayout.ColumnLayout | src/vector.rs:569-600 | a column is the geometry version, the flag and mask of nulls, and the data, in this order |
| VectorLayout.SlotLayout | src/vector.rs:706-777 | a slot is zeros for a null, little-endian two's complement for a number, and three such numbers for an interval |
| VectorLayout.HalvesLayout | src/vector.rs:743-759 | the two halves of a 128-bit number are its sixteen bytes from the low end |
| VectorLayout.EntryAt | src/vector.rs:828-846 | the list in a row begins after all elements of the rows before; the entry of a null is zeros |
| VectorLayout.FlatDataLayout | src/vector.rs:592-606 | slots stand behind their length, texts behind their number, in field 102 |
| VectorLayout.NestedDataLayout | src/vector.rs:801-880 | fields 103 to 106 of structs, lists and arrays |
| VectorLayout.PackedLayout | src/vector.rs:352-407 | the fields of constant, dictionary and sequence vectors |
| LogicalTypes.NestedTypeCodes | src/logical_types.rs:86-152 | which codes from 100 on are those of which types |
| LogicalTypes.NoOtherCodes | src/logical_types.rs:86-152 | which numbers are codes of types at all |
| LogicalTypes.InfoCodes | src/logical_types.rs:171-197 | the code of each kind of metadata |
| DecimalDenotes.IntegerDenotes | src/vector.rs:1119-1150 | sign and digits parse as the number they denote, with leading zeros or not, exactly when it is in range |
| DecimalDenotes.DecimalDenotes | src/values.rs:52-77 | white space, a sign, digits, a point and digits, each of which may be missing, parse as the number they denote at the scale: missing digits are zeros, digits behind the scale are cut off, and only a number of 2^127 or more fails; both parsers agree |
| Characters.Utf8Exactly | src/binary.rs:364-381 | the bytes accepted as text are exactly the encodings of sequences of code points |
| Characters.SpacesAreWhite | src/values.rs:52-77 | trimming takes off exactly the white-space characters of Unicode at either end |
| Characters.NamesAre | src/sql.rs:303-309 | a parameter name starts behind a single colon with a letter or underscore and ends before the first byte that is no letter, digit or underscore |
| Characters.PushedIsChar | src/sql.rs:265-266 | a byte outside quotes is pushed as the character with its number |
| Uuid.AnyCase | src/binary.rs:11-26 | the letters of a UUID may be of either case |
| Uuid.AnyDashes | src/vector.rs:1176-1187 | a dash anywhere in a UUID makes no difference |
| FetchProtocol.Deliver | src/client.rs:262-303 | the chunks that come with the PREPARE carry its names as sent, every fetched chunk one name for each column that has a name and a type, from the first on; if there are as many names as types all carry the same |
| FetchProtocol.ChunkDelivered | src/client.rs:362-377 | each chunk of each batch is delivered in its place with its rows, types and columns as sent |
| FetchProtocol.BatchesAreNumbered | src/client.rs:325-360 | in version 3 the batches that are taken are numbered from one on, and an end announces no other total than theirs |
| FetchProtocol.DrainsServerV1 | src/client.rs:306-377 | from a version 1 server, which does not number its batches, a stream gets every batch once and in order and ends after the last |
| FetchProtocol.PrepareRequestSurvives | src/client.rs:633-646 | a PREPARE reaches the server unchanged in either version if and only if its connection has a name and its number is not the index that means none |
| FetchProtocol.RequestNumbersDistinct | src/client.rs:664-668 | no two requests of a stream have the same number |
| CursorProgress.AppendCompletes | src/client.rs:428-470 | from any reachable open and free state an append in version 1 is sent, resets the cursor and frees the lock; in version 3 it is refused unsent |
| CursorProgress.DisconnectCompletes | src/client.rs:685-703 | a disconnect is sent, frees the lock and closes the connection if and only if it is acknowledged |
| CursorProgress.RefusedQueryLetsGo | src/client.rs:222-260 | a query whose PREPARE is refused has sent it and frees the lock |
| CursorProgress.FailedFetchLetsGo | src/client.rs:306-324 | a FETCH that fails ends its stream, which frees the lock |
| CursorProgress.HeartbeatAnyTime | src/client.rs:757-798 | a heartbeat can be sent exactly while the connection is open, whoever holds the lock |
| CursorProgress.LockIsExclusive | src/client.rs:227-231 | a waiting operation can take the lock if and only if no operation has it |
| CursorProgress.DropFrees | src/client.rs:386-392 | any operation can be dropped: the one with the lock frees it, and nothing is sent |
| CursorProgress.ClosedLetsGo | src/client.rs:705-711 | an operation that finds the connection closed sends nothing and frees the lock |
| Lease.IntervalIsAThird | src/client.rs:757-762 | for every accepted timeout, one to 300 seconds, heartbeats are a third of it apart; never less than a tenth of a second |
| Lease.EventsMean | src/client.rs:833-855 | a failed heartbeat closes an open lease exactly when a timeout has passed since the last success; a success renews it, anything else closes it |
| Negotiation.AcceptedExactly | src/client.rs:568-612 | an answer makes a session if and only if it is a CONNECTION_RESPONSE with a connection id that confirms the version and, in version 3, a timeout of one to 300 seconds; the session consists of its fields |
| Negotiation.VersionsInRange | src/client.rs:504-512 | the versions asked for are 3 and 1, in this order, as far as the range of the caller has them |
| Negotiation.SixPhrases | src/client.rs:883-895 | the six phrases, one by one |
| Negotiation.OpeningArrives | src/client.rs:530-548 | what a server reads from an opening request: one version on offer, what the caller set, and the client and the timeout in version 3 only, by default one minute |
| SqlDenotations.WordLiterals | src/sql.rs:121-122 | the literals of null and the truth values, letter by letter |
| SqlDenotations.NumberLiterals | src/sql.rs:123-141 | the literals of numbers and decimals parse as the numbers |
| SqlDenotations.StringLiteral | src/sql.rs:139 | a string literal stands between apostrophes, and undoubling what lies between gives the string |
| SqlDenotations.BlobLiteral | src/sql.rs:140 | a blob literal is a call that decodes the hexadecimal digits of its bytes |
| SqlDenotations.IntervalLiteral | src/sql.rs:160-163 | an interval literal is a word and a string of six words, three of which are the months, days and microseconds |
| SqlDenotations.ListLiteral | src/sql.rs:105-117 | a list literal is the literals of its items in order, between brackets and with commas between them; it exists if and only if they all do |
| WorkedExamples.OpeningHeaderBytes | src/messages.rs:218-233 | the bytes of the header of an opening request, with the ten bytes of the query number that means none |
| WorkedExamples.EmptyFetchResponseBytes | src/messages.rs:321-333 | the bytes of a version 1 FETCH_RESPONSE without chunks and batch number |
| WorkedExamples.QueryNumberSurvives | src/messages.rs:235-252 | of all 64-bit query numbers exactly 2^64 - 1 comes back as none |
| WorkedExamples.BatchNumberSurvives | src/messages.rs:321-333 | of all batch numbers of a version 1 answer exactly 2^64 - 1 comes back as none |
| WorkedExamples.AllOnesBytes | src/constants.rs:9 | the index that means none takes nine bytes of ones and a one |
| WorkedExamples.UlebExamples | src/binary.rs:90-97 | encodings of one and two bytes, written out |
| WorkedExamples.SlebExamples | src/binary.rs:99-114 | signed encodings of one and two bytes, written out |
| WorkedExamples.MessageCodes | src/messages.rs:10-57 | which numbers are codes, and of which messages |
| WorkedExamples.TextOfValues | src/vector.rs:1189-1209 | the text that numbers, times and truth values turn into in a text column parses back as them |
| WorkedExamples.DefaultNames | src/vector.rs:313-328 | a column without a name is called "column" and its number, and a row it is too short for is null |
| WorkedExamples.IndexOfIsFirst | src/vector.rs:977-981 | an enum value is the number of its first occurrence |
| ArrowSchema.DecimalTypeExactly | src/arrow/schema.rs:95-98 | the Arrow type is a 128-bit decimal of some precision and scale if and only if the logical type is the decimal of that width and scale; there is one exactly for widths up to 255 and scales up to 127 |
| ArrowReadBack.NativeWidths | src/arrow/schema.rs:22-68 | the cells of a native column are as wide as its slots on the wire and signed if they are |
| ArrowReadBack.HugeDigits | src/arrow/schema.rs:22-68 | 128-bit integers become decimals with the fewest digits that hold them all |
| ArrowReadBack.NativeLimits | src/arrow/values.rs:14-150 | times within a day of 24 hours, 31-bit offsets, and the name of list elements |
| Malformed.BadFlag | src/binary.rs:312-321 | a flag is 0 or 1; any other byte is refused |
| Malformed.TooWide | src/binary.rs:337-345 | numbers that do not fit 64 bits, signed or unsigned, are refused where 64 bits are wanted |
| Malformed.NotText | src/binary.rs:369-371 | bytes that are not UTF-8 are refused as text |
| Malformed.UnknownCodes | src/logical_types.rs:521-533 | a number that is the code of no type, metadata or message is refused |
| Malformed.Unsupporteds | src/logical_types.rs:627-738 | extensions of metadata, values of integer literals and expressions are refused as unsupported |
| Malformed.WrongEnumCount | src/logical_types.rs:640-738 | an enum that announces another number of values than it has is refused |
| Malformed.WrongKind | src/vector.rs:352-407 | FSST vectors are unsupported and unknown kinds are refused |
| Malformed.WrongMask | src/vector.rs:897-912 | a validity mask is accepted if and only if it has one bit per row in whole words |
| Malformed.WrongSlots | src/vector.rs:616-635 | a column with another number of slots than rows is refused |
| Malformed.WrongEntries | src/vector.rs:932-948 | a list column is accepted if and only if it has an entry per row |
| Malformed.WrongArraySize | src/vector.rs:536-562 | arrays of another size than their type says are refused |
| Malformed.WrongSelection | src/vector.rs:352-407 | a dictionary vector is accepted if and only if every selected entry exists |
| Malformed.WrongColumns | src/vector.rs:471-510 | a struct row is made if and only if there is a column for every field |
| Malformed.WrongMessage | src/messages.rs:491-749 | a message that a version does not have is refused whatever follows its header |
| Malformed.TrailingBytes | src/messages.rs:202-216 | a message that anything follows is refused |

## Left out

- VectorsIO.EncodeVector: says exactly when encoding fails, not which error is reported; the same goes for the other writer methods.
- VectorsIO.EncodeStringLikes: the texts that floating-point values would get in a text column are not modelled, and such columns count as refused; VectorsIO.EncodeVector inherits this.
- VectorsIO.EncodeFixedValue: float slots take float values of their own width only and refuse the rest; conversion from integers, strings and the other width needs floating-point arithmetic.
- BinaryIO.BinaryReader.ReadBytes: the sum of offset and length is unbounded here; a length within the offset of 2^64 overflows in the original.
- VectorRoundTrips.WellTypedEncodes: takes a bound on rows from the fact that columns fit in memory; allocation failures and capacities are not modelled.
- VectorRoundTrips.VectorRoundTrip: well-typed values of an enum need a dictionary of at most 2^32 values, the number its slots can tell apart.
- Builders.NormalizeIdempotent: asks for distinct field names in struct types, since rows are maps.
- CursorProtocol.CursorSafety: a request and its answer are one step, so a request cancelled in flight is not covered.
- Lease.ThreeFailuresBeforeExpiry: assumes heartbeats at exact intervals and answered at once.
- FetchProtocol.RunQuery: tracing, previews of the SQL and the tokio stream machinery are not modelled; a stream dropped early is one that stays suspended.
- SqlRoles.FormattingKeepsLexing: floats, dates, times and timestamps get their text from libraries and enter as `Foreign`; their literals are assumed to be lexed from plain SQL back to plain SQL, which for the others is proved.
- SqlScanner.FormatSql: named parameters have the byte-wise specification with its rule for names, and no second one.
- ArrowReadBack.BuildFaithful: Arrow's own arrays are an algebraic datatype; byte offsets of text arrays appear only as a total, and record batches are not assembled. Arrow has one type for signed and unsigned 128-bit integers, so which of them a cell stands for is taken from the logical type.
- FSST vectors, expressions of UNBOUND types, INTEGER_LITERAL values and extension metadata: one error branch each, as in the original.
- Iterator chains that collect into a vector (strings, list rows, array rows, sequences, normalised lists) are functions here; loops are loops.
- HTTP, headers, TLS, timeouts of requests, URI parsing and JSON output.
- Calendar formatting, and the constructors of values and types.
- Type inference for rows without column definitions, which looks at the first value only.
- Splitting appended rows into batches, and the conveniences that return the first row or the first column.
