/** Streaming the result of a query: one PREPARE, then one FETCH per batch, each
    acknowledging the batch before it, until the server says there is no more.
    The server is any list of answers. */
module FetchProtocol {
  import opened Prelude
  import opened Wire
  import opened LogicalTypes
  import opened Chunks
  import opened Messages
  import opened MessageBodies

  /** What becomes of a request: the connection was closed before it was sent, or it
      was sent and answered with a message or an error. */
  datatype Answer = Closed | Answered(reply: Result<QuackMessage>)

  /** How a stream stands: at its end, waiting for an answer that has not come, or failed. */
  datatype StreamState = Completed | Suspended | Failed(error: Error)

  class Connection {
    const connectionId: text
    const version: u64
    var queryCounter: u64
    var queryUuidCounter: u64

    constructor (connectionId: text, version: u64)
      ensures this.connectionId == connectionId && this.version == version
      ensures queryCounter == 1 && queryUuidCounter == 1
    {
      this.connectionId := connectionId;
      this.version := version;
      queryCounter := 1;
      queryUuidCounter := 1;
    }

    method ScopedHeader(t: MessageType) returns (h: MessageHeader)
      modifies this`queryCounter
      ensures h == MessageHeader(t, Some(connectionId), Some(old(queryCounter)))
      ensures queryCounter == Next(old(queryCounter))
    {
      h := MessageHeader(t, Some(connectionId), Some(queryCounter));
      queryCounter := (queryCounter + 1) % TWO_64;
    }

    method PrepareMessage(sql: text) returns (m: QuackMessage)
      modifies this`queryCounter, this`queryUuidCounter
      ensures m == PrepareRequest(MessageHeader(PrepareRequestType, Some(connectionId), Some(old(queryCounter))), sql,
        if version == V3 then Some(HugeIntParts(0, old(queryUuidCounter))) else None, None)
      ensures queryCounter == Next(old(queryCounter)) && queryUuidCounter == Next(old(queryUuidCounter))
    {
      var uuid := HugeIntParts(0, queryUuidCounter);
      queryUuidCounter := (queryUuidCounter + 1) % TWO_64;
      var h := ScopedHeader(PrepareRequestType);
      m := PrepareRequest(h, sql, if version == V3 then Some(uuid) else None, None);
    }

    method FetchMessage(uuid: HugeIntParts, batchIndex: u64, ackIndex: u64) returns (m: QuackMessage)
      modifies this`queryCounter
      ensures m == FetchRequest(MessageHeader(FetchRequestType, Some(connectionId), Some(old(queryCounter))), uuid,
        if version == V3 then Some(batchIndex) else None, if version == V3 then Some(ackIndex) else None)
      ensures queryCounter == Next(old(queryCounter))
    {
      var h := ScopedHeader(FetchRequestType);
      m := FetchRequest(h, uuid, if version == V3 then Some(batchIndex) else None,
                        if version == V3 then Some(ackIndex) else None);
    }
  }

  /** An atomic counter wraps around. */
  function Next(n: u64): u64 {
    (n + 1) % TWO_64
  }

  function After(n: u64, k: nat): u64 {
    (n + k) % TWO_64
  }

  // ---- what the stream is supposed to do ----

  /** Request number `i`: batch `i + 1`, acknowledging the `i` batches before it. */
  function RequestAt(c: Connection, query: u64, uuid: HugeIntParts, i: nat): QuackMessage
    requires i + 1 < TWO_64
  {
    FetchRequest(MessageHeader(FetchRequestType, Some(c.connectionId), Some(After(query, i))), uuid,
      if c.version == V3 then Some(i + 1) else None, if c.version == V3 then Some(i) else None)
  }

  /** The answer to request `i` brings its batch. */
  predicate Brings(version: u64, i: nat, a: Answer) {
    && a.Answered? && a.reply.Success? && a.reply.value.FetchResponse? && a.reply.value.results != []
    && (version == V3 ==> a.reply.value.batchIndex == Some(i + 1) && i + 1 < NO_INDEX)
  }

  /** The answer to request `i` ends the stream; an announced total has to be `i`. */
  predicate Ends(version: u64, i: nat, a: Answer) {
    && a.Answered? && a.reply.Success? && a.reply.value.FetchResponse? && a.reply.value.results == []
    && (version == V3 ==>
          a.reply.value.batchIndex == None && (a.reply.value.totalBatches in {None, Some(i)}))
  }

  /** The number of batches an answer announces; only version 3 answers announce one. */
  function Announced(version: u64, a: Answer): Option<u64> {
    if version == V3 && a.Answered? && a.reply.Success? && a.reply.value.FetchResponse? then a.reply.value.totalBatches
    else None
  }

  function Named(chunks: seq<DataChunk>, names: vec<text>): (r: seq<DataChunk>)
    ensures |r| == |chunks|
  {
    seq(|chunks|, i requires 0 <= i < |chunks| => chunks[i].(columnNames := Some(names)))
  }

  /** A request per batch, and one more if it was sent before the stream stopped. */
  function Requests(answers: seq<Answer>, k: nat): nat {
    if k < |answers| && answers[k].Answered? then k + 1 else k
  }

  predicate AllBring(version: u64, answers: seq<Answer>, k: nat)
    requires k <= |answers|
  {
    forall i | 0 <= i < k :: Brings(version, i, answers[i])
  }

  /** The chunks of the first `k` batches, in order. */
  function Batches(version: u64, answers: seq<Answer>, k: nat, names: vec<text>): seq<DataChunk>
    requires k <= |answers| && AllBring(version, answers, k)
  {
    if k == 0 then []
    else
      assert Brings(version, k - 1, answers[k - 1]);
      Batches(version, answers, k - 1, names) + Named(answers[k - 1].reply.value.results, names)
  }

  function Rows(chunks: seq<DataChunk>): nat {
    if chunks == [] then 0 else Rows(chunks[..|chunks| - 1]) + chunks[|chunks| - 1].rowCount
  }

  /** Why the stream stopped at answer `k` with `rows` rows delivered before it. */
  function Verdict(version: u64, k: nat, a: Answer, rows: nat): StreamState {
    if a.Answered? && a.reply.Failure? then Failed(a.reply.error)
    else if Ends(version, k, a) then Completed
    else if Brings(version, k, a) && rows + Rows(a.reply.value.results) >= TWO_64 then Failed(Panic)
    else Failed(Protocol)
  }

  lemma {:induction false} RowsAppend(a: seq<DataChunk>, b: seq<DataChunk>)
    ensures Rows(a + b) == Rows(a) + Rows(b)
  {
    if b == [] {
      assert a + b == a;
    } else {
      RowsAppend(a, b[..|b| - 1]);
      assert (a + b)[..|a + b| - 1] == a + b[..|b| - 1];
    }
  }

  lemma {:induction false} RowsNamed(chunks: seq<DataChunk>, names: vec<text>)
    ensures Rows(Named(chunks, names)) == Rows(chunks)
  {
    if chunks != [] {
      RowsNamed(chunks[..|chunks| - 1], names);
      assert Named(chunks, names)[..|chunks| - 1] == Named(chunks[..|chunks| - 1], names);
    }
  }

  method SumRows(chunks: seq<DataChunk>) returns (rows: nat)
    ensures rows == Rows(chunks)
  {
    rows := 0;
    for i := 0 to |chunks|
      invariant rows == Rows(chunks[..i])
    {
      assert chunks[..i + 1][..i] == chunks[..i];
      rows := rows + chunks[i].rowCount;
    }
    assert chunks[..|chunks|] == chunks;
  }

  /** Whether an answer brings its batch, and the indexes to go on with. */
  method CheckBatch(version: u64, ghost k: nat, a: Answer, nextBatchIndex: u64, ackIndex: u64)
    returns (more: Result<bool>, next: u64, ack: u64)
    requires a.Answered? && a.reply.Success? && a.reply.value.FetchResponse?
    requires version == V3 ==> nextBatchIndex == ackIndex + 1 && ackIndex == k
    ensures more == if Brings(version, k, a) then Success(true)
      else if Ends(version, k, a) then Success(false) else Failure(Protocol)
    ensures version == V3 && more.Success? ==> next == ack + 1 && ack == if more.value then k + 1 else k
  {
    next, ack := nextBatchIndex, ackIndex;
    var results := a.reply.value.results;
    if version != V3 {
      return Success(results != []), next, ack;
    }
    match a.reply.value.batchIndex
    case Some(index) =>
      if index != nextBatchIndex || results == [] {
        return Failure(Protocol), next, ack;
      }
      ack := index;
      if nextBatchIndex == NO_INDEX {
        return Failure(Protocol), next, ack;
      }
      next := nextBatchIndex + 1;
      more := Success(true);
    case None =>
      if results != [] || a.reply.value.totalBatches !in {None, Some(ackIndex)} {
        return Failure(Protocol), next, ack;
      }
      more := Success(false);
  }

  lemma Start(c: Connection, answers: seq<Answer>, names: vec<text>)
    ensures AllBring(c.version, answers, 0) && Batches(c.version, answers, 0, names) == [] && Rows([]) == 0
    ensures After(c.queryCounter, 0) == c.queryCounter
  {
  }

  lemma RequestIs(c: Connection, query: u64, uuid: HugeIntParts, k: nat)
    requires k + 1 < TWO_64
    ensures RequestAt(c, query, uuid, k) ==
      FetchRequest(MessageHeader(FetchRequestType, Some(c.connectionId), Some(After(query, k))), uuid,
        if c.version == V3 then Some(k + 1) else None, if c.version == V3 then Some(k) else None)
    ensures Next(After(query, k)) == After(query, k + 1)
  {
  }

  lemma Verdicts(version: u64, k: nat, a: Answer, rows: nat)
    ensures a.Closed? ==> Verdict(version, k, a, rows) == Failed(Protocol)
    ensures a.Answered? && a.reply.Failure? ==> Verdict(version, k, a, rows) == Failed(a.reply.error)
    ensures a.Answered? && a.reply.Success? && !Brings(version, k, a) && !Ends(version, k, a) ==>
      Verdict(version, k, a, rows) == Failed(Protocol)
    ensures a.Answered? && a.reply.Success? && !a.reply.value.FetchResponse? ==>
      Verdict(version, k, a, rows) == Failed(Protocol)
    ensures Ends(version, k, a) ==> Verdict(version, k, a, rows) == Completed && Rows(a.reply.value.results) == 0
    ensures Brings(version, k, a) ==>
      a.reply.Success? && !Ends(version, k, a)
      && (rows + Rows(a.reply.value.results) >= TWO_64 ==> Verdict(version, k, a, rows) == Failed(Panic))
    ensures Brings(version, k, a) ==> a.Answered? && a.reply.Success? && a.reply.value.FetchResponse?
  {
  }

  /** An end that announces a total has had that many batches before it. */
  lemma CleanEnd(version: u64, k: nat, a: Answer)
    requires Ends(version, k, a)
    ensures Announced(version, a) in {None, Some(k)}
  {
  }

  /** The next batch, or an end, is added to what was yielded. */
  lemma BatchArrives(version: u64, answers: seq<Answer>, k: nat, names: vec<text>)
    requires k < |answers| && AllBring(version, answers, k)
    requires Brings(version, k, answers[k]) || Ends(version, k, answers[k])
    ensures var chunks := Named(answers[k].reply.value.results, names);
      var before := Batches(version, answers, k, names);
      && Rows(before + chunks) == Rows(before) + Rows(answers[k].reply.value.results)
      && (Brings(version, k, answers[k]) ==>
            AllBring(version, answers, k + 1) && Batches(version, answers, k + 1, names) == before + chunks)
      && (Ends(version, k, answers[k]) ==> before + chunks == before)
  {
    RowsAppend(Batches(version, answers, k, names), Named(answers[k].reply.value.results, names));
    RowsNamed(answers[k].reply.value.results, names);
  }

  /** The loop of the stream. `k` batches arrive; the answer after them, if there is
      one, decides how the stream ends. */
  method FetchAll(c: Connection, uuid: HugeIntParts, needsMore: bool, rowsBefore: u64, names: vec<text>,
                  answers: vec<Answer>)
    returns (yielded: seq<DataChunk>, sent: seq<QuackMessage>, state: StreamState, k: nat)
    modifies c`queryCounter
    ensures k <= |answers| && AllBring(c.version, answers, k)
    ensures yielded == Batches(c.version, answers, k, names)
    ensures !needsMore ==> k == 0 && sent == [] && state == Completed
    ensures needsMore ==>
      (state == if k == |answers| then Suspended else Verdict(c.version, k, answers[k], rowsBefore + Rows(yielded)))
    ensures needsMore && k < |answers| && Brings(c.version, k, answers[k]) ==> state == Failed(Panic)
    ensures needsMore && state == Completed ==> k < |answers| && Announced(c.version, answers[k]) in {None, Some(k)}
    ensures |sent| == if needsMore then Requests(answers, k) else 0
    ensures forall i | 0 <= i < |sent| :: i + 1 < TWO_64 && sent[i] == RequestAt(c, old(c.queryCounter), uuid, i)
    ensures c.queryCounter == After(old(c.queryCounter), |sent|)
  {
    hide Verdict, Brings, Ends, Batches, Rows, Named, After, RequestAt;
    yielded, sent, k := [], [], 0;
    Start(c, answers, names);
    var needsMoreFetch := needsMore;
    var rowsDelivered: u64 := rowsBefore;
    var nextBatchIndex: u64, ackIndex: u64 := 1, 0;
    while needsMoreFetch
      invariant k <= |answers| && AllBring(c.version, answers, k) && |sent| >= k
      invariant c.version == V3 ==> nextBatchIndex == ackIndex + 1 && ackIndex == k
      invariant yielded == Batches(c.version, answers, k, names)
      invariant rowsDelivered == rowsBefore + Rows(yielded)
      invariant needsMoreFetch ==> |sent| == k
      invariant !needsMoreFetch && needsMore ==> |sent| == k + 1 <= |answers| && Ends(c.version, k, answers[k])
      invariant !needsMore ==> !needsMoreFetch && k == 0 && sent == []
      invariant forall i | 0 <= i < |sent| :: i + 1 < TWO_64 && sent[i] == RequestAt(c, old(c.queryCounter), uuid, i)
      invariant c.queryCounter == After(old(c.queryCounter), |sent|)
      decreases if needsMoreFetch then 1 else 0, |answers| - k
    {
      if k == |answers| {
        return yielded, sent, Suspended, k;
      }
      Verdicts(c.version, k, answers[k], rowsDelivered);
      if answers[k].Closed? {
        return yielded, sent, Failed(Protocol), k;
      }
      RequestIs(c, old(c.queryCounter), uuid, k);
      var request := c.FetchMessage(uuid, nextBatchIndex, ackIndex);
      sent := sent + [request];
      if answers[k].reply.Failure? {
        return yielded, sent, Failed(answers[k].reply.error), k;
      }
      var response := answers[k].reply.value;
      if !response.FetchResponse? {
        return yielded, sent, Failed(Protocol), k;
      }
      var more, next, ack := CheckBatch(c.version, k, answers[k], nextBatchIndex, ackIndex);
      if more.Failure? {
        return yielded, sent, Failed(more.error), k;
      }
      needsMoreFetch, nextBatchIndex, ackIndex := more.value, next, ack;
      var rows := SumRows(response.results);
      if rowsDelivered + rows >= TWO_64 {
        return yielded, sent, Failed(Panic), k;
      }
      rowsDelivered := rowsDelivered + rows;
      BatchArrives(c.version, answers, k, names);
      yielded := yielded + Named(response.results, names);
      if needsMoreFetch {
        k := k + 1;
      }
    }
    if needsMore {
      Verdicts(c.version, k, answers[k], rowsDelivered);
      CleanEnd(c.version, k, answers[k]);
    }
    state := Completed;
  }

  // ---- a whole query ----

  /** The columns of a result pair names with types; what one list has too many is dropped. */
  function ColumnNames(m: QuackMessage): vec<text>
    requires m.PrepareResponse?
  {
    if |m.resultTypes| < |m.resultNames| then m.resultNames[..|m.resultTypes|] else m.resultNames
  }

  /** One name per column that has both a name and a type: the names of the PREPARE answer,
      from the first on. */
  predicate NamesColumns(m: QuackMessage, names: Option<vec<text>>)
    requires m.PrepareResponse?
  {
    && names.Some?
    && |names.value| <= |m.resultTypes| && |names.value| <= |m.resultNames|
    && |names.value| in {|m.resultTypes|, |m.resultNames|}
    && forall i | 0 <= i < |names.value| :: names.value[i] == m.resultNames[i]
  }

  lemma ColumnNamesPair(m: QuackMessage)
    requires m.PrepareResponse?
    ensures NamesColumns(m, Some(ColumnNames(m)))
    ensures |m.resultTypes| == |m.resultNames| ==> ColumnNames(m) == m.resultNames
  {
  }

  lemma NamedAre(chunks: seq<DataChunk>, names: vec<text>)
    ensures forall i | 0 <= i < |chunks| :: Named(chunks, names)[i].columnNames == Some(names)
    ensures forall i | 0 <= i < |chunks| ::
      SameRows(Named(chunks, names)[i], chunks[i])
  {
  }

  /** Two chunks that differ in their column names at most. */
  predicate SameRows(c: DataChunk, d: DataChunk) {
    c.rowCount == d.rowCount && c.types == d.types && c.columns == d.columns
  }

  lemma {:induction false} BatchesNamed(version: u64, answers: seq<Answer>, k: nat, names: vec<text>)
    requires k <= |answers| && AllBring(version, answers, k)
    ensures forall c | c in Batches(version, answers, k, names) :: c.columnNames == Some(names)
  {
    if k > 0 {
      BatchesNamed(version, answers, k - 1, names);
      assert Brings(version, k - 1, answers[k - 1]);
      NamedAre(answers[k - 1].reply.value.results, names);
    }
  }

  /** Chunk `i` of answer `j` is delivered right after the chunks of the answers before,
      with its rows, types and columns as they were sent. */
  lemma {:induction false} ChunkDelivered(version: u64, answers: seq<Answer>, k: nat, names: vec<text>, j: nat, i: nat)
    requires j < k <= |answers| && AllBring(version, answers, k)
    requires Brings(version, j, answers[j]) && i < |answers[j].reply.value.results|
    ensures var place := |Batches(version, answers, j, names)| + i;
      && place < |Batches(version, answers, k, names)|
      && SameRows(Batches(version, answers, k, names)[place], answers[j].reply.value.results[i])
    decreases k
  {
    hide Named;
    NamedAre(answers[k - 1].reply.value.results, names);
    if j < k - 1 {
      ChunkDelivered(version, answers, k - 1, names, j, i);
    }
  }

  function PrepareAt(c: Connection, query: u64, uuid: u64, sql: text): QuackMessage {
    PrepareRequest(MessageHeader(PrepareRequestType, Some(c.connectionId), Some(query)), sql,
      if c.version == V3 then Some(HugeIntParts(0, uuid)) else None, None)
  }

  predicate Opens(a: Answer) {
    a.Answered? && a.reply.Success? && a.reply.value.PrepareResponse? && Rows(a.reply.value.results) < TWO_64
  }

  /** The chunks that come with the answer to a PREPARE, then the batches. The chunks that
      come at once carry the names as sent, the others one name per column. */
  method Deliver(c: Connection, m: QuackMessage, rows: u64, answers: vec<Answer>)
    returns (yielded: seq<DataChunk>, fetches: seq<QuackMessage>, state: StreamState, k: nat)
    requires m.PrepareResponse? && rows == Rows(m.results)
    modifies c`queryCounter
    ensures k <= |answers| && AllBring(c.version, answers, k)
    ensures yielded == Named(m.results, m.resultNames) + Batches(c.version, answers, k, ColumnNames(m))
    ensures forall j | 0 <= j < |m.results| :: yielded[j].columnNames == Some(m.resultNames)
    ensures forall j | |m.results| <= j < |yielded| :: NamesColumns(m, yielded[j].columnNames)
    ensures |m.resultTypes| == |m.resultNames| ==>
      forall j | 0 <= j < |yielded| :: yielded[j].columnNames == Some(m.resultNames)
    ensures |fetches| == if m.needsMoreFetch then Requests(answers, k) else 0
    ensures forall i | 0 <= i < |fetches| ::
      i + 1 < TWO_64 && fetches[i] == RequestAt(c, old(c.queryCounter), m.resultUuid, i)
    ensures m.needsMoreFetch && state == Completed ==>
      k < |answers| && Announced(c.version, answers[k]) in {None, Some(k)}
    ensures state == if !m.needsMoreFetch then Completed else if k == |answers| then Suspended
      else Verdict(c.version, k, answers[k], Rows(yielded))
  {
    hide Batches, Rows, Verdict, RequestAt, Brings, Named, AllBring, After, ColumnNames, Announced, NamesColumns;
    var batches;
    batches, fetches, state, k := FetchAll(c, m.resultUuid, m.needsMoreFetch, rows, ColumnNames(m), answers);
    yielded := Named(m.results, m.resultNames) + batches;
    RowsNamed(m.results, m.resultNames);
    RowsAppend(Named(m.results, m.resultNames), batches);
    NamedAre(m.results, m.resultNames);
    BatchesNamed(c.version, answers, k, ColumnNames(m));
    ColumnNamesPair(m);
    assert forall j | |m.results| <= j < |yielded| :: yielded[j] in batches;
  }

  /** A query: PREPARE, and what it delivers. */
  method RunQuery(c: Connection, sql: text, opening: Answer, answers: vec<Answer>)
    returns (yielded: seq<DataChunk>, sent: seq<QuackMessage>, state: StreamState, k: nat)
    modifies c
    ensures opening.Closed? ==> sent == []
    ensures opening.Answered? ==>
      sent != [] && sent[0] == PrepareAt(c, old(c.queryCounter), old(c.queryUuidCounter), sql)
    ensures !Opens(opening) ==> |sent| <= 1 && yielded == [] && state.Failed?
    ensures Opens(opening) ==>
      var m := opening.reply.value;
      && k <= |answers| && AllBring(c.version, answers, k)
      && yielded == Named(m.results, m.resultNames) + Batches(c.version, answers, k, ColumnNames(m))
      && (forall j | 0 <= j < |m.results| :: yielded[j].columnNames == Some(m.resultNames))
      && (forall j | |m.results| <= j < |yielded| :: NamesColumns(m, yielded[j].columnNames))
      && (|m.resultTypes| == |m.resultNames| ==>
            forall j | 0 <= j < |yielded| :: yielded[j].columnNames == Some(m.resultNames))
      && (forall i | 1 <= i < |sent| ::
            i < TWO_64 && sent[i] == RequestAt(c, Next(old(c.queryCounter)), m.resultUuid, i - 1))
      && |sent| == (if m.needsMoreFetch then 1 + Requests(answers, k) else 1)
      && (m.needsMoreFetch && state == Completed ==>
            k < |answers| && Announced(c.version, answers[k]) in {None, Some(k)})
      && state == if !m.needsMoreFetch then Completed else if k == |answers| then Suspended
         else Verdict(c.version, k, answers[k], Rows(yielded))
  {
    hide Batches, Rows, Verdict, RequestAt, Brings, Named, AllBring, After, ColumnNames, Announced, NamesColumns;
    yielded, sent, k := [], [], 0;
    if opening.Closed? {
      return yielded, sent, Failed(Protocol), k;
    }
    var request := c.PrepareMessage(sql);
    sent := [request];
    if opening.reply.Failure? {
      return yielded, sent, Failed(opening.reply.error), k;
    }
    var m := opening.reply.value;
    if !m.PrepareResponse? {
      return yielded, sent, Failed(Protocol), k;
    }
    var rows := SumRows(m.results);
    if rows >= TWO_64 {
      return yielded, sent, Failed(Panic), k;
    }
    var fetches;
    yielded, fetches, state, k := Deliver(c, m, rows, answers);
    sent := [request] + fetches;
    assert forall i | 1 <= i < |sent| :: sent[i] == fetches[i - 1];
  }

  // ---- consequences ----

  function Concat(batches: seq<seq<DataChunk>>): seq<DataChunk> {
    if batches == [] then [] else Concat(batches[..|batches| - 1]) + batches[|batches| - 1]
  }

  /** A server that holds some batches and answers each request with the one it asks for. */
  predicate Serves(answers: seq<Answer>, batches: seq<seq<DataChunk>>) {
    && |answers| == |batches| + 1 < NO_INDEX
    && (forall i | 0 <= i < |batches| :: ServesBatch(answers[i], i, batches[i]))
    && Ends(V3, |batches|, answers[|batches|])
  }

  predicate ServesBatch(a: Answer, i: nat, batch: seq<DataChunk>) {
    && batch != [] && a.Answered? && a.reply.Success? && a.reply.value.FetchResponse?
    && a.reply.value.results == batch && a.reply.value.batchIndex == Some(i + 1)
  }

  /** From such a server a stream gets every batch once and in order, wherever it stands. */
  lemma {:induction false} DrainsServer(answers: seq<Answer>, batches: seq<seq<DataChunk>>, k: nat, names: vec<text>)
    requires Serves(answers, batches) && k <= |answers| && AllBring(V3, answers, k)
    ensures k <= |batches| && Batches(V3, answers, k, names) == Named(Concat(batches[..k]), names)
    ensures k < |batches| ==> Brings(V3, k, answers[k])
    decreases k
  {
    if k < |batches| {
      assert ServesBatch(answers[k], k, batches[k]);
    }
    if 0 < k <= |batches| {
      DrainsServer(answers, batches, k - 1, names);
      assert ServesBatch(answers[k - 1], k - 1, batches[k - 1]);
      assert batches[..k][..k - 1] == batches[..k - 1];
      assert Named(Concat(batches[..k - 1]) + batches[k - 1], names) ==
        Named(Concat(batches[..k - 1]), names) + Named(batches[k - 1], names);
    }
  }

  /** A version 3 FETCH request reaches the server as it was made exactly when its
      connection has a name and neither its number nor its batch is the index that means none. */
  lemma FetchRequestSurvives(c: Connection, query: u64, uuid: HugeIntParts, i: nat)
    requires c.version == V3 && i + 1 < TWO_64
    ensures var m := RequestAt(c, query, uuid, i);
      Arrives(m, V3, m) <==> c.connectionId != [] && After(query, i) != TWO_64 - 1 && i + 1 != TWO_64 - 1
  {
    hide Encode, Decode;
    MessageRoundTrip(RequestAt(c, query, uuid, i), V3);
  }

  /** So does a PREPARE, in either version. */
  lemma PrepareRequestSurvives(c: Connection, query: u64, uuid: u64, sql: text)
    requires c.version in {V1, V3}
    ensures var m := PrepareAt(c, query, uuid, sql);
      Arrives(m, c.version, m) <==> c.connectionId != [] && query != TWO_64 - 1
  {
    hide Encode, Decode;
    MessageRoundTrip(PrepareAt(c, query, uuid, sql), c.version);
  }

  /** No two requests of a stream have the same number. */
  lemma RequestNumbersDistinct(query: u64, i: nat, j: nat)
    requires i < j < TWO_64
    ensures After(query, i) != After(query, j)
  {
    Incongruent(query + i, query + j);
  }

  lemma Incongruent(a: nat, b: nat)
    requires a < b < a + TWO_64
    ensures a % TWO_64 != b % TWO_64
  {
  }

  /** A version 1 server sends its batches without numbers and an empty one at the end. */
  predicate ServesV1(answers: seq<Answer>, batches: seq<seq<DataChunk>>) {
    && |answers| == |batches| + 1
    && forall i | 0 <= i < |answers| ::
      && answers[i].Answered? && answers[i].reply.Success? && answers[i].reply.value.FetchResponse?
      && answers[i].reply.value.results == (if i < |batches| then batches[i] else [])
      && (i < |batches| ==> batches[i] != [])
  }

  /** From such a server a stream gets every batch once and in order, too, and ends after the last. */
  lemma {:induction false} DrainsServerV1(answers: seq<Answer>, batches: seq<seq<DataChunk>>, k: nat, names: vec<text>)
    requires ServesV1(answers, batches) && k <= |answers| && AllBring(V1, answers, k)
    ensures k <= |batches| && Batches(V1, answers, k, names) == Named(Concat(batches[..k]), names)
    ensures k < |batches| ==> Brings(V1, k, answers[k])
    ensures k == |batches| ==> Ends(V1, k, answers[k])
    decreases k
  {
    assert k == |answers| ==> !Brings(V1, k - 1, answers[k - 1]);
    if k > 0 {
      DrainsServerV1(answers, batches, k - 1, names);
      assert batches[..k][..k - 1] == batches[..k - 1];
      assert Named(Concat(batches[..k - 1]) + batches[k - 1], names) ==
        Named(Concat(batches[..k - 1]), names) + Named(batches[k - 1], names);
    }
  }

  /** In version 3 the batches a stream takes are the batches numbered from one on, and an end
      announces no other number than that of the batches before it. */
  lemma BatchesAreNumbered(answers: seq<Answer>, k: nat)
    requires k < |answers| && AllBring(3, answers, k)
    ensures forall i | 0 <= i < k :: answers[i].reply.value.batchIndex == Some(i + 1)
    ensures Ends(3, k, answers[k]) ==>
      answers[k].reply.value.batchIndex == None && answers[k].reply.value.totalBatches in {None, Some(k)}
  {
    assert forall i | 0 <= i < k :: Brings(3, i, answers[i]);
  }
}
