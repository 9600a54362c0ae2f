/** One connection shared by many operations. The server keeps one cursor for the
    connection and every PREPARE resets it. Queries hold the connection lock from
    before PREPARE until their stream ends or is dropped; appends and disconnects
    take the same lock; heartbeats do not. A request and its answer are one step. */
module CursorProtocol {
  import opened Prelude

  type Id = nat

  datatype Kind = Query | Append | Disconnect

  /** How far an operation has come. A stream may still need to fetch or not. */
  datatype Phase = Waiting | Holding | Streaming(needsMore: bool) | Finished

  datatype Op = Op(kind: Kind, phase: Phase)

  /** What can be observed: requests reaching the server, and streams opening and
      letting go. A FETCH records whose cursor it reached. */
  datatype Event =
    | PrepareSent(id: Id)
    | StreamOpened(id: Id)
    | FetchSent(id: Id, reached: Option<Id>)
    | StreamReleased(id: Id)
    | AppendSent(id: Id)
    | DisconnectSent(id: Id)
    | HeartbeatSent

  datatype State = State(
    ops: map<Id, Op>, lock: Option<Id>, cursor: Option<Id>, closed: bool, version: u64, log: seq<Event>)

  /** A step, with the answer the server gives. Answers are arbitrary. */
  datatype Action =
    | Issue(id: Id, kind: Kind)
    | TakeLock(id: Id)
    | SendPrepare(id: Id, accepted: bool, needsMore: bool)
    | SendFetch(id: Id, answered: bool, needsMore: bool)
    | StreamEnds(id: Id)
    | SendAppend(id: Id)
    | SendDisconnect(id: Id, acknowledged: bool)
    | Drop(id: Id)
    | Heartbeat(closes: bool)
    | LeaseExpires

  function Initial(version: u64): State {
    State(map[], None, None, false, version, [])
  }

  predicate At(s: State, id: Id, kind: Kind, phase: Phase) {
    id in s.ops && s.ops[id] == Op(kind, phase)
  }

  function Enter(s: State, id: Id, phase: Phase): State
    requires id in s.ops
  {
    s.(ops := s.ops[id := s.ops[id].(phase := phase)])
  }

  /** The operation is over; if it held the lock, the lock is free again. */
  function Finish(s: State, id: Id): State
    requires id in s.ops
  {
    var log := if s.ops[id].phase.Streaming? then s.log + [StreamReleased(id)] else s.log;
    Enter(s, id, Finished).(lock := if s.lock == Some(id) then None else s.lock, log := log)
  }

  function Sent(s: State, e: Event): State {
    s.(log := s.log + [e])
  }

  /** The state after a step, or nothing when the step is not possible. */
  function Step(s: State, a: Action): Option<State> {
    match a
    case Issue(id, kind) =>
      if id in s.ops then None else Some(s.(ops := s.ops[id := Op(kind, Waiting)]))
    case TakeLock(id) =>
      if id in s.ops && s.ops[id].phase == Waiting && s.lock == None then
        Some(Enter(s, id, Holding).(lock := Some(id)))
      else None
    case SendPrepare(id, accepted, needsMore) =>
      if !At(s, id, Query, Holding) then None
      else if s.closed then Some(Finish(s, id))
      else
        var reset := Sent(s, PrepareSent(id)).(cursor := Some(id));
        if accepted then Some(Sent(Enter(reset, id, Streaming(needsMore)), StreamOpened(id)))
        else Some(Finish(reset, id))
    case SendFetch(id, answered, needsMore) =>
      if !At(s, id, Query, Streaming(true)) then None
      else if s.closed then Some(Finish(s, id))
      else
        var sent := Sent(s, FetchSent(id, s.cursor));
        if answered then Some(Enter(sent, id, Streaming(needsMore))) else Some(Finish(sent, id))
    case StreamEnds(id) =>
      if At(s, id, Query, Streaming(false)) then Some(Finish(s, id)) else None
    case SendAppend(id) =>
      if !At(s, id, Append, Holding) then None
      else if s.closed || s.version != 1 then Some(Finish(s, id))
      else Some(Finish(Sent(s, AppendSent(id)).(cursor := None), id))
    case SendDisconnect(id, acknowledged) =>
      if !At(s, id, Disconnect, Holding) then None
      else if s.closed then Some(Finish(s, id))
      else
        Some(Finish(Sent(s, DisconnectSent(id)).(cursor := None, closed := acknowledged), id))
    case Drop(id) =>
      if id in s.ops && s.ops[id].phase != Finished then Some(Finish(s, id)) else None
    case Heartbeat(closes) =>
      if s.closed then None else Some(Sent(s, HeartbeatSent).(closed := closes))
    case LeaseExpires =>
      Some(s.(closed := true))
  }

  /** Any interleaving of steps, in the order in which they happen. */
  function Run(s: State, actions: seq<Action>): Option<State>
    decreases |actions|
  {
    if actions == [] then Some(s)
    else
      match Run(s, actions[..|actions| - 1])
      case None => None
      case Some(t) => Step(t, actions[|actions| - 1])
  }

  // ---- what a log may look like, without looking at the client ----

  /** The streams opened and not yet released. */
  function Undrained(log: seq<Event>): set<Id> {
    if log == [] then {}
    else
      var before := Undrained(log[..|log| - 1]);
      match log[|log| - 1]
      case StreamOpened(id) => before + {id}
      case StreamReleased(id) => before - {id}
      case _ => before
  }

  /** The last thing that happened to the cursor of the server: who opened it, if anyone. */
  function CursorOf(log: seq<Event>): Option<Id> {
    if log == [] then None
    else
      match log[|log| - 1]
      case PrepareSent(id) => Some(id)
      case AppendSent(_) => None
      case DisconnectSent(_) => None
      case _ => CursorOf(log[..|log| - 1])
  }

  /** After `before`, the event does no harm: a FETCH reaches the cursor of its own
      PREPARE, and nothing that disturbs the cursor is sent while a stream is undrained. */
  predicate Harmless(before: seq<Event>, e: Event) {
    match e
    case PrepareSent(_) => Undrained(before) == {}
    case AppendSent(_) => Undrained(before) == {}
    case DisconnectSent(_) => Undrained(before) == {}
    case FetchSent(id, reached) => reached == Some(id) && CursorOf(before) == Some(id) && Undrained(before) == {id}
    case _ => true
  }

  predicate Safe(log: seq<Event>) {
    forall i | 0 <= i < |log| :: Harmless(log[..i], log[i])
  }

  // ---- the invariant ----

  predicate HoldsLock(op: Op) {
    op.phase.Holding? || op.phase.Streaming?
  }

  /** The lock belongs to the one operation that is holding or streaming; only queries
      stream; the server's cursor is the stream's; the log is safe. */
  predicate Invariant(s: State) {
    && (forall id | id in s.ops :: HoldsLock(s.ops[id]) <==> s.lock == Some(id))
    && (forall id | id in s.ops && s.ops[id].phase.Streaming? :: s.ops[id].kind == Query && s.cursor == Some(id))
    && (s.lock.Some? ==> s.lock.value in s.ops)
    && s.cursor == CursorOf(s.log)
    && Undrained(s.log) == (if StreamOpen(s) then {s.lock.value} else {})
    && Safe(s.log)
  }

  predicate StreamOpen(s: State) {
    s.lock.Some? && s.lock.value in s.ops && s.ops[s.lock.value].phase.Streaming?
  }

  lemma LogGrows(log: seq<Event>, e: Event)
    requires Safe(log) && Harmless(log, e)
    ensures Safe(log + [e])
    ensures (log + [e])[..|log|] == log
  {
    forall i | 0 <= i < |log| + 1
      ensures Harmless((log + [e])[..i], (log + [e])[i])
    {
      assert (log + [e])[..i] == log[..i];
      if i == |log| {
        assert log[..i] == log;
      }
    }
  }

  lemma FinishKeeps(s: State, id: Id)
    requires Invariant(s) && id in s.ops
    ensures Invariant(Finish(s, id))
  {
    if s.ops[id].phase.Streaming? {
      LogGrows(s.log, StreamReleased(id));
    }
  }

  /** A request that does not disturb the cursor. */
  lemma QuietKeeps(s: State, e: Event)
    requires Invariant(s) && (e.HeartbeatSent? || e.FetchSent?) && Harmless(s.log, e)
    ensures Invariant(Sent(s, e))
  {
    LogGrows(s.log, e);
  }

  /** A request that resets the cursor, sent by an operation that holds the lock and has no stream. */
  lemma ResetKeeps(s: State, id: Id, e: Event, cursor: Option<Id>)
    requires Invariant(s) && id in s.ops && s.ops[id].phase == Holding
    requires e in {PrepareSent(id), AppendSent(id), DisconnectSent(id)}
    requires cursor == if e.PrepareSent? then Some(id) else None
    ensures Invariant(Sent(s, e).(cursor := cursor))
  {
    assert s.lock == Some(id);
    LogGrows(s.log, e);
  }

  lemma OpenKeeps(s: State, id: Id, needsMore: bool)
    requires Invariant(s) && At(s, id, Query, Holding) && s.cursor == Some(id)
    ensures Invariant(Sent(Enter(s, id, Streaming(needsMore)), StreamOpened(id)))
  {
    assert s.lock == Some(id);
    LogGrows(s.log, StreamOpened(id));
  }

  lemma StepKeeps(s: State, a: Action)
    requires Invariant(s) && Step(s, a).Some?
    ensures Invariant(Step(s, a).value)
  {
    hide Safe, Undrained, CursorOf;
    match a
    case Issue(_, _) =>
    case TakeLock(_) =>
    case SendPrepare(id, accepted, needsMore) =>
      if s.closed {
        FinishKeeps(s, id);
      } else {
        ResetKeeps(s, id, PrepareSent(id), Some(id));
        var reset := Sent(s, PrepareSent(id)).(cursor := Some(id));
        if accepted {
          OpenKeeps(reset, id, needsMore);
        } else {
          FinishKeeps(reset, id);
        }
      }
    case SendFetch(id, _, _) =>
      if s.closed {
        FinishKeeps(s, id);
      } else {
        QuietKeeps(s, FetchSent(id, s.cursor));
        FinishKeeps(Sent(s, FetchSent(id, s.cursor)), id);
      }
    case StreamEnds(id) => FinishKeeps(s, id);
    case SendAppend(id) =>
      if s.closed || s.version != 1 {
        FinishKeeps(s, id);
      } else {
        ResetKeeps(s, id, AppendSent(id), None);
        FinishKeeps(Sent(s, AppendSent(id)).(cursor := None), id);
      }
    case SendDisconnect(id, acknowledged) =>
      if s.closed {
        FinishKeeps(s, id);
      } else {
        ResetKeeps(s, id, DisconnectSent(id), None);
        var sent := Sent(s, DisconnectSent(id)).(cursor := None, closed := acknowledged);
        assert Invariant(sent);
        FinishKeeps(sent, id);
      }
    case Drop(id) => FinishKeeps(s, id);
    case Heartbeat(_) => QuietKeeps(s, HeartbeatSent);
    case LeaseExpires =>
  }

  lemma {:induction false} RunKeeps(s: State, actions: seq<Action>)
    requires Invariant(s) && Run(s, actions).Some?
    ensures Invariant(Run(s, actions).value)
    decreases |actions|
  {
    if actions != [] {
      RunKeeps(s, actions[..|actions| - 1]);
      StepKeeps(Run(s, actions[..|actions| - 1]).value, actions[|actions| - 1]);
    }
  }

  // ---- safety of every run ----

  /** Whatever interleaving, answers and drops: every FETCH reaches the cursor its own
      query opened, and nothing resets the cursor while a stream is undrained. */
  lemma CursorSafety(version: u64, actions: seq<Action>)
    requires Run(Initial(version), actions).Some?
    ensures Safe(Run(Initial(version), actions).value.log)
  {
    RunKeeps(Initial(version), actions);
  }

  /** In a safe log, between a FETCH and the PREPARE that opened its cursor there are
      only FETCHes of the same query and heartbeats on the wire. */
  lemma FetchFollowsPrepare(log: seq<Event>, i: nat)
    requires Safe(log) && i < |log| && log[i].FetchSent?
    ensures exists j | 0 <= j < i :: OpenedAt(log, log[i].id, j, i)
  {
    assert Harmless(log[..i], log[i]);
    var j := CursorSince(log, log[i].id, i);
    assert OpenedAt(log, log[i].id, j, i);
  }

  /** The query prepared at `j`, and nobody else touched the cursor up to `i`. */
  predicate OpenedAt(log: seq<Event>, id: Id, j: nat, i: nat)
    requires j < i <= |log|
  {
    log[j] == PrepareSent(id) && forall k | j < k < i :: OnlyOwn(log[k], id)
  }

  /** Events of one query's stream, and heartbeats. */
  predicate OnlyOwn(e: Event, id: Id) {
    match e
    case PrepareSent(_) => false
    case AppendSent(_) => false
    case DisconnectSent(_) => false
    case FetchSent(other, _) => other == id
    case _ => true
  }

  /** Where the cursor of a prefix was opened: since then nothing but the owner's FETCHes. */
  lemma {:induction false} CursorSince(log: seq<Event>, id: Id, i: nat) returns (j: nat)
    requires Safe(log) && i <= |log| && CursorOf(log[..i]) == Some(id)
    ensures j < i && OpenedAt(log, id, j, i)
  {
    assert log[..i][..i - 1] == log[..i - 1];
    if log[i - 1] == PrepareSent(id) {
      j := i - 1;
    } else {
      j := CursorSince(log, id, i - 1);
      assert Harmless(log[..i - 1], log[i - 1]);
    }
  }

  predicate IsRequest(e: Event) {
    !e.StreamOpened? && !e.StreamReleased?
  }

  /** Once closed, a connection stays closed and sends nothing more. */
  lemma {:induction false} ClosedIsSilent(s: State, actions: seq<Action>)
    requires s.closed && Run(s, actions).Some?
    ensures var t := Run(s, actions).value;
      t.closed && s.log <= t.log && forall i | |s.log| <= i < |t.log| :: !IsRequest(t.log[i])
    decreases |actions|
  {
    if actions != [] {
      ClosedIsSilent(s, actions[..|actions| - 1]);
    }
  }

  // ---- the protocol gets somewhere ----

  /** What a query does that needs `n` FETCHes. */
  function QueryActions(id: Id, n: nat): seq<Action> {
    [Issue(id, Query), TakeLock(id), SendPrepare(id, true, n > 0)] + FetchActions(id, n) + [StreamEnds(id)]
  }

  function FetchActions(id: Id, n: nat): (actions: seq<Action>)
    ensures |actions| == n
  {
    seq(n, i requires 0 <= i < n => SendFetch(id, true, i + 1 < n))
  }

  lemma RunOne(s: State, a: Action)
    ensures Run(s, [a]) == Step(s, a)
  {
    assert [a][..0] == [];
  }

  lemma {:induction false} RunAppend(s: State, a: seq<Action>, b: seq<Action>)
    ensures Run(s, a + b) == match Run(s, a) { case None => None case Some(t) => Run(t, b) }
    decreases |b|
  {
    if b == [] {
      assert a + b == a;
    } else {
      RunAppend(s, a, b[..|b| - 1]);
      assert (a + b)[..|a + b| - 1] == a + b[..|b| - 1];
    }
  }

  lemma {:induction false} FetchesRun(s: State, id: Id, n: nat, k: nat)
    requires !s.closed && At(s, id, Query, Streaming(n > 0)) && s.lock == Some(id) && s.cursor == Some(id) && k <= n
    ensures var r := Run(s, FetchActions(id, n)[..k]);
      && r.Some? && !r.value.closed && r.value.lock == Some(id) && r.value.cursor == Some(id)
      && At(r.value, id, Query, Streaming(k < n))
      && r.value.log == s.log + seq(k, _ => FetchSent(id, Some(id)))
    decreases k
  {
    var actions := FetchActions(id, n)[..k];
    if k > 0 {
      FetchesRun(s, id, n, k - 1);
      assert actions[..k - 1] == FetchActions(id, n)[..k - 1];
      assert actions[k - 1] == SendFetch(id, true, k < n);
    }
  }

  /** From any state of the protocol in which the connection is open and free, a query with
      any number of FETCHes can run to its end and leaves the lock free. */
  lemma QueryCompletes(s: State, id: Id, n: nat)
    requires Invariant(s) && !s.closed && s.lock == None && id !in s.ops
    ensures var r := Run(s, QueryActions(id, n));
      && r.Some? && r.value.lock == None && At(r.value, id, Query, Finished)
      && r.value.log ==
         s.log + [PrepareSent(id), StreamOpened(id)] + seq(n, _ => FetchSent(id, Some(id))) + [StreamReleased(id)]
  {
    hide Invariant;
    var opening := [Issue(id, Query), TakeLock(id), SendPrepare(id, true, n > 0)];
    var fetches := FetchActions(id, n);
    Opening(s, id, n > 0);
    var t := Run(s, opening).value;
    FetchesRun(t, id, n, n);
    assert fetches[..n] == fetches;
    RunAppend(s, opening, fetches);
    RunAppend(s, opening + fetches, [StreamEnds(id)]);
    RunOne(Run(t, fetches).value, StreamEnds(id));
  }

  lemma Opening(s: State, id: Id, needsMore: bool)
    requires !s.closed && s.lock == None && id !in s.ops
    ensures var r := Run(s, [Issue(id, Query), TakeLock(id), SendPrepare(id, true, needsMore)]);
      && r.Some? && !r.value.closed && r.value.lock == Some(id) && r.value.cursor == Some(id)
      && At(r.value, id, Query, Streaming(needsMore))
      && r.value.log == s.log + [PrepareSent(id), StreamOpened(id)]
  {
    var issued := Step(s, Issue(id, Query)).value;
    var locked := Step(issued, TakeLock(id)).value;
    RunOne(s, Issue(id, Query));
    RunAppend(s, [Issue(id, Query)], [TakeLock(id)]);
    RunOne(issued, TakeLock(id));
    RunAppend(s, [Issue(id, Query)] + [TakeLock(id)], [SendPrepare(id, true, needsMore)]);
    RunOne(locked, SendPrepare(id, true, needsMore));
    assert [Issue(id, Query)] + [TakeLock(id)] + [SendPrepare(id, true, needsMore)] ==
      [Issue(id, Query), TakeLock(id), SendPrepare(id, true, needsMore)];
    assert s.log + [PrepareSent(id)] + [StreamOpened(id)] == s.log + [PrepareSent(id), StreamOpened(id)];
  }
}
