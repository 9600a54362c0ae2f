/** What each operation on a shared connection achieves: safety alone would also hold of a
    client that sends nothing. */
module CursorProgress {
  import opened Prelude
  import opened CursorProtocol

  /** Three steps in a row. */
  lemma RunThree(s: State, a: Action, b: Action, c: Action)
    requires Step(s, a).Some? && Step(Step(s, a).value, b).Some?
    ensures Run(s, [a, b, c]) == Step(Step(Step(s, a).value, b).value, c)
  {
    RunOne(s, a);
    RunOne(Step(s, a).value, b);
    RunOne(Step(Step(s, a).value, b).value, c);
    RunAppend(s, [a], [b]);
    RunAppend(s, [a] + [b], [c]);
    assert [a] + [b] + [c] == [a, b, c];
  }

  /** The state in which an operation has just finished and nobody holds the connection. */
  predicate Settled(before: State, id: Id, kind: Kind, after: State) {
    && after.lock == None && At(after, id, kind, Finished) && after.version == before.version
    && forall other | other in before.ops :: other in after.ops && after.ops[other] == before.ops[other]
  }

  /** An append reaches the server in version 1, and only there; either way it lets go. */
  lemma AppendCompletes(s: State, id: Id)
    requires Invariant(s) && !s.closed && s.lock == None && id !in s.ops
    ensures var r := Run(s, [Issue(id, Append), TakeLock(id), SendAppend(id)]);
      && r.Some? && Settled(s, id, Append, r.value) && !r.value.closed
      && (s.version == 1 ==> r.value.log == s.log + [AppendSent(id)] && r.value.cursor == None)
      && (s.version != 1 ==> r.value.log == s.log && r.value.cursor == s.cursor)
  {
    hide Invariant;
    RunThree(s, Issue(id, Append), TakeLock(id), SendAppend(id));
  }

  /** A disconnect reaches the server, and closes the connection if and only if it is acknowledged. */
  lemma DisconnectCompletes(s: State, id: Id, acknowledged: bool)
    requires Invariant(s) && !s.closed && s.lock == None && id !in s.ops
    ensures var r := Run(s, [Issue(id, Disconnect), TakeLock(id), SendDisconnect(id, acknowledged)]);
      && r.Some? && Settled(s, id, Disconnect, r.value) && r.value.closed == acknowledged
      && r.value.log == s.log + [DisconnectSent(id)] && r.value.cursor == None
  {
    hide Invariant;
    RunThree(s, Issue(id, Disconnect), TakeLock(id), SendDisconnect(id, acknowledged));
  }

  /** A query that the server refuses has sent its PREPARE and lets go. */
  lemma RefusedQueryLetsGo(s: State, id: Id, needsMore: bool)
    requires Invariant(s) && !s.closed && s.lock == None && id !in s.ops
    ensures var r := Run(s, [Issue(id, Query), TakeLock(id), SendPrepare(id, false, needsMore)]);
      r.Some? && Settled(s, id, Query, r.value) && r.value.log == s.log + [PrepareSent(id)] && !r.value.closed
  {
    hide Invariant;
    RunThree(s, Issue(id, Query), TakeLock(id), SendPrepare(id, false, needsMore));
  }

  /** A FETCH that fails is the last one of its stream, which lets go. */
  lemma FailedFetchLetsGo(s: State, id: Id, needsMore: bool)
    requires Invariant(s) && !s.closed && At(s, id, Query, Streaming(true))
    ensures var r := Step(s, SendFetch(id, false, needsMore));
      && r.Some? && r.value.lock == None && At(r.value, id, Query, Finished)
      && r.value.log == s.log + [FetchSent(id, Some(id)), StreamReleased(id)]
  {
    assert s.log + [FetchSent(id, Some(id))] + [StreamReleased(id)] ==
      s.log + [FetchSent(id, Some(id)), StreamReleased(id)];
  }

  /** As long as the connection is open a heartbeat can be sent, whoever holds the lock, and
      touches nothing but the log and, if it finds the lease gone, the connection. */
  lemma HeartbeatAnyTime(s: State, closes: bool)
    ensures var r := Step(s, Heartbeat(closes));
      && (r.Some? <==> !s.closed)
      && (r.Some? ==> r.value == s.(log := s.log + [HeartbeatSent], closed := closes))
  {
  }

  /** The lock can be taken by any waiting operation exactly when nobody has it. */
  lemma LockIsExclusive(s: State, id: Id)
    requires Invariant(s) && id in s.ops && s.ops[id].phase == Waiting
    ensures Step(s, TakeLock(id)).Some? <==> forall other | other in s.ops :: !HoldsLock(s.ops[other])
    ensures Step(s, TakeLock(id)).Some? ==>
      Step(s, TakeLock(id)).value.lock == Some(id) && HoldsLock(Step(s, TakeLock(id)).value.ops[id])
  {
  }

  /** Any operation can be dropped at any time. Dropping the one that holds the lock frees it,
      dropping another leaves it; no request is sent. */
  lemma DropFrees(s: State, id: Id)
    requires Invariant(s) && id in s.ops && s.ops[id].phase != Finished
    ensures var r := Step(s, Drop(id));
      && r.Some? && r.value.ops == s.ops[id := Op(s.ops[id].kind, Finished)]
      && r.value.lock == (if HoldsLock(s.ops[id]) then None else s.lock)
      && r.value.log == (if s.ops[id].phase.Streaming? then s.log + [StreamReleased(id)] else s.log)
      && r.value.cursor == s.cursor && r.value.closed == s.closed
  {
  }

  /** Whoever holds a closed connection finds out at the next request, which is not sent, and
      lets go. */
  lemma ClosedLetsGo(s: State, id: Id, accepted: bool, needsMore: bool)
    requires Invariant(s) && s.closed && id in s.ops && HoldsLock(s.ops[id])
    requires s.ops[id].phase != Streaming(false)
    ensures var a := match s.ops[id].kind {
        case Append => SendAppend(id)
        case Disconnect => SendDisconnect(id, accepted)
        case Query =>
          if s.ops[id].phase.Holding? then SendPrepare(id, accepted, needsMore) else SendFetch(id, accepted, needsMore)
      };
      var r := Step(s, a);
      && r.Some? && r.value.lock == None && r.value.ops[id].phase == Finished && r.value.cursor == s.cursor
      && forall i | |s.log| <= i < |r.value.log| :: !IsRequest(r.value.log[i])
  {
  }

  /** An expired lease closes the connection and does nothing else. */
  lemma ExpiryCloses(s: State)
    ensures Step(s, LeaseExpires) == Some(s.(closed := true))
  {
  }
}
