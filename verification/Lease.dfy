/** The lease of a connection: every successful exchange renews it, a failed
    heartbeat closes the connection once the lease has run out. Times are
    nanoseconds on one monotonic clock. */
module Lease {
  import opened Prelude

  const NANOS_PER_SECOND := 1_000_000_000
  const LEAST_INTERVAL := 100_000_000
  const MAX_TIMEOUT_SECONDS := 300

  function ValidateHeartbeatTimeout(seconds: u64): Outcome {
    if 1 <= seconds <= MAX_TIMEOUT_SECONDS then Pass else Fail(Protocol)
  }

  // ---- the lease as a value ----

  datatype LeaseState = LeaseState(lastSuccess: nat, closed: bool)

  /** What happens to a lease, at what time. A heartbeat answered with SUCCESS renews like any
      other exchange, one answered with anything else closes. */
  datatype Event = Renewed(at: nat) | FailedBeat(at: nat) | Close

  /** The time since, or zero for a clock reading taken earlier. */
  function Since(now: nat, before: nat): nat {
    if now >= before then now - before else 0
  }

  function Apply(s: LeaseState, e: Event, timeout: nat): LeaseState {
    match e
    case Renewed(now) => if s.closed then s else s.(lastSuccess := now)
    case FailedBeat(now) => if s.closed || Since(now, s.lastSuccess) >= timeout then s.(closed := true) else s
    case Close => s.(closed := true)
  }

  function RunFrom(s: LeaseState, events: seq<Event>, timeout: nat): LeaseState
    decreases |events|
  {
    if events == [] then s
    else Apply(RunFrom(s, events[..|events| - 1], timeout), events[|events| - 1], timeout)
  }

  function Run(start: nat, events: seq<Event>, timeout: nat): LeaseState {
    RunFrom(LeaseState(start, false), events, timeout)
  }

  // ---- the lease as an object ----

  class ConnectionLease {
    var lastSuccess: nat
    var closed: bool

    function Value(): LeaseState
      reads this
    {
      LeaseState(lastSuccess, closed)
    }

    constructor (now: nat)
      ensures Value() == LeaseState(now, false)
    {
      lastSuccess, closed := now, false;
    }

    method RecordSuccess(now: nat)
      modifies this
      ensures forall timeout: nat :: Value() == Apply(old(Value()), Renewed(now), timeout)
    {
      if !closed {
        lastSuccess := now;
      }
    }

    method CloseIfExpired(now: nat, timeout: nat) returns (expired: bool)
      modifies this
      ensures Value() == Apply(old(Value()), FailedBeat(now), timeout)
      ensures expired == closed
    {
      if closed || Since(now, lastSuccess) >= timeout {
        closed := true;
      }
      expired := closed;
    }

    method CloseNow()
      modifies this
      ensures forall timeout: nat :: Value() == Apply(old(Value()), Close, timeout)
    {
      closed := true;
    }
  }

  // ---- what every history keeps ----

  /** Closed is for good: nothing that happens later changes anything, a late success included. */
  lemma {:induction false} ClosedIsFinal(start: nat, events: seq<Event>, more: seq<Event>, timeout: nat)
    requires Run(start, events, timeout).closed
    ensures Run(start, events + more, timeout) == Run(start, events, timeout)
    decreases |more|
  {
    if more == [] {
      assert events + more == events;
    } else {
      ClosedIsFinal(start, events, more[..|more| - 1], timeout);
      assert (events + more)[..|events + more| - 1] == events + more[..|more| - 1];
    }
  }

  /** The time of the last success of a history, or its start. */
  function LastSuccess(start: nat, events: seq<Event>): nat
    decreases |events|
  {
    if events == [] then start
    else
      match events[|events| - 1]
      case Renewed(at) => at
      case _ => LastSuccess(start, events[..|events| - 1])
  }

  lemma {:induction false} OpenLeaseKnowsLastSuccess(start: nat, events: seq<Event>, timeout: nat)
    requires !Run(start, events, timeout).closed
    ensures Run(start, events, timeout).lastSuccess == LastSuccess(start, events)
    decreases |events|
  {
    if events != [] {
      OpenLeaseKnowsLastSuccess(start, events[..|events| - 1], timeout);
    }
  }

  /** A connection is open exactly when nothing has closed it: no close, and no failed
      heartbeat a whole timeout or more after the last success before it. */
  lemma {:induction false} ClosedExactlyWhen(start: nat, events: seq<Event>, timeout: nat)
    ensures Run(start, events, timeout).closed <==>
      exists i | 0 <= i < |events| :: Closes(start, events[..i], events[i], timeout)
    decreases |events|
  {
    if events != [] {
      var n := |events| - 1;
      var before := events[..n];
      ClosedExactlyWhen(start, before, timeout);
      if Run(start, before, timeout).closed {
        var i :| 0 <= i < n && Closes(start, before[..i], before[i], timeout);
        assert before[..i] == events[..i];
        assert Closes(start, events[..i], events[i], timeout);
      } else {
        OpenLeaseKnowsLastSuccess(start, before, timeout);
        forall i | 0 <= i < n
          ensures !Closes(start, events[..i], events[i], timeout)
        {
          assert before[..i] == events[..i];
          assert !Closes(start, before[..i], before[i], timeout);
        }
        assert Run(start, events, timeout).closed <==> Closes(start, before, events[n], timeout);
      }
    }
  }

  predicate Closes(start: nat, before: seq<Event>, e: Event, timeout: nat) {
    match e
    case Renewed(_) => false
    case FailedBeat(now) => Since(now, LastSuccess(start, before)) >= timeout
    case Close => true
  }

  // ---- heartbeats three to a lease ----

  function Interval(timeout: nat): nat {
    if timeout / 3 >= LEAST_INTERVAL then timeout / 3 else LEAST_INTERVAL
  }

  /** For every timeout the client accepts, one to three hundred seconds, the interval is the third
      of it in whole nanoseconds; for any other it is that or a tenth of a second, whichever is longer. */
  lemma IntervalIsAThird(seconds: u64, timeout: nat)
    ensures ValidateHeartbeatTimeout(seconds) == Pass <==> 1 <= seconds <= 300
    ensures ValidateHeartbeatTimeout(seconds) == Pass ==>
      var i, t := Interval(seconds * NANOS_PER_SECOND), seconds * 1_000_000_000;
      3 * i <= t < 3 * i + 3
    ensures Interval(timeout) >= 100_000_000
    ensures Interval(timeout) > 100_000_000 ==> 3 * Interval(timeout) <= timeout
    ensures timeout < 3 * Interval(timeout) + 3
  {
  }

  /** A failed heartbeat closes an open lease exactly when a whole timeout has passed since the last
      success, and changes nothing else; a success is the new last success; a close closes. */
  lemma EventsMean(last: nat, at: nat, timeout: nat)
    requires timeout > 0
    ensures Apply(LeaseState(last, false), FailedBeat(at), timeout) == LeaseState(last, last + timeout <= at)
    ensures Apply(LeaseState(last, false), Renewed(at), timeout) == LeaseState(at, false)
    ensures Apply(LeaseState(last, false), Close, timeout) == LeaseState(last, true)
    ensures Apply(LeaseState(last, false), BeatEvent(Acknowledged(at)), timeout) == LeaseState(at, false)
    ensures Apply(LeaseState(last, false), BeatEvent(Unexpected), timeout) == LeaseState(last, true)
    ensures Apply(LeaseState(last, false), BeatEvent(Unanswered(at)), timeout) ==
      LeaseState(last, last + timeout <= at)
  {
  }

  /** Heartbeats at exact intervals, queries at any time between them. `beat` is the time
      of the last heartbeat and `failed` how many have failed since the last success. */
  datatype Tick = QueryWorked(at: nat) | BeatWorked | BeatFailed

  datatype Pulse = Pulse(beat: nat, failed: nat, lease: LeaseState)

  function NextPulse(p: Pulse, t: Tick, timeout: nat): Pulse {
    var now := p.beat + Interval(timeout);
    match t
    case QueryWorked(at) => Pulse(p.beat, 0, Apply(p.lease, Renewed(at), timeout))
    case BeatWorked => Pulse(now, 0, Apply(p.lease, Renewed(now), timeout))
    case BeatFailed => Pulse(now, p.failed + 1, Apply(p.lease, FailedBeat(now), timeout))
  }

  function Pulses(start: nat, ticks: seq<Tick>, timeout: nat): Pulse
    decreases |ticks|
  {
    if ticks == [] then Pulse(start, 0, LeaseState(start, false))
    else NextPulse(Pulses(start, ticks[..|ticks| - 1], timeout), ticks[|ticks| - 1], timeout)
  }

  /** Queries answer after the last heartbeat that was sent. */
  predicate InOrder(start: nat, ticks: seq<Tick>, timeout: nat) {
    forall i | 0 <= i < |ticks| ::
      ticks[i].QueryWorked? ==> ticks[i].at >= Pulses(start, ticks[..i], timeout).beat
  }

  /** As long as the lease is open, its last success is no older than the failed beats say. */
  lemma {:induction false} BeatsSinceSuccess(start: nat, ticks: seq<Tick>, timeout: nat)
    requires InOrder(start, ticks, timeout) && !Pulses(start, ticks, timeout).lease.closed
    ensures var p := Pulses(start, ticks, timeout);
      var i := Interval(timeout);
      && (p.failed == 0 ==> p.lease.lastSuccess >= p.beat)
      && (p.failed == 1 ==> p.lease.lastSuccess >= p.beat - i)
      && (p.failed == 2 ==> p.lease.lastSuccess >= p.beat - i - i)
    decreases |ticks|
  {
    if ticks != [] {
      var before := ticks[..|ticks| - 1];
      forall i | 0 <= i < |before|
        ensures before[i].QueryWorked? ==> before[i].at >= Pulses(start, before[..i], timeout).beat
      {
        assert before[..i] == ticks[..i] && before[i] == ticks[i];
      }
      hide Interval;
      BeatsSinceSuccess(start, before, timeout);
    }
  }

  /** With a timeout the client accepts, the beat that finds the lease expired is at least
      the third failure in a row. */
  lemma ThreeFailuresBeforeExpiry(start: nat, ticks: seq<Tick>, seconds: u64)
    requires ValidateHeartbeatTimeout(seconds) == Pass
    requires var timeout := seconds * NANOS_PER_SECOND;
      && InOrder(start, ticks + [BeatFailed], timeout)
      && !Pulses(start, ticks, timeout).lease.closed
      && Pulses(start, ticks + [BeatFailed], timeout).lease.closed
    ensures Pulses(start, ticks + [BeatFailed], seconds * NANOS_PER_SECOND).failed >= 3
  {
    var timeout := seconds * NANOS_PER_SECOND;
    var all := ticks + [BeatFailed];
    assert all[..|all| - 1] == ticks;
    forall i | 0 <= i < |ticks|
      ensures ticks[i].QueryWorked? ==> ticks[i].at >= Pulses(start, ticks[..i], timeout).beat
    {
      assert all[..i] == ticks[..i] && all[i] == ticks[i];
    }
    BeatsSinceSuccess(start, ticks, timeout);
    assert 3 * Interval(timeout) <= timeout;
  }

  // ---- the loop of the heartbeat task ----

  /** How a heartbeat was answered, and when. */
  datatype Beat = Acknowledged(at: nat) | Unexpected | Unanswered(at: nat)

  function BeatEvent(b: Beat): Event {
    match b
    case Acknowledged(at) => Renewed(at)
    case Unexpected => Close
    case Unanswered(at) => FailedBeat(at)
  }

  function BeatEvents(beats: seq<Beat>): (events: seq<Event>)
    ensures |events| == |beats|
  {
    seq(|beats|, i requires 0 <= i < |beats| => BeatEvent(beats[i]))
  }

  /** The loop stops as soon as the lease is closed, and sends no heartbeat after that. */
  method HeartbeatLoop(lease: ConnectionLease, timeout: nat, beats: seq<Beat>) returns (sent: nat)
    modifies lease
    ensures sent <= |beats|
    ensures lease.Value() == RunFrom(old(lease.Value()), BeatEvents(beats[..sent]), timeout)
    ensures sent < |beats| ==> lease.closed
    ensures forall i | 0 <= i < sent :: !RunFrom(old(lease.Value()), BeatEvents(beats[..i]), timeout).closed
  {
    sent := 0;
    while sent < |beats|
      invariant sent <= |beats|
      invariant lease.Value() == RunFrom(old(lease.Value()), BeatEvents(beats[..sent]), timeout)
      invariant forall i | 0 <= i < sent :: !RunFrom(old(lease.Value()), BeatEvents(beats[..i]), timeout).closed
    {
      if lease.closed {
        return;
      }
      var beat := beats[sent];
      assert BeatEvents(beats[..sent + 1])[..sent] == BeatEvents(beats[..sent]);
      sent := sent + 1;
      match beat {
        case Acknowledged(now) =>
          lease.RecordSuccess(now);
        case Unexpected =>
          lease.CloseNow();
          return;
        case Unanswered(now) =>
          var expired := lease.CloseIfExpired(now, timeout);
          if expired {
            return;
          }
      }
    }
  }
}
