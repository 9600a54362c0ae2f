/** Finding a protocol version: version 3 first, version 1 only if the server turned
    version 3 down as a version. */
module Negotiation {
  import opened Prelude
  import opened Wire
  import opened Messages
  import opened MessageBodies
  import opened Lease

  const DEFAULT_TIMEOUT_SECONDS: u64 := 60

  /** Why a connection was not made: an error with its text, from the transport or the
      server; some other error; or an answer that the client turns down. */
  datatype ConnectError =
    | ProtocolError(message: seq<byte>)
    | ServerError(message: seq<byte>)
    | OtherError
    | TurnedDown(cause: Cause)

  datatype Cause =
    EmptyRange | NoSupportedVersion | BadTimeout | NoConnectionId | OtherVersion | NoTimeout | OtherMessage

  datatype Reply = Message(m: QuackMessage) | Error(error: ConnectError)

  datatype Session = Session(
    connectionId: text, version: u64, heartbeatSeconds: Option<u64>, serverVersion: Option<text>,
    serverPlatform: Option<text>)

  datatype Connected = Connected(session: Session) | Refused(error: ConnectError)

  /** What the caller may choose. */
  datatype Options = Options(
    authToken: Option<text>, clientVersion: Option<text>, clientPlatform: Option<text>, minVersion: Option<u64>,
    maxVersion: Option<u64>, clientId: Option<text>, heartbeatTimeout: Option<u64>)

  // ---- which errors are about versions ----

  function Lower(s: seq<byte>): (r: seq<byte>)
    ensures |r| == |s|
  {
    seq(|s|, i requires 0 <= i < |s| => if 65 <= s[i] <= 90 then s[i] + 32 else s[i])
  }

  predicate Contains(s: seq<byte>, needle: seq<byte>) {
    exists i | 0 <= i <= |s| :: needle <= s[i..]
  }

  function Phrases(): seq<string> {
    ["quack version", "protocol version", "http request failed with 500", "deserialize", "end of object",
     "unexpected field"]
  }

  predicate IsVersionNegotiationError(e: ConnectError) {
    && (e.ProtocolError? || e.ServerError?)
    && exists k | 0 <= k < |Phrases()| :: Contains(Lower(e.message), Ascii(Phrases()[k]))
  }

  predicate TurnsVersionDown(r: Reply) {
    r.Error? && IsVersionNegotiationError(r.error)
  }

  /** A text about versions is exactly one with one of the phrases inside, in any mix of
      letter cases; only errors of the protocol and of the server have a text. */
  lemma NegotiationTexts(message: seq<byte>)
    ensures IsVersionNegotiationError(ProtocolError(message)) == IsVersionNegotiationError(ServerError(message))
    ensures IsVersionNegotiationError(ProtocolError(message)) <==>
      exists k, i, j | 0 <= k < |Phrases()| && 0 <= i <= j <= |message| :: Lower(message[i..j]) == Ascii(Phrases()[k])
    ensures !IsVersionNegotiationError(OtherError)
    ensures forall cause :: !IsVersionNegotiationError(TurnedDown(cause))
  {
    hide Phrases, Ascii;
    if IsVersionNegotiationError(ProtocolError(message)) {
      var k :| 0 <= k < |Phrases()| && Contains(Lower(message), Ascii(Phrases()[k]));
      var phrase := Ascii(Phrases()[k]);
      var i :| 0 <= i <= |message| && phrase <= Lower(message)[i..];
      assert Lower(message[i..i + |phrase|]) == phrase;
    }
    if k, i, j :| 0 <= k < |Phrases()| && 0 <= i <= j <= |message| && Lower(message[i..j]) == Ascii(Phrases()[k]) {
      assert Ascii(Phrases()[k]) <= Lower(message)[i..];
    }
  }

  /** The message holds the phrase somewhere, in any letter case. */
  predicate Mentions(message: seq<byte>, phrase: string) {
    exists i, j | 0 <= i <= j <= |message| :: Lower(message[i..j]) == Ascii(phrase)
  }

  /** The six phrases one by one. */
  lemma SixPhrases(message: seq<byte>)
    ensures IsVersionNegotiationError(ServerError(message)) <==>
      || Mentions(message, "quack version") || Mentions(message, "protocol version")
      || Mentions(message, "http request failed with 500") || Mentions(message, "deserialize")
      || Mentions(message, "end of object") || Mentions(message, "unexpected field")
  {
    hide IsVersionNegotiationError, Ascii, Lower;
    NegotiationTexts(message);
    var phrases := Phrases();
    assert IsVersionNegotiationError(ServerError(message)) <==>
      exists k | 0 <= k < |phrases| :: Mentions(message, phrases[k]);
    assert phrases[0] == "quack version" && phrases[1] == "protocol version"
      && phrases[2] == "http request failed with 500" && phrases[3] == "deserialize"
      && phrases[4] == "end of object" && phrases[5] == "unexpected field" && |phrases| == 6;
  }

  // ---- what is sent ----

  /** The opening request asks for one version and no other. */
  function OpeningRequest(o: Options, version: u64): QuackMessage {
    ConnectionRequest(MessageHeader(ConnectionRequestType, None, None), o.authToken, o.clientVersion,
      Some(o.clientPlatform.GetOr(DefaultPlatform())), version, version, o.clientId,
      o.heartbeatTimeout.GetOr(DEFAULT_TIMEOUT_SECONDS))
  }

  /** What the server makes of an opening request: the version as the only one on offer, the
      credentials and names of the caller unless they are empty, and, in version 3 alone, who the
      client is and the timeout, a minute unless the caller says otherwise. */
  lemma OpeningArrives(o: Options, version: u64)
    requires version in {1, 3}
    ensures Arrives(OpeningRequest(o, version), version, ConnectionRequest(
      MessageHeader(ConnectionRequestType, None, None), NonEmpty(o.authToken), NonEmpty(o.clientVersion),
      NonEmpty(if o.clientPlatform.Some? then o.clientPlatform else Some(QuackRust())), version, version,
      if version == 3 then NonEmpty(o.clientId) else None,
      if version == 1 then 0 else if o.heartbeatTimeout.Some? then o.heartbeatTimeout.value else 60))
  {
    hide Encode, Decode, IsUtf8;
    assert QuackRust() == DefaultPlatform();
    MessageRoundTrip(OpeningRequest(o, version), version);
  }

  function DefaultPlatform(): text {
    hide IsUtf8;
    var s := ['q' as int, 'u' as int, 'a' as int, 'c' as int, 'k' as int, '-' as int,
              'r' as int, 'u' as int, 's' as int, 't' as int];
    AsciiIsUtf8(s);
    s
  }

  function QuackRust(): text {
    hide IsUtf8;
    var s := [113, 117, 97, 99, 107, 45, 114, 117, 115, 116];
    AsciiIsUtf8(s);
    s
  }

  // ---- what connecting should come to ----

  function Versions(min: u64, max: u64): (versions: seq<u64>)
    ensures versions in {[], [V3], [V1], [V3, V1]}
  {
    var (a, b) := (if min <= V3 <= max then [V3] else [], if min <= V1 <= max then [V1] else []);
    assert a + b == if a == [] then b else if b == [] then a else [V3, V1];
    a + b
  }

  /** What one answer to a request for `version` comes to. */
  function Judge(version: u64, r: Reply): Connected {
    match r
    case Error(e) => Refused(e)
    case Message(ConnectionResponse(h, serverVersion, platform, quack, timeout)) =>
      if h.connectionId.None? then Refused(TurnedDown(NoConnectionId))
      else if quack != Some(version) then Refused(TurnedDown(OtherVersion))
      else if version != V3 then Connected(Session(h.connectionId.value, version, None, serverVersion, platform))
      else if timeout.None? then Refused(TurnedDown(NoTimeout))
      else if ValidateHeartbeatTimeout(timeout.value).Fail? then Refused(TurnedDown(BadTimeout))
      else Connected(Session(h.connectionId.value, version, timeout, serverVersion, platform))
    case Message(_) => Refused(TurnedDown(OtherMessage))
  }

  /** The outcome and the versions asked for. `replies[i]` answers request number `i`. */
  function Negotiate(min: u64, max: u64, timeout: u64, replies: seq<Reply>): (r: (Connected, seq<u64>))
    requires |replies| == 2
  {
    var versions := Versions(min, max);
    if min > max then (Refused(TurnedDown(EmptyRange)), [])
    else if versions == [] then (Refused(TurnedDown(NoSupportedVersion)), [])
    else if V3 in versions && ValidateHeartbeatTimeout(timeout).Fail? then (Refused(TurnedDown(BadTimeout)), [])
    else if versions == [V3, V1] && TurnsVersionDown(replies[0]) then
      (if TurnsVersionDown(replies[1]) then Refused(replies[0].error) else Judge(V1, replies[1]), [V3, V1])
    else (Judge(versions[0], replies[0]), versions[..1])
  }

  method Connect(o: Options, replies: seq<Reply>)
    returns (r: Connected, asked: seq<u64>, sent: seq<QuackMessage>)
    requires |replies| == 2
    ensures (r, asked) == Negotiate(o.minVersion.GetOr(1), o.maxVersion.GetOr(3), o.heartbeatTimeout.GetOr(60), replies)
    ensures |sent| == |asked| && forall i | 0 <= i < |sent| :: sent[i] == OpeningRequest(o, asked[i])
  {
    hide IsVersionNegotiationError, Judge, OpeningRequest;
    sent := [];
    var min, max := o.minVersion.GetOr(V1), o.maxVersion.GetOr(V3);
    if min > max {
      return Refused(TurnedDown(EmptyRange)), [], sent;
    }
    var versions := Versions(min, max);
    if versions == [] {
      return Refused(TurnedDown(NoSupportedVersion)), [], sent;
    }
    var seconds := o.heartbeatTimeout.GetOr(DEFAULT_TIMEOUT_SECONDS);
    if V3 in versions && ValidateHeartbeatTimeout(seconds).Fail? {
      return Refused(TurnedDown(BadTimeout)), [], sent;
    }
    var previousError := None;
    asked := [];
    for index := 0 to |versions|
      invariant asked == versions[..index]
      invariant |sent| == |asked| && forall i | 0 <= i < |sent| :: sent[i] == OpeningRequest(o, asked[i])
      invariant index == 0 ==> previousError == None
      invariant index > 0 ==> versions == [V3, V1] && index == 1
      invariant index > 0 ==> TurnsVersionDown(replies[0]) && previousError == Some(replies[0].error)
    {
      sent := sent + [OpeningRequest(o, versions[index])];
      asked := asked + [versions[index]];
      assert asked == versions[..index + 1] && (index == 1 ==> asked == [V3, V1]);
      var reply := replies[index];
      if reply.Error? {
        if index + 1 < |versions| && versions[index] == V3 && IsVersionNegotiationError(reply.error) {
          previousError := Some(reply.error);
          continue;
        }
        if previousError.Some? && IsVersionNegotiationError(reply.error) {
          return Refused(previousError.value), asked, sent;
        }
      }
      return Judge(versions[index], reply), asked, sent;
    }
    assert false;
  }

  // ---- what follows for every server ----

  /** The versions to ask for are 3 and 1, in that order, as far as the range of the caller has them. */
  lemma VersionsInRange(min: u64, max: u64)
    ensures forall v :: v in Versions(min, max) <==> v in {1, 3} && min <= v <= max
    ensures min <= 1 && 3 <= max ==> Versions(min, max) == [3, 1]
    ensures |Versions(min, max)| <= 2
  {
  }

  /** An answer makes a session exactly if it is a CONNECTION_RESPONSE that names a connection and
      confirms the version, and, in version 3, a timeout between one second and five minutes. The
      session is made of its fields. */
  lemma AcceptedExactly(version: u64, r: Reply)
    ensures Judge(version, r).Connected? <==>
      && r.Message? && r.m.ConnectionResponse? && r.m.header.connectionId.Some?
      && r.m.quackVersion == Some(version)
      && (version == 3 ==> r.m.serverTimeout.Some? && 1 <= r.m.serverTimeout.value <= 300)
    ensures Judge(version, r).Connected? ==>
      var s := Judge(version, r).session;
      && Some(s.connectionId) == r.m.header.connectionId && Some(s.version) == r.m.quackVersion
      && s.serverVersion == r.m.serverVersion && s.serverPlatform == r.m.serverPlatform
      && s.heartbeatSeconds == if version == 3 then r.m.serverTimeout else None
  {
  }

  /** A session speaks a version that was asked for, in the range of the caller, that the
      server confirmed, and has a lease exactly when it speaks version 3. What it says about the
      server, and the timeout of the lease, is what the server answered. */
  lemma SessionIsSound(min: u64, max: u64, timeout: u64, replies: seq<Reply>)
    requires |replies| == 2 && Negotiate(min, max, timeout, replies).0.Connected?
    ensures var (r, asked) := Negotiate(min, max, timeout, replies);
      var s := r.session;
      && asked != [] && s.version == asked[|asked| - 1]
      && s.version in {1, 3} && min <= s.version <= max
      && (s.heartbeatSeconds.Some? <==> s.version == 3)
      && (s.heartbeatSeconds.Some? ==> 1 <= s.heartbeatSeconds.value <= 300)
      && replies[|asked| - 1].Message?
      && var m := replies[|asked| - 1].m;
         && m.ConnectionResponse? && m.quackVersion == Some(s.version) && m.header.connectionId == Some(s.connectionId)
         && s.serverVersion == m.serverVersion && s.serverPlatform == m.serverPlatform
         && s.heartbeatSeconds == if s.version == 3 then m.serverTimeout else None
  {
    hide IsVersionNegotiationError;
  }

  /** Version 1 is asked for after version 3 exactly when both are allowed and the server
      turned version 3 down; when it turns both down, the first error is reported. */
  lemma FallbackOnlyOnRefusal(min: u64, max: u64, timeout: u64, replies: seq<Reply>)
    requires |replies| == 2
    ensures var (r, asked) := Negotiate(min, max, timeout, replies);
      && (|asked| == 2 <==>
            min <= V1 && V3 <= max && ValidateHeartbeatTimeout(timeout).Pass? && TurnsVersionDown(replies[0]))
      && (|asked| == 2 ==> asked == [V3, V1])
      && (|asked| == 2 && TurnsVersionDown(replies[1]) ==> r == Refused(replies[0].error))
      && (|asked| == 2 && replies[1].Error? && !TurnsVersionDown(replies[1]) ==> r == Refused(replies[1].error))
  {
    hide IsVersionNegotiationError;
  }

  /** A server that speaks a version the caller allows, and says so, is connected to. */
  lemma WillingServer(min: u64, max: u64, timeout: u64, replies: seq<Reply>, version: u64)
    requires |replies| == 2 && version in Versions(min, max)
    requires V3 in Versions(min, max) ==> ValidateHeartbeatTimeout(timeout).Pass?
    requires var i := if version == V1 && V3 in Versions(min, max) then 1 else 0;
      && Judge(version, replies[i]).Connected?
      && (i == 1 ==> TurnsVersionDown(replies[0]))
    ensures Negotiate(min, max, timeout, replies).0.Connected?
    ensures Negotiate(min, max, timeout, replies).0.session.version == version
  {
    hide IsVersionNegotiationError;
  }
}
