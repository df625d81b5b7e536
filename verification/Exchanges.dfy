/** Exactly what one exchange with the daemon yields, and that a daemon that does its job is understood. */
module Exchanges {
  import opened Basics
  import opened Core
  import opened Ipc
  import opened Client
  import opened Sessions

  /// One request

  /** Nothing local stands in the way of the request. */
  predicate Ready(world: World, s: Session, body: RequestBody) {
    && !s.failed && MaySend(s.capabilities, body) && s.next.Some?
    && SmallEnough(world, s.capabilities, Request(IPC_VERSION, s.next.value, body))
  }

  /** What has been sent once this request is. */
  function Sent(s: Session, body: RequestBody): seq<Request>
    requires s.next.Some?
  {
    s.sent + [Request(IPC_VERSION, s.next.value, body)]
  }

  /**
   A request is sent exactly if nothing local stands in its way, and its call succeeds with exactly the body of
   an acceptable response within the limits, which leaves the session usable.  The daemon's own error leaves it
   usable too; after anything else it has failed.
   */
  lemma SendExactly(world: World, s: Session, body: RequestBody, mutating: bool, answer: ResponseBody, error: StableError)
    ensures var (after, r) := Send(world, s, body, mutating);
            && (Ready(world, s, body) <==> Sends(world, s, after, body))
            && (r == Ok(answer) <==>
                  && Ready(world, s, body) && Accepted(world, Sent(s, body), s.maxResponseBytes, answer)
                  && WithinLimits(s.capabilities, answer))
            && (r == Err(Remote(error)) <==>
                  Ready(world, s, body) && Refused(world, Sent(s, body), s.maxResponseBytes, error))
            && (Ready(world, s, body) ==> (after.failed <==> r.Err? && !r.error.Remote?))
            && (!Ready(world, s, body) ==> Silent(s, after) && LocalError(r))
            && after.capabilities == s.capabilities && after.maxResponseBytes == s.maxResponseBytes
  {
    hide ValidateRequest, MaySend, Answers, Relevant;
    GateExact(s.capabilities, body);
    if s.next.Some? {
      var request := Request(IPC_VERSION, s.next.value, body);
      assert Sent(s, body)[|Sent(s, body)| - 1] == request;
      var reply := world.respond(Sent(s, body));
      if reply.Delivered? && reply.wire.decoded.Some? {
        RelevantExactly(body, reply.wire.decoded.value.body);
      }
    }
    if ValidateRequest(s.capabilities, body).Err? {
      LocalRefusal(s.capabilities, body);
    }
    NotBoth(world, s, Send(world, s, body, mutating).0, body);
  }

  lemma NotBoth(world: World, s: Session, after: Session, body: RequestBody)
    ensures !(Silent(s, after) && Sends(world, s, after, body))
  {
    assert Sends(world, s, after, body) ==> |after.sent| == |s.sent| + 1;
  }

  /** What keeps a request from being sent, in the order of the checks. */
  lemma HeldBackFor(world: World, s: Session, body: RequestBody, mutating: bool)
    ensures var r := Send(world, s, body, mutating).1;
            && (s.failed ==> r == Err(SessionFailed))
            && (!s.failed && s.capabilities.None? && !body.GetCapabilities? ==> r == Err(NotNegotiated))
            && (!s.failed && s.capabilities.Some? && !body.GetCapabilities? && Needs(body) !in s.capabilities.value.granted ==>
                  r == Err(CapabilityDenied(Needs(body))))
            && (!s.failed && MaySend(s.capabilities, body) && s.next.None? ==> r == Err(RequestIdExhausted))
            && (!s.failed && MaySend(s.capabilities, body) && s.next.Some? ==>
                  var size := world.size(Request(IPC_VERSION, s.next.value, body));
                  && (size.None? ==> r == Err(Encode))
                  && (size.Some? && size.value > RequestLimit(s.capabilities) ==> r == Err(RequestTooLarge(RequestLimit(s.capabilities)))))
  {
    hide CheckLimits, Conclude;
    GateExact(s.capabilities, body);
  }

  /** What is wrong with a reply that is neither an acceptable response nor the daemon's error. */
  lemma FailsFor(world: World, s: Session, body: RequestBody)
    requires Ready(world, s, body)
    ensures var r := Send(world, s, body, false).1;
            var reply := world.respond(Sent(s, body));
            && (r == Err(TransportFailed) <==> reply.Broken?)
            && (r == Err(ResponseTooLarge(s.maxResponseBytes)) <==> reply.Delivered? && reply.wire.length > s.maxResponseBytes)
            && (r == Err(Decode) <==> reply.Delivered? && reply.wire.length <= s.maxResponseBytes && reply.wire.decoded.None?)
            && (reply.Delivered? && reply.wire.length <= s.maxResponseBytes && reply.wire.decoded.Some? ==>
                  var response := reply.wire.decoded.value;
                  var addressed := response.version == IPC_VERSION && response.id == s.next.value;
                  && (response.version != IPC_VERSION ==> r == Err(ClientError.UnsupportedVersion(response.version)))
                  && (response.version == IPC_VERSION && !addressed ==> r == Err(RequestIdMismatch))
                  && (addressed && !response.body.ErrorResponse? && !Relevant(body, response.body) ==> r == Err(UnexpectedResponse)))
  {
    hide ValidateRequest, MaySend, Answers, Relevant;
    GateExact(s.capabilities, body);
    var reply := world.respond(Sent(s, body));
    if reply.Delivered? && reply.wire.decoded.Some? {
      RelevantExactly(body, reply.wire.decoded.value.body);
    }
  }

  /** A push tells the same, but as a push of unknown outcome. */
  lemma PushFailsFor(world: World, s: Session, body: RequestBody)
    requires Ready(world, s, body)
    ensures var plain, push := Send(world, s, body, false), Send(world, s, body, true);
            && push.0 == plain.0
            && push.1 == if plain.1.Err? && !plain.1.error.Remote? then Err(PushIndeterminate(plain.1.error)) else plain.1
  {
    hide ValidateRequest, MaySend, ValidateResponse;
    GateExact(s.capabilities, body);
  }

  /// Negotiation

  /** Of this version, with no capability twice. */
  ghost predicate WellGranted(capabilities: CapabilitySet) {
    && capabilities.protocolVersion == IPC_VERSION
    && forall i, j :: 0 <= i < j < |capabilities.granted| ==> capabilities.granted[i].Rank() < capabilities.granted[j].Rank()
  }

  lemma WellGrantedExactly(capabilities: CapabilitySet)
    ensures ValidCapabilities(capabilities) <==> WellGranted(capabilities)
  {
    if StrictlySorted(capabilities.granted) {
      forall i, j | 0 <= i < j < |capabilities.granted|
        ensures capabilities.granted[i].Rank() < capabilities.granted[j].Rank()
      {
        GrantedApart(capabilities.granted, i, j);
      }
    }
  }

  /**
   Negotiation yields the capabilities that are held already; otherwise exactly those of an acceptable and sound
   answer to a capability request, which are held from then on.
   */
  lemma NegotiateExactly(world: World, s: Session, capabilities: CapabilitySet)
    ensures var (after, r) := Negotiate(world, s);
            && (s.capabilities.Some? ==> after == s && r == Ok(s.capabilities.value))
            && (s.capabilities.None? ==>
                  (r == Ok(capabilities) <==>
                     && Ready(world, s, GetCapabilities) && WellGranted(capabilities)
                     && Accepted(world, Sent(s, GetCapabilities), s.maxResponseBytes, Capabilities(capabilities))))
            && (r == Ok(capabilities) ==>
                  && after.capabilities == Some(capabilities) && after.maxResponseBytes == s.maxResponseBytes
                  && (s.capabilities.None? ==> Sends(world, s, after, GetCapabilities) && !after.failed))
  {
    hide Send, Relevant, MaySend, Ready, ValidCapabilities, WellGranted;
    WellGrantedExactly(capabilities);
    if s.capabilities.None? {
      var (after, outcome) := Send(world, s, GetCapabilities, false);
      SendExactly(world, s, GetCapabilities, false, Capabilities(capabilities), StableError(0, None));
      if outcome.Ok? {
        SendExactly(world, s, GetCapabilities, false, outcome.value, StableError(0, None));
      }
    }
  }
}
