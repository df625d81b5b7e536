/** What holds of every trace of requests a client sends, whatever it is called with and answered. */
module Sessions {
  import opened Basics
  import opened Core
  import opened Ipc
  import opened Client

  /** A call of the client: negotiation, or a request body a method builds. */
  datatype Call = NegotiateCall | AskCall(body: RequestBody)

  predicate ValidCall(call: Call) {
    call.AskCall? ==> !call.body.GetCapabilities?
  }

  function Perform(world: World, s: Session, call: Call): (Session, Answer) {
    match call
    case AskCall(body) => Ask(world, s, body)
    case NegotiateCall =>
      var (after, r) := Negotiate(world, s);
      (after, if r.Ok? then Ok(Capabilities(r.value)) else Err(r.error))
  }

  predicate ValidCalls(calls: seq<Call>) {
    forall i :: 0 <= i < |calls| ==> ValidCall(calls[i])
  }

  /** The session after the calls. */
  function After(world: World, s: Session, calls: seq<Call>): Session {
    if calls == [] then s
    else Perform(world, After(world, s, calls[..|calls| - 1]), calls[|calls| - 1]).0
  }

  /** The outcome of the k-th call. */
  function OutcomeAt(world: World, s: Session, calls: seq<Call>, k: nat): Answer
    requires k < |calls|
  {
    Perform(world, After(world, s, calls[..k]), calls[k]).1
  }

  /// One call

  /** What a request may be under these capabilities. */
  predicate Permitted(capabilities: CapabilitySet, body: RequestBody) {
    var limits := capabilities.limits;
    match body
    case GetCapabilities => true
    case ListRefs(_, _) => ReadRepository in capabilities.granted
    case ListPushRefs(_) => WriteOwnNamespace in capabilities.granted
    case Fetch(_, _, wants, haves) =>
      ReadRepository in capabilities.granted && |wants| <= limits.maxWants && |haves| <= limits.maxHaves
    case Push(_, updates, pack) =>
      WriteOwnNamespace in capabilities.granted && |updates| <= limits.maxRefUpdates && |pack| <= limits.maxPackBytes
    case StartSynchronization(_, _, _) => RequestSynchronization in capabilities.granted
    case GetOperation(_) => ReadOperations in capabilities.granted
    case ListObservations(_, _, limit) =>
      ReadOperations in capabilities.granted && limit <= limits.maxObservationsPerPage
    case CancelOperation(_) => CancelOperations in capabilities.granted
  }

  /** Capability requests may always be sent, others once negotiation permits them. */
  predicate MaySend(capabilities: Option<CapabilitySet>, body: RequestBody) {
    body.GetCapabilities? || (capabilities.Some? && Permitted(capabilities.value, body))
  }

  /** The gate opens exactly for permitted requests, after negotiation. */
  lemma GateExact(capabilities: Option<CapabilitySet>, body: RequestBody)
    ensures ValidateRequest(capabilities, body).Ok? <==> MaySend(capabilities, body)
  {
  }

  /** A response of the kind that was asked for, about the repository, view or operation that was asked about. */
  predicate Relevant(request: RequestBody, response: ResponseBody) {
    match response
    case Capabilities(_) => request == GetCapabilities
    case Refs(listing) => request == RequestBody.ListRefs(listing.repository, listing.view)
    case PushRefs(listing) => request == RequestBody.ListPushRefs(listing.repository)
    case FetchPack(_) => request.Fetch?
    case PushCommitted(result) => request.Push? && request.repository == result.state.repository
    case OperationStatus(operation) =>
      || (request.StartSynchronization? && request.repository == operation.repository
          && operation.kind == Synchronize(request.view))
      || request == GetOperation(operation.id) || request == RequestBody.CancelOperation(operation.id)
    case Observations(page) => request.ListObservations? && request.operation == page.operation
    case ErrorResponse(_) => false
  }

  lemma RelevantExactly(request: RequestBody, response: ResponseBody)
    ensures Answers(request, response) <==> Relevant(request, response)
    ensures response.ErrorResponse? ==> !Relevant(request, response)
  {
  }

  /** No pack and no page larger than was granted. */
  predicate WithinLimits(capabilities: Option<CapabilitySet>, body: ResponseBody) {
    capabilities.Some? ==>
      && (body.FetchPack? ==> |body.pack| <= capabilities.value.limits.maxPackBytes)
      && (body.Observations? ==> |body.page.observations| <= capabilities.value.limits.maxObservationsPerPage)
  }

  /** A response to `request` as the client accepts it. */
  predicate Accepted(world: World, sent: seq<Request>, maxResponseBytes: u64, body: ResponseBody) {
    && sent != []
    && var reply := world.respond(sent);
       var request := sent[|sent| - 1];
    && reply.Delivered? && reply.wire.length <= maxResponseBytes
    && reply.wire.decoded == Some(Response(IPC_VERSION, request.id, body))
    && Relevant(request.body, body)
  }

  /** The daemon's own error, addressed to this request. */
  predicate Refused(world: World, sent: seq<Request>, maxResponseBytes: u64, error: StableError) {
    && sent != []
    && var reply := world.respond(sent);
    && reply.Delivered? && reply.wire.length <= maxResponseBytes
    && reply.wire.decoded == Some(Response(IPC_VERSION, sent[|sent| - 1].id, ErrorResponse(error)))
  }

  /** The largest request that may be sent: small before negotiation, as granted after it. */
  predicate SmallEnough(world: World, capabilities: Option<CapabilitySet>, request: Request) {
    && world.size(request).Some?
    && world.size(request).value <= if capabilities.Some? then capabilities.value.limits.maxRequestBytes else 4096
  }

  /** One more request is sent, under the next id, permitted, and no larger than allowed. */
  predicate Sends(world: World, s: Session, after: Session, body: RequestBody) {
    && s.next.Some?
    && after.next == (if s.next.value == U128_MAX then None else Some(s.next.value + 1))
    && var request := Request(IPC_VERSION, s.next.value, body);
    && after.sent == s.sent + [request]
    && MaySend(s.capabilities, body) && SmallEnough(world, s.capabilities, request)
  }

  /** Nothing is sent; at most an id is skipped. */
  predicate Silent(s: Session, after: Session) {
    && after.sent == s.sent && after.failed == s.failed
    && (after.next == s.next || (s.next.Some? && after.next == Successor(s.next.value)))
  }

  predicate LocalError(r: Answer) {
    r.Err? && !r.error.PushIndeterminate? && !r.error.Remote?
  }

  /** How an exchange ends, and what of it the caller is told. */
  predicate Concluded(world: World, s: Session, after: Session, mutating: bool, r: Answer) {
    match r
    case Ok(body) =>
      && !after.failed && Accepted(world, after.sent, s.maxResponseBytes, body)
      && WithinLimits(s.capabilities, body)
    case Err(error) =>
      if error.Remote? then !after.failed && Refused(world, after.sent, s.maxResponseBytes, error.error)
      else after.failed && (error.PushIndeterminate? <==> mutating)
  }

  lemma LocalRefusal(capabilities: Option<CapabilitySet>, body: RequestBody)
    requires ValidateRequest(capabilities, body).Err?
    ensures var error := ValidateRequest(capabilities, body).error;
            error.NotNegotiated? || error.CapabilityDenied? || error.CountLimitExceeded? || error.ByteLimitExceeded?
  {
  }

  lemma ConcludeCases(world: World, s: Session, body: RequestBody, mutating: bool)
    requires s.sent != [] && s.sent[|s.sent| - 1].body == body && !s.failed
    ensures var (after, r) := Conclude(s, s.sent[|s.sent| - 1], world.respond(s.sent), mutating);
            && after.sent == s.sent && after.next == s.next
            && after.capabilities == s.capabilities && after.maxResponseBytes == s.maxResponseBytes
            && Concluded(world, s, after, mutating, r)
  {
    hide Answers, Relevant;
    var reply := world.respond(s.sent);
    if reply.Delivered? && reply.wire.decoded.Some? {
      RelevantExactly(body, reply.wire.decoded.value.body);
    }
  }

  /** Everything one `send` can do. */
  lemma SendCases(world: World, s: Session, body: RequestBody, mutating: bool)
    ensures var (after, r) := Send(world, s, body, mutating);
            && after.capabilities == s.capabilities && after.maxResponseBytes == s.maxResponseBytes
            && ((Silent(s, after) && LocalError(r))
                || (!s.failed && Sends(world, s, after, body) && Concluded(world, s, after, mutating, r)))
  {
    hide Conclude, Concluded, ValidateRequest, MaySend;
    GateExact(s.capabilities, body);
    if !s.failed {
      if ValidateRequest(s.capabilities, body).Err? {
        LocalRefusal(s.capabilities, body);
      } else if s.next.Some? {
        var request := Request(IPC_VERSION, s.next.value, body);
        var sent := s.(next := Successor(s.next.value), sent := s.sent + [request]);
        ConcludeCases(world, sent, body, mutating);
        ConcludedSame(world, s, sent, Conclude(sent, request, world.respond(sent.sent), mutating).0, mutating,
                      Conclude(sent, request, world.respond(sent.sent), mutating).1);
      }
    }
  }

  lemma ConcludedSame(world: World, s: Session, t: Session, after: Session, mutating: bool, r: Answer)
    requires s.maxResponseBytes == t.maxResponseBytes && s.capabilities == t.capabilities
    requires Concluded(world, t, after, mutating, r)
    ensures Concluded(world, s, after, mutating, r)
  {
  }

  /** A push that could have had an effect is never reported as a local error, nor as success unless committed. */
  lemma PushNeverSilent(world: World, s: Session, repository: RepositoryId, updates: seq<RefUpdate>, pack: Bytes)
    ensures var body := Push(repository, updates, pack);
            var (after, answer) := Ask(world, s, body);
            var r := ResultIn(answer);
            && (after.sent == s.sent || Sends(world, s, after, body))
            && (after.sent == s.sent <==> r.Err? && !r.error.PushIndeterminate? && !r.error.Remote?)
            && (r.Ok? ==> && Accepted(world, after.sent, s.maxResponseBytes, PushCommitted(r.value))
                          && r.value.state.repository == repository)
            && (r.Err? && r.error.Remote? ==> Refused(world, after.sent, s.maxResponseBytes, r.error.error))
            && (r.Err? && r.error.PushIndeterminate? ==> after.failed)
  {
    hide ValidateRequest, Send;
    var body := Push(repository, updates, pack);
    var (after, answer) := Ask(world, s, body);
    SendCases(world, s, body, true);
    if after.sent != s.sent {
      assert after.sent[|after.sent| - 1].body == body;
    } else {
      assert !Sends(world, s, after, body) by {
        assert |after.sent| == |s.sent|;
      }
    }
  }

  /** The calls' fallback arms are dead: no accepted answer is of another kind. */
  lemma FallbackUnreachable(world: World, s: Session, body: RequestBody)
    requires Ask(world, s, body).1.Ok?
    ensures var answer := Ask(world, s, body).1;
            && (body.ListRefs? ==> RefsIn(answer).Ok?)
            && (body.ListPushRefs? ==> PushRefsIn(answer).Ok?)
            && (body.Fetch? ==> PackIn(answer).Ok?)
            && (body.Push? ==> ResultIn(answer).Ok?)
            && (body.StartSynchronization? || body.GetOperation? || body.CancelOperation? ==> OperationIn(answer).Ok?)
            && (body.ListObservations? ==> PageIn(answer).Ok?)
            && (body.GetCapabilities? ==> answer.value.Capabilities?)
  {
    hide ValidateRequest, Send;
    SendCases(world, s, body, body.Push?);
  }

  /// Whole sessions

  /** The k-th request answered with these capabilities, and they were valid. */
  predicate NegotiatedBy(world: World, s: Session, k: int)
    requires 0 <= k < |s.sent|
  {
    && s.sent[k].body.GetCapabilities? && s.capabilities.Some?
    && Accepted(world, s.sent[..k + 1], s.maxResponseBytes, Capabilities(s.capabilities.value))
    && ValidCapabilities(s.capabilities.value)
  }

  /** What every request sent satisfies. */
  predicate Gated(world: World, s: Session, k: int)
    requires 0 <= k < |s.sent|
  {
    var request := s.sent[k];
    && request.version == IPC_VERSION && world.size(request).Some?
    && if request.body.GetCapabilities? then world.size(request).value <= BOOTSTRAP_MAX_REQUEST_BYTES
       else
         && (exists j :: 0 <= j < k && NegotiatedBy(world, s, j))
         && Permitted(s.capabilities.value, request.body)
         && world.size(request).value <= s.capabilities.value.limits.maxRequestBytes
  }

  predicate Increasing(start: u128, s: Session) {
    && (forall i :: 0 <= i < |s.sent| ==> start <= s.sent[i].id && (s.next.Some? ==> s.sent[i].id < s.next.value))
    && (forall i, j :: 0 <= i < j < |s.sent| ==> s.sent[i].id < s.sent[j].id)
    && (s.next.Some? ==> start <= s.next.value)
  }

  predicate Sound(world: World, start: u128, s: Session) {
    && Increasing(start, s)
    && (s.capabilities.Some? ==> exists k :: 0 <= k < |s.sent| && NegotiatedBy(world, s, k))
    && forall k :: 0 <= k < |s.sent| ==> Gated(world, s, k)
  }

  lemma IncreasingStep(world: World, start: u128, s: Session, after: Session, body: RequestBody)
    requires Increasing(start, s)
    requires Silent(s, after) || Sends(world, s, after, body)
    ensures Increasing(start, after)
  {
    hide ValidateRequest;
  }

  lemma GatedSame(world: World, s: Session, t: Session, k: nat)
    requires k < |s.sent| <= |t.sent| && s.sent == t.sent[..|s.sent|]
    requires Gated(world, s, k) && s.maxResponseBytes == t.maxResponseBytes
    requires s.capabilities == t.capabilities || s.sent[k].body.GetCapabilities?
    ensures Gated(world, t, k)
  {
    hide Permitted, Accepted;
    if !s.sent[k].body.GetCapabilities? {
      var j :| 0 <= j < k && NegotiatedBy(world, s, j);
      assert s.sent[..j + 1] == t.sent[..j + 1];
      assert NegotiatedBy(world, t, j);
    }
  }

  lemma SendKeepsSound(world: World, start: u128, s: Session, body: RequestBody, mutating: bool)
    requires Sound(world, start, s) && (body.GetCapabilities? ==> s.capabilities.None?)
    ensures Sound(world, start, Send(world, s, body, mutating).0)
  {
    hide Send, Permitted, Accepted, Concluded, Increasing;
    var after := Send(world, s, body, mutating).0;
    SendCases(world, s, body, mutating);
    IncreasingStep(world, start, s, after, body);
    GateExact(s.capabilities, body);
    if after.capabilities.Some? {
      var j :| 0 <= j < |s.sent| && NegotiatedBy(world, s, j);
      assert s.sent[..j + 1] == after.sent[..j + 1];
      assert NegotiatedBy(world, after, j);
    }
    forall k | 0 <= k < |after.sent|
      ensures Gated(world, after, k)
    {
      if k < |s.sent| {
        assert s.sent == after.sent[..|s.sent|];
        GatedSame(world, s, after, k);
      }
    }
  }

  lemma NegotiateKeepsSound(world: World, start: u128, s: Session)
    requires Sound(world, start, s)
    ensures Sound(world, start, Negotiate(world, s).0)
  {
    hide Send, Permitted, Increasing, Relevant, WithinLimits;
    if s.capabilities.None? {
      var (after, r) := Send(world, s, GetCapabilities, false);
      SendKeepsSound(world, start, s, GetCapabilities, false);
      SendCases(world, s, GetCapabilities, false);
      var t := Negotiate(world, s).0;
      FlagKeepsIncreasing(start, after, t);
      if t.capabilities.Some? {
        var last := |t.sent| - 1;
        assert t.sent[..last + 1] == t.sent;
        assert NegotiatedBy(world, t, last);
      }
      forall k | 0 <= k < |t.sent|
        ensures Gated(world, t, k)
      {
        assert Gated(world, after, k);
        assert after.sent == t.sent[..|after.sent|];
        GatedSame(world, after, t, k);
      }
    }
  }

  lemma FlagKeepsIncreasing(start: u128, s: Session, t: Session)
    requires Increasing(start, s) && t.sent == s.sent && t.next == s.next
    ensures Increasing(start, t)
  {
  }

  lemma BeginSound(world: World, start: u128, maxResponseBytes: u64)
    ensures Sound(world, start, Begin(start, maxResponseBytes))
  {
  }

  /**
   Over any run of calls: ids strictly increase from the configured one and so are never reused; every
   request but a capability request follows a valid negotiation, is permitted by the granted set and its
   limits, and is no larger than allowed.
   */
  lemma {:induction false} TraceIsSound(world: World, start: u128, maxResponseBytes: u64, calls: seq<Call>)
    requires ValidCalls(calls)
    ensures Sound(world, start, After(world, Begin(start, maxResponseBytes), calls))
  {
    hide Sound, Send, Negotiate;
    if calls == [] {
      BeginSound(world, start, maxResponseBytes);
    } else {
      var n := |calls| - 1;
      TraceIsSound(world, start, maxResponseBytes, calls[..n]);
      var s := After(world, Begin(start, maxResponseBytes), calls[..n]);
      assert ValidCall(calls[n]);
      match calls[n] {
        case NegotiateCall => NegotiateKeepsSound(world, start, s);
        case AskCall(body) => SendKeepsSound(world, start, s, body, body.Push?);
      }
    }
  }

  /// Failure is final

  lemma FailedSendsNothing(world: World, s: Session, call: Call)
    requires s.failed
    ensures Perform(world, s, call).0 == s
  {
  }

  lemma {:induction false} AfterSplits(world: World, s: Session, calls: seq<Call>, k: nat)
    requires k <= |calls|
    ensures After(world, s, calls) == After(world, After(world, s, calls[..k]), calls[k..])
    decreases |calls|
  {
    hide Perform;
    if k == |calls| {
      assert calls[..k] == calls && calls[k..] == [];
    } else {
      var n := |calls| - 1;
      AfterSplits(world, s, calls[..n], k);
      var rest := calls[k..];
      assert calls[..n][..k] == calls[..k];
      assert rest[..|rest| - 1] == calls[..n][k..] && rest[|rest| - 1] == calls[n];
    }
  }

  /** Once failed, nothing is sent, whatever is called. */
  lemma {:induction false} FailedForever(world: World, s: Session, calls: seq<Call>)
    requires s.failed
    ensures After(world, s, calls) == s
  {
    if calls != [] {
      FailedForever(world, s, calls[..|calls| - 1]);
      FailedSendsNothing(world, s, calls[|calls| - 1]);
    }
  }

  predicate Indeterminate(r: Answer) {
    r.Err? && r.error.PushIndeterminate?
  }

  /** A push with an unknown outcome is the last request of its session, and the only such push. */
  lemma IndeterminateIsLast(world: World, s: Session, calls: seq<Call>, k: nat)
    requires k < |calls| && Indeterminate(OutcomeAt(world, s, calls, k))
    ensures var end := After(world, s, calls);
            && end == After(world, s, calls[..k + 1]) && end.failed
            && |end.sent| == |After(world, s, calls[..k]).sent| + 1
            && end.sent[|end.sent| - 1].body.Push?
    ensures forall j :: 0 <= j < |calls| && Indeterminate(OutcomeAt(world, s, calls, j)) ==> j == k
  {
    hide Send;
    IndeterminateEnds(world, s, calls, k);
    forall j | 0 <= j < |calls| && Indeterminate(OutcomeAt(world, s, calls, j))
      ensures j == k
    {
      IndeterminateEnds(world, s, calls, j);
      if j < k {
        IndeterminateAlone(world, s, calls, j, k);
      } else if k < j {
        IndeterminateAlone(world, s, calls, k, j);
      }
    }
  }

  lemma IndeterminateEnds(world: World, s: Session, calls: seq<Call>, k: nat)
    requires k < |calls| && Indeterminate(OutcomeAt(world, s, calls, k))
    ensures var end := After(world, s, calls);
            && end == After(world, s, calls[..k + 1]) && end.failed
            && |end.sent| == |After(world, s, calls[..k]).sent| + 1
            && end.sent[|end.sent| - 1].body.Push?
  {
    hide Send, ValidateRequest;
    var before := After(world, s, calls[..k]);
    assert calls[..k + 1][..k] == calls[..k];
    match calls[k] {
      case AskCall(body) => SendCases(world, before, body, body.Push?);
      case NegotiateCall => SendCases(world, before, GetCapabilities, false);
    }
    AfterSplits(world, s, calls, k + 1);
    FailedForever(world, After(world, s, calls[..k + 1]), calls[k + 1..]);
  }

  lemma IndeterminateAlone(world: World, s: Session, calls: seq<Call>, j: nat, k: nat)
    requires j < k < |calls| && After(world, s, calls[..j + 1]).failed
    ensures !Indeterminate(OutcomeAt(world, s, calls, k))
  {
    assert calls[..k][..j + 1] == calls[..j + 1];
    AfterSplits(world, s, calls[..k], j + 1);
    FailedForever(world, After(world, s, calls[..j + 1]), calls[..k][j + 1..]);
  }

  /** Ids run out after the largest: from then on requests fail without being sent. */
  lemma {:induction false} ExhaustedForever(world: World, s: Session, calls: seq<Call>)
    requires s.next.None?
    ensures After(world, s, calls).sent == s.sent && After(world, s, calls).next.None?
  {
    if calls != [] {
      ExhaustedForever(world, s, calls[..|calls| - 1]);
    }
  }
}
