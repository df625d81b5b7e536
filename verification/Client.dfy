/** The single-flight IPC client: crates/styrene-git-remote/src/client.rs. */
module Client {
  import opened Basics
  import opened Core
  import opened Ipc

  const BOOTSTRAP_MAX_REQUEST_BYTES: u64 := 4096

  datatype Field = Wants | Haves | ReferenceUpdates | Page | Pack

  datatype ClientError =
    | InvalidConfig
    | RequestIdExhausted
    | NotNegotiated
    | SessionFailed
    | CapabilityDenied(capability: Capability)
    | CountLimitExceeded(field: Field, limit: nat)
    | ByteLimitExceeded(field: Field, limit: nat)
    | RequestTooLarge(limit: nat)
    | ResponseTooLarge(limit: nat)
    | Encode
    | Decode
    | UnsupportedVersion(version: u16)
    | RequestIdMismatch
    | UnexpectedResponse
    | Remote(error: StableError)
    | TransportFailed
    | PushIndeterminate(source: ClientError)
    | InvalidCapabilities

  /** Response bytes: how many, and what canonical decoding makes of them. */
  datatype Wire = Wire(length: nat, decoded: Option<Response>)

  datatype Reply = Delivered(wire: Wire) | Broken

  /**
   What the client does not control: the encoded size of a request (none if it cannot be encoded), and
   what the transport answers, which may depend on everything sent so far.
   */
  datatype World = World(size: Request -> Option<nat>, respond: seq<Request> -> Reply)

  /** The client's fields, and the requests handed to the transport so far. */
  datatype Session = Session(
    next: Option<u128>, maxResponseBytes: u64, capabilities: Option<CapabilitySet>, failed: bool, sent: seq<Request>)

  /// Checks

  function RequireCapability(granted: seq<Capability>, required: Capability): Result<(), ClientError> {
    if required in granted then Ok(()) else Err(CapabilityDenied(required))
  }

  function RequireCount(field: Field, actual: nat, limit: nat): Result<(), ClientError> {
    if actual <= limit then Ok(()) else Err(CountLimitExceeded(field, limit))
  }

  function RequireBytes(field: Field, actual: nat, limit: u64): Result<(), ClientError> {
    if actual <= limit then Ok(()) else Err(ByteLimitExceeded(field, limit))
  }

  /** The capability a request needs. */
  function Needs(body: RequestBody): Capability
    requires !body.GetCapabilities?
  {
    match body
    case ListRefs(_, _) => ReadRepository
    case ListPushRefs(_) => WriteOwnNamespace
    case Fetch(_, _, _, _) => ReadRepository
    case Push(_, _, _) => WriteOwnNamespace
    case StartSynchronization(_, _, _) => RequestSynchronization
    case GetOperation(_) => ReadOperations
    case ListObservations(_, _, _) => ReadOperations
    case CancelOperation(_) => CancelOperations
  }

  function CheckLimits(body: RequestBody, limits: Limits): Result<(), ClientError> {
    match body
    case Fetch(_, _, wants, haves) =>
      var _ :- RequireCount(Wants, |wants|, limits.maxWants);
      RequireCount(Haves, |haves|, limits.maxHaves)
    case Push(_, updates, pack) =>
      var _ :- RequireCount(ReferenceUpdates, |updates|, limits.maxRefUpdates);
      RequireBytes(Pack, |pack|, limits.maxPackBytes)
    case ListObservations(_, _, limit) => RequireCount(Page, limit, limits.maxObservationsPerPage)
    case _ => Ok(())
  }

  function ValidateRequest(capabilities: Option<CapabilitySet>, body: RequestBody): Result<(), ClientError> {
    if body.GetCapabilities? then Ok(())
    else if capabilities.None? then Err(NotNegotiated)
    else
      var _ :- RequireCapability(capabilities.value.granted, Needs(body));
      CheckLimits(body, capabilities.value.limits)
  }

  /** Whether a response is of the kind, and about the thing, the request asked for. */
  predicate Answers(request: RequestBody, response: ResponseBody) {
    match request
    case GetCapabilities => response.Capabilities?
    case ListRefs(repository, view) =>
      response.Refs? && response.listing.repository == repository && response.listing.view == view
    case ListPushRefs(repository) => response.PushRefs? && response.pushListing.repository == repository
    case Fetch(_, _, _, _) => response.FetchPack?
    case Push(repository, _, _) => response.PushCommitted? && response.result.state.repository == repository
    case StartSynchronization(repository, view, _) =>
      response.OperationStatus? && response.status.repository == repository && response.status.kind == Synchronize(view)
    case GetOperation(operation) => response.OperationStatus? && response.status.id == operation
    case CancelOperation(operation) => response.OperationStatus? && response.status.id == operation
    case ListObservations(operation, _, _) => response.Observations? && response.page.operation == operation
  }

  function CheckResponseLimits(capabilities: Option<CapabilitySet>, body: ResponseBody): Result<(), ClientError> {
    if capabilities.None? then Ok(())
    else if body.FetchPack? then RequireBytes(Pack, |body.pack|, capabilities.value.limits.maxPackBytes)
    else if body.Observations? then
      RequireCount(Page, |body.page.observations|, capabilities.value.limits.maxObservationsPerPage)
    else Ok(())
  }

  function ValidateResponse(s: Session, request: Request, wire: Wire): Result<ResponseBody, ClientError> {
    if wire.length > s.maxResponseBytes then Err(ResponseTooLarge(s.maxResponseBytes))
    else if wire.decoded.None? then Err(Decode)
    else
      var response := wire.decoded.value;
      if response.version != IPC_VERSION then Err(ClientError.UnsupportedVersion(response.version))
      else if response.id != request.id then Err(RequestIdMismatch)
      else if response.body.ErrorResponse? then Err(Remote(response.body.error))
      else if !Answers(request.body, response.body) then Err(UnexpectedResponse)
      else
        var _ :- CheckResponseLimits(s.capabilities, response.body);
        Ok(response.body)
  }

  /// One exchange

  function RequestLimit(capabilities: Option<CapabilitySet>): u64 {
    if capabilities.None? then BOOTSTRAP_MAX_REQUEST_BYTES else capabilities.value.limits.maxRequestBytes
  }

  function Successor(id: u128): Option<u128> {
    if id == U128_MAX then None else Some(id + 1)
  }

  /** What an exchange that failed reports. */
  function Failure(error: ClientError, mutating: bool): ClientError {
    if mutating then PushIndeterminate(error) else error
  }

  /** The session and the outcome once the transport has replied to the last request sent. */
  function Conclude(s: Session, request: Request, reply: Reply, mutating: bool): (Session, Result<ResponseBody, ClientError>) {
    match reply
    case Broken => (s.(failed := true), Err(Failure(TransportFailed, mutating)))
    case Delivered(wire) =>
      match ValidateResponse(s, request, wire)
      case Ok(body) => (s, Ok(body))
      case Err(error) =>
        if error.Remote? then (s, Err(error)) else (s.(failed := true), Err(Failure(error, mutating)))
  }

  function Send(world: World, s: Session, body: RequestBody, mutating: bool): (Session, Result<ResponseBody, ClientError>) {
    if s.failed then (s, Err(SessionFailed))
    else
      var valid := ValidateRequest(s.capabilities, body);
      if valid.Err? then (s, Err(valid.error))
      else if s.next.None? then (s, Err(RequestIdExhausted))
      else
        var request := Request(IPC_VERSION, s.next.value, body);
        var numbered := s.(next := Successor(s.next.value));
        var size := world.size(request);
        if size.None? then (numbered, Err(Encode))
        else if size.value > RequestLimit(s.capabilities) then (numbered, Err(RequestTooLarge(RequestLimit(s.capabilities))))
        else
          var sent := numbered.(sent := s.sent + [request]);
          Conclude(sent, request, world.respond(sent.sent), mutating)
  }

  predicate ValidCapabilities(capabilities: CapabilitySet) {
    capabilities.protocolVersion == IPC_VERSION && StrictlySorted(capabilities.granted)
  }

  function Negotiate(world: World, s: Session): (Session, Result<CapabilitySet, ClientError>) {
    if s.capabilities.Some? then (s, Ok(s.capabilities.value))
    else
      var (after, outcome) := Send(world, s, GetCapabilities, false);
      if outcome.Err? then (after, Err(outcome.error))
      else if !outcome.value.Capabilities? then (after, Err(UnexpectedResponse))
      else if !ValidCapabilities(outcome.value.capabilities) then (after.(failed := true), Err(InvalidCapabilities))
      else (after.(capabilities := Some(outcome.value.capabilities)), Ok(outcome.value.capabilities))
  }

  /** Everything but negotiation: only a push is mutating. */
  function Ask(world: World, s: Session, body: RequestBody): (Session, Result<ResponseBody, ClientError>) {
    Send(world, s, body, body.Push?)
  }

  function Begin(initialRequestId: u128, maxResponseBytes: u64): Session {
    Session(Some(initialRequestId), maxResponseBytes, None, false, [])
  }

  /// The client

  /** The carrier; it answers as it likes. */
  class Transport {
    const respond: seq<Request> -> Reply
    var sent: seq<Request>

    constructor (respond: seq<Request> -> Reply)
      ensures this.respond == respond && sent == []
    {
      this.respond, sent := respond, [];
    }

    method Exchange(request: Request) returns (reply: Reply)
      modifies this
      ensures sent == old(sent) + [request] && reply == respond(sent)
    {
      sent := sent + [request];
      reply := respond(sent);
    }
  }

  class GitIpcClient {
    const transport: Transport
    const encodedSize: Request -> Option<nat>
    const maxResponseBytes: u64
    var nextRequestId: Option<u128>
    var capabilities: Option<CapabilitySet>
    var failed: bool

    /** The fields `new` fills in. */
    constructor (transport: Transport, encodedSize: Request -> Option<nat>, initialRequestId: u128, maxResponseBytes: u64)
      requires maxResponseBytes > 0
      ensures Valid() && Contents() == Begin(initialRequestId, maxResponseBytes).(sent := transport.sent)
      ensures this.transport == transport && TheWorld() == World(encodedSize, transport.respond)
    {
      this.transport, this.encodedSize, this.maxResponseBytes := transport, encodedSize, maxResponseBytes;
      nextRequestId, capabilities, failed := Some(initialRequestId), None, false;
    }

    predicate Valid()
      reads this
    {
      capabilities.Some? ==> StrictlySorted(capabilities.value.granted)
    }

    function TheWorld(): World {
      World(encodedSize, transport.respond)
    }

    function Contents(): Session
      reads this, transport
    {
      Session(nextRequestId, maxResponseBytes, capabilities, failed, transport.sent)
    }

    method NextId() returns (r: Result<RequestId, ClientError>)
      requires Valid()
      modifies this`nextRequestId
      ensures Valid()
      ensures old(nextRequestId).None? ==> r == Err(RequestIdExhausted) && nextRequestId == None
      ensures old(nextRequestId).Some? ==> r == Ok(old(nextRequestId).value) && nextRequestId == Successor(old(nextRequestId).value)
    {
      if nextRequestId.None? {
        return Err(RequestIdExhausted);
      }
      r := Ok(nextRequestId.value);
      nextRequestId := Successor(nextRequestId.value);
    }

    method CheckRequest(body: RequestBody) returns (r: Result<(), ClientError>)
      requires Valid()
      ensures r == ValidateRequest(capabilities, body)
    {
      if body.GetCapabilities? {
        return Ok(());
      }
      if capabilities.None? {
        return Err(NotNegotiated);
      }
      var granted := IsGranted(capabilities.value.granted, Needs(body));
      if !granted {
        return Err(CapabilityDenied(Needs(body)));
      }
      return CheckLimits(body, capabilities.value.limits);
    }

    /** `send` */
    method SendRequest(body: RequestBody, mutating: bool) returns (r: Result<ResponseBody, ClientError>)
      requires Valid()
      modifies this, transport
      ensures Valid()
      ensures (Contents(), r) == Send(TheWorld(), old(Contents()), body, mutating)
    {
      if failed {
        return Err(SessionFailed);
      }
      var valid := CheckRequest(body);
      if valid.Err? {
        return Err(valid.error);
      }
      var id := NextId();
      if id.Err? {
        return Err(id.error);
      }
      var request := Request(IPC_VERSION, id.value, body);
      var size := encodedSize(request);
      if size.None? {
        return Err(Encode);
      }
      if size.value > RequestLimit(capabilities) {
        return Err(RequestTooLarge(RequestLimit(capabilities)));
      }
      var reply := transport.Exchange(request);
      if reply.Broken? {
        failed := true;
        return Err(Failure(TransportFailed, mutating));
      }
      r := ValidateResponse(Contents(), request, reply.wire);
      if r.Err? && !r.error.Remote? {
        failed := true;
        r := Err(Failure(r.error, mutating));
      }
    }

    /** `negotiate` */
    method NegotiateCapabilities() returns (r: Result<CapabilitySet, ClientError>)
      requires Valid()
      modifies this, transport
      ensures Valid()
      ensures (Contents(), r) == Negotiate(TheWorld(), old(Contents()))
    {
      if capabilities.Some? {
        return Ok(capabilities.value);
      }
      var body := SendRequest(GetCapabilities, false);
      if body.Err? {
        return Err(body.error);
      }
      if !body.value.Capabilities? {
        return Err(UnexpectedResponse);
      }
      var granted := body.value.capabilities;
      if !ValidCapabilities(granted) {
        failed := true;
        return Err(InvalidCapabilities);
      }
      capabilities := Some(granted);
      return Ok(granted);
    }

    method ListRefs(repository: RepositoryId, view: RepositoryView) returns (r: Result<RefListing, ClientError>)
      requires Valid()
      modifies this, transport
      ensures Valid()
      ensures var (after, answer) := Ask(TheWorld(), old(Contents()), RequestBody.ListRefs(repository, view));
              Contents() == after && r == RefsIn(answer)
    {
      var answer := SendRequest(RequestBody.ListRefs(repository, view), false);
      return RefsIn(answer);
    }

    method ListPushRefs(repository: RepositoryId) returns (r: Result<PushRefListing, ClientError>)
      requires Valid()
      modifies this, transport
      ensures Valid()
      ensures var (after, answer) := Ask(TheWorld(), old(Contents()), RequestBody.ListPushRefs(repository));
              Contents() == after && r == PushRefsIn(answer)
    {
      var answer := SendRequest(RequestBody.ListPushRefs(repository), false);
      return PushRefsIn(answer);
    }

    method Fetch(repository: RepositoryId, view: RepositoryView, wants: seq<GitObjectId>, haves: seq<GitObjectId>)
      returns (r: Result<Bytes, ClientError>)
      requires Valid()
      modifies this, transport
      ensures Valid()
      ensures var (after, answer) := Ask(TheWorld(), old(Contents()), RequestBody.Fetch(repository, view, wants, haves));
              Contents() == after && r == PackIn(answer)
    {
      var answer := SendRequest(RequestBody.Fetch(repository, view, wants, haves), false);
      return PackIn(answer);
    }

    method Push(repository: RepositoryId, updates: seq<RefUpdate>, pack: Bytes) returns (r: Result<PushResult, ClientError>)
      requires Valid()
      modifies this, transport
      ensures Valid()
      ensures var (after, answer) := Ask(TheWorld(), old(Contents()), RequestBody.Push(repository, updates, pack));
              Contents() == after && r == ResultIn(answer)
    {
      var answer := SendRequest(RequestBody.Push(repository, updates, pack), true);
      return ResultIn(answer);
    }

    /** `start_synchronization`, `get_operation` and `cancel_operation` differ in the request only. */
    method RequestOperation(body: RequestBody) returns (r: Result<Operation, ClientError>)
      requires Valid() && (body.StartSynchronization? || body.GetOperation? || body.CancelOperation?)
      modifies this, transport
      ensures Valid()
      ensures var (after, answer) := Ask(TheWorld(), old(Contents()), body);
              Contents() == after && r == OperationIn(answer)
    {
      var answer := SendRequest(body, false);
      return OperationIn(answer);
    }

    method ListObservations(operation: OperationId, since: Option<u64>, limit: u16) returns (r: Result<ObservationPage, ClientError>)
      requires Valid()
      modifies this, transport
      ensures Valid()
      ensures var (after, answer) := Ask(TheWorld(), old(Contents()), RequestBody.ListObservations(operation, since, limit));
              Contents() == after && r == PageIn(answer)
    {
      var answer := SendRequest(RequestBody.ListObservations(operation, since, limit), false);
      return PageIn(answer);
    }
  }

  /** `GitIpcClient::new` */
  method NewClient(transport: Transport, encodedSize: Request -> Option<nat>, initialRequestId: u128, maxResponseBytes: u64)
    returns (r: Result<GitIpcClient, ClientError>)
    ensures r.Err? <==> maxResponseBytes == 0
    ensures r.Err? ==> r.error == InvalidConfig
    ensures r.Ok? ==> fresh(r.value) && r.value.Valid() && r.value.TheWorld() == World(encodedSize, transport.respond)
    ensures r.Ok? ==> r.value.Contents() == Begin(initialRequestId, maxResponseBytes).(sent := transport.sent)
  {
    if maxResponseBytes == 0 {
      return Err(InvalidConfig);
    }
    var client := new GitIpcClient(transport, encodedSize, initialRequestId, maxResponseBytes);
    return Ok(client);
  }

  /// What a call takes from an answer; any other kind is an unexpected response

  type Answer = Result<ResponseBody, ClientError>

  function RefsIn(answer: Answer): Result<RefListing, ClientError> {
    var body :- answer;
    if body.Refs? then Ok(body.listing) else Err(UnexpectedResponse)
  }

  function PushRefsIn(answer: Answer): Result<PushRefListing, ClientError> {
    var body :- answer;
    if body.PushRefs? then Ok(body.pushListing) else Err(UnexpectedResponse)
  }

  function PackIn(answer: Answer): Result<Bytes, ClientError> {
    var body :- answer;
    if body.FetchPack? then Ok(body.pack) else Err(UnexpectedResponse)
  }

  function ResultIn(answer: Answer): Result<PushResult, ClientError> {
    var body :- answer;
    if body.PushCommitted? then Ok(body.result) else Err(UnexpectedResponse)
  }

  function OperationIn(answer: Answer): Result<Operation, ClientError> {
    var body :- answer;
    if body.OperationStatus? then Ok(body.status) else Err(UnexpectedResponse)
  }

  function PageIn(answer: Answer): Result<ObservationPage, ClientError> {
    var body :- answer;
    if body.Observations? then Ok(body.page) else Err(UnexpectedResponse)
  }
}
