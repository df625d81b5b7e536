/** Requests and responses of the local daemon: crates/styrene-git-ipc/src/lib.rs. */
module Ipc {
  import opened Basics
  import opened Core

  const IPC_VERSION: u16 := 1

  /** A request identifier: its 16 bytes read as a big-endian number. */
  type RequestId = u128
  type OperationId = u128

  datatype RepositoryView = Canonical | Publisher(publisher: Identity)

  datatype RefUpdate = RefUpdate(
    name: string, expected: Option<GitObjectId>, after: Option<GitObjectId>, force: bool)

  datatype RequestBody =
    | GetCapabilities
    | ListRefs(repository: RepositoryId, view: RepositoryView)
    | Fetch(repository: RepositoryId, view: RepositoryView, wants: seq<GitObjectId>, haves: seq<GitObjectId>)
    | Push(repository: RepositoryId, updates: seq<RefUpdate>, pack: Bytes)
    | StartSynchronization(repository: RepositoryId, view: RepositoryView, labels: seq<string>)
    | GetOperation(operation: OperationId)
    | CancelOperation(operation: OperationId)
    | ListObservations(operation: OperationId, since: Option<u64>, limit: u16)
    | ListPushRefs(repository: RepositoryId)

  datatype Request = Request(version: u16, id: RequestId, body: RequestBody)

  datatype RefListing = RefListing(
    repository: RepositoryId, view: RepositoryView, refs: seq<RefTarget>, head: Option<string>)

  datatype PushRefListing = PushRefListing(repository: RepositoryId, refs: seq<RefTarget>)

  datatype PushDisposition = PushApplied | PushAlreadyPresent

  datatype PushResult = PushResult(disposition: PushDisposition, state: RefState, publication: OperationId)

  datatype Capability =
    ReadRepository | WriteOwnNamespace | RequestSynchronization | ReadOperations | CancelOperations
  {
    /** The declaration order, which is the derived order. */
    function Rank(): nat {
      match this
      case ReadRepository => 0
      case WriteOwnNamespace => 1
      case RequestSynchronization => 2
      case ReadOperations => 3
      case CancelOperations => 4
    }
  }

  datatype Limits = Limits(
    maxRequestBytes: u64, maxPackBytes: u64,
    maxRefUpdates: u16, maxWants: u16, maxHaves: u16, maxObservationsPerPage: u16)

  datatype CapabilitySet = CapabilitySet(protocolVersion: u16, granted: seq<Capability>, limits: Limits)

  datatype OperationKind = Synchronize(view: RepositoryView) | Publish(publisher: Identity, transition: Digest)

  /** The parts of an operation that the client checks. */
  datatype Operation = Operation(id: OperationId, repository: RepositoryId, kind: OperationKind, lastObservation: u64)

  datatype Observation = Observation(operation: OperationId, sequence: u64)

  datatype ObservationPage = ObservationPage(
    operation: OperationId, observations: seq<Observation>, nextAfter: Option<u64>)

  datatype StableError = StableError(code: nat, detail: Option<string>)

  datatype ResponseBody =
    | Capabilities(capabilities: CapabilitySet)
    | Refs(listing: RefListing)
    | FetchPack(pack: Bytes)
    | PushCommitted(result: PushResult)
    | OperationStatus(status: Operation)
    | Observations(page: ObservationPage)
    | ErrorResponse(error: StableError)
    | PushRefs(pushListing: PushRefListing)

  datatype Response = Response(version: u16, id: RequestId, body: ResponseBody)

  /// Granted capabilities

  predicate StrictlySorted(granted: seq<Capability>) {
    forall i, j :: 0 <= i && j == i + 1 < |granted| ==> granted[i].Rank() < granted[j].Rank()
  }

  lemma {:induction false} GrantedApart(granted: seq<Capability>, i: nat, j: nat)
    requires StrictlySorted(granted) && i < j < |granted|
    ensures granted[i].Rank() < granted[j].Rank()
    decreases j - i
  {
    if i + 1 < j {
      GrantedApart(granted, i, j - 1);
    }
  }

  /** The binary search finds exactly the granted capabilities, as the grant is strictly sorted. */
  method IsGranted(granted: seq<Capability>, required: Capability) returns (found: bool)
    requires StrictlySorted(granted)
    ensures found <==> required in granted
  {
    var lo, hi := 0, |granted|;
    while lo < hi
      invariant 0 <= lo <= hi <= |granted|
      invariant forall i :: 0 <= i < lo || hi <= i < |granted| ==> granted[i] != required
    {
      var mid := lo + (hi - lo) / 2;
      if granted[mid] == required {
        return true;
      }
      forall i | 0 <= i < |granted|
        ensures i < mid ==> granted[i].Rank() < granted[mid].Rank()
        ensures mid < i ==> granted[mid].Rank() < granted[i].Rank()
      {
        if i < mid {
          GrantedApart(granted, i, mid);
        } else if mid < i {
          GrantedApart(granted, mid, i);
        }
      }
      if granted[mid].Rank() < required.Rank() {
        lo := mid + 1;
      } else {
        hi := mid;
      }
    }
    found := false;
  }
}
