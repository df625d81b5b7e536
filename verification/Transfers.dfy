/** Transfer manifests and their application: crates/styrene-git-protocol/src/lib.rs. */
module Transfers {
  import opened Basics
  import opened Core
  import opened Objects
  import opened Refs
  import opened History
  import opened Store
  import opened Index
  import opened CommitMachine
  import opened Repositories
  import opened Solo

  /** Bytes that should be one canonical value: that value, or something no decoder accepts. */
  datatype Wire<T> = Canonical(value: T) | Malformed(code: nat)

  /** Git never hands out the all-zero id, so no pack holds it. */
  type RealObjects = s: set<GitObjectId> | forall o :: o in s ==> !IsZeroObject(o)

  datatype Pack = Pack(length: nat, objects: RealObjects)

  /** The three integrity digests, each under its own domain, and digests that are none of them. */
  datatype Checksum =
    | BindingChecksum(binding: Wire<SignerBinding>)
    | TransitionChecksum(transition: Wire<RefTransition>)
    | PayloadChecksum(payload: Pack)
    | OtherChecksum(code: nat)

  datatype Prerequisite = PublisherTransition(transition: Digest) | ObjectPresent(oid: GitObjectId)

  datatype Manifest = Manifest(
    version: byte,
    repository: RepositoryId,
    publisher: Identity,
    prerequisites: seq<Prerequisite>,
    resultingTransition: Digest,
    bindingDigest: Checksum,
    transitionDigest: Checksum,
    payloadLength: nat,
    payloadDigest: Checksum)

  datatype Transfer = Transfer(
    manifest: Manifest, binding: Wire<SignerBinding>, transition: Wire<RefTransition>, payload: Pack)

  datatype ProtocolError =
    | UnsupportedVersion
    | PayloadTooLarge
    | IntegrityMismatch
    | NonCanonicalPrerequisites
    | WrongRepository
    | Undecodable
    | CoreError(core: CoreError)
    | StoreFailed(store: StoreError)

  datatype ApplyOutcome =
    | TransferApplied(state: RefState)
    | TransferPresent(state: RefState)
    | MissingPrerequisites(missing: seq<Prerequisite>)

  /** The derived order: transitions first, by their bytes, which `rank` reads as numbers; then objects. */
  predicate PrerequisiteLess(rank: Digest -> nat, a: Prerequisite, b: Prerequisite) {
    match (a, b)
    case (PublisherTransition(x), PublisherTransition(y)) => rank(x) < rank(y)
    case (PublisherTransition(_), ObjectPresent(_)) => true
    case (ObjectPresent(_), PublisherTransition(_)) => false
    case (ObjectPresent(x), ObjectPresent(y)) => ObjectLess(x, y)
  }

  predicate CanonicalPrerequisites(rank: Digest -> nat, ps: seq<Prerequisite>) {
    forall i, j :: 0 <= i < |ps| && j == i + 1 < |ps| ==> PrerequisiteLess(rank, ps[i], ps[j])
  }

  function ObjectPrerequisites(oids: seq<GitObjectId>): seq<Prerequisite> {
    seq(|oids|, i requires 0 <= i < |oids| => ObjectPresent(oids[i]))
  }

  /** `Transfer::new` */
  function NewTransfer(repository: RepositoryId, binding: SignerBinding, transition: RefTransition,
                       parent: Option<Digest>, prerequisiteObjects: seq<GitObjectId>, payload: Pack): Transfer
  {
    Transfer(
      Manifest(1, repository, binding.identity, Prerequisites(parent, prerequisiteObjects), TransitionId(transition),
               BindingChecksum(Canonical(binding)), TransitionChecksum(Canonical(transition)),
               payload.length, PayloadChecksum(payload)),
      Canonical(binding), Canonical(transition), payload)
  }

  /** `Transfer::validate` */
  function Validate(rank: Digest -> nat, transfer: Transfer, maxPayload: nat): Result<(), ProtocolError> {
    var manifest := transfer.manifest;
    if manifest.version != 1 then Err(ProtocolError.UnsupportedVersion)
    else if transfer.payload.length > maxPayload then Err(PayloadTooLarge)
    else if manifest.payloadLength != transfer.payload.length
      || manifest.bindingDigest != BindingChecksum(transfer.binding)
      || manifest.transitionDigest != TransitionChecksum(transfer.transition)
      || manifest.payloadDigest != PayloadChecksum(transfer.payload)
    then Err(IntegrityMismatch)
    else if !CanonicalPrerequisites(rank, manifest.prerequisites) then Err(NonCanonicalPrerequisites)
    else Ok(())
  }

  function Prerequisites(parent: Option<Digest>, prerequisiteObjects: seq<GitObjectId>): seq<Prerequisite> {
    var objects := ObjectPrerequisites(ToSortedSet(prerequisiteObjects));
    if parent.Some? then [PublisherTransition(parent.value)] + objects else objects
  }

  lemma PrerequisitesCanonical(rank: Digest -> nat, parent: Option<Digest>, prerequisiteObjects: seq<GitObjectId>)
    ensures CanonicalPrerequisites(rank, Prerequisites(parent, prerequisiteObjects))
  {
    hide ToSortedSet, ObjectLess;
    var oids := ToSortedSet(prerequisiteObjects);
    var ps := Prerequisites(parent, prerequisiteObjects);
    var first := if parent.Some? then 1 else 0;
    ToSortedSetIs(prerequisiteObjects);
    forall i, j | 0 <= i < |ps| && j == i + 1 < |ps|
      ensures PrerequisiteLess(rank, ps[i], ps[j])
    {
      if i >= first { assert Ordered(oids, i - first); }
    }
  }

  lemma PrerequisitesAre(parent: Option<Digest>, prerequisiteObjects: seq<GitObjectId>)
    ensures var ps := Prerequisites(parent, prerequisiteObjects);
            && (forall o :: ObjectPresent(o) in ps <==> o in prerequisiteObjects)
            && (forall d :: PublisherTransition(d) in ps <==> parent == Some(d))
  {
    hide ToSortedSet;
    var oids := ToSortedSet(prerequisiteObjects);
    var ps := Prerequisites(parent, prerequisiteObjects);
    var first := if parent.Some? then 1 else 0;
    ToSortedSetIs(prerequisiteObjects);
    forall o
      ensures ObjectPresent(o) in ps <==> o in prerequisiteObjects
    {
      if o in oids {
        var i :| 0 <= i < |oids| && oids[i] == o;
        assert ps[first + i] == ObjectPresent(o);
      }
    }
    forall d
      ensures PublisherTransition(d) in ps <==> parent == Some(d)
    {
      if parent == Some(d) { assert ps[0] == PublisherTransition(d); }
    }
  }

  /** The list `Transfer::new` builds: the parent first, then the objects in order, each once. */
  method CollectPrerequisites(parent: Option<Digest>, prerequisiteObjects: seq<GitObjectId>) returns (ps: seq<Prerequisite>)
    ensures ps == Prerequisites(parent, prerequisiteObjects)
  {
    var oids := ToSortedSet(prerequisiteObjects);
    ps := if parent.Some? then [PublisherTransition(parent.value)] else [];
    ghost var first := ps;
    for i := 0 to |oids|
      invariant ps == first + ObjectPrerequisites(oids[..i])
    {
      ps := ps + [ObjectPresent(oids[i])];
    }
    assert oids[..|oids|] == oids;
  }

  /** Every transfer the program makes passes its own validation, within the payload limit. */
  lemma NewValidates(rank: Digest -> nat, repository: RepositoryId, binding: SignerBinding, transition: RefTransition,
                     parent: Option<Digest>, prerequisiteObjects: seq<GitObjectId>, payload: Pack, maxPayload: nat)
    ensures var transfer := NewTransfer(repository, binding, transition, parent, prerequisiteObjects, payload);
            && (Validate(rank, transfer, maxPayload).Ok? <==> payload.length <= maxPayload)
            && (forall o :: ObjectPresent(o) in transfer.manifest.prerequisites <==> o in prerequisiteObjects)
            && (forall d :: PublisherTransition(d) in transfer.manifest.prerequisites <==> parent == Some(d))
  {
    hide Prerequisites, CanonicalPrerequisites;
    PrerequisitesCanonical(rank, parent, prerequisiteObjects);
    PrerequisitesAre(parent, prerequisiteObjects);
  }

  /** What may go wrong around one application, besides the faults of its `commit`. */
  datatype Noise = Noise(readLost: bool, probesLost: set<GitObjectId>, importFails: bool, faults: Faults)

  const QUIET := Noise(false, {}, false, NO_FAULTS)

  function HasObject(repo: Repo, oid: GitObjectId, probesLost: set<GitObjectId>): Result<bool, StoreError> {
    if !oid.Valid() then Err(CoreFailed(InvalidRefTransition(BadObjectId)))
    else if oid.algorithm != repo.format.Name() then Err(ObjectIdMismatch)
    else Ok(oid in repo.objects && oid !in probesLost)
  }

  /** Whether one prerequisite is met. */
  function Holds(repo: Repo, current: Option<Prior>, p: Prerequisite, probesLost: set<GitObjectId>): Result<bool, StoreError> {
    match p
    case PublisherTransition(d) => Ok(current.Some? && current.value.state.transition == d)
    case ObjectPresent(oid) => HasObject(repo, oid, probesLost)
  }

  /** The prerequisites that are not met, or the first that cannot be looked up. */
  function Missing(repo: Repo, current: Option<Prior>, ps: seq<Prerequisite>, probesLost: set<GitObjectId>)
    : Result<seq<Prerequisite>, StoreError>
  {
    if ps == [] then Ok([])
    else
      var n := |ps| - 1;
      var missing :- Missing(repo, current, ps[..n], probesLost);
      var present :- Holds(repo, current, ps[n], probesLost);
      Ok(if present then missing else missing + [ps[n]])
  }

  function Outcome(r: Result<CommitMachine.Outcome, StoreError>): Result<ApplyOutcome, ProtocolError> {
    match r
    case Err(e) => Err(StoreFailed(e))
    case Ok(Applied(state)) => Ok(TransferApplied(state))
    case Ok(AlreadyPresent(state)) => Ok(TransferPresent(state))
  }

  function RequestOf(transfer: Transfer, selected: SignerSelection): Request
    requires transfer.binding.Canonical? && transfer.transition.Canonical?
  {
    Request(Commit(transfer.transition.value, transfer.binding.value, selected), true, transfer.payload.objects)
  }

  /** The checks of a transfer that need no repository state. */
  function Admit(rank: Digest -> nat, repo: Repo, transfer: Transfer, selected: SignerSelection, maxPayload: nat)
    : (r: Result<Request, ProtocolError>)
    ensures r.Ok? ==> transfer.binding.Canonical? && transfer.transition.Canonical? && r.value == RequestOf(transfer, selected)
  {
    var _ :- Validate(rank, transfer, maxPayload);
    if transfer.manifest.repository != repo.id then Err(WrongRepository)
    else if transfer.binding.Malformed? || transfer.transition.Malformed? then Err(Undecodable)
    else
      match VerifySelected(transfer.binding.value, selected)
      case Err(e) => Err(CoreError(e))
      case Ok(_) =>
        if selected.identity != transfer.manifest.publisher
          || TransitionId(transfer.transition.value) != transfer.manifest.resultingTransition
        then Err(IntegrityMismatch)
        else Ok(RequestOf(transfer, selected))
  }

  /** `apply_transfer` */
  ghost function ApplyTransfer(links: GitObjectId -> set<GitObjectId>, rank: Digest -> nat, repo: Repo,
                               transfer: Transfer, selected: SignerSelection, maxPayload: nat, noise: Noise)
    : (Repo, Result<ApplyOutcome, ProtocolError>)
  {
    match Admit(rank, repo, transfer, selected, maxPayload)
    case Err(e) => (repo, Err(e))
    case Ok(request) =>
      match LoadState(repo, request.Publisher(), Shown(repo, request, noise.readLost))
      case Err(e) => (repo, Err(StoreFailed(e)))
      case Ok(current) =>
        if current.Some? && current.value.state.transition == transfer.manifest.resultingTransition then
          (repo, Ok(TransferPresent(current.value.state)))
        else
          match Missing(repo, current, transfer.manifest.prerequisites, noise.probesLost)
          case Err(e) => (repo, Err(StoreFailed(e)))
          case Ok(missing) =>
            if missing != [] then (repo, Ok(MissingPrerequisites(missing)))
            else if noise.importFails then (repo, Err(StoreFailed(GitFailed)))
            else
              var (repo', r) := CommitOnce(links, repo, request, noise.faults);
              (repo', Outcome(r))
  }

  /** `apply_transfer`, on the repository object. */
  method RunTransfer(repository: Repository, rank: Digest -> nat, transfer: Transfer,
                     selected: SignerSelection, maxPayload: nat, noise: Noise,
                     connected: (seq<RefTarget>, set<GitObjectId>) -> bool,
                     ghost links: GitObjectId -> set<GitObjectId>)
    returns (r: Result<ApplyOutcome, ProtocolError>)
    requires forall ts, os :: connected(ts, os) <==> Connected(links, ts, os)
    modifies repository
    ensures (repository.Contents(), r) ==
            ApplyTransfer(links, rank, old(repository.Contents()), transfer, selected, maxPayload, noise)
  {
    var admitted := Admit(rank, repository.Contents(), transfer, selected, maxPayload);
    if admitted.Err? {
      return Err(admitted.error);
    }
    var request := admitted.value;
    var read := repository.PublisherStateWithObject(request.Publisher(), noise.readLost);
    if read.Err? {
      return Err(StoreFailed(read.error));
    }
    var current := read.value;
    if current.Some? && current.value.state.transition == transfer.manifest.resultingTransition {
      return Ok(TransferPresent(current.value.state));
    }
    var ps := transfer.manifest.prerequisites;
    var checked := MissingAmong(repository, current, ps, noise.probesLost);
    if checked.Err? {
      return Err(StoreFailed(checked.error));
    }
    if checked.value != [] {
      return Ok(MissingPrerequisites(checked.value));
    }
    if noise.importFails {
      return Err(StoreFailed(GitFailed));
    }
    var committed := repository.Commit(request, noise.faults, connected, links);
    return Outcome(committed);
  }

  /** The loop of `apply_transfer` over the prerequisites. */
  method MissingAmong(repository: Repository, current: Option<Prior>, ps: seq<Prerequisite>,
                      probesLost: set<GitObjectId>) returns (r: Result<seq<Prerequisite>, StoreError>)
    ensures r == Missing(repository.Contents(), current, ps, probesLost)
  {
    var missing: seq<Prerequisite> := [];
    for i := 0 to |ps|
      invariant Missing(repository.Contents(), current, ps[..i], probesLost) == Ok(missing)
    {
      assert ps[..i + 1][..i] == ps[..i];
      var present := Holds(repository.Contents(), current, ps[i], probesLost);
      if present.Err? {
        MissingFails(repository.Contents(), current, ps, probesLost, i + 1);
        return Err(present.error);
      }
      if !present.value {
        missing := missing + [ps[i]];
      }
    }
    assert ps[..|ps|] == ps;
    return Ok(missing);
  }

  lemma {:induction false} MissingFails(repo: Repo, current: Option<Prior>, ps: seq<Prerequisite>,
                                        probesLost: set<GitObjectId>, k: nat)
    requires k <= |ps| && Missing(repo, current, ps[..k], probesLost).Err?
    ensures Missing(repo, current, ps, probesLost) == Missing(repo, current, ps[..k], probesLost)
    decreases |ps|
  {
    if k == |ps| {
      assert ps[..k] == ps;
    } else {
      assert ps[..|ps| - 1][..k] == ps[..k];
      MissingFails(repo, current, ps[..|ps| - 1], probesLost, k);
    }
  }

  lemma {:induction false} MissingExactly(repo: Repo, current: Option<Prior>, ps: seq<Prerequisite>, probesLost: set<GitObjectId>)
    ensures Missing(repo, current, ps, probesLost).Ok? ==>
            forall p :: p in Missing(repo, current, ps, probesLost).value <==>
                        p in ps && Holds(repo, current, p, probesLost) == Ok(false)
    ensures Missing(repo, current, ps, probesLost).Ok? <==> forall p :: p in ps ==> Holds(repo, current, p, probesLost).Ok?
    ensures Missing(repo, current, ps, probesLost) == Ok([]) <==>
            forall p :: p in ps ==> Holds(repo, current, p, probesLost) == Ok(true)
  {
    if ps != [] {
      var n := |ps| - 1;
      MissingExactly(repo, current, ps[..n], probesLost);
      assert ps == ps[..n] + [ps[n]];
    }
  }
}
