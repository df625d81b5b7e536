/**
 What a transfer must be to be let in, and exactly what an undisturbed application answers
 (crates/styrene-git-protocol/src/lib.rs).
 */
module Admission {
  import opened Basics
  import opened Core
  import opened Objects
  import opened Refs
  import opened History
  import opened Store
  import opened Index
  import opened CommitMachine
  import opened Repositories
  import opened Solo
  import opened Transfers
  import opened Liveness

  /// The transfer by itself

  /** Its parts are the ones the manifest names. */
  predicate Whole(transfer: Transfer) {
    var manifest := transfer.manifest;
    && transfer.payload.length == manifest.payloadLength
    && manifest.bindingDigest == BindingChecksum(transfer.binding)
    && manifest.transitionDigest == TransitionChecksum(transfer.transition)
    && manifest.payloadDigest == PayloadChecksum(transfer.payload)
  }

  ghost predicate InOrder(rank: Digest -> nat, ps: seq<Prerequisite>) {
    forall i, j :: 0 <= i < j < |ps| ==> Earlier(rank, ps[i], ps[j])
  }

  /** Of this version and size, whole, its prerequisites in strict order. */
  ghost predicate Intact(rank: Digest -> nat, transfer: Transfer, maxPayload: nat) {
    && transfer.manifest.version == 1
    && transfer.payload.length <= maxPayload
    && Whole(transfer)
    && InOrder(rank, transfer.manifest.prerequisites)
  }

  /** Transitions come before objects, transitions by their bytes, objects by algorithm and then by their bytes. */
  ghost predicate Earlier(rank: Digest -> nat, a: Prerequisite, b: Prerequisite) {
    || (a.PublisherTransition? && b.ObjectPresent?)
    || (a.PublisherTransition? && b.PublisherTransition? && rank(a.transition) < rank(b.transition))
    || (a.ObjectPresent? && b.ObjectPresent? && ObjectEarlier(a.oid, b.oid))
  }

  lemma EarlierExactly(rank: Digest -> nat, a: Prerequisite, b: Prerequisite)
    ensures PrerequisiteLess(rank, a, b) <==> Earlier(rank, a, b)
  {
    if a.ObjectPresent? && b.ObjectPresent? {
      ObjectLessExactly(a.oid, b.oid);
    }
  }

  lemma EarlierTransitive(rank: Digest -> nat, a: Prerequisite, b: Prerequisite, c: Prerequisite)
    requires PrerequisiteLess(rank, a, b) && PrerequisiteLess(rank, b, c)
    ensures PrerequisiteLess(rank, a, c)
  {
    if a.ObjectPresent? {
      ObjectLessTransitive(a.oid, b.oid, c.oid);
    }
  }

  lemma {:induction false} InOrderThroughout(rank: Digest -> nat, ps: seq<Prerequisite>, i: nat, j: nat)
    requires CanonicalPrerequisites(rank, ps) && i < j < |ps|
    ensures PrerequisiteLess(rank, ps[i], ps[j])
    decreases j - i
  {
    if i + 1 < j {
      InOrderThroughout(rank, ps, i, j - 1);
      EarlierTransitive(rank, ps[i], ps[j - 1], ps[j]);
    }
  }

  lemma OrderedExactly(rank: Digest -> nat, ps: seq<Prerequisite>)
    ensures CanonicalPrerequisites(rank, ps) <==> InOrder(rank, ps)
  {
    hide Earlier, PrerequisiteLess;
    forall i, j | 0 <= i < j < |ps|
      ensures PrerequisiteLess(rank, ps[i], ps[j]) <==> Earlier(rank, ps[i], ps[j])
      ensures CanonicalPrerequisites(rank, ps) ==> PrerequisiteLess(rank, ps[i], ps[j])
    {
      EarlierExactly(rank, ps[i], ps[j]);
      if CanonicalPrerequisites(rank, ps) {
        InOrderThroughout(rank, ps, i, j);
      }
    }
  }

  /** Validation passes exactly the intact transfers. */
  lemma ValidateExactly(rank: Digest -> nat, transfer: Transfer, maxPayload: nat)
    ensures Validate(rank, transfer, maxPayload).Ok? <==> Intact(rank, transfer, maxPayload)
  {
    hide CanonicalPrerequisites, InOrder;
    OrderedExactly(rank, transfer.manifest.prerequisites);
  }

  /** The manifest fixes the content: binding, transition and pack. */
  lemma ManifestFixesContent(rank: Digest -> nat, t: Transfer, m: nat, u: Transfer, n: nat)
    requires Validate(rank, t, m).Ok? && Validate(rank, u, n).Ok? && t.manifest == u.manifest
    ensures t == u
  {
    hide Validate, Earlier;
    ValidateExactly(rank, t, m);
    ValidateExactly(rank, u, n);
  }

  /** Anything else under the manifest of an intact transfer is refused, whatever else goes wrong, and changes nothing. */
  lemma TamperingRefused(links: GitObjectId -> set<GitObjectId>, rank: Digest -> nat, repo: Repo, honest: Transfer, m: nat,
                         transfer: Transfer, selected: SignerSelection, maxPayload: nat, noise: Noise)
    requires Intact(rank, honest, m) && transfer.manifest == honest.manifest && transfer != honest
    ensures ApplyTransfer(links, rank, repo, transfer, selected, maxPayload, noise)
         == (repo, Err(if transfer.payload.length <= maxPayload then IntegrityMismatch else PayloadTooLarge))
  {
    hide CommitOnce, Missing, LoadState, CanonicalPrerequisites, Earlier;
  }

  /// The transfer and the replica

  /** An intact transfer for this replica, canonical, genuine and of the selected binding, naming what it carries. */
  ghost predicate Admissible(rank: Digest -> nat, repo: Repo, transfer: Transfer, selected: SignerSelection, maxPayload: nat) {
    && Intact(rank, transfer, maxPayload)
    && transfer.manifest.repository == repo.id
    && transfer.binding.Canonical? && transfer.transition.Canonical?
    && Bound(transfer.binding.value, selected)
    && transfer.manifest.publisher == selected.identity
    && transfer.manifest.resultingTransition == Blake3(TRANSITION_DOMAIN, RefTransitionContent(transfer.transition.value))
  }

  /** What is wrong with a transfer that is not admitted, in the order of the checks, whatever happens around it. */
  lemma RefusedFor(links: GitObjectId -> set<GitObjectId>, rank: Digest -> nat, repo: Repo, transfer: Transfer,
                   selected: SignerSelection, maxPayload: nat, noise: Noise)
    ensures var manifest, r := transfer.manifest, ApplyTransfer(links, rank, repo, transfer, selected, maxPayload, noise).1;
            && (manifest.version != 1 ==> r == Err(ProtocolError.UnsupportedVersion))
            && (manifest.version == 1 ==>
                  if transfer.payload.length > maxPayload then r == Err(PayloadTooLarge)
                  else if !Whole(transfer) then r == Err(IntegrityMismatch)
                  else !InOrder(rank, manifest.prerequisites) ==> r == Err(NonCanonicalPrerequisites))
            && (Intact(rank, transfer, maxPayload) ==>
                  && (manifest.repository != repo.id ==> r == Err(WrongRepository))
                  && (manifest.repository == repo.id ==>
                        if transfer.binding.Malformed? || transfer.transition.Malformed? then r == Err(Undecodable)
                        else if !Bound(transfer.binding.value, selected) then r == Err(CoreError(InvalidBinding))
                        else !Admissible(rank, repo, transfer, selected, maxPayload) ==> r == Err(IntegrityMismatch)))
  {
    hide CanonicalPrerequisites, InOrder, CommitOnce, Missing, LoadState;
    OrderedExactly(rank, transfer.manifest.prerequisites);
  }

  lemma AdmitExactly(rank: Digest -> nat, repo: Repo, transfer: Transfer, selected: SignerSelection, maxPayload: nat)
    ensures Admit(rank, repo, transfer, selected, maxPayload).Ok? <==> Admissible(rank, repo, transfer, selected, maxPayload)
    ensures Admit(rank, repo, transfer, selected, maxPayload).Ok? ==>
            Admit(rank, repo, transfer, selected, maxPayload).value ==
            Request(Commit(transfer.transition.value, transfer.binding.value, selected), true, transfer.payload.objects)
  {
    hide Validate, Intact;
    ValidateExactly(rank, transfer, maxPayload);
  }

  /** What the replica lacks of what the transfer builds on. */
  predicate Unmet(repo: Repo, current: Option<RefState>, p: Prerequisite) {
    match p
    case PublisherTransition(d) => current.None? || current.value.transition != d
    case ObjectPresent(oid) => oid !in repo.objects
  }

  /** An object id the replica cannot look up: of no length it knows, or of the other format. */
  predicate Unanswerable(repo: Repo, p: Prerequisite) {
    p.ObjectPresent? && (!p.oid.Valid() || p.oid.algorithm != repo.format.Name())
  }

  lemma MissingIs(repo: Repo, current: Option<Prior>, ps: seq<Prerequisite>)
    ensures var r := Missing(repo, current, ps, {});
            && (r.Ok? <==> forall p :: p in ps ==> !Unanswerable(repo, p))
            && (r.Ok? ==> forall p :: p in r.value <==> p in ps && Unmet(repo, PriorState(current), p))
            && (r == Ok([]) <==> forall p :: p in ps ==> !Unanswerable(repo, p) && !Unmet(repo, PriorState(current), p))
  {
    hide Missing;
    MissingExactly(repo, current, ps, {});
    forall p
      ensures Transfers.Holds(repo, current, p, {}).Ok? <==> !Unanswerable(repo, p)
      ensures !Unanswerable(repo, p) ==> Transfers.Holds(repo, current, p, {}) == Ok(!Unmet(repo, PriorState(current), p))
    {
    }
  }

  /** The transition is the publisher's current one already. */
  predicate Arrived(repo: Repo, transfer: Transfer, selected: SignerSelection) {
    var current := CurrentState(repo, selected.identity);
    current.Some? && current.value.transition == transfer.manifest.resultingTransition
  }

  ghost predicate Answerable(repo: Repo, transfer: Transfer) {
    forall p :: p in transfer.manifest.prerequisites ==> !Unanswerable(repo, p)
  }

  /** Everything the transfer builds on is there. */
  ghost predicate Grounded(repo: Repo, transfer: Transfer, selected: SignerSelection) {
    forall p :: p in transfer.manifest.prerequisites ==> !Unmet(repo, CurrentState(repo, selected.identity), p)
  }

  /**
   What an undisturbed application answers, exactly: present, if the transition is current; missing, with just
   the prerequisites that are unmet; applied, if nothing is missing and the commit is applicable, the new state
   then being current and the pack's objects there.  In every other case an error; and unless it is applied
   nothing changes.
   */
  lemma AppliesExactly(links: GitObjectId -> set<GitObjectId>, rank: Digest -> nat, repo: Repo, transfer: Transfer,
                       selected: SignerSelection, maxPayload: nat)
    requires RepoOk(links, repo)
    ensures var (repo', r) := ApplyTransfer(links, rank, repo, transfer, selected, maxPayload, QUIET);
            var admissible := Admissible(rank, repo, transfer, selected, maxPayload);
            && (r.Ok? && r.value.TransferPresent? <==> admissible && Arrived(repo, transfer, selected))
            && (r.Ok? && r.value.TransferPresent? ==> Some(r.value.state) == CurrentState(repo, selected.identity))
            && (r.Ok? && r.value.MissingPrerequisites? <==>
                  admissible && !Arrived(repo, transfer, selected) && Answerable(repo, transfer) && !Grounded(repo, transfer, selected))
            && (r.Ok? && r.value.MissingPrerequisites? ==>
                  forall p :: p in r.value.missing <==>
                    p in transfer.manifest.prerequisites && Unmet(repo, CurrentState(repo, selected.identity), p))
            && (r.Ok? && r.value.TransferApplied? <==>
                  && admissible && !Arrived(repo, transfer, selected) && Answerable(repo, transfer)
                  && Grounded(repo, transfer, selected) && Applicable(links, repo, RequestOf(transfer, selected)))
            && (r.Ok? && r.value.TransferApplied? ==>
                  && CurrentState(repo', selected.identity) == Some(r.value.state)
                  && r.value.state.transition == transfer.manifest.resultingTransition
                  && repo'.objects == repo.objects + transfer.payload.objects)
            && (!(r.Ok? && r.value.TransferApplied?) ==> repo' == repo)
  {
    hide RepoOk, CommitOnce, Missing, Admit, Intact, Connected, TargetsPresent, Accept, CurrentState, Unmet, Unanswerable, LoadState;
    AdmitExactly(rank, repo, transfer, selected, maxPayload);
    var admitted := Admit(rank, repo, transfer, selected, maxPayload);
    if admitted.Ok? {
      var request := admitted.value;
      var current := CurrentState(repo, selected.identity);
      CurrentIsLoaded(links, repo, selected.identity);
      MissingIs(repo, if current.None? then None else Some(Prior(Blob(StateBlob(current.value)), current.value)),
                transfer.manifest.prerequisites);
      CommitOnceApplies(links, repo, request);
      AppliedIsOwn(repo.id, request.commit, current);
    }
  }

  lemma AppliedIsOwn(id: RepositoryId, commit: Commit, previous: Option<RefState>)
    ensures Accept(id, commit, previous).Ok? ==> Accept(id, commit, previous).value.transition == TransitionId(commit.transition)
  {
  }

  /// Exported transfers

  /**
   What is exported for a transition: a transfer exactly if the transition is accepted on the state before it.  It
   carries the binding, the transition and the pack, is intact within the size limit, and asks for the state's
   transition and the given objects.
   */
  lemma ExportExactly(rank: Digest -> nat, repository: RepositoryId, commit: Commit, previous: Option<RefState>,
                      prerequisiteObjects: seq<GitObjectId>, pack: Pack, maxPayload: nat)
    ensures var r := ExportTransfer(repository, commit, previous, prerequisiteObjects, pack);
            && (r.Ok? <==> Accept(repository, commit, previous).Ok?)
            && (r.Ok? ==>
                  var transfer, ps := r.value, r.value.manifest.prerequisites;
                  && transfer.binding == Canonical(commit.binding) && transfer.transition == Canonical(commit.transition)
                  && transfer.payload == pack
                  && transfer.manifest.repository == repository && transfer.manifest.publisher == commit.binding.identity
                  && transfer.manifest.resultingTransition == Blake3(TRANSITION_DOMAIN, RefTransitionContent(commit.transition))
                  && (Intact(rank, transfer, maxPayload) <==> pack.length <= maxPayload)
                  && (forall o :: ObjectPresent(o) in ps <==> o in prerequisiteObjects)
                  && (forall d :: PublisherTransition(d) in ps <==> previous.Some? && previous.value.transition == d))
  {
    hide Accept, Validate, Intact, Prerequisites;
    var parent := if previous.None? then None else Some(previous.value.transition);
    NewValidates(rank, repository, commit.binding, commit.transition, parent, prerequisiteObjects, pack, maxPayload);
    ValidateExactly(rank, NewTransfer(repository, commit.binding, commit.transition, parent, prerequisiteObjects, pack), maxPayload);
  }
}
