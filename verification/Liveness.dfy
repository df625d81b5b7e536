/** When replicas arrive: idempotence, and convergence once every exported transfer has come through. */
module Liveness {
  import opened Basics
  import opened Core
  import opened Refs
  import opened History
  import opened Store
  import opened Index
  import opened CommitMachine
  import opened Repositories
  import opened Solo
  import opened Transfers
  import opened Convergence

  /**
   A second delivery of a transfer that was applied, or found present, is found present and changes
   nothing.
   */
  lemma ApplyIsIdempotent(links: GitObjectId -> set<GitObjectId>, rank: Digest -> nat, repo: Repo, d: Delivery)
    requires RepoOk(links, repo) && !d.noise.readLost
    ensures var (repo', r) := ApplyTransfer(links, rank, repo, d.transfer, d.selected, d.maxPayload, d.noise);
            r.Ok? && !r.value.MissingPrerequisites? ==>
              ApplyTransfer(links, rank, repo', d.transfer, d.selected, d.maxPayload, d.noise) ==
              (repo', Ok(TransferPresent(r.value.state)))
  {
    hide RepoOk, CommitOnce, Missing;
    var (repo', r) := ApplyTransfer(links, rank, repo, d.transfer, d.selected, d.maxPayload, d.noise);
    if r.Ok? && !r.value.MissingPrerequisites? {
      OutcomeIsCurrent(links, rank, repo, d);
      DeliverIsSound(links, rank, repo, d);
      CurrentIsLoaded(links, repo', d.selected.identity);
      assert Admit(rank, repo', d.transfer, d.selected, d.maxPayload) == Admit(rank, repo, d.transfer, d.selected, d.maxPayload);
    }
  }

  /** The current transition is not accepted on top of itself. */
  lemma CurrentNotAccepted(repo: Repo, publisher: Identity, commit: Commit)
    requires AllSound(repo) && CurrentState(repo, publisher).Some?
    requires CurrentState(repo, publisher).value.transition == TransitionId(commit.transition)
    ensures Accept(repo.id, commit, CurrentState(repo, publisher)).Err?
  {
    var state := CurrentState(repo, publisher).value;
    assert Sound(repo, publisher, state);
    assert Chained(TransitionId(commit.transition), state.sequence);
  }

  /** Whatever goes wrong around it, a second delivery moves no publisher's state. */
  lemma RedeliveryMovesNothing(links: GitObjectId -> set<GitObjectId>, rank: Digest -> nat, repo: Repo, d: Delivery, noise: Noise,
                               publisher: Identity)
    requires RepoOk(links, repo)
    ensures var (repo', r) := ApplyTransfer(links, rank, repo, d.transfer, d.selected, d.maxPayload, d.noise);
            r.Ok? && !r.value.MissingPrerequisites? ==>
              CurrentState(Deliver(links, rank, repo', d.(noise := noise)), publisher) == CurrentState(repo', publisher)
  {
    hide RepoOk, CommitOnce, Missing, Deliver, Accept;
    var (repo', r) := ApplyTransfer(links, rank, repo, d.transfer, d.selected, d.maxPayload, d.noise);
    if r.Ok? && !r.value.MissingPrerequisites? {
      var request := Admit(rank, repo, d.transfer, d.selected, d.maxPayload).value;
      OutcomeIsCurrent(links, rank, repo, d);
      DeliverIsSound(links, rank, repo', d.(noise := noise));
      if publisher == d.selected.identity {
        SoundAll(links, repo');
        CurrentNotAccepted(repo', publisher, request.commit);
      }
    }
  }

  lemma SoundAll(links: GitObjectId -> set<GitObjectId>, repo: Repo)
    requires RepoOk(links, repo)
    ensures AllSound(repo)
  {
  }

  /** What an application reports is the publisher's state afterwards. */
  lemma OutcomeIsCurrent(links: GitObjectId -> set<GitObjectId>, rank: Digest -> nat, repo: Repo, d: Delivery)
    requires RepoOk(links, repo)
    ensures var (repo', r) := ApplyTransfer(links, rank, repo, d.transfer, d.selected, d.maxPayload, d.noise);
            r.Ok? && !r.value.MissingPrerequisites? ==>
              && RepoOk(links, repo')
              && Admit(rank, repo, d.transfer, d.selected, d.maxPayload).Ok?
              && CurrentState(repo', d.selected.identity) == Some(r.value.state)
              && r.value.state.transition == TransitionId(d.transfer.transition.value)
  {
    hide RepoOk, CommitOnce, Missing;
    var admitted := Admit(rank, repo, d.transfer, d.selected, d.maxPayload);
    if admitted.Ok? {
      CurrentIsLoaded(links, repo, admitted.value.Publisher());
      CommitOnceIsSound(links, repo, admitted.value, d.noise.faults);
    }
  }

  /** `oid` is reachable from a target of `refs`. */
  ghost predicate Reached(links: GitObjectId -> set<GitObjectId>, refs: seq<RefTarget>, oid: GitObjectId) {
    exists path, r :: Path(links, path) && r in refs && path[0] == r.target && path[|path| - 1] == oid
  }

  lemma ConnectedIsReached(links: GitObjectId -> set<GitObjectId>, refs: seq<RefTarget>, objects: set<GitObjectId>)
    ensures Connected(links, refs, objects) <==> forall oid :: Reached(links, refs, oid) ==> oid in objects
  {
    if forall oid :: Reached(links, refs, oid) ==> oid in objects {
      forall path, r | Path(links, path) && r in refs && path[0] == r.target
        ensures path[|path| - 1] in objects
      {
        assert Reached(links, refs, path[|path| - 1]);
      }
    }
  }

  lemma TargetReached(links: GitObjectId -> set<GitObjectId>, refs: seq<RefTarget>, r: RefTarget)
    requires r in refs
    ensures Reached(links, refs, r.target)
  {
    assert Path(links, [r.target]);
  }

  function RefsOf(state: Option<RefState>): seq<RefTarget> {
    if state.None? then [] else state.value.refs
  }

  /** `export_transfer` for step `i`: verified on the state before it, built on that state's transition. */
  function ExportTransfer(repository: RepositoryId, commit: Commit, previous: Option<RefState>,
                          prerequisiteObjects: seq<GitObjectId>, pack: Pack): Result<Transfer, ProtocolError>
  {
    match Accept(repository, commit, previous)
    case Err(e) => Err(CoreError(e))
    case Ok(_) =>
      Ok(NewTransfer(repository, commit.binding, commit.transition,
                     if previous.None? then None else Some(previous.value.transition), prerequisiteObjects, pack))
  }

  /**
   The pack carries what the new state reaches and the state before it does not, and the prerequisite
   objects are of the repository's format and reached by the state before it.
   */
  ghost predicate PackCovers(links: GitObjectId -> set<GitObjectId>, format: ObjectFormat,
                             previous: Option<RefState>, next: RefState,
                             prerequisiteObjects: seq<GitObjectId>, pack: Pack)
  {
    && (forall r :: r in next.refs ==> r.target.algorithm == format.Name())
    && (forall oid :: Reached(links, next.refs, oid) ==> oid in pack.objects || Reached(links, RefsOf(previous), oid))
    && (forall oid :: oid in prerequisiteObjects ==>
          oid.Valid() && oid.algorithm == format.Name() && Reached(links, RefsOf(previous), oid))
  }

  /** A faithful delivery of the exported transfer of step `i` of the history. */
  ghost predicate GoodDelivery(links: GitObjectId -> set<GitObjectId>, repository: RepositoryId, format: ObjectFormat,
                               chain: Chain, i: nat, d: Delivery)
    requires ValidChain(repository, chain) && i < |chain.commits|
  {
    && d.noise == QUIET && d.selected == chain.commits[i].selected && d.transfer.payload.length <= d.maxPayload
    && exists prerequisiteObjects ::
         && ExportTransfer(repository, chain.commits[i], StateAt(chain, i), prerequisiteObjects, d.transfer.payload)
            == Ok(d.transfer)
         && PackCovers(links, format, StateAt(chain, i), chain.states[i],
                       prerequisiteObjects, d.transfer.payload)
  }

  /** At the position the transfer was exported for, its prerequisites are met. */
  lemma PrerequisitesMet(links: GitObjectId -> set<GitObjectId>, repo: Repo, current: Option<Prior>,
                         commit: Commit, prerequisiteObjects: seq<GitObjectId>, pack: Pack, rank: Digest -> nat)
    requires forall oid :: oid in prerequisiteObjects ==>
               oid.Valid() && oid.algorithm == repo.format.Name() && oid in repo.objects
    requires ExportTransfer(repo.id, commit, PriorState(current), prerequisiteObjects, pack).Ok?
    ensures var transfer := ExportTransfer(repo.id, commit, PriorState(current), prerequisiteObjects, pack).value;
            Missing(repo, current, transfer.manifest.prerequisites, {}) == Ok([])
  {
    hide Accept, Missing, Validate, Prerequisites;
    var transfer := ExportTransfer(repo.id, commit, PriorState(current), prerequisiteObjects, pack).value;
    var parent := if current.None? then None else Some(current.value.state.transition);
    var ps := transfer.manifest.prerequisites;
    NewValidates(rank, repo.id, commit.binding, commit.transition, parent, prerequisiteObjects, pack, pack.length);
    MissingExactly(repo, current, ps, {});
    forall p | p in ps
      ensures Holds(repo, current, p, {}) == Ok(true)
    {
      match p
      case PublisherTransition(d) => assert parent == Some(d);
      case ObjectPresent(oid) => assert oid in prerequisiteObjects;
    }
  }

  /** At the position the transfer was exported for, it gets as far as `commit`. */
  lemma GoodDeliveryCommits(links: GitObjectId -> set<GitObjectId>, rank: Digest -> nat, repo: Repo,
                            commit: Commit, prerequisiteObjects: seq<GitObjectId>, d: Delivery)
    requires RepoOk(links, repo)
    requires d.noise == QUIET && d.selected == commit.selected && d.transfer.payload.length <= d.maxPayload
    requires var previous := CurrentState(repo, commit.selected.identity);
             && ExportTransfer(repo.id, commit, previous, prerequisiteObjects, d.transfer.payload) == Ok(d.transfer)
             && (previous.Some? ==> previous.value.transition != TransitionId(commit.transition))
    requires forall oid :: oid in prerequisiteObjects ==>
               oid.Valid() && oid.algorithm == repo.format.Name() && oid in repo.objects
    ensures Deliver(links, rank, repo, d) ==
            CommitOnce(links, repo, Request(commit, true, d.transfer.payload.objects), NO_FAULTS).0
  {
    hide RepoOk, Accept, CommitOnce;
    var p := commit.selected.identity;
    AdmitGood(rank, repo, commit, CurrentState(repo, p), prerequisiteObjects, d);
    CurrentIsLoaded(links, repo, p);
    var current := LoadState(repo, p, ResolveRef(repo, StateRef(p))).value;
    PrerequisitesMet(links, repo, current, commit, prerequisiteObjects, d.transfer.payload, rank);
  }

  lemma GoodDeliveryApplies(links: GitObjectId -> set<GitObjectId>, repo: Repo, commit: Commit, next: RefState,
                            prerequisiteObjects: seq<GitObjectId>, pack: Pack)
    requires RepoOk(links, repo)
    requires var previous := CurrentState(repo, commit.selected.identity);
             && Accept(repo.id, commit, previous) == Ok(next)
             && (previous.Some? ==> previous.value.transition != TransitionId(commit.transition))
             && PackCovers(links, repo.format, previous, next, prerequisiteObjects, pack)
    ensures var repo' := CommitOnce(links, repo, Request(commit, true, pack.objects), NO_FAULTS).0;
            repo'.id == repo.id && CurrentState(repo', commit.selected.identity) == Some(next)
  {
    hide RepoOk, Accept, CommitOnce, PackCovers;
    var request := Request(commit, true, pack.objects);
    ReachedIsHere(links, repo, commit.selected.identity);
    CoveredIsApplicable(links, repo, request, CurrentState(repo, commit.selected.identity), next, prerequisiteObjects, pack);
    AppliedIsNext(links, repo, request, next);
  }

  /** The current state at position `i`, and what the next commit makes of it. */
  lemma NextAt(repo: Repo, publisher: Identity, chain: Chain, i: nat)
    requires HistoryOf(repo.id, publisher, chain) && i < |chain.commits| && AtPosition(repo, publisher, chain, i)
    ensures var commit := chain.commits[i];
            && commit.selected.identity == publisher
            && CurrentState(repo, publisher) == StateAt(chain, i)
            && Accept(repo.id, commit, CurrentState(repo, publisher)) == Ok(chain.states[i])
            && (CurrentState(repo, publisher).Some? ==>
                  CurrentState(repo, publisher).value.transition != TransitionId(commit.transition))
  {
    hide Accept;
    assert Link(repo.id, chain, i);
    StateShape(repo.id, chain, i);
    if i > 0 { StateShape(repo.id, chain, i - 1); }
  }

  lemma AdvancesWith(links: GitObjectId -> set<GitObjectId>, rank: Digest -> nat, repo: Repo, commit: Commit,
                     next: RefState, prerequisiteObjects: seq<GitObjectId>, d: Delivery)
    requires RepoOk(links, repo)
    requires d.noise == QUIET && d.selected == commit.selected && d.transfer.payload.length <= d.maxPayload
    requires var previous := CurrentState(repo, commit.selected.identity);
             && Accept(repo.id, commit, previous) == Ok(next)
             && (previous.Some? ==> previous.value.transition != TransitionId(commit.transition))
             && ExportTransfer(repo.id, commit, previous, prerequisiteObjects, d.transfer.payload) == Ok(d.transfer)
             && PackCovers(links, repo.format, previous, next, prerequisiteObjects, d.transfer.payload)
    ensures Deliver(links, rank, repo, d).id == repo.id
    ensures CurrentState(Deliver(links, rank, repo, d), commit.selected.identity) == Some(next)
  {
    hide RepoOk, Accept, Deliver, CommitOnce, ExportTransfer, Reached;
    ReachedIsHere(links, repo, commit.selected.identity);
    GoodDeliveryCommits(links, rank, repo, commit, prerequisiteObjects, d);
    GoodDeliveryApplies(links, repo, commit, next, prerequisiteObjects, d.transfer.payload);
  }

  /** At the position the transfer was exported for, it applies. */
  lemma GoodDeliveryAdvances(links: GitObjectId -> set<GitObjectId>, rank: Digest -> nat, repo: Repo,
                             publisher: Identity, chain: Chain, i: nat, d: Delivery)
    requires RepoOk(links, repo) && HistoryOf(repo.id, publisher, chain) && i < |chain.commits|
    requires AtPosition(repo, publisher, chain, i) && GoodDelivery(links, repo.id, repo.format, chain, i, d)
    ensures Deliver(links, rank, repo, d).id == repo.id
    ensures AtPosition(Deliver(links, rank, repo, d), publisher, chain, i + 1)
  {
    hide RepoOk, Accept, Deliver, ExportTransfer, PackCovers, CurrentState;
    var prerequisiteObjects :|
      && ExportTransfer(repo.id, chain.commits[i], StateAt(chain, i), prerequisiteObjects, d.transfer.payload) == Ok(d.transfer)
      && PackCovers(links, repo.format, StateAt(chain, i), chain.states[i], prerequisiteObjects, d.transfer.payload);
    NextAt(repo, publisher, chain, i);
    AdvancesWith(links, rank, repo, chain.commits[i], chain.states[i], prerequisiteObjects, d);
  }

  lemma AppliedIsNext(links: GitObjectId -> set<GitObjectId>, repo: Repo, request: Request, next: RefState)
    requires RepoOk(links, repo) && RealQuarantine(request) && Applicable(links, repo, request) && !Present(repo, request)
    requires Accept(repo.id, request.commit, CurrentState(repo, request.Publisher())) == Ok(next)
    ensures CurrentState(CommitOnce(links, repo, request, NO_FAULTS).0, request.Publisher()) == Some(next)
    ensures CommitOnce(links, repo, request, NO_FAULTS).0.id == repo.id
  {
    hide RepoOk, CommitOnce;
    PlanOfCurrent(links, repo, request);
    CommitPlanned(links, repo, request);
    CommitOnceIsSound(links, repo, request, NO_FAULTS);
  }

  lemma AdmitGood(rank: Digest -> nat, repo: Repo, commit: Commit, previous: Option<RefState>,
                  prerequisiteObjects: seq<GitObjectId>, d: Delivery)
    requires ExportTransfer(repo.id, commit, previous, prerequisiteObjects, d.transfer.payload) == Ok(d.transfer)
    requires d.selected == commit.selected && d.transfer.payload.length <= d.maxPayload
    ensures Admit(rank, repo, d.transfer, d.selected, d.maxPayload) ==
            Ok(Request(commit, true, d.transfer.payload.objects))
  {
    hide ValidateRefs, CanonicalPrerequisites;
    var parent := if previous.None? then None else Some(previous.value.transition);
    NewValidates(rank, repo.id, commit.binding, commit.transition, parent, prerequisiteObjects, d.transfer.payload, d.maxPayload);
  }

  /** Whatever the current state of a publisher reaches is in the repository. */
  lemma ReachedIsHere(links: GitObjectId -> set<GitObjectId>, repo: Repo, publisher: Identity)
    requires RepoOk(links, repo)
    ensures forall oid :: Reached(links, RefsOf(CurrentState(repo, publisher)), oid) ==> oid in repo.objects
  {
    var state := CurrentState(repo, publisher);
    if state.Some? { ConnectedIsReached(links, state.value.refs, repo.objects); }
  }

  lemma CoveredIsApplicable(links: GitObjectId -> set<GitObjectId>, repo: Repo, request: Request,
                            previous: Option<RefState>, next: RefState,
                            prerequisiteObjects: seq<GitObjectId>, pack: Pack)
    requires request.home && request.quarantine == pack.objects
    requires CurrentState(repo, request.Publisher()) == previous
    requires Accept(repo.id, request.commit, previous) == Ok(next)
    requires PackCovers(links, repo.format, previous, next, prerequisiteObjects, pack)
    requires forall oid :: Reached(links, RefsOf(previous), oid) ==> oid in repo.objects
    ensures Applicable(links, repo, request)
  {
    ConnectedIsReached(links, next.refs, repo.objects + pack.objects);
    forall r | r in next.refs
      ensures r.target in repo.objects + pack.objects
    {
      TargetReached(links, next.refs, r);
    }
  }

  /** Deliveries `at[0] < at[1] < ...` are the exported transfers of steps 0, 1, ... of the history. */
  ghost predicate Scheduled(links: GitObjectId -> set<GitObjectId>, repository: RepositoryId, format: ObjectFormat,
                            chain: Chain, ds: seq<Delivery>, at: seq<nat>)
    requires ValidChain(repository, chain)
  {
    && |at| == |chain.commits|
    && (forall i, j :: 0 <= i < j < |at| ==> at[i] < at[j])
    && (forall i :: 0 <= i < |at| ==> at[i] < |ds| && GoodDelivery(links, repository, format, chain, i, ds[at[i]]))
  }

  /** A replica of the publisher's repository, somewhere along the history. */
  ghost predicate Along(links: GitObjectId -> set<GitObjectId>, repo: Repo, repository: RepositoryId, format: ObjectFormat,
                        publisher: Identity, chain: Chain, k: nat)
    requires ValidChain(repository, chain)
  {
    && repo.id == repository && repo.format == format && RepoOk(links, repo)
    && AtPosition(repo, publisher, chain, k)
  }

  lemma {:induction false} FormatKept(links: GitObjectId -> set<GitObjectId>, rank: Digest -> nat, repo: Repo, ds: seq<Delivery>)
    requires RepoOk(links, repo)
    ensures Feed(links, rank, repo, ds).format == repo.format && RepoOk(links, Feed(links, rank, repo, ds))
  {
    hide Deliver, RepoOk;
    if ds != [] {
      FormatKept(links, rank, repo, ds[..|ds| - 1]);
      DeliverIsSound(links, rank, Feed(links, rank, repo, ds[..|ds| - 1]), ds[|ds| - 1]);
    }
  }

  /** From one moment to a later one. */
  lemma FeedAlong(links: GitObjectId -> set<GitObjectId>, rank: Digest -> nat, start: Repo, repository: RepositoryId,
                  format: ObjectFormat, publisher: Identity, chain: Chain, ds: seq<Delivery>, m: nat, n: nat, k: nat)
    returns (k': nat)
    requires HistoryOf(repository, publisher, chain) && m <= n <= |ds|
    requires forall d :: d in ds ==> Unforged(publisher, chain, d)
    requires Along(links, Feed(links, rank, start, ds[..m]), repository, format, publisher, chain, k)
    ensures k <= k' && Along(links, Feed(links, rank, start, ds[..n]), repository, format, publisher, chain, k')
  {
    hide Deliver, RepoOk, Unforged, GoodDelivery, Accept;
    assert ds[..n] == ds[..m] + ds[m..n];
    FeedConcat(links, rank, start, ds[..m], ds[m..n]);
    k' := FeedPosition(links, rank, Feed(links, rank, start, ds[..m]), publisher, chain, k, ds[m..n]);
    FormatKept(links, rank, Feed(links, rank, start, ds[..m]), ds[m..n]);
  }

  /** The exported transfer of step `i` takes a replica at least that far past it. */
  lemma GoodDeliveryPasses(links: GitObjectId -> set<GitObjectId>, rank: Digest -> nat, repo: Repo,
                           publisher: Identity, chain: Chain, k: nat, i: nat, d: Delivery) returns (k': nat)
    requires HistoryOf(repo.id, publisher, chain) && i < |chain.commits| && i <= k
    requires Along(links, repo, repo.id, repo.format, publisher, chain, k)
    requires Unforged(publisher, chain, d) && GoodDelivery(links, repo.id, repo.format, chain, i, d)
    ensures i < k' && Along(links, Deliver(links, rank, repo, d), repo.id, repo.format, publisher, chain, k')
  {
    hide Deliver, RepoOk, Unforged, GoodDelivery, Accept;
    DeliverIsSound(links, rank, repo, d);
    if k == i {
      GoodDeliveryAdvances(links, rank, repo, publisher, chain, i, d);
      k' := i + 1;
    } else {
      k' := DeliverMoves(links, rank, repo, publisher, chain, k, d);
    }
  }

  lemma StartsAlong(links: GitObjectId -> set<GitObjectId>, repository: RepositoryId, format: ObjectFormat,
                    publisher: Identity, chain: Chain)
    requires HistoryOf(repository, publisher, chain)
    ensures Along(links, Initial(repository, format).repo, repository, format, publisher, chain, 0)
  {
    InitialInv(links, repository, format);
  }

  /** Before the exported transfer of step `i`, the replica has come at least to that step. */
  lemma {:induction false} BeforeStep(links: GitObjectId -> set<GitObjectId>, rank: Digest -> nat, start: Repo, repository: RepositoryId,
                                      format: ObjectFormat, publisher: Identity, chain: Chain,
                                      ds: seq<Delivery>, at: seq<nat>, i: nat) returns (k: nat)
    requires HistoryOf(repository, publisher, chain) && i < |chain.commits|
    requires forall d :: d in ds ==> Unforged(publisher, chain, d)
    requires Scheduled(links, repository, format, chain, ds, at)
    requires Along(links, start, repository, format, publisher, chain, 0)
    ensures i <= k && at[i] < |ds|
    ensures Along(links, Feed(links, rank, start, ds[..at[i]]), repository, format, publisher, chain, k)
    decreases i, 0
  {
    hide Deliver, RepoOk, Unforged, GoodDelivery, Accept;
    if i == 0 {
      assert Feed(links, rank, start, ds[..0]) == start;
      k := FeedAlong(links, rank, start, repository, format, publisher, chain, ds, 0, at[i], 0);
    } else {
      var k0 := ReachesStep(links, rank, start, repository, format, publisher, chain, ds, at, i - 1);
      assert at[i - 1] < at[i];
      k := FeedAlong(links, rank, start, repository, format, publisher, chain, ds, at[i - 1] + 1, at[i], k0);
    }
  }

  /** Right after the exported transfer of step `i`, the replica is past that step. */
  lemma {:induction false} ReachesStep(links: GitObjectId -> set<GitObjectId>, rank: Digest -> nat, start: Repo, repository: RepositoryId,
                                       format: ObjectFormat, publisher: Identity, chain: Chain,
                                       ds: seq<Delivery>, at: seq<nat>, i: nat) returns (k: nat)
    requires HistoryOf(repository, publisher, chain) && i < |chain.commits|
    requires forall d :: d in ds ==> Unforged(publisher, chain, d)
    requires Scheduled(links, repository, format, chain, ds, at)
    requires Along(links, start, repository, format, publisher, chain, 0)
    ensures i < k && at[i] < |ds|
    ensures Along(links, Feed(links, rank, start, ds[..at[i] + 1]),
                  repository, format, publisher, chain, k)
    decreases i, 1
  {
    hide Deliver, RepoOk, Unforged, GoodDelivery, Accept;
    var n := at[i];
    var before := BeforeStep(links, rank, start, repository, format, publisher, chain, ds, at, i);
    assert ds[..n + 1][..n] == ds[..n];
    k := GoodDeliveryPasses(links, rank, Feed(links, rank, start, ds[..n]),
                            publisher, chain, before, i, ds[n]);
  }

  lemma ConvergesFrom(links: GitObjectId -> set<GitObjectId>, rank: Digest -> nat, start: Repo, repository: RepositoryId,
                      format: ObjectFormat, publisher: Identity, chain: Chain, ds: seq<Delivery>, at: seq<nat>)
    requires HistoryOf(repository, publisher, chain)
    requires forall d :: d in ds ==> Unforged(publisher, chain, d)
    requires Scheduled(links, repository, format, chain, ds, at)
    requires Along(links, start, repository, format, publisher, chain, 0)
    ensures Along(links, Feed(links, rank, start, ds), repository, format, publisher, chain, |chain.commits|)
  {
    hide Deliver, RepoOk, Unforged, GoodDelivery, Accept;
    if chain.commits == [] {
      assert Feed(links, rank, start, ds[..0]) == start;
      EndsAlong(links, rank, start, repository, format, publisher, chain, ds, 0, 0);
    } else {
      var last := |chain.commits| - 1;
      var k := ReachesStep(links, rank, start, repository, format, publisher, chain, ds, at, last);
      EndsAlong(links, rank, start, repository, format, publisher, chain, ds, at[last] + 1, k);
    }
  }

  lemma EndsAlong(links: GitObjectId -> set<GitObjectId>, rank: Digest -> nat, start: Repo, repository: RepositoryId,
                  format: ObjectFormat, publisher: Identity, chain: Chain, ds: seq<Delivery>, m: nat, k: nat)
    requires HistoryOf(repository, publisher, chain) && m <= |ds| && |chain.commits| <= k
    requires forall d :: d in ds ==> Unforged(publisher, chain, d)
    requires Along(links, Feed(links, rank, start, ds[..m]), repository, format, publisher, chain, k)
    ensures Along(links, Feed(links, rank, start, ds), repository, format, publisher, chain, |chain.commits|)
  {
    hide Deliver, RepoOk, Unforged, GoodDelivery, Accept;
    assert ds[..|ds|] == ds;
    var k' := FeedAlong(links, rank, start, repository, format, publisher, chain, ds, m, |ds|, k);
    assert k' == |chain.commits|;
  }

  /**
   Convergence: if among the deliveries, wherever they stand and whatever comes between, the exported
   transfers of all steps occur in order and come through undisturbed, the replica ends in the
   publisher's last state.
   */
  lemma Converges(links: GitObjectId -> set<GitObjectId>, rank: Digest -> nat, repository: RepositoryId,
                  format: ObjectFormat, publisher: Identity, chain: Chain, ds: seq<Delivery>, at: seq<nat>)
    requires HistoryOf(repository, publisher, chain)
    requires forall d :: d in ds ==> Unforged(publisher, chain, d)
    requires Scheduled(links, repository, format, chain, ds, at)
    ensures CurrentState(Feed(links, rank, Initial(repository, format).repo, ds), publisher)
         == StateAt(chain, |chain.commits|)
  {
    StartsAlong(links, repository, format, publisher, chain);
    ConvergesFrom(links, rank, Initial(repository, format).repo, repository, format, publisher, chain, ds, at);
  }
}
