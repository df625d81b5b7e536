/**
 Transfers that were committed once and come again when the replica has moved on.  The replication contract
 promises the answer "already present" for any of them; the code gives it for the latest one only.
 */
module Redelivery {
  import opened Basics
  import opened CommitMachine
  import opened Convergence
  import opened Core
  import opened Duplicates
  import opened History
  import opened Index
  import opened Liveness
  import opened Objects
  import opened Refs
  import opened Repositories
  import opened Solo
  import opened Store
  import opened Transfers

  /** A transfer of step `i` of the history, whatever its manifest, that passes the checks on itself. */
  predicate OfStep(rank: Digest -> nat, repo: Repo, publisher: Identity, chain: Chain, i: nat, d: Delivery) {
    var admitted := Admit(rank, repo, d.transfer, d.selected, d.maxPayload);
    && i < |chain.commits| && admitted.Ok?
    && admitted.value.commit.transition == chain.commits[i].transition
    && d.selected.identity == publisher
  }

  lemma OldNotAccepted(repo: Repo, chain: Chain, i: nat, k: nat, commit: Commit)
    requires ValidChain(repo.id, chain) && i < k <= |chain.commits| && commit.transition == chain.commits[i].transition
    ensures Accept(repo.id, commit, StateAt(chain, k)).Err?
    ensures chain.states[k - 1].transition == TransitionId(commit.transition) <==> i == k - 1
  {
    VerifiesOnlyOnItsParent(repo.id, chain, i, k, repo.id, commit.binding, commit.selected);
    StateShape(repo.id, chain, k - 1);
    if chain.states[k - 1].transition == TransitionId(commit.transition) {
      HistoryDistinct(repo.id, chain, k - 1, i);
    }
  }

  /** What `commit` makes of an old transition. */
  lemma OldNotCommitted(links: GitObjectId -> set<GitObjectId>, repo: Repo, publisher: Identity, chain: Chain,
                        i: nat, k: nat, request: Request, faults: Faults)
    requires RepoOk(links, repo) && ValidChain(repo.id, chain) && AtPosition(repo, publisher, chain, k) && i < k
    requires request.commit.transition == chain.commits[i].transition && request.Publisher() == publisher
    requires i != k - 1 && !faults.readLost
    ensures var (repo', r) := CommitOnce(links, repo, request, faults); repo' == repo && r.Err?
  {
    hide RepoOk, Accept;
    OldNotAccepted(repo, chain, i, k, request.commit);
    PlanOfCurrent(links, repo, request);
  }

  /**
   A replica that has accepted `k` transitions and gets a transfer of step `i < k` again, its reads coming
   through: the repository stays as it is, nothing is applied, and the answer is "already present" if and
   only if the transfer is of the latest step.  Of older ones the replica reports missing prerequisites,
   or fails.
   */
  lemma RedeliveryExactly(links: GitObjectId -> set<GitObjectId>, rank: Digest -> nat, repo: Repo, publisher: Identity,
                          chain: Chain, k: nat, i: nat, d: Delivery)
    requires RepoOk(links, repo) && HistoryOf(repo.id, publisher, chain) && AtPosition(repo, publisher, chain, k) && i < k
    requires OfStep(rank, repo, publisher, chain, i, d) && !d.noise.readLost && !d.noise.faults.readLost
    ensures var (repo', r) := ApplyTransfer(links, rank, repo, d.transfer, d.selected, d.maxPayload, d.noise);
            && repo' == repo
            && (r.Ok? && r.value.TransferPresent? <==> i == k - 1)
            && (i == k - 1 ==> r == Ok(TransferPresent(chain.states[i])))
            && (i < k - 1 ==> r.Err? || r.value.MissingPrerequisites?)
  {
    hide RepoOk, CommitOnce, Missing, Accept;
    var request := Admit(rank, repo, d.transfer, d.selected, d.maxPayload).value;
    OldNotAccepted(repo, chain, i, k, request.commit);
    CurrentIsLoaded(links, repo, publisher);
    if i < k - 1 {
      OldNotCommitted(links, repo, publisher, chain, i, k, request, d.noise.faults);
    }
  }

  /** With lost reads and all: an old transfer moves no replica. */
  lemma OldTransfersMoveNothing(links: GitObjectId -> set<GitObjectId>, rank: Digest -> nat, repo: Repo, publisher: Identity,
                                chain: Chain, k: nat, i: nat, d: Delivery)
    requires RepoOk(links, repo) && HistoryOf(repo.id, publisher, chain) && AtPosition(repo, publisher, chain, k) && i < k
    requires OfStep(rank, repo, publisher, chain, i, d)
    ensures AtPosition(Deliver(links, rank, repo, d), publisher, chain, k)
    ensures forall q: Identity :: q != publisher ==>
              CurrentState(Deliver(links, rank, repo, d), q) == CurrentState(repo, q)
  {
    hide RepoOk, Accept, Deliver;
    OldNotAccepted(repo, chain, i, k, Admit(rank, repo, d.transfer, d.selected, d.maxPayload).value.commit);
    DeliverIsSound(links, rank, repo, d);
  }

  /// A transfer that is not found present

  function Founding(id: RepositoryId): Chain {
    Chain([Commit(First(id), BINDING, SELECTED), Commit(Second(id), BINDING, SELECTED)],
          [StateOf(id, First(id)), StateOf(id, Second(id))])
  }

  /** The transfers exported for the two steps; they refer to nothing, so their packs are empty. */
  function FoundingDelivery(id: RepositoryId, i: nat): Delivery
    requires i < 2
  {
    Delivery(NewTransfer(id, BINDING, Founding(id).commits[i].transition,
                         if i == 0 then None else Some(Refs.TransitionId(First(id))), [], Pack(0, {})),
             SELECTED, 0, QUIET)
  }

  lemma FoundingIsHistory(id: RepositoryId)
    ensures HistoryOf(id, 1, Founding(id))
  {
    hide Accept;
    BothAccepted(id);
    assert Link(id, Founding(id), 0) && Link(id, Founding(id), 1);
  }

  lemma FoundingIsGood(links: GitObjectId -> set<GitObjectId>, id: RepositoryId, format: ObjectFormat, i: nat)
    requires i < 2
    ensures HistoryOf(id, 1, Founding(id)) && GoodDelivery(links, id, format, Founding(id), i, FoundingDelivery(id, i))
  {
    hide Accept, Prerequisites;
    FoundingIsHistory(id);
    assert Link(id, Founding(id), i);
    var none: seq<GitObjectId> := [];
    var chain, d := Founding(id), FoundingDelivery(id, i);
    BothAccepted(id);
    assert StateOf(id, First(id)).transition == Refs.TransitionId(First(id));
    assert ExportTransfer(id, chain.commits[i], StateAt(chain, i), none, d.transfer.payload) == Ok(d.transfer);
    assert PackCovers(links, format, StateAt(chain, i), chain.states[i], none, d.transfer.payload);
  }

  /** A replica that has been sent both. */
  ghost function Informed(links: GitObjectId -> set<GitObjectId>, rank: Digest -> nat, id: RepositoryId, format: ObjectFormat): Repo {
    Feed(links, rank, Initial(id, format).repo, [FoundingDelivery(id, 0), FoundingDelivery(id, 1)])
  }

  lemma InformedIsAtEnd(links: GitObjectId -> set<GitObjectId>, rank: Digest -> nat, id: RepositoryId, format: ObjectFormat)
    ensures var repo := Informed(links, rank, id, format);
            && RepoOk(links, repo) && repo.id == id && HistoryOf(id, 1, Founding(id))
            && AtPosition(repo, 1, Founding(id), 2)
  {
    hide GoodDelivery, Unforged, Accept, RepoOk, Deliver;
    var ds: seq<Delivery>, at: seq<nat> := [FoundingDelivery(id, 0), FoundingDelivery(id, 1)], [0, 1];
    FoundingIsGood(links, id, format, 0);
    FoundingIsGood(links, id, format, 1);
    forall d | d in ds
      ensures Unforged(1, Founding(id), d)
    {
      FoundingIsUnforged(id, if d == ds[0] then 0 else 1);
    }
    Converges(links, rank, id, format, 1, Founding(id), ds, at);
    InitialInv(links, id, format);
    var k := FeedPosition(links, rank, Initial(id, format).repo, 1, Founding(id), 0, ds);
  }

  lemma FoundingIsUnforged(id: RepositoryId, i: nat)
    requires i < 2
    ensures Unforged(1, Founding(id), FoundingDelivery(id, i))
  {
    assert FoundingDelivery(id, i).transfer.transition.value == Founding(id).commits[i].transition;
  }

  /**
   The promise fails: a transfer that this replica was sent and has accepted, delivered once more without
   any disturbance, is answered by an error and not as already present.
   */
  lemma OlderTransferNotPresent(links: GitObjectId -> set<GitObjectId>, rank: Digest -> nat, id: RepositoryId, format: ObjectFormat)
    ensures var repo, d := Informed(links, rank, id, format), FoundingDelivery(id, 0);
            && Refs.TransitionId(d.transfer.transition.value) in AcceptedBy(repo, 1)
            && ApplyTransfer(links, rank, repo, d.transfer, d.selected, d.maxPayload, d.noise) ==
               (repo, Err(StoreFailed(CoreFailed(InvalidRefTransition(ContextMismatch)))))
  {
    hide RepoOk, Accept, Feed, CurrentState;
    var repo, d, chain := Informed(links, rank, id, format), FoundingDelivery(id, 0), Founding(id);
    InformedIsAtEnd(links, rank, id, format);
    AcceptedAt(repo, 1, chain, 2);
    assert Refs.TransitionId(chain.commits[0].transition) in Ids(chain, 2);
    CurrentIsLoaded(links, repo, 1);
    BothAccepted(id);
    FoundingIsGood(links, id, format, 0);
    AdmitGood(rank, Initial(id, format).repo, chain.commits[0], None, [], d);
    SecondExcludesFirst(id);
  }
}
