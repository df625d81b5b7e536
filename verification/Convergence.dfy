/**
 Replicas fed transfers of one publisher's history, in any order, with duplicates, losses, faults and
 garbage in between.
 */
module Convergence {
  import opened Basics
  import opened Core
  import opened Objects
  import opened Refs
  import opened History
  import opened Store
  import opened Index
  import opened CommitMachine
  import opened Repositories
  import opened Solo
  import opened Transfers

  datatype Delivery = Delivery(transfer: Transfer, selected: SignerSelection, maxPayload: nat, noise: Noise)

  ghost function Deliver(links: GitObjectId -> set<GitObjectId>, rank: Digest -> nat, repo: Repo, d: Delivery): Repo {
    ApplyTransfer(links, rank, repo, d.transfer, d.selected, d.maxPayload, d.noise).0
  }

  ghost function Feed(links: GitObjectId -> set<GitObjectId>, rank: Digest -> nat, repo: Repo, ds: seq<Delivery>): Repo {
    if ds == [] then repo
    else Deliver(links, rank, Feed(links, rank, repo, ds[..|ds| - 1]), ds[|ds| - 1])
  }

  /** A history all of whose transitions are of one publisher. */
  predicate HistoryOf(repository: RepositoryId, publisher: Identity, chain: Chain) {
    && ValidChain(repository, chain)
    && forall c :: c in chain.commits ==> c.selected.identity == publisher
  }

  /** Nobody but the publisher signs for it: what verifies under its selection is in the history. */
  ghost predicate Unforged(publisher: Identity, chain: Chain, d: Delivery) {
    var transition := d.transfer.transition;
    && transition.Canonical?
    && d.selected.identity == publisher
    && Verifies(d.selected.repositoryKey, SignatureFrame(transition.value.payload), transition.value.signature)
    ==> exists i :: 0 <= i < |chain.commits| && chain.commits[i].transition == transition.value
  }

  /** The replica holds the publisher's state after the first `k` transitions. */
  ghost predicate AtPosition(repo: Repo, publisher: Identity, chain: Chain, k: nat)
  {
    k <= |chain.states| && CurrentState(repo, publisher) == StateAt(chain, k)
  }

  lemma PositionUnique(repo: Repo, publisher: Identity, chain: Chain, j: nat, k: nat)
    requires ValidChain(repo.id, chain) && AtPosition(repo, publisher, chain, j) && AtPosition(repo, publisher, chain, k)
    ensures j == k
  {
    if j > 0 { StateShape(repo.id, chain, j - 1); }
    if k > 0 { StateShape(repo.id, chain, k - 1); }
  }

  lemma DeliverIsSound(links: GitObjectId -> set<GitObjectId>, rank: Digest -> nat, repo: Repo, d: Delivery)
    requires RepoOk(links, repo)
    ensures var repo' := Deliver(links, rank, repo, d);
            && RepoOk(links, repo') && Grows(repo, repo')
            && (repo' == repo
                || (&& d.transfer.binding.Canonical? && d.transfer.transition.Canonical?
                    && Advances(repo, repo', RequestOf(d.transfer, d.selected))
                    && forall q: Identity :: q != d.selected.identity ==> CurrentState(repo', q) == CurrentState(repo, q)))
  {
    hide RepoOk, CurrentState, Advances, CommitOnce, OutcomeTrue, Admit, LoadState, Missing;
    var admitted := Admit(rank, repo, d.transfer, d.selected, d.maxPayload);
    if admitted.Ok? {
      CommitOnceIsSound(links, repo, admitted.value, d.noise.faults);
    }
  }

  /** The only transition of a history that a state of it accepts is the next one. */
  lemma AcceptedIsNext(repository: RepositoryId, chain: Chain, k: nat, i: nat, commit: Commit)
    requires ValidChain(repository, chain) && k <= |chain.commits| && i < |chain.commits|
    requires chain.commits[i].transition == commit.transition
    requires Accept(repository, commit, StateAt(chain, k)).Ok?
    ensures i == k && Accept(repository, commit, StateAt(chain, k)) == Ok(chain.states[k])
  {
    VerifiesOnlyOnItsParent(repository, chain, i, k, repository, commit.binding, commit.selected);
    assert Link(repository, chain, k);
  }

  lemma AcceptVerifies(repository: RepositoryId, commit: Commit, previous: Option<RefState>)
    requires Accept(repository, commit, previous).Ok?
    ensures Verifies(commit.selected.repositoryKey, SignatureFrame(commit.transition.payload), commit.transition.signature)
    ensures Accept(repository, commit, previous).value.publisher == commit.selected.identity
  {
  }

  /** One delivery leaves the replica where it is or moves it to the next position. */
  lemma DeliverMoves(links: GitObjectId -> set<GitObjectId>, rank: Digest -> nat, repo: Repo, publisher: Identity,
                     chain: Chain, k: nat, d: Delivery) returns (k': nat)
    requires RepoOk(links, repo) && HistoryOf(repo.id, publisher, chain) && Unforged(publisher, chain, d)
    requires AtPosition(repo, publisher, chain, k)
    ensures Deliver(links, rank, repo, d).id == repo.id
    ensures k <= k' <= k + 1 && AtPosition(Deliver(links, rank, repo, d), publisher, chain, k')
  {
    hide Deliver, RepoOk, Accept;
    var repo' := Deliver(links, rank, repo, d);
    DeliverIsSound(links, rank, repo, d);
    k' := k;
    if CurrentState(repo', publisher) != CurrentState(repo, publisher) {
      k' := k + 1;
      MoveIsNext(links, repo, repo', publisher, chain, k, d, RequestOf(d.transfer, d.selected));
    }
  }

  lemma MoveIsNext(links: GitObjectId -> set<GitObjectId>, repo: Repo, repo': Repo, publisher: Identity,
                   chain: Chain, k: nat, d: Delivery, request: Request)
    requires HistoryOf(repo.id, publisher, chain) && Unforged(publisher, chain, d) && repo'.id == repo.id
    requires AtPosition(repo, publisher, chain, k)
    requires d.transfer.binding.Canonical? && d.transfer.transition.Canonical? && request == RequestOf(d.transfer, d.selected)
    requires Advances(repo, repo', request) && d.selected.identity == publisher
    requires CurrentState(repo', publisher) != CurrentState(repo, publisher)
    ensures AtPosition(repo', publisher, chain, k + 1)
  {
    AcceptVerifies(repo.id, request.commit, StateAt(chain, k));
    var i :| 0 <= i < |chain.commits| && chain.commits[i].transition == request.commit.transition;
    AcceptedIsNext(repo.id, chain, k, i, request.commit);
  }

  lemma {:induction false} FeedPosition(links: GitObjectId -> set<GitObjectId>, rank: Digest -> nat, repo: Repo,
                                        publisher: Identity, chain: Chain, k: nat, ds: seq<Delivery>) returns (k': nat)
    requires RepoOk(links, repo) && HistoryOf(repo.id, publisher, chain) && AtPosition(repo, publisher, chain, k)
    requires forall d :: d in ds ==> Unforged(publisher, chain, d)
    ensures Feed(links, rank, repo, ds).id == repo.id && RepoOk(links, Feed(links, rank, repo, ds))
    ensures k <= k' && AtPosition(Feed(links, rank, repo, ds), publisher, chain, k')
  {
    hide Deliver, RepoOk, Unforged, Accept;
    if ds == [] {
      k' := k;
    } else {
      var n := |ds| - 1;
      var mid := FeedPosition(links, rank, repo, publisher, chain, k, ds[..n]);
      DeliverIsSound(links, rank, Feed(links, rank, repo, ds[..n]), ds[n]);
      k' := DeliverMoves(links, rank, Feed(links, rank, repo, ds[..n]), publisher, chain, mid, ds[n]);
    }
  }

  lemma {:induction false} FeedConcat(links: GitObjectId -> set<GitObjectId>, rank: Digest -> nat, repo: Repo,
                                      a: seq<Delivery>, b: seq<Delivery>)
    ensures Feed(links, rank, repo, a + b) == Feed(links, rank, Feed(links, rank, repo, a), b)
  {
    hide Deliver, RepoOk, Unforged, Accept;
    if b == [] {
      assert a + b == a;
    } else {
      FeedConcat(links, rank, repo, a, b[..|b| - 1]);
      assert (a + b)[..|a + b| - 1] == a + b[..|b| - 1];
    }
  }

  /**
   Safety: whatever is delivered, in whatever order and however often, a replica holds no state or one
   of the publisher's states, and from any moment to any later one it never goes back.
   */
  lemma NeverBackwards(links: GitObjectId -> set<GitObjectId>, rank: Digest -> nat, repository: RepositoryId,
                       format: ObjectFormat, publisher: Identity, chain: Chain, ds: seq<Delivery>, m: nat)
    returns (before: nat, after: nat)
    requires HistoryOf(repository, publisher, chain) && m <= |ds|
    requires forall d :: d in ds ==> Unforged(publisher, chain, d)
    ensures var start := Initial(repository, format).repo;
            && Feed(links, rank, start, ds[..m]).id == repository && Feed(links, rank, start, ds).id == repository
            && AtPosition(Feed(links, rank, start, ds[..m]), publisher, chain, before)
            && AtPosition(Feed(links, rank, start, ds), publisher, chain, after)
            && before <= after
  {
    hide Deliver, RepoOk, Unforged, Accept;
    var start := Initial(repository, format).repo;
    InitialInv(links, repository, format);
    before := FeedPosition(links, rank, start, publisher, chain, 0, ds[..m]);
    after := FeedPosition(links, rank, Feed(links, rank, start, ds[..m]), publisher, chain, before, ds[m..]);
    FeedConcat(links, rank, start, ds[..m], ds[m..]);
    assert ds[..m] + ds[m..] == ds;
  }

  /// Two replicas

  function Ids(chain: Chain, k: nat): set<Digest>
    requires k <= |chain.commits|
  {
    set i | 0 <= i < k :: TransitionId(chain.commits[i].transition)
  }

  lemma {:induction false} LineageAt(repository: RepositoryId, chain: Chain, k: nat)
    requires ValidChain(repository, chain) && k < |chain.commits|
    ensures Lineage(chain.states[k].transition) == Ids(chain, k + 1)
  {
    StateShape(repository, chain, k);
    assert Ids(chain, k + 1) == Ids(chain, k) + {TransitionId(chain.commits[k].transition)};
    if k > 0 {
      LineageAt(repository, chain, k - 1);
      StateShape(repository, chain, k - 1);
    }
  }

  /** The transitions a replica has accepted from a publisher. */
  ghost function AcceptedBy(repo: Repo, publisher: Identity): set<Digest> {
    var state := CurrentState(repo, publisher);
    if state.None? then {} else Lineage(state.value.transition)
  }

  lemma AcceptedAt(repo: Repo, publisher: Identity, chain: Chain, k: nat)
    requires ValidChain(repo.id, chain) && AtPosition(repo, publisher, chain, k)
    ensures AcceptedBy(repo, publisher) == Ids(chain, k)
  {
    if k > 0 { LineageAt(repo.id, chain, k - 1); }
  }

  /**
   Any two replicas, fed differently, agree as far as both have come: one has accepted all that the other
   has, and if they have accepted equally many transitions they hold the same state.
   */
  lemma ReplicasComparable(links: GitObjectId -> set<GitObjectId>, rank: Digest -> nat, repository: RepositoryId,
                           format: ObjectFormat, publisher: Identity, chain: Chain,
                           ds1: seq<Delivery>, ds2: seq<Delivery>)
    requires HistoryOf(repository, publisher, chain)
    requires forall d :: d in ds1 || d in ds2 ==> Unforged(publisher, chain, d)
    ensures var r1 := Feed(links, rank, Initial(repository, format).repo, ds1);
            var r2 := Feed(links, rank, Initial(repository, format).repo, ds2);
            && (AcceptedBy(r1, publisher) <= AcceptedBy(r2, publisher) || AcceptedBy(r2, publisher) <= AcceptedBy(r1, publisher))
            && (AcceptedBy(r1, publisher) == AcceptedBy(r2, publisher) <==>
                  CurrentState(r1, publisher) == CurrentState(r2, publisher))
  {
    hide Deliver, RepoOk, Unforged, Accept;
    var r1 := Feed(links, rank, Initial(repository, format).repo, ds1);
    var r2 := Feed(links, rank, Initial(repository, format).repo, ds2);
    InitialInv(links, repository, format);
    var k1 := FeedPosition(links, rank, Initial(repository, format).repo, publisher, chain, 0, ds1);
    var k2 := FeedPosition(links, rank, Initial(repository, format).repo, publisher, chain, 0, ds2);
    AcceptedAt(r1, publisher, chain, k1);
    AcceptedAt(r2, publisher, chain, k2);
    if k1 < k2 {
      FurtherOn(r1, r2, publisher, chain, k1, k2);
    } else if k2 < k1 {
      FurtherOn(r2, r1, publisher, chain, k2, k1);
    }
  }

  lemma FurtherOn(r1: Repo, r2: Repo, publisher: Identity, chain: Chain, k1: nat, k2: nat)
    requires r1.id == r2.id && ValidChain(r1.id, chain) && k1 < k2
    requires AtPosition(r1, publisher, chain, k1) && AtPosition(r2, publisher, chain, k2)
    ensures AcceptedBy(r1, publisher) < AcceptedBy(r2, publisher)
    ensures CurrentState(r1, publisher) != CurrentState(r2, publisher)
  {
    AcceptedAt(r1, publisher, chain, k1);
    AcceptedAt(r2, publisher, chain, k2);
    if CurrentState(r1, publisher) == CurrentState(r2, publisher) {
      PositionUnique(r2, publisher, chain, k1, k2);
    }
    var d := TransitionId(chain.commits[k1].transition);
    if d in Ids(chain, k1) {
      var i :| 0 <= i < k1 && d == TransitionId(chain.commits[i].transition);
      HistoryDistinct(r1.id, chain, i, k1);
    }
    assert d in Ids(chain, k2);
  }
}
