/** A daemon that does its job, and that every batch on it succeeds. */
module Daemons {
  import opened Basics
  import opened Client
  import opened Core
  import opened Exchanges
  import opened Ipc
  import opened Outcomes
  import opened RemoteOperations
  import opened Sessions
  import Objects

  /** What it grants, and what it answers to any other request. */
  datatype Daemon = Daemon(capabilities: CapabilitySet, answer: RequestBody -> ResponseBody)

  function Reaction(daemon: Daemon, body: RequestBody): ResponseBody {
    if body.GetCapabilities? then Capabilities(daemon.capabilities) else daemon.answer(body)
  }

  /**
   It is reached, grants sound capabilities, and answers every request, in this version and under its id, with
   something relevant that is no larger than it may be; no request is too large for it.
   */
  ghost predicate Serves(world: World, maxResponseBytes: u64, daemon: Daemon) {
    && WellGranted(daemon.capabilities)
    && (forall sent: seq<Request> :: sent != [] ==> Replies(world, maxResponseBytes, daemon, sent))
    && (forall body: RequestBody :: !body.GetCapabilities? ==>
          Relevant(body, daemon.answer(body)) && WithinLimits(Some(daemon.capabilities), daemon.answer(body)))
    && forall request: Request ::
         SmallEnough(world, if request.body.GetCapabilities? then None else Some(daemon.capabilities), request)
  }

  predicate Replies(world: World, maxResponseBytes: u64, daemon: Daemon, sent: seq<Request>)
    requires sent != []
  {
    var reply, request := world.respond(sent), sent[|sent| - 1];
    && reply.Delivered? && reply.wire.length <= maxResponseBytes
    && reply.wire.decoded == Some(Response(IPC_VERSION, request.id, Reaction(daemon, request.body)))
  }

  /** A session with the daemon that has not failed, and has ids left for this many requests. */
  predicate Usable(s: Session, maxResponseBytes: u64, daemon: Daemon, ids: nat) {
    && !s.failed && s.maxResponseBytes == maxResponseBytes
    && (s.capabilities.None? || s.capabilities == Some(daemon.capabilities))
    && (ids > 0 ==> s.next.Some? && s.next.value + ids - 1 <= U128_MAX)
  }

  lemma SentNext(s: Session, after: Session, maxResponseBytes: u64, daemon: Daemon, ids: nat)
    requires Usable(s, maxResponseBytes, daemon, ids) && ids > 0
    requires after.capabilities == Some(daemon.capabilities) && after.maxResponseBytes == s.maxResponseBytes && !after.failed
    requires after.next == if s.next.value == U128_MAX then None else Some(s.next.value + 1)
    ensures Usable(after, maxResponseBytes, daemon, ids - 1)
  {
  }

  /** Negotiation succeeds. */
  lemma NegotiationSucceeds(world: World, s: Session, maxResponseBytes: u64, daemon: Daemon, ids: nat)
    requires Serves(world, maxResponseBytes, daemon) && Usable(s, maxResponseBytes, daemon, ids + 1)
    ensures var (after, r) := Negotiate(world, s);
            && r == Ok(daemon.capabilities) && after.capabilities == Some(daemon.capabilities)
            && Usable(after, maxResponseBytes, daemon, ids)
  {
    hide Negotiate;
    NegotiateExactly(world, s, daemon.capabilities);
    if s.capabilities.None? {
      assert Replies(world, maxResponseBytes, daemon, Sent(s, GetCapabilities));
    }
  }

  /** Every permitted request is answered. */
  lemma RequestSucceeds(world: World, s: Session, maxResponseBytes: u64, daemon: Daemon, ids: nat, body: RequestBody)
    requires Serves(world, maxResponseBytes, daemon) && Usable(s, maxResponseBytes, daemon, ids + 1)
    requires s.capabilities == Some(daemon.capabilities) && !body.GetCapabilities? && Permitted(daemon.capabilities, body)
    ensures Answered(world, s, body, daemon.answer(body))
    ensures var (after, r) := Ask(world, s, body);
            && r == Ok(daemon.answer(body)) && after.capabilities == s.capabilities
            && Usable(after, maxResponseBytes, daemon, ids)
  {
    hide Send, Permitted;
    assert Replies(world, maxResponseBytes, daemon, Sent(s, body));
    AskExactly(world, s, body, daemon.answer(body));
    SendExactly(world, s, body, body.Push?, daemon.answer(body), StableError(0, None));
  }

  /** `list` shows what the daemon lists. */
  lemma ListSucceeds(world: World, git: Git, remote: Remote, s: Session, maxResponseBytes: u64, daemon: Daemon)
    requires Serves(world, maxResponseBytes, daemon) && Usable(s, maxResponseBytes, daemon, 2)
    requires git.format.Ok? && ReadRepository in daemon.capabilities.granted
    requires var listing := daemon.answer(RequestBody.ListRefs(remote.repository, remote.view));
             listing.Refs? && GoodListing(git.format.value, listing.listing.refs)
             && (listing.listing.head.Some? ==> GoodReference(listing.listing.head.value))
    ensures Listing(world, git, remote, s).1 == Ok(daemon.answer(RequestBody.ListRefs(remote.repository, remote.view)).listing)
  {
    hide Serves, Usable, Negotiate, Ask, GoodListing, GoodReference, Answered, Listing;
    var body := RequestBody.ListRefs(remote.repository, remote.view);
    NegotiationSucceeds(world, s, maxResponseBytes, daemon, 1);
    RequestSucceeds(world, Negotiate(world, s).0, maxResponseBytes, daemon, 0, body);
    ListingExactly(world, git, remote, s, daemon.answer(body).listing);
  }

  lemma PushListSucceeds(world: World, git: Git, repository: RepositoryId, s: Session, maxResponseBytes: u64, daemon: Daemon)
    requires Serves(world, maxResponseBytes, daemon) && Usable(s, maxResponseBytes, daemon, 2)
    requires git.format.Ok? && WriteOwnNamespace in daemon.capabilities.granted
    requires var listing := daemon.answer(RequestBody.ListPushRefs(repository));
             listing.PushRefs? && GoodListing(git.format.value, listing.pushListing.refs)
    ensures PushListing(world, git, repository, s).1 == Ok(daemon.answer(RequestBody.ListPushRefs(repository)).pushListing)
  {
    hide Serves, Usable, Negotiate, Ask, GoodListing, Answered, PushListing;
    var body := RequestBody.ListPushRefs(repository);
    NegotiationSucceeds(world, s, maxResponseBytes, daemon, 1);
    RequestSucceeds(world, Negotiate(world, s).0, maxResponseBytes, daemon, 0, body);
    PushListingExactly(world, git, repository, s, daemon.answer(body).pushListing);
  }

  /** A fetch of good commands succeeds, if Git takes the pack and has the objects then. */
  lemma FetchSucceeds(world: World, git: Git, remote: Remote, s: Session, maxResponseBytes: u64, daemon: Daemon,
                      commands: seq<FetchCommand>, wants: seq<GitObjectId>, haves: seq<GitObjectId>)
    requires Serves(world, maxResponseBytes, daemon) && Usable(s, maxResponseBytes, daemon, 2)
    requires commands != [] && ReadRepository in daemon.capabilities.granted
    requires Prepared(git, daemon.capabilities.limits, commands, wants, haves)
    requires forall pack :: git.indexPack(pack).Ok?
    requires forall i :: 0 <= i < |commands| ==> git.has(commands[i].wanted) == Ok(true)
    ensures FetchBatch(world, git, remote, s, commands).1.Ok?
  {
    hide Usable, Negotiate, Ask, Prepared, Answered, FetchBatch;
    var body := RequestBody.Fetch(remote.repository, remote.view, wants, haves);
    NegotiationSucceeds(world, s, maxResponseBytes, daemon, 1);
    var s1 := Negotiate(world, s).0;
    WantsFit(git, daemon.capabilities.limits, commands, wants, haves);
    RequestSucceeds(world, s1, maxResponseBytes, daemon, 0, body);
    assert Relevant(body, daemon.answer(body));
    var pack := PackOf(daemon.answer(body), body);
    FetchBatchExactly(world, git, remote, s, commands);
    assert Fetches(world, git, remote, s1, daemon.capabilities, commands, wants, haves, pack);
  }

  function PackOf(answer: ResponseBody, body: RequestBody): (pack: Bytes)
    requires body.Fetch? && Relevant(body, answer)
    ensures answer == FetchPack(pack)
  {
    answer.pack
  }

  lemma WantsFit(git: Git, limits: Limits, commands: seq<FetchCommand>, wants: seq<GitObjectId>, haves: seq<GitObjectId>)
    requires Prepared(git, limits, commands, wants, haves)
    ensures |wants| <= limits.maxWants && |haves| <= limits.maxHaves
  {
    hide Lists;
    ListsExactly(haves, git.prerequisites(limits.maxHaves).value);
    Objects.ToSortedSetIs(git.prerequisites(limits.maxHaves).value);
  }

  /** And so does a push of good commands whose pack Git makes within the limit. */
  lemma PushSucceeds(world: World, git: Git, repository: RepositoryId, s: Session, maxResponseBytes: u64, daemon: Daemon,
                     commands: seq<PushCommand>, updates: seq<RefUpdate>, pack: Bytes)
    requires Serves(world, maxResponseBytes, daemon) && Usable(s, maxResponseBytes, daemon, 3)
    requires WriteOwnNamespace in daemon.capabilities.granted
    requires 0 < |commands| <= daemon.capabilities.limits.maxRefUpdates && |pack| <= daemon.capabilities.limits.maxPackBytes
    requires git.format.Ok? && AllPlannable(git, git.format.value, commands)
    requires var listing := daemon.answer(RequestBody.ListPushRefs(repository));
             && listing.PushRefs? && GoodListing(git.format.value, listing.pushListing.refs)
             && UpdatesFor(git, listing.pushListing.refs, commands, updates)
             && PackFor(git, daemon.capabilities.limits, listing.pushListing.refs, updates, pack)
    ensures daemon.answer(Push(repository, updates, pack)).PushCommitted?
    ensures PushBatch(world, git, repository, s, commands).1 == Ok(daemon.answer(Push(repository, updates, pack)).result)
  {
    hide Usable, Negotiate, Ask, GoodListing, AllPlannable, PackFor, Answered, PushBatch;
    var list, body := RequestBody.ListPushRefs(repository), Push(repository, updates, pack);
    NegotiationSucceeds(world, s, maxResponseBytes, daemon, 2);
    var s1 := Negotiate(world, s).0;
    RequestSucceeds(world, s1, maxResponseBytes, daemon, 1, list);
    RequestSucceeds(world, Ask(world, s1, list).0, maxResponseBytes, daemon, 0, body);
    assert Relevant(body, daemon.answer(body));
    PushBatchExactly(world, git, repository, s, commands, daemon.answer(body).result);
    assert Pushes(world, git, repository, s1, daemon.capabilities, commands, daemon.answer(list).pushListing, updates, pack,
                  daemon.answer(body).result);
  }
}
