/** What batches send, and that the later checks on what they send never fire. */
module Batches {
  import opened Basics
  import opened Client
  import opened Core
  import opened Ipc
  import opened Objects
  import opened RemoteOperations
  import opened Sessions
  import Refs

  /// Planning a push

  predicate DistinctNames(updates: seq<RefUpdate>) {
    forall i, j :: 0 <= i < j < |updates| ==> updates[i].name != updates[j].name
  }

  /** The update that a command must become, given the listing. */
  predicate Maps(git: Git, format: GitObjectFormat, current: seq<RefTarget>, command: PushCommand, update: RefUpdate) {
    && ValidReference(command.destination)
    && update.name == command.destination
    && update.expected == Refs.Lookup(current, command.destination)
    && update.force == command.force
    && (command.source.None? <==> update.after.None?)
    && (command.source.Some? ==>
          git.resolve(command.source.value) == Ok(update.after.value) && ValidateObject(format, update.after.value).Ok?)
  }

  ghost predicate Planned(git: Git, format: GitObjectFormat, current: seq<RefTarget>, commands: seq<PushCommand>, plan: Plan) {
    && |plan.updates| == |commands|
    && (forall i :: 0 <= i < |commands| ==> Maps(git, format, current, commands[i], plan.updates[i]))
    && DistinctNames(plan.updates)
    && (forall name :: name in plan.destinations <==> exists i :: 0 <= i < |plan.updates| && plan.updates[i].name == name)
    && SortedSet(plan.includes)
    && |plan.includes| <= |commands|
    && (forall o :: o in plan.includes <==> exists i :: 0 <= i < |plan.updates| && plan.updates[i].after == Some(o))
  }

  /** Updates map one to one, in order, to the commands; the objects to send are those resolved. */
  lemma {:induction false} PlanIs(git: Git, format: GitObjectFormat, current: seq<RefTarget>, commands: seq<PushCommand>)
    requires PlanPush(git, format, current, commands).Ok?
    ensures Planned(git, format, current, commands, PlanPush(git, format, current, commands).value)
  {
    hide ValidReference, ValidateObject, Refs.Lookup, SortedSet;
    if commands == [] {
      assert SortedSet([]) by { NoneSorted(); }
    } else {
      var n := |commands| - 1;
      PlanIs(git, format, current, commands[..n]);
      var before := PlanPush(git, format, current, commands[..n]).value;
      PlanStepKeeps(git, format, current, commands, before);
    }
  }

  lemma NoneSorted()
    ensures SortedSet([])
  {
  }

  lemma LastInclude(updates: seq<RefUpdate>, last: RefUpdate, o: GitObjectId)
    ensures (exists i :: 0 <= i < |updates + [last]| && (updates + [last])[i].after == Some(o)) <==>
            last.after == Some(o) || exists i :: 0 <= i < |updates| && updates[i].after == Some(o)
  {
    var all := updates + [last];
    if last.after == Some(o) {
      assert all[|updates|].after == Some(o);
    }
    if i :| 0 <= i < |updates| && updates[i].after == Some(o) {
      assert all[i].after == Some(o);
    }
  }

  lemma LastName(updates: seq<RefUpdate>, last: RefUpdate, name: string)
    ensures (exists i :: 0 <= i < |updates + [last]| && (updates + [last])[i].name == name) <==>
            last.name == name || exists i :: 0 <= i < |updates| && updates[i].name == name
  {
    var all := updates + [last];
    if last.name == name {
      assert all[|updates|].name == name;
    }
    if i :| 0 <= i < |updates| && updates[i].name == name {
      assert all[i].name == name;
    }
  }

  lemma DistinctLast(updates: seq<RefUpdate>, last: RefUpdate)
    requires DistinctNames(updates) && !exists i :: 0 <= i < |updates| && updates[i].name == last.name
    ensures DistinctNames(updates + [last])
  {
  }

  lemma PlanStepKeeps(git: Git, format: GitObjectFormat, current: seq<RefTarget>, commands: seq<PushCommand>, before: Plan)
    requires commands != [] && Planned(git, format, current, commands[..|commands| - 1], before)
    requires PlanStep(git, format, current, before, commands[|commands| - 1]).Ok?
    ensures Planned(git, format, current, commands, PlanStep(git, format, current, before, commands[|commands| - 1]).value)
  {
    hide ValidReference, ValidateObject, Refs.Lookup, DistinctNames, SortedSet, Maps, PlanStep, Add;
    var n := |commands| - 1;
    StepMaps(git, format, current, before, commands[n]);
    var plan := PlanStep(git, format, current, before, commands[n]).value;
    var update := plan.updates[n];
    assert forall i :: 0 <= i < n ==> plan.updates[i] == before.updates[i] && commands[..n][i] == commands[i];
    DistinctLast(before.updates, update);
    if update.after.Some? {
      AddMembers(update.after.value, before.includes);
      AddSorts(update.after.value, before.includes);
    }
    forall o
      ensures o in plan.includes <==> exists i :: 0 <= i < |plan.updates| && plan.updates[i].after == Some(o)
    {
      LastInclude(before.updates, update, o);
    }
    forall name
      ensures name in plan.destinations <==> exists i :: 0 <= i < |plan.updates| && plan.updates[i].name == name
    {
      LastName(before.updates, update, name);
    }
  }

  lemma StepMaps(git: Git, format: GitObjectFormat, current: seq<RefTarget>, before: Plan, command: PushCommand)
    requires PlanStep(git, format, current, before, command).Ok?
    ensures var plan := PlanStep(git, format, current, before, command).value;
            && plan.updates == before.updates + [plan.updates[|before.updates|]]
            && var update := plan.updates[|before.updates|];
            && Maps(git, format, current, command, update)
            && update.name == command.destination && command.destination !in before.destinations
            && plan.destinations == before.destinations + {update.name}
            && plan.includes == if update.after.Some? then Add(update.after.value, before.includes) else before.includes
  {
    hide ValidReference, ValidateObject, Refs.Lookup;
  }

  /// The pack

  predicate AllOfFormat(format: GitObjectFormat, objects: seq<GitObjectId>) {
    forall o :: o in objects ==> ValidateObject(format, o).Ok?
  }

  lemma {:induction false} FormatsHold(format: GitObjectFormat, objects: seq<GitObjectId>)
    requires AllOfFormat(format, objects)
    ensures RequireFormats(format, objects).Ok?
  {
    if objects != [] {
      assert objects[0] in objects;
      FormatsHold(format, objects[1..]);
    }
  }

  lemma PlannedOfFormat(git: Git, format: GitObjectFormat, current: seq<RefTarget>, commands: seq<PushCommand>, plan: Plan)
    requires Planned(git, format, current, commands, plan)
    ensures AllOfFormat(format, plan.includes)
  {
    hide ValidReference, ValidateObject, Refs.Lookup, SortedSet;
    forall o | o in plan.includes
      ensures ValidateObject(format, o).Ok?
    {
      var i :| 0 <= i < |plan.updates| && plan.updates[i].after == Some(o);
      assert Maps(git, format, current, commands[i], plan.updates[i]);
    }
  }

  function Excludes(limits: Limits, current: seq<RefTarget>): seq<GitObjectId> {
    Take(ToSortedSet(Targets(current)), limits.maxHaves)
  }

  lemma ExcludesOfFormat(format: GitObjectFormat, limits: Limits, current: seq<RefTarget>)
    requires ValidateListing(format, current).Ok?
    ensures AllOfFormat(format, Excludes(limits, current)) && |Excludes(limits, current)| <= limits.maxHaves
  {
    hide ValidateObject, ValidReference, SortedSet;
    ValidateEntriesExact(format, current);
    ToSortedSetIs(Targets(current));
    forall o | o in Excludes(limits, current)
      ensures ValidateObject(format, o).Ok?
    {
      assert o in Targets(current);
      var i :| 0 <= i < |current| && Targets(current)[i] == o;
      assert current[i] in current;
    }
  }

  /**
   The revision limit always fits: preparation fails in the checks on the commands or in Git itself, and
   never on a count or on the format of an object.
   */
  lemma PackAlwaysFits(git: Git, format: GitObjectFormat, limits: Limits, current: seq<RefTarget>, commands: seq<PushCommand>)
    requires git.format == Ok(format) && |commands| <= limits.maxRefUpdates
    requires ValidateListing(format, current).Ok? && PlanPush(git, format, current, commands).Ok?
    ensures var plan := PlanPush(git, format, current, commands).value;
            var excludes := Excludes(limits, current);
            && |plan.includes| + |excludes| <= limits.maxRefUpdates + limits.maxHaves
            && PreparePush(git, format, limits, current, commands) ==
               if plan.includes == [] then Ok((plan.updates, []))
               else
                 match git.packObjects(plan.includes, excludes)
                 case Err(e) => Err(GitFailed(e))
                 case Ok(pack) =>
                   if |pack| > limits.maxPackBytes then Err(GitFailed(OutputLimitExceeded(limits.maxPackBytes)))
                   else Ok((plan.updates, pack))
  {
    hide ValidateListing, ValidateObject, SortedSet;
    var plan, excludes := PlanPush(git, format, current, commands).value, Excludes(limits, current);
    PlanIs(git, format, current, commands);
    PlannedOfFormat(git, format, current, commands, plan);
    ExcludesOfFormat(format, limits, current);
    assert forall o :: o in plan.includes + excludes <==> o in plan.includes || o in excludes;
    FormatsHold(format, plan.includes + excludes);
  }

  /// What a push batch sends

  /** Only negotiation and listing requests are sent between the two. */
  predicate Queries(s: Session, t: Session) {
    && |s.sent| <= |t.sent| && t.sent[..|s.sent|] == s.sent
    && forall i :: |s.sent| <= i < |t.sent| ==> t.sent[i].body.GetCapabilities? || t.sent[i].body.ListPushRefs?
  }

  lemma NegotiateQueries(world: World, s: Session)
    ensures var (after, r) := Negotiate(world, s);
            && Queries(s, after)
            && (r.Ok? ==> after.capabilities == Some(r.value))
  {
    hide Send, Concluded, ValidateRequest;
    SendCases(world, s, GetCapabilities, false);
  }

  lemma ListQueries(world: World, s: Session, repository: RepositoryId)
    ensures var (after, answer) := Ask(world, s, RequestBody.ListPushRefs(repository));
            var r := PushRefsIn(answer);
            && Queries(s, after) && after.capabilities == s.capabilities
            && (r.Ok? ==> && ValidateRequest(s.capabilities, RequestBody.ListPushRefs(repository)).Ok?
                          && after.sent != [] && after.sent[|after.sent| - 1].body == RequestBody.ListPushRefs(repository)
                          && Accepted(world, after.sent, after.maxResponseBytes, PushRefs(r.value)))
  {
    hide Send, ValidateRequest, MaySend;
    GateExact(s.capabilities, RequestBody.ListPushRefs(repository));
    var (after, answer) := Ask(world, s, RequestBody.ListPushRefs(repository));
    SendCases(world, s, RequestBody.ListPushRefs(repository), false);
    if answer.Ok? && answer.value.PushRefs? {
      assert answer.value == PushRefs(answer.value.pushListing);
    }
  }

  lemma QueriesTransitive(s: Session, t: Session, u: Session)
    requires Queries(s, t) && Queries(t, u)
    ensures Queries(s, u)
  {
    assert u.sent[..|t.sent|][..|s.sent|] == u.sent[..|s.sent|];
    forall i | |s.sent| <= i < |u.sent|
      ensures u.sent[i].body.GetCapabilities? || u.sent[i].body.ListPushRefs?
    {
      if i < |t.sent| {
        assert u.sent[..|t.sent|][i] == t.sent[i];
      }
    }
  }

  /** The push that a batch prepares passes every local check of the client. */
  lemma PushPassesGate(git: Git, format: GitObjectFormat, capabilities: CapabilitySet, repository: RepositoryId,
                       current: seq<RefTarget>, commands: seq<PushCommand>)
    requires git.format == Ok(format) && |commands| <= capabilities.limits.maxRefUpdates
    requires ValidateRequest(Some(capabilities), RequestBody.ListPushRefs(repository)).Ok?
    requires PreparePush(git, format, capabilities.limits, current, commands).Ok?
    ensures var (updates, pack) := PreparePush(git, format, capabilities.limits, current, commands).value;
            ValidateRequest(Some(capabilities), Push(repository, updates, pack)).Ok?
  {
    hide ValidateListing, CreatePushPack;
    PlanIs(git, format, current, commands);
    PackAlwaysFits(git, format, capabilities.limits, current, commands);
  }

  /**
   A push batch either sends no push and fails, or sends exactly one, last, whose updates are the commands'
   one to one and in order, expecting what the listing it follows shows; its outcome is that push's.
   */
  lemma PushBatchTrace(world: World, git: Git, repository: RepositoryId, s: Session, commands: seq<PushCommand>)
    returns (middle: Session, listing: PushRefListing, plan: Plan, pack: Bytes)
    ensures var (after, r) := PushBatch(world, git, repository, s, commands);
            || (r.Err? && Queries(s, after))
            || (&& Queries(s, middle) && middle.sent != []
                && middle.sent[|middle.sent| - 1].body == RequestBody.ListPushRefs(repository)
                && Accepted(world, middle.sent, middle.maxResponseBytes, PushRefs(listing))
                && git.format.Ok? && ValidateListing(git.format.value, listing.refs).Ok?
                && Planned(git, git.format.value, listing.refs, commands, plan)
                && Sends(world, middle, after, Push(repository, plan.updates, pack))
                && (after, r) == (Ask(world, middle, Push(repository, plan.updates, pack)).0,
                                  FromClient(ResultIn(Ask(world, middle, Push(repository, plan.updates, pack)).1))))
  {
    hide Send, Negotiate, Queries, Planned, ValidateListing, PreparePush, Accepted, ValidateRequest, Concluded;
    middle, listing, plan, pack := s, PushRefListing(repository, []), Plan({}, [], []), [];
    var (s1, negotiated) := Negotiate(world, s);
    NegotiateQueries(world, s);
    QueriesSelf(s);
    if commands != [] && negotiated.Ok? && |commands| <= negotiated.value.limits.maxRefUpdates && git.format.Ok? {
      var (s2, answer) := Ask(world, s1, RequestBody.ListPushRefs(repository));
      ListQueries(world, s1, repository);
      QueriesTransitive(s, s1, s2);
      var listed := PushRefsIn(answer);
      if listed.Ok? {
        var prepared := PreparePush(git, git.format.value, negotiated.value.limits, listed.value.refs, commands);
        if prepared.Ok? {
          middle, listing, pack := s2, listed.value, prepared.value.1;
          plan := PreparedIsPlanned(git, git.format.value, negotiated.value.limits, listing.refs, commands);
          PushPassesGate(git, git.format.value, negotiated.value, repository, listing.refs, commands);
          SendCases(world, s2, Push(repository, plan.updates, pack), true);
          var after := Ask(world, s2, Push(repository, plan.updates, pack)).0;
          if Silent(s2, after) {
            SilentQueries(s, s2, after);
          }
        }
      }
    }
  }

  lemma PreparedIsPlanned(git: Git, format: GitObjectFormat, limits: Limits, current: seq<RefTarget>, commands: seq<PushCommand>)
    returns (plan: Plan)
    requires PreparePush(git, format, limits, current, commands).Ok?
    ensures ValidateListing(format, current).Ok? && Planned(git, format, current, commands, plan)
    ensures plan.updates == PreparePush(git, format, limits, current, commands).value.0
  {
    hide ValidateListing, CreatePushPack;
    PlanIs(git, format, current, commands);
    plan := PlanPush(git, format, current, commands).value;
  }

  lemma QueriesSelf(s: Session)
    ensures Queries(s, s)
  {
  }

  lemma SilentQueries(s: Session, t: Session, after: Session)
    requires Queries(s, t) && Silent(t, after)
    ensures Queries(s, after)
  {
  }

  /** The errors that report on a push that was sent. */
  predicate OfThePush(error: HelperError) {
    error.ClientFailed? && (error.clientError.PushIndeterminate? || error.clientError.Remote?)
  }

  /** No push outcome is lost: any other error means that no push was sent, and success means it was committed. */
  lemma PushBatchNeverSilent(world: World, git: Git, repository: RepositoryId, s: Session, commands: seq<PushCommand>)
    ensures var (after, r) := PushBatch(world, git, repository, s, commands);
            && (r.Err? && !OfThePush(r.error) ==> Queries(s, after))
            && (r.Ok? ==> && Accepted(world, after.sent, after.maxResponseBytes, PushCommitted(r.value))
                          && r.value.state.repository == repository
                          && after.sent[|after.sent| - 1].body.Push?)
  {
    hide Send, Negotiate, Queries, Planned, ValidateListing, PreparePush, ValidateRequest, PushBatch;
    var middle, listing, plan, pack := PushBatchTrace(world, git, repository, s, commands);
    PushNeverSilent(world, middle, repository, plan.updates, pack);
    SendCases(world, middle, Push(repository, plan.updates, pack), true);
    var (after, r) := PushBatch(world, git, repository, s, commands);
    if after.sent == middle.sent && Queries(s, middle) {
      SameSentQueries(s, middle, after);
    }
  }

  lemma SameSentQueries(s: Session, t: Session, after: Session)
    requires Queries(s, t) && after.sent == t.sent
    ensures Queries(s, after)
  {
  }

  /// What a fetch batch sends

  lemma {:induction false} PresentMeans(git: Git, objects: seq<GitObjectId>)
    ensures CheckPresent(git, objects).Ok? <==> forall o :: o in objects ==> git.has(o) == Ok(true)
  {
    if objects != [] {
      var n := |objects| - 1;
      PresentMeans(git, objects[..n]);
      assert objects == objects[..n] + [objects[n]];
    }
  }

  /** The fetch that a batch prepares passes the client's limits. */
  lemma FetchPassesLimits(git: Git, capabilities: CapabilitySet, remote: Remote, commands: seq<FetchCommand>)
    requires PrepareFetch(git, capabilities.limits, commands).Ok?
    ensures var (wants, haves) := PrepareFetch(git, capabilities.limits, commands).value;
            && SortedSet(wants) && SortedSet(haves)
            && (forall o :: o in wants <==> exists i :: 0 <= i < |commands| && commands[i].wanted == o)
            && ValidateRequest(Some(capabilities), RequestBody.Fetch(remote.repository, remote.view, wants, haves)) ==
               RequireCapability(capabilities.granted, ReadRepository)
  {
    hide SortedSet, ValidateObjects, CheckFetches;
    var (wants, haves) := PrepareFetch(git, capabilities.limits, commands).value;
    ToSortedSetIs(WantedBy(commands));
    ToSortedSetIs(git.prerequisites(capabilities.limits.maxHaves).value);
    forall o
      ensures o in wants <==> exists i :: 0 <= i < |commands| && commands[i].wanted == o
    {
      if i :| 0 <= i < |commands| && commands[i].wanted == o {
        assert WantedBy(commands)[i] == o;
      }
      if o in wants {
        var i :| 0 <= i < |commands| && WantedBy(commands)[i] == o;
      }
    }
  }

  /**
   A fetch batch that succeeds asked, last, for exactly the sorted distinct wants within the bounds, and
   every wanted object is then present; a received pack is never too large to install.
   */
  lemma FetchBatchSucceeds(world: World, git: Git, remote: Remote, s: Session, commands: seq<FetchCommand>)
    returns (wants: seq<GitObjectId>, haves: seq<GitObjectId>, pack: Bytes)
    requires FetchBatch(world, git, remote, s, commands).1.Ok?
    ensures var after := FetchBatch(world, git, remote, s, commands).0;
            && after.sent != []
            && after.sent[|after.sent| - 1].body == RequestBody.Fetch(remote.repository, remote.view, wants, haves)
            && Accepted(world, after.sent, after.maxResponseBytes, FetchPack(pack))
            && SortedSet(wants) && SortedSet(haves)
            && (forall o :: o in wants <==> exists i :: 0 <= i < |commands| && commands[i].wanted == o)
            && (forall i :: 0 <= i < |commands| ==> git.has(commands[i].wanted) == Ok(true))
            && (pack != [] ==> git.indexPack(pack).Ok?)
  {
    hide Send, Negotiate, SortedSet, PrepareFetch, Accepted, ValidateRequest, CheckPresent;
    var (s1, negotiated) := Negotiate(world, s);
    NegotiateQueries(world, s);
    var limits := negotiated.value.limits;
    wants, haves := PrepareFetch(git, limits, commands).value.0, PrepareFetch(git, limits, commands).value.1;
    FetchPassesLimits(git, negotiated.value, remote, commands);
    SendCases(world, s1, RequestBody.Fetch(remote.repository, remote.view, wants, haves), false);
    pack := Ask(world, s1, RequestBody.Fetch(remote.repository, remote.view, wants, haves)).1.value.pack;
    PresentMeans(git, wants);
  }
}
