/** Exactly when listings, fetches and pushes succeed, and with what (crates/styrene-git-remote/src/operations.rs). */
module Outcomes {
  import opened Basics
  import opened Client
  import opened Core
  import opened Exchanges
  import opened Ipc
  import opened Objects
  import opened Order
  import opened RemoteOperations
  import opened Sessions
  import opened Splitting
  import opened Text
  import Batches
  import Refs

  /// References, objects, listings

  /** One component of a reference: not empty, no dot at either end, not a lock. */
  ghost predicate GoodComponent(component: string) {
    && |component| > 0 && '/' !in component
    && component[0] != '.' && component[|component| - 1] != '.'
    && !exists front :: component == front + ".lock"
  }

  /** `refs/`, and then components with slashes between them. */
  ghost predicate Composed(reference: string) {
    exists parts: seq<string> ::
      parts != [] && reference == "refs/" + Join(parts, '/') && forall p :: p in parts ==> GoodComponent(p)
  }

  /** `refs/` and good components between slashes, dots apart, and no character or pair Git reserves. */
  ghost predicate GoodReference(reference: string) {
    && Composed(reference) && DotsApart(reference) && Unreserved(reference)
    && (forall i, j :: 0 <= i && j == i + 1 < |reference| ==> reference[i] != '@' || reference[j] != '{')
    && forall i :: 0 <= i < |reference| ==> ' ' <= reference[i] && reference[i] as int != 0x7f
  }

  lemma ComponentExactly(component: string)
    ensures ValidComponent(component) && '/' !in component <==> GoodComponent(component)
  {
    EndsExactly(component, ".lock");
  }

  lemma AtBraceExactly(s: string)
    ensures HasAtBrace(s) <==> !forall i, j :: 0 <= i && j == i + 1 < |s| ==> s[i] != '@' || s[j] != '{'
  {
    if HasAtBrace(s) {
      var i :| 0 <= i < |s| - 1 && s[i] == '@' && s[i + 1] == '{';
      var j := i + 1;
      assert s[j] == '{';
    }
    if i, j :| 0 <= i && j == i + 1 < |s| && s[i] == '@' && s[j] == '{' {
      assert s[i + 1] == '{';
    }
  }

  lemma {:induction false} JoinEnds(parts: seq<string>)
    requires parts != [] && forall p :: p in parts ==> GoodComponent(p)
    ensures Join(parts, '/') != "" && Join(parts, '/')[|Join(parts, '/')| - 1] != '/'
  {
    assert parts[0] in parts;
    if |parts| > 1 {
      JoinEnds(parts[1..]);
    } else {
      assert parts[0][|parts[0]| - 1] in parts[0];
    }
  }

  /** The components of a reference, one way. */
  lemma ComponentsExactly(reference: string)
    ensures (StartsWith(reference, "refs/") && |reference| > 5
             && (forall c :: c in Split(reference[5..], '/') ==> ValidComponent(c)) && !EndsWith(reference, "/")) <==>
            Composed(reference)
  {
    hide ValidComponent, GoodComponent;
    if StartsWith(reference, "refs/") {
      var parts := Split(reference[5..], '/');
      JoinSplit(reference[5..], '/');
      assert reference == "refs/" + Join(parts, '/');
      forall p | p in parts
        ensures ValidComponent(p) <==> GoodComponent(p)
      {
        ComponentExactly(p);
      }
    }
    if parts: seq<string> :| parts != [] && reference == "refs/" + Join(parts, '/') && forall p :: p in parts ==> GoodComponent(p) {
      forall p | p in parts
        ensures '/' !in p && ValidComponent(p)
      {
        ComponentExactly(p);
      }
      JoinEnds(parts);
      assert reference[..5] == "refs/" && reference[5..] == Join(parts, '/');
      SplitExact(reference[5..], '/', parts);
    }
  }

  lemma ReferenceExactly(reference: string)
    ensures ValidReference(reference) <==> GoodReference(reference)
  {
    hide ValidComponent, Composed, DotsApart, Unreserved, HasDotDot, HasAtBrace, ForbiddenChar, Split;
    ComponentsExactly(reference);
    DotsExactly(reference);
    AtBraceExactly(reference);
    ReservedExactly(reference);
    assert (forall c :: c in reference ==> !ForbiddenChar(c)) <==> forall i :: 0 <= i < |reference| ==> !ForbiddenChar(reference[i]);
    forall i | 0 <= i < |reference|
      ensures !ControlChar(reference[i]) <==> ' ' <= reference[i] && reference[i] as int != 0x7f
    {
    }
  }

  /** An id of the repository's hash, of its length. */
  predicate GoodObject(format: GitObjectFormat, o: GitObjectId) {
    match format
    case Sha1 => o.algorithm == "sha1" && |o.bytes| == 20
    case Sha256 => o.algorithm == "sha256" && |o.bytes| == 32
  }

  lemma ObjectExactly(format: GitObjectFormat, o: GitObjectId)
    ensures ValidateObject(format, o).Ok? <==> GoodObject(format, o)
  {
  }

  /** Entries in strict order of their names, every name and id good. */
  ghost predicate GoodListing(format: GitObjectFormat, refs: seq<RefTarget>) {
    && (forall i, j :: 0 <= i < j < |refs| ==> TextPrecedes(refs[i].name, refs[j].name))
    && forall r :: r in refs ==> GoodReference(r.name) && GoodObject(format, r.target)
  }

  lemma GoodListingExactly(format: GitObjectFormat, refs: seq<RefTarget>)
    ensures ValidateListing(format, refs).Ok? <==> GoodListing(format, refs)
  {
    hide ValidReference, ValidateObject, GoodReference, GoodObject, TextPrecedes, Refs.SortedUnique;
    Refs.OrderExactly(refs);
    ValidateEntriesExact(format, refs);
    forall r | r in refs
      ensures ValidReference(r.name) && ValidateObject(format, r.target).Ok? <==> GoodReference(r.name) && GoodObject(format, r.target)
    {
      ReferenceExactly(r.name);
      ObjectExactly(format, r.target);
    }
  }

  /// Listings

  /** The call that follows a negotiation. */
  predicate Answered(world: World, s: Session, body: RequestBody, answer: ResponseBody) {
    && Ready(world, s, body) && Accepted(world, Sent(s, body), s.maxResponseBytes, answer)
    && WithinLimits(s.capabilities, answer)
  }

  lemma AskExactly(world: World, s: Session, body: RequestBody, answer: ResponseBody)
    ensures Ask(world, s, body).1 == Ok(answer) <==> Answered(world, s, body, answer)
    ensures Answered(world, s, body, answer) ==>
            Sends(world, s, Ask(world, s, body).0, body) && !Ask(world, s, body).0.failed
  {
    hide Send, Ready, Accepted, WithinLimits, Sends;
    SendExactly(world, s, body, body.Push?, answer, StableError(0, None));
  }

  /** `list` yields a listing exactly if the daemon answers with it and its entries and head are good. */
  lemma ListingExactly(world: World, git: Git, remote: Remote, s: Session, listing: RefListing)
    ensures var (s1, negotiated) := Negotiate(world, s);
            Listing(world, git, remote, s).1 == Ok(listing) <==>
              && negotiated.Ok? && git.format.Ok?
              && Answered(world, s1, RequestBody.ListRefs(remote.repository, remote.view), Refs(listing))
              && GoodListing(git.format.value, listing.refs)
              && (listing.head.Some? ==> GoodReference(listing.head.value))
  {
    hide Negotiate, Send, Answered, GoodListing, GoodReference, ValidReference, ValidateListing;
    var s1 := Negotiate(world, s).0;
    AskExactly(world, s1, RequestBody.ListRefs(remote.repository, remote.view), Refs(listing));
    if git.format.Ok? {
      GoodListingExactly(git.format.value, listing.refs);
    }
    if listing.head.Some? {
      ReferenceExactly(listing.head.value);
    }
  }

  /** And so does `list for-push`. */
  lemma PushListingExactly(world: World, git: Git, repository: RepositoryId, s: Session, listing: PushRefListing)
    ensures var (s1, negotiated) := Negotiate(world, s);
            PushListing(world, git, repository, s).1 == Ok(listing) <==>
              && negotiated.Ok? && git.format.Ok?
              && Answered(world, s1, RequestBody.ListPushRefs(repository), PushRefs(listing))
              && GoodListing(git.format.value, listing.refs)
  {
    hide Negotiate, Send, Answered, GoodListing, ValidateListing;
    var s1 := Negotiate(world, s).0;
    AskExactly(world, s1, RequestBody.ListPushRefs(repository), PushRefs(listing));
    if git.format.Ok? {
      GoodListingExactly(git.format.value, listing.refs);
    }
  }

  /// Fetches

  /** The list holds just these objects, each once, in order. */
  ghost predicate Lists(list: seq<GitObjectId>, objects: seq<GitObjectId>) {
    && (forall i, j :: 0 <= i < j < |list| ==> ObjectEarlier(list[i], list[j]))
    && forall o :: o in list <==> o in objects
  }

  lemma ListsExactly(list: seq<GitObjectId>, objects: seq<GitObjectId>)
    ensures Lists(list, objects) <==> list == ToSortedSet(objects)
  {
    hide ObjectEarlier, ObjectLess, ToSortedSet;
    ToSortedSetIs(objects);
    var sorted := ToSortedSet(objects);
    forall i, j | 0 <= i < j < |sorted|
      ensures ObjectEarlier(sorted[i], sorted[j])
    {
      SortedBefore(sorted, i, j);
      ObjectLessExactly(sorted[i], sorted[j]);
    }
    if Lists(list, objects) {
      forall i | 0 <= i < |list| - 1
        ensures Ordered(list, i)
      {
        ObjectLessExactly(list[i], list[i + 1]);
      }
      SortedSetUnique(list, sorted);
    }
  }

  lemma {:induction false} FetchesExactly(format: GitObjectFormat, commands: seq<FetchCommand>)
    ensures CheckFetches(format, commands).Ok? <==>
            forall i :: 0 <= i < |commands| ==> GoodReference(commands[i].reference) && GoodObject(format, commands[i].wanted)
  {
    hide ValidReference, ValidateObject, GoodReference, GoodObject;
    if commands != [] {
      var n := |commands| - 1;
      FetchesExactly(format, commands[..n]);
      ReferenceExactly(commands[n].reference);
      ObjectExactly(format, commands[n].wanted);
      assert forall i :: 0 <= i < n ==> commands[..n][i] == commands[i];
    }
  }

  lemma {:induction false} ObjectsExactly(format: GitObjectFormat, objects: seq<GitObjectId>)
    ensures ValidateObjects(format, objects).Ok? <==> forall o :: o in objects ==> GoodObject(format, o)
  {
    hide ValidateObject, GoodObject;
    if objects != [] {
      var n := |objects| - 1;
      ObjectsExactly(format, objects[..n]);
      ObjectExactly(format, objects[n]);
      assert objects == objects[..n] + [objects[n]];
    }
  }

  /** The commits offered as common history are what Git names, good and no more than asked for. */
  ghost predicate Offers(git: Git, format: GitObjectFormat, limit: nat, haves: seq<GitObjectId>) {
    var offered := git.prerequisites(limit);
    && offered.Ok? && |offered.value| <= limit
    && (forall o :: o in offered.value ==> GoodObject(format, o)) && Lists(haves, offered.value)
  }

  /** What is asked for and offered: every wanted object once, in order, within the limits. */
  ghost predicate Prepared(git: Git, limits: Limits, commands: seq<FetchCommand>, wants: seq<GitObjectId>, haves: seq<GitObjectId>) {
    && git.format.Ok?
    && (forall i :: 0 <= i < |commands| ==>
          GoodReference(commands[i].reference) && GoodObject(git.format.value, commands[i].wanted))
    && Lists(wants, WantedBy(commands)) && |wants| <= limits.maxWants
    && Offers(git, git.format.value, limits.maxHaves, haves)
  }

  lemma PrepareFetchExactly(git: Git, limits: Limits, commands: seq<FetchCommand>, wants: seq<GitObjectId>, haves: seq<GitObjectId>)
    ensures PrepareFetch(git, limits, commands) == Ok((wants, haves)) <==> Prepared(git, limits, commands, wants, haves)
  {
    hide CheckFetches, GoodReference, GoodObject, Lists, ValidateObjects, ToSortedSet;
    ListsExactly(wants, WantedBy(commands));
    if git.format.Ok? {
      FetchesExactly(git.format.value, commands);
      var offered := git.prerequisites(limits.maxHaves);
      if offered.Ok? {
        ObjectsExactly(git.format.value, offered.value);
        ListsExactly(haves, offered.value);
      }
    }
  }

  /** A fetch that goes well, with what it asks for and gets. */
  ghost predicate Fetches(world: World, git: Git, remote: Remote, s: Session, capabilities: CapabilitySet,
                          commands: seq<FetchCommand>, wants: seq<GitObjectId>, haves: seq<GitObjectId>, pack: Bytes)
  {
    && Prepared(git, capabilities.limits, commands, wants, haves)
    && Answered(world, s, RequestBody.Fetch(remote.repository, remote.view, wants, haves), FetchPack(pack))
    && (pack != [] ==> git.indexPack(pack).Ok?)
    && forall i :: 0 <= i < |commands| ==> git.has(commands[i].wanted) == Ok(true)
  }

  lemma PresentExactly(git: Git, commands: seq<FetchCommand>, wants: seq<GitObjectId>)
    requires Lists(wants, WantedBy(commands))
    ensures CheckPresent(git, wants).Ok? <==> forall i :: 0 <= i < |commands| ==> git.has(commands[i].wanted) == Ok(true)
  {
    hide ObjectEarlier, CheckPresent;
    Batches.PresentMeans(git, wants);
    assert forall i :: 0 <= i < |commands| ==> WantedBy(commands)[i] in wants;
  }

  /**
   A fetch batch succeeds exactly if there are commands, they and what Git offers are good and within the limits,
   the daemon answers with a pack within the limit, Git takes it, and every wanted object is there then.
   */
  lemma FetchBatchExactly(world: World, git: Git, remote: Remote, s: Session, commands: seq<FetchCommand>)
    ensures var (s1, negotiated) := Negotiate(world, s);
            FetchBatch(world, git, remote, s, commands).1.Ok? <==>
              && commands != [] && negotiated.Ok?
              && exists wants, haves, pack :: Fetches(world, git, remote, s1, negotiated.value, commands, wants, haves, pack)
  {
    hide Negotiate, Send, Answered, Prepared, PrepareFetch, CheckPresent;
    var (s1, negotiated) := Negotiate(world, s);
    if commands != [] && negotiated.Ok? {
      NegotiatedHeld(world, s);
      var limits := negotiated.value.limits;
      forall wants, haves, pack | Fetches(world, git, remote, s1, negotiated.value, commands, wants, haves, pack)
        ensures FetchBatch(world, git, remote, s, commands).1.Ok?
      {
        PrepareFetchExactly(git, limits, commands, wants, haves);
        AskExactly(world, s1, RequestBody.Fetch(remote.repository, remote.view, wants, haves), FetchPack(pack));
        PreparedLists(git, limits, commands, wants, haves);
        PresentExactly(git, commands, wants);
        PackFits(world, s1, RequestBody.Fetch(remote.repository, remote.view, wants, haves), pack);
      }
      var prepared := PrepareFetch(git, limits, commands);
      if FetchBatch(world, git, remote, s, commands).1.Ok? {
        var (wants, haves) := prepared.value;
        var body := RequestBody.Fetch(remote.repository, remote.view, wants, haves);
        var pack := Ask(world, s1, body).1.value.pack;
        PrepareFetchExactly(git, limits, commands, wants, haves);
        AskExactly(world, s1, body, FetchPack(pack));
        PreparedLists(git, limits, commands, wants, haves);
        PresentExactly(git, commands, wants);
        PackFits(world, s1, body, pack);
        assert Fetches(world, git, remote, s1, negotiated.value, commands, wants, haves, pack);
      }
    }
  }

  lemma PreparedLists(git: Git, limits: Limits, commands: seq<FetchCommand>, wants: seq<GitObjectId>, haves: seq<GitObjectId>)
    requires Prepared(git, limits, commands, wants, haves)
    ensures Lists(wants, WantedBy(commands))
  {
  }

  lemma PackFits(world: World, s: Session, body: RequestBody, pack: Bytes)
    requires Answered(world, s, body, FetchPack(pack)) && s.capabilities.Some?
    ensures |pack| <= s.capabilities.value.limits.maxPackBytes
  {
  }

  lemma NegotiatedHeld(world: World, s: Session)
    ensures var (after, r) := Negotiate(world, s); r.Ok? ==> after.capabilities == Some(r.value)
  {
    hide Send;
  }

  /// Pushes

  /** A good destination, and a source, if any, that Git resolves to an object of the repository's format. */
  ghost predicate Plannable(git: Git, format: GitObjectFormat, command: PushCommand) {
    && GoodReference(command.destination)
    && (command.source.Some? ==>
          git.resolve(command.source.value).Ok? && GoodObject(format, git.resolve(command.source.value).value))
  }

  ghost predicate AllPlannable(git: Git, format: GitObjectFormat, commands: seq<PushCommand>) {
    && (forall i :: 0 <= i < |commands| ==> Plannable(git, format, commands[i]))
    && forall i, j :: 0 <= i < j < |commands| ==> commands[i].destination != commands[j].destination
  }

  lemma StepExactly(git: Git, format: GitObjectFormat, current: seq<RefTarget>, plan: Plan, command: PushCommand)
    ensures PlanStep(git, format, current, plan, command).Ok? <==>
            Plannable(git, format, command) && command.destination !in plan.destinations
  {
    hide ValidReference, ValidateObject, GoodReference, GoodObject;
    ReferenceExactly(command.destination);
    if command.source.Some? && git.resolve(command.source.value).Ok? {
      ObjectExactly(format, git.resolve(command.source.value).value);
    }
  }

  lemma {:induction false} PlanExactly(git: Git, format: GitObjectFormat, current: seq<RefTarget>, commands: seq<PushCommand>)
    ensures PlanPush(git, format, current, commands).Ok? <==> AllPlannable(git, format, commands)
  {
    hide PlanStep, Plannable;
    if commands != [] {
      var n := |commands| - 1;
      PlanExactly(git, format, current, commands[..n]);
      assert forall i :: 0 <= i < n ==> commands[..n][i] == commands[i];
      var before := PlanPush(git, format, current, commands[..n]);
      if before.Ok? {
        StepExactly(git, format, current, before.value, commands[n]);
        PlannedNames(git, format, current, commands[..n], before.value, commands[n].destination);
      }
    }
  }

  lemma PlannedNames(git: Git, format: GitObjectFormat, current: seq<RefTarget>, commands: seq<PushCommand>, plan: Plan, name: string)
    requires PlanPush(git, format, current, commands) == Ok(plan)
    ensures name in plan.destinations <==> exists i :: 0 <= i < |commands| && commands[i].destination == name
  {
    hide PlanPush, PlanStep;
    Batches.PlanIs(git, format, current, commands);
    forall i | 0 <= i < |commands|
      ensures plan.updates[i].name == commands[i].destination
    {
      assert Batches.Maps(git, format, current, commands[i], plan.updates[i]);
    }
  }

  /** The update a command asks for: from what the listing shows to what the source resolves to. */
  ghost predicate UpdateFor(git: Git, current: seq<RefTarget>, command: PushCommand, update: RefUpdate) {
    && update.name == command.destination && update.force == command.force
    && (forall target :: update.expected == Some(target) <==> RefTarget(command.destination, target) in current)
    && (command.source.None? ==> update.after == None)
    && (command.source.Some? ==> git.resolve(command.source.value).Ok? && update.after == Some(git.resolve(command.source.value).value))
  }

  ghost predicate UpdatesFor(git: Git, current: seq<RefTarget>, commands: seq<PushCommand>, updates: seq<RefUpdate>) {
    |updates| == |commands| && forall i :: 0 <= i < |commands| ==> UpdateFor(git, current, commands[i], updates[i])
  }

  /** The objects that the updates lead to. */
  function Arrivals(updates: seq<RefUpdate>): seq<GitObjectId> {
    if updates == [] then []
    else
      var last := updates[|updates| - 1].after;
      Arrivals(updates[..|updates| - 1]) + (if last.Some? then [last.value] else [])
  }

  lemma {:induction false} ArrivalsAre(updates: seq<RefUpdate>)
    ensures forall o :: o in Arrivals(updates) <==> exists i :: 0 <= i < |updates| && updates[i].after == Some(o)
  {
    if updates != [] {
      var n := |updates| - 1;
      ArrivalsAre(updates[..n]);
      assert updates == updates[..n] + [updates[n]];
      forall o
        ensures (exists i :: 0 <= i < |updates| && updates[i].after == Some(o)) <==>
                updates[n].after == Some(o) || exists i :: 0 <= i < n && updates[..n][i].after == Some(o)
      {
        Batches.LastInclude(updates[..n], updates[n], o);
      }
    }
  }

  /** The pack: everything the updates lead to, less what the listing has, as far as that may be named; none for deletions. */
  ghost predicate PackFor(git: Git, limits: Limits, current: seq<RefTarget>, updates: seq<RefUpdate>, pack: Bytes) {
    exists includes, known ::
      && Lists(includes, Arrivals(updates)) && Lists(known, Targets(current))
      && (if includes == [] then pack == []
          else git.packObjects(includes, Take(known, limits.maxHaves)) == Ok(pack) && |pack| <= limits.maxPackBytes)
  }

  lemma UpdateExactly(git: Git, format: GitObjectFormat, current: seq<RefTarget>, command: PushCommand, update: RefUpdate)
    requires GoodListing(format, current) && Plannable(git, format, command)
    ensures Batches.Maps(git, format, current, command, update) <==> UpdateFor(git, current, command, update)
  {
    hide ValidReference, ValidateObject, GoodReference, GoodObject, Refs.Lookup, TextPrecedes, Refs.SortedUnique;
    Refs.OrderExactly(current);
    ReferenceExactly(command.destination);
    if command.source.Some? {
      ObjectExactly(format, git.resolve(command.source.value).value);
    }
    forall target
      ensures Refs.Lookup(current, command.destination) == Some(target) <==> RefTarget(command.destination, target) in current
    {
      Refs.LookupExactly(current, command.destination, target);
    }
    if UpdateFor(git, current, command, update) {
      if update.expected.Some? {
        assert RefTarget(command.destination, update.expected.value) in current;
      }
      var there := Refs.Lookup(current, command.destination);
      if there.Some? {
        assert RefTarget(command.destination, there.value) in current;
        assert update.expected == Some(there.value);
      }
    }
  }

  lemma PlanIsExactly(git: Git, format: GitObjectFormat, current: seq<RefTarget>, commands: seq<PushCommand>, updates: seq<RefUpdate>)
    requires GoodListing(format, current) && AllPlannable(git, format, commands)
    ensures PlanPush(git, format, current, commands).Ok?
    ensures UpdatesFor(git, current, commands, updates) <==> updates == PlanPush(git, format, current, commands).value.updates
    ensures Lists(PlanPush(git, format, current, commands).value.includes,
                  Arrivals(PlanPush(git, format, current, commands).value.updates))
  {
    hide PlanPush, Plannable, GoodListing, ObjectEarlier, ToSortedSet, Arrivals, Batches.Maps, UpdateFor;
    PlanExactly(git, format, current, commands);
    Batches.PlanIs(git, format, current, commands);
    var plan := PlanPush(git, format, current, commands).value;
    forall i | 0 <= i < |commands|
      ensures Batches.Maps(git, format, current, commands[i], plan.updates[i]) && UpdateFor(git, current, commands[i], plan.updates[i])
      ensures |updates| == |commands| && UpdateFor(git, current, commands[i], updates[i]) ==> updates[i] == plan.updates[i]
    {
      UpdateExactly(git, format, current, commands[i], plan.updates[i]);
      if |updates| == |commands| {
        UpdateExactly(git, format, current, commands[i], updates[i]);
        if UpdateFor(git, current, commands[i], updates[i]) {
          MapsOnce(git, format, current, commands[i], updates[i], plan.updates[i]);
        }
      }
    }
    ArrivalsAre(plan.updates);
    ToSortedSetIs(Arrivals(plan.updates));
    SortedSetUnique(plan.includes, ToSortedSet(Arrivals(plan.updates)));
    ListsExactly(plan.includes, Arrivals(plan.updates));
  }

  lemma MapsOnce(git: Git, format: GitObjectFormat, current: seq<RefTarget>, command: PushCommand, u: RefUpdate, v: RefUpdate)
    requires Batches.Maps(git, format, current, command, u) && Batches.Maps(git, format, current, command, v)
    ensures u == v
  {
  }

  /** What a push batch prepares, exactly: the commands' updates and their pack. */
  lemma PreparePushExactly(git: Git, format: GitObjectFormat, limits: Limits, current: seq<RefTarget>, commands: seq<PushCommand>,
                           updates: seq<RefUpdate>, pack: Bytes)
    requires git.format == Ok(format) && |commands| <= limits.maxRefUpdates
    ensures PreparePush(git, format, limits, current, commands) == Ok((updates, pack)) <==>
              && GoodListing(format, current) && AllPlannable(git, format, commands)
              && UpdatesFor(git, current, commands, updates) && PackFor(git, limits, current, updates, pack)
  {
    hide PlanPush, AllPlannable, GoodListing, UpdatesFor, Lists, ToSortedSet, CreatePushPack, Arrivals, ValidateListing;
    GoodListingExactly(format, current);
    PlanExactly(git, format, current, commands);
    if GoodListing(format, current) && AllPlannable(git, format, commands) {
      PlanIsExactly(git, format, current, commands, updates);
      Batches.PackAlwaysFits(git, format, limits, current, commands);
      PackExactly(git, limits, current, updates, pack);
    }
  }

  lemma PackExactly(git: Git, limits: Limits, current: seq<RefTarget>, updates: seq<RefUpdate>, pack: Bytes)
    ensures PackFor(git, limits, current, updates, pack) <==>
            var includes := ToSortedSet(Arrivals(updates));
            if includes == [] then pack == []
            else git.packObjects(includes, Batches.Excludes(limits, current)) == Ok(pack) && |pack| <= limits.maxPackBytes
    ensures forall includes :: Lists(includes, Arrivals(updates)) ==> includes == ToSortedSet(Arrivals(updates))
  {
    hide Lists, ToSortedSet, Arrivals;
    var includes, known := ToSortedSet(Arrivals(updates)), ToSortedSet(Targets(current));
    ListsExactly(includes, Arrivals(updates));
    ListsExactly(known, Targets(current));
    forall i, k | Lists(i, Arrivals(updates)) && Lists(k, Targets(current))
      ensures i == includes && k == known
    {
      ListsExactly(i, Arrivals(updates));
      ListsExactly(k, Targets(current));
    }
    forall i | Lists(i, Arrivals(updates))
      ensures i == includes
    {
      ListsExactly(i, Arrivals(updates));
    }
  }

  /** A push that goes well: the listing it starts from, what it asks for, and the result. */
  ghost predicate Pushes(world: World, git: Git, repository: RepositoryId, s: Session, capabilities: CapabilitySet,
                         commands: seq<PushCommand>, listing: PushRefListing, updates: seq<RefUpdate>, pack: Bytes, result: PushResult)
  {
    var list := RequestBody.ListPushRefs(repository);
    && git.format.Ok? && |commands| <= capabilities.limits.maxRefUpdates
    && Answered(world, s, list, PushRefs(listing))
    && GoodListing(git.format.value, listing.refs) && AllPlannable(git, git.format.value, commands)
    && UpdatesFor(git, listing.refs, commands, updates) && PackFor(git, capabilities.limits, listing.refs, updates, pack)
    && Answered(world, Ask(world, s, list).0, Push(repository, updates, pack), PushCommitted(result))
  }

  /**
   A push batch succeeds exactly if there are commands within the limit, the daemon lists good references, every
   destination is good and named once, every source resolves, Git makes the pack, and the daemon answers that
   the push is committed.
   */
  lemma PushBatchExactly(world: World, git: Git, repository: RepositoryId, s: Session, commands: seq<PushCommand>, result: PushResult)
    ensures var (s1, negotiated) := Negotiate(world, s);
            PushBatch(world, git, repository, s, commands).1 == Ok(result) <==>
              && commands != [] && negotiated.Ok?
              && exists listing, updates, pack ::
                   Pushes(world, git, repository, s1, negotiated.value, commands, listing, updates, pack, result)
  {
    hide Negotiate, Send, Answered, PreparePush, GoodListing, AllPlannable, UpdatesFor, PackFor;
    var (s1, negotiated) := Negotiate(world, s);
    var list := RequestBody.ListPushRefs(repository);
    if commands != [] && negotiated.Ok? && git.format.Ok? && |commands| <= negotiated.value.limits.maxRefUpdates {
      var format, limits := git.format.value, negotiated.value.limits;
      var (s2, answer) := Ask(world, s1, list);
      forall listing, updates, pack | Pushes(world, git, repository, s1, negotiated.value, commands, listing, updates, pack, result)
        ensures PushBatch(world, git, repository, s, commands).1 == Ok(result)
      {
        AskExactly(world, s1, list, PushRefs(listing));
        PreparePushExactly(git, format, limits, listing.refs, commands, updates, pack);
        AskExactly(world, s2, Push(repository, updates, pack), PushCommitted(result));
      }
      if PushBatch(world, git, repository, s, commands).1 == Ok(result) {
        var listing := PushRefsIn(answer).value;
        var (updates, pack) := PreparePush(git, format, limits, listing.refs, commands).value;
        AskExactly(world, s1, list, PushRefs(listing));
        PreparePushExactly(git, format, limits, listing.refs, commands, updates, pack);
        AskExactly(world, s2, Push(repository, updates, pack), PushCommitted(result));
        assert Pushes(world, git, repository, s1, negotiated.value, commands, listing, updates, pack, result);
      }
    }
  }
}
