/** Listing, fetching and pushing in batches: crates/styrene-git-remote/src/operations.rs and git.rs. */
module RemoteOperations {
  import opened Basics
  import opened Client
  import opened Core
  import opened Ipc
  import opened Objects
  import opened Splitting
  import opened Text
  import Refs

  datatype FetchCommand = FetchCommand(wanted: GitObjectId, reference: string)

  datatype PushCommand = PushCommand(source: Option<string>, destination: string, force: bool)

  datatype GitObjectFormat = Sha1 | Sha256 {
    function Name(): string {
      match this case Sha1 => "sha1" case Sha256 => "sha256"
    }
  }

  datatype GitError =
    | CommandFailed
    | OutputLimitExceeded(limit: nat)
    | InputLimitExceeded(limit: nat)
    | GitCountLimitExceeded(limit: nat)
    | InvalidRevision
    | BadObject
    | OtherFormat

  datatype HelperError =
    | EmptyBatch
    | CommandLimitExceeded(limit: nat)
    | InvalidReference(reference: string)
    | DuplicateDestination(destination: string)
    | ObjectFormatMismatch
    | InvalidObjectId
    | GitResultLimitExceeded(limit: nat)
    | InvalidRefListing
    | WantedObjectMissing(missing: GitObjectId)
    | RevisionLimitOverflow
    | ClientFailed(clientError: ClientError)
    | GitFailed(gitError: GitError)

  /** What Git answers when it is run; `has` answers after a fetched pack is installed. */
  datatype Git = Git(
    format: Result<GitObjectFormat, GitError>,
    resolve: string -> Result<GitObjectId, GitError>,
    prerequisites: nat -> Result<seq<GitObjectId>, GitError>,
    packObjects: (seq<GitObjectId>, seq<GitObjectId>) -> Result<Bytes, GitError>,
    indexPack: Bytes -> Result<(), GitError>,
    has: GitObjectId -> Result<bool, GitError>)

  /// Validation

  predicate HasAtBrace(s: string) {
    exists i :: 0 <= i < |s| - 1 && s[i] == '@' && s[i + 1] == '{'
  }

  predicate ValidComponent(component: string) {
    && component != ""
    && component[0] != '.' && component[|component| - 1] != '.'
    && !EndsWith(component, ".lock")
  }

  predicate ControlChar(c: char) {
    c < ' ' || c == 0x7f as char
  }

  predicate ValidReference(reference: string) {
    && StartsWith(reference, "refs/")
    && |reference| > 5
    && (forall c :: c in Split(reference[5..], '/') ==> ValidComponent(c))
    && !EndsWith(reference, "/")
    && !HasDotDot(reference)
    && !HasAtBrace(reference)
    && forall i :: 0 <= i < |reference| ==> !ForbiddenChar(reference[i]) && !ControlChar(reference[i])
  }

  function ValidateReference(reference: string): Result<(), HelperError> {
    if ValidReference(reference) then Ok(()) else Err(InvalidReference(reference))
  }

  function ValidateObject(format: GitObjectFormat, o: GitObjectId): Result<(), HelperError> {
    if !o.Valid() then Err(InvalidObjectId)
    else if o.algorithm != format.Name() then Err(ObjectFormatMismatch)
    else Ok(())
  }

  function ValidateEntries(format: GitObjectFormat, refs: seq<RefTarget>): Result<(), HelperError> {
    if refs == [] then Ok(())
    else
      var _ :- ValidateReference(refs[0].name);
      var _ :- ValidateObject(format, refs[0].target);
      ValidateEntries(format, refs[1..])
  }

  function ValidateListing(format: GitObjectFormat, refs: seq<RefTarget>): Result<(), HelperError> {
    if !Refs.SortedUnique(refs) then Err(InvalidRefListing) else ValidateEntries(format, refs)
  }

  function ValidateObjects(format: GitObjectFormat, objects: seq<GitObjectId>): Result<(), HelperError> {
    if objects == [] then Ok(())
    else
      var _ :- ValidateObjects(format, objects[..|objects| - 1]);
      ValidateObject(format, objects[|objects| - 1])
  }

  lemma {:induction false} ValidateEntriesExact(format: GitObjectFormat, refs: seq<RefTarget>)
    ensures ValidateEntries(format, refs).Ok? <==>
            forall r :: r in refs ==> ValidReference(r.name) && ValidateObject(format, r.target).Ok?
  {
    hide ValidReference, ValidateObject;
    if refs != [] {
      ValidateEntriesExact(format, refs[1..]);
      assert forall r :: r in refs <==> r == refs[0] || r in refs[1..];
    }
  }

  /// Git

  function RequireFormats(format: GitObjectFormat, objects: seq<GitObjectId>): Result<(), GitError> {
    if objects == [] then Ok(())
    else if !objects[0].Valid() then Err(BadObject)
    else if objects[0].algorithm != format.Name() then Err(OtherFormat)
    else RequireFormats(format, objects[1..])
  }

  /** `create_push_pack`: the output of Git is cut off at the limit. */
  function CreatePushPack(git: Git, includes: seq<GitObjectId>, excludes: seq<GitObjectId>,
                          maxRevisions: nat, maxPackBytes: u64): Result<Bytes, GitError>
  {
    if |includes| + |excludes| > maxRevisions then Err(GitCountLimitExceeded(maxRevisions))
    else if includes == [] then Ok([])
    else
      var format :- git.format;
      var _ :- RequireFormats(format, includes + excludes);
      var pack :- git.packObjects(includes, excludes);
      if |pack| > maxPackBytes then Err(OutputLimitExceeded(maxPackBytes)) else Ok(pack)
  }

  function InstallFetchPack(git: Git, pack: Bytes, maxPackBytes: u64): Result<(), GitError> {
    if |pack| > maxPackBytes then Err(InputLimitExceeded(maxPackBytes)) else git.indexPack(pack)
  }

  function FromGit<T>(r: Result<T, GitError>): Result<T, HelperError> {
    match r case Ok(v) => Ok(v) case Err(e) => Err(GitFailed(e))
  }

  function FromClient<T>(r: Result<T, ClientError>): Result<T, HelperError> {
    match r case Ok(v) => Ok(v) case Err(e) => Err(ClientFailed(e))
  }

  /// Fetching

  /** The commands checked one after the other, reference before object. */
  function CheckFetches(format: GitObjectFormat, commands: seq<FetchCommand>): Result<(), HelperError> {
    if commands == [] then Ok(())
    else
      var _ :- CheckFetches(format, commands[..|commands| - 1]);
      var _ :- ValidateReference(commands[|commands| - 1].reference);
      ValidateObject(format, commands[|commands| - 1].wanted)
  }

  function WantedBy(commands: seq<FetchCommand>): (objects: seq<GitObjectId>)
    ensures |objects| == |commands|
    ensures forall i :: 0 <= i < |commands| ==> objects[i] == commands[i].wanted
  {
    seq(|commands|, i requires 0 <= i < |commands| => commands[i].wanted)
  }

  /** The local commits offered as common history, checked and put in order. */
  function Haves(git: Git, format: GitObjectFormat, limit: nat): Result<seq<GitObjectId>, HelperError> {
    var haves :- FromGit(git.prerequisites(limit));
    if |haves| > limit then Err(GitResultLimitExceeded(limit))
    else
      var _ :- ValidateObjects(format, haves);
      Ok(ToSortedSet(haves))
  }

  /** Every object present, or the first that is not. */
  function CheckPresent(git: Git, objects: seq<GitObjectId>): Result<(), HelperError> {
    if objects == [] then Ok(())
    else
      var _ :- CheckPresent(git, objects[..|objects| - 1]);
      var present :- FromGit(git.has(objects[|objects| - 1]));
      if present then Ok(()) else Err(WantedObjectMissing(objects[|objects| - 1]))
  }

  function FinishFetch(git: Git, wants: seq<GitObjectId>, pack: Bytes, maxPackBytes: u64): Result<(), HelperError> {
    var _ :- if pack == [] then Ok(()) else FromGit(InstallFetchPack(git, pack, maxPackBytes));
    CheckPresent(git, wants)
  }

  /** What is asked for: the wants and the haves. */
  function PrepareFetch(git: Git, limits: Limits, commands: seq<FetchCommand>)
    : Result<(seq<GitObjectId>, seq<GitObjectId>), HelperError>
  {
    var format :- FromGit(git.format);
    var _ :- CheckFetches(format, commands);
    var wants := ToSortedSet(WantedBy(commands));
    if |wants| > limits.maxWants then Err(CommandLimitExceeded(limits.maxWants))
    else
      var haves :- Haves(git, format, limits.maxHaves);
      Ok((wants, haves))
  }

  /** The URL of the remote: which repository, seen how. */
  datatype Remote = Remote(repository: RepositoryId, view: RepositoryView)

  function FetchBatch(world: World, git: Git, remote: Remote, s: Session, commands: seq<FetchCommand>)
    : (Session, Result<(), HelperError>)
  {
    if commands == [] then (s, Err(EmptyBatch))
    else
      var (s1, negotiated) := Negotiate(world, s);
      if negotiated.Err? then (s1, Err(ClientFailed(negotiated.error)))
      else
        var limits := negotiated.value.limits;
        var prepared := PrepareFetch(git, limits, commands);
        if prepared.Err? then (s1, Err(prepared.error))
        else
          var (wants, haves) := prepared.value;
          var (s2, answer) := Ask(world, s1, RequestBody.Fetch(remote.repository, remote.view, wants, haves));
          var pack := PackIn(answer);
          if pack.Err? then (s2, Err(ClientFailed(pack.error)))
          else (s2, FinishFetch(git, wants, pack.value, limits.maxPackBytes))
  }

  /// Pushing

  /** The loop over the commands: destinations seen, updates made, objects to send. */
  datatype Plan = Plan(destinations: set<string>, updates: seq<RefUpdate>, includes: seq<GitObjectId>)

  function ResolveSource(git: Git, format: GitObjectFormat, source: Option<string>): Result<Option<GitObjectId>, HelperError> {
    if source.None? then Ok(None)
    else
      var resolved :- FromGit(git.resolve(source.value));
      var _ :- ValidateObject(format, resolved);
      Ok(Some(resolved))
  }

  function PlanStep(git: Git, format: GitObjectFormat, current: seq<RefTarget>, plan: Plan, command: PushCommand)
    : Result<Plan, HelperError>
  {
    var _ :- ValidateReference(command.destination);
    if command.destination in plan.destinations then Err(DuplicateDestination(command.destination))
    else
      var after :- ResolveSource(git, format, command.source);
      Ok(Plan(plan.destinations + {command.destination},
              plan.updates + [RefUpdate(command.destination, Refs.Lookup(current, command.destination), after, command.force)],
              if after.Some? then Add(after.value, plan.includes) else plan.includes))
  }

  function PlanPush(git: Git, format: GitObjectFormat, current: seq<RefTarget>, commands: seq<PushCommand>): Result<Plan, HelperError> {
    if commands == [] then Ok(Plan({}, [], []))
    else
      var plan :- PlanPush(git, format, current, commands[..|commands| - 1]);
      PlanStep(git, format, current, plan, commands[|commands| - 1])
  }

  function Targets(refs: seq<RefTarget>): (objects: seq<GitObjectId>)
    ensures |objects| == |refs|
    ensures forall i :: 0 <= i < |refs| ==> objects[i] == refs[i].target
  {
    seq(|refs|, i requires 0 <= i < |refs| => refs[i].target)
  }

  function Take(objects: seq<GitObjectId>, n: nat): seq<GitObjectId> {
    if |objects| <= n then objects else objects[..n]
  }

  /** `checked_add` of two machine words. */
  function CheckedAdd(a: nat, b: nat): Option<nat> {
    if a + b > U64_MAX then None else Some(a + b)
  }

  function PreparePush(git: Git, format: GitObjectFormat, limits: Limits, current: seq<RefTarget>, commands: seq<PushCommand>)
    : Result<(seq<RefUpdate>, Bytes), HelperError>
  {
    var _ :- ValidateListing(format, current);
    var plan :- PlanPush(git, format, current, commands);
    var excludes := Take(ToSortedSet(Targets(current)), limits.maxHaves);
    var maxRevisions := CheckedAdd(limits.maxRefUpdates, limits.maxHaves);
    if maxRevisions.None? then Err(RevisionLimitOverflow)
    else
      var pack :- FromGit(CreatePushPack(git, plan.includes, excludes, maxRevisions.value, limits.maxPackBytes));
      Ok((plan.updates, pack))
  }

  function PushBatch(world: World, git: Git, repository: RepositoryId, s: Session, commands: seq<PushCommand>)
    : (Session, Result<PushResult, HelperError>)
  {
    if commands == [] then (s, Err(EmptyBatch))
    else
      var (s1, negotiated) := Negotiate(world, s);
      if negotiated.Err? then (s1, Err(ClientFailed(negotiated.error)))
      else
        var limits := negotiated.value.limits;
        if |commands| > limits.maxRefUpdates then (s1, Err(CommandLimitExceeded(limits.maxRefUpdates)))
        else if git.format.Err? then (s1, Err(GitFailed(git.format.error)))
        else
          var (s2, answer) := Ask(world, s1, RequestBody.ListPushRefs(repository));
          var listing := PushRefsIn(answer);
          if listing.Err? then (s2, Err(ClientFailed(listing.error)))
          else
            var prepared := PreparePush(git, git.format.value, limits, listing.value.refs, commands);
            if prepared.Err? then (s2, Err(prepared.error))
            else
              var (s3, pushed) := Ask(world, s2, RequestBody.Push(repository, prepared.value.0, prepared.value.1));
              (s3, FromClient(ResultIn(pushed)))
  }

  /// The session

  class RemoteSession {
    const remote: Remote
    const git: Git
    const client: GitIpcClient

    constructor (remote: Remote, client: GitIpcClient, git: Git)
      ensures this.remote == remote && this.client == client && this.git == git
    {
      this.remote, this.client, this.git := remote, client, git;
    }

    /** `list` */
    method List() returns (r: Result<RefListing, HelperError>)
      requires client.Valid()
      modifies client, client.transport
      ensures client.Valid()
      ensures (client.Contents(), r) == Listing(client.TheWorld(), git, remote, old(client.Contents()))
    {
      var negotiated := client.NegotiateCapabilities();
      if negotiated.Err? {
        return Err(ClientFailed(negotiated.error));
      }
      if git.format.Err? {
        return Err(GitFailed(git.format.error));
      }
      var listing := client.ListRefs(remote.repository, remote.view);
      if listing.Err? {
        return Err(ClientFailed(listing.error));
      }
      var valid := ValidateListing(git.format.value, listing.value.refs);
      if valid.Err? {
        return Err(valid.error);
      }
      if listing.value.head.Some? && !ValidReference(listing.value.head.value) {
        return Err(InvalidReference(listing.value.head.value));
      }
      return Ok(listing.value);
    }

    /** `list_for_push` */
    method ListForPush() returns (r: Result<PushRefListing, HelperError>)
      requires client.Valid()
      modifies client, client.transport
      ensures client.Valid()
      ensures (client.Contents(), r) == PushListing(client.TheWorld(), git, remote.repository, old(client.Contents()))
    {
      var negotiated := client.NegotiateCapabilities();
      if negotiated.Err? {
        return Err(ClientFailed(negotiated.error));
      }
      if git.format.Err? {
        return Err(GitFailed(git.format.error));
      }
      var listing := client.ListPushRefs(remote.repository);
      if listing.Err? {
        return Err(ClientFailed(listing.error));
      }
      var valid := ValidateListing(git.format.value, listing.value.refs);
      if valid.Err? {
        return Err(valid.error);
      }
      return Ok(listing.value);
    }

    /** `fetch_batch` */
    method RunFetch(commands: seq<FetchCommand>) returns (r: Result<(), HelperError>)
      requires client.Valid()
      modifies client, client.transport
      ensures client.Valid()
      ensures (client.Contents(), r) == FetchBatch(client.TheWorld(), git, remote, old(client.Contents()), commands)
    {
      if commands == [] {
        return Err(EmptyBatch);
      }
      var negotiated := client.NegotiateCapabilities();
      if negotiated.Err? {
        return Err(ClientFailed(negotiated.error));
      }
      var limits := negotiated.value.limits;
      var prepared := CollectFetch(git, limits, commands);
      if prepared.Err? {
        return Err(prepared.error);
      }
      var (wants, haves) := prepared.value;
      var pack := client.Fetch(remote.repository, remote.view, wants, haves);
      if pack.Err? {
        return Err(ClientFailed(pack.error));
      }
      if pack.value != [] {
        var installed := InstallFetchPack(git, pack.value, limits.maxPackBytes);
        if installed.Err? {
          return Err(GitFailed(installed.error));
        }
      }
      r := AllPresent(git, wants);
    }

    /** `push_batch` */
    method RunPush(commands: seq<PushCommand>) returns (r: Result<PushResult, HelperError>)
      requires client.Valid()
      modifies client, client.transport
      ensures client.Valid()
      ensures (client.Contents(), r) == PushBatch(client.TheWorld(), git, remote.repository, old(client.Contents()), commands)
    {
      if commands == [] {
        return Err(EmptyBatch);
      }
      var negotiated := client.NegotiateCapabilities();
      if negotiated.Err? {
        return Err(ClientFailed(negotiated.error));
      }
      var limits := negotiated.value.limits;
      if |commands| > limits.maxRefUpdates {
        return Err(CommandLimitExceeded(limits.maxRefUpdates));
      }
      if git.format.Err? {
        return Err(GitFailed(git.format.error));
      }
      var listing := client.ListPushRefs(remote.repository);
      if listing.Err? {
        return Err(ClientFailed(listing.error));
      }
      var prepared := CollectPush(git, git.format.value, limits, listing.value.refs, commands);
      if prepared.Err? {
        return Err(prepared.error);
      }
      var pushed := client.Push(remote.repository, prepared.value.0, prepared.value.1);
      return FromClient(pushed);
    }
  }

  function Listing(world: World, git: Git, remote: Remote, s: Session): (Session, Result<RefListing, HelperError>) {
    var (s1, negotiated) := Negotiate(world, s);
    if negotiated.Err? then (s1, Err(ClientFailed(negotiated.error)))
    else if git.format.Err? then (s1, Err(GitFailed(git.format.error)))
    else
      var (s2, answer) := Ask(world, s1, RequestBody.ListRefs(remote.repository, remote.view));
      (s2, CheckedListing(git.format.value, RefsIn(answer)))
  }

  function CheckedListing(format: GitObjectFormat, r: Result<RefListing, ClientError>): Result<RefListing, HelperError> {
    var listing :- FromClient(r);
    var _ :- ValidateListing(format, listing.refs);
    var _ :- if listing.head.None? then Ok(()) else ValidateReference(listing.head.value);
    Ok(listing)
  }

  function PushListing(world: World, git: Git, repository: RepositoryId, s: Session): (Session, Result<PushRefListing, HelperError>) {
    var (s1, negotiated) := Negotiate(world, s);
    if negotiated.Err? then (s1, Err(ClientFailed(negotiated.error)))
    else if git.format.Err? then (s1, Err(GitFailed(git.format.error)))
    else
      var (s2, answer) := Ask(world, s1, RequestBody.ListPushRefs(repository));
      (s2, CheckedPushListing(git.format.value, PushRefsIn(answer)))
  }

  function CheckedPushListing(format: GitObjectFormat, r: Result<PushRefListing, ClientError>): Result<PushRefListing, HelperError> {
    var listing :- FromClient(r);
    var _ :- ValidateListing(format, listing.refs);
    Ok(listing)
  }

  /// The loops

  lemma {:induction false} FetchCheckFails(format: GitObjectFormat, commands: seq<FetchCommand>, k: nat)
    requires k <= |commands| && CheckFetches(format, commands[..k]).Err?
    ensures CheckFetches(format, commands) == CheckFetches(format, commands[..k])
    decreases |commands|
  {
    if k == |commands| {
      assert commands[..k] == commands;
    } else {
      assert commands[..|commands| - 1][..k] == commands[..k];
      FetchCheckFails(format, commands[..|commands| - 1], k);
    }
  }

  lemma {:induction false} ObjectCheckFails(format: GitObjectFormat, objects: seq<GitObjectId>, k: nat)
    requires k <= |objects| && ValidateObjects(format, objects[..k]).Err?
    ensures ValidateObjects(format, objects) == ValidateObjects(format, objects[..k])
    decreases |objects|
  {
    if k == |objects| {
      assert objects[..k] == objects;
    } else {
      assert objects[..|objects| - 1][..k] == objects[..k];
      ObjectCheckFails(format, objects[..|objects| - 1], k);
    }
  }

  method CollectFetch(git: Git, limits: Limits, commands: seq<FetchCommand>)
    returns (r: Result<(seq<GitObjectId>, seq<GitObjectId>), HelperError>)
    ensures r == PrepareFetch(git, limits, commands)
  {
    if git.format.Err? {
      return Err(GitFailed(git.format.error));
    }
    var format := git.format.value;
    for i := 0 to |commands|
      invariant CheckFetches(format, commands[..i]).Ok?
    {
      assert commands[..i + 1][..i] == commands[..i];
      var checked := ValidateReference(commands[i].reference);
      if checked.Ok? {
        checked := ValidateObject(format, commands[i].wanted);
      }
      if checked.Err? {
        FetchCheckFails(format, commands, i + 1);
        return Err(checked.error);
      }
    }
    assert commands[..|commands|] == commands;
    var wants := ToSortedSet(WantedBy(commands));
    if |wants| > limits.maxWants {
      return Err(CommandLimitExceeded(limits.maxWants));
    }
    var haves := git.prerequisites(limits.maxHaves);
    if haves.Err? {
      return Err(GitFailed(haves.error));
    }
    var found := haves.value;
    if |found| > limits.maxHaves {
      return Err(GitResultLimitExceeded(limits.maxHaves));
    }
    for i := 0 to |found|
      invariant ValidateObjects(format, found[..i]).Ok?
    {
      assert found[..i + 1][..i] == found[..i];
      var checked := ValidateObject(format, found[i]);
      if checked.Err? {
        ObjectCheckFails(format, found, i + 1);
        return Err(checked.error);
      }
    }
    assert found[..|found|] == found;
    return Ok((wants, ToSortedSet(found)));
  }

  lemma {:induction false} PresenceFails(git: Git, objects: seq<GitObjectId>, k: nat)
    requires k <= |objects| && CheckPresent(git, objects[..k]).Err?
    ensures CheckPresent(git, objects) == CheckPresent(git, objects[..k])
    decreases |objects|
  {
    if k == |objects| {
      assert objects[..k] == objects;
    } else {
      assert objects[..|objects| - 1][..k] == objects[..k];
      PresenceFails(git, objects[..|objects| - 1], k);
    }
  }

  method AllPresent(git: Git, wants: seq<GitObjectId>) returns (r: Result<(), HelperError>)
    ensures r == CheckPresent(git, wants)
  {
    for i := 0 to |wants|
      invariant CheckPresent(git, wants[..i]).Ok?
    {
      assert wants[..i + 1][..i] == wants[..i];
      var present := git.has(wants[i]);
      if present.Err? {
        PresenceFails(git, wants, i + 1);
        return Err(GitFailed(present.error));
      }
      if !present.value {
        PresenceFails(git, wants, i + 1);
        return Err(WantedObjectMissing(wants[i]));
      }
    }
    assert wants[..|wants|] == wants;
    return Ok(());
  }

  lemma {:induction false} PlanFails(git: Git, format: GitObjectFormat, current: seq<RefTarget>, commands: seq<PushCommand>, k: nat)
    requires k <= |commands| && PlanPush(git, format, current, commands[..k]).Err?
    ensures PlanPush(git, format, current, commands) == PlanPush(git, format, current, commands[..k])
    decreases |commands|
  {
    if k == |commands| {
      assert commands[..k] == commands;
    } else {
      assert commands[..|commands| - 1][..k] == commands[..k];
      PlanFails(git, format, current, commands[..|commands| - 1], k);
    }
  }

  method CollectPush(git: Git, format: GitObjectFormat, limits: Limits, refs: seq<RefTarget>, commands: seq<PushCommand>)
    returns (r: Result<(seq<RefUpdate>, Bytes), HelperError>)
    ensures r == PreparePush(git, format, limits, refs, commands)
  {
    var listed := ValidateListing(format, refs);
    if listed.Err? {
      return Err(listed.error);
    }
    var current := Refs.RefMap(refs);
    var destinations: set<string>, updates: seq<RefUpdate>, includes: seq<GitObjectId> := {}, [], [];
    for i := 0 to |commands|
      invariant PlanPush(git, format, refs, commands[..i]) == Ok(Plan(destinations, updates, includes))
    {
      var command := commands[i];
      assert commands[..i + 1][..i] == commands[..i];
      if !ValidReference(command.destination) {
        PlanFails(git, format, refs, commands, i + 1);
        return Err(InvalidReference(command.destination));
      }
      if command.destination in destinations {
        PlanFails(git, format, refs, commands, i + 1);
        return Err(DuplicateDestination(command.destination));
      }
      destinations := destinations + {command.destination};
      var resolved := ResolveSource(git, format, command.source);
      if resolved.Err? {
        PlanFails(git, format, refs, commands, i + 1);
        return Err(resolved.error);
      }
      if resolved.value.Some? {
        includes := Add(resolved.value.value, includes);
      }
      var expected := if command.destination in current then Some(current[command.destination]) else None;
      updates := updates + [RefUpdate(command.destination, expected, resolved.value, command.force)];
    }
    assert commands[..|commands|] == commands;
    var excludes := Take(ToSortedSet(Targets(refs)), limits.maxHaves);
    var maxRevisions := CheckedAdd(limits.maxRefUpdates, limits.maxHaves);
    if maxRevisions.None? {
      return Err(RevisionLimitOverflow);
    }
    var pack := CreatePushPack(git, includes, excludes, maxRevisions.value, limits.maxPackBytes);
    if pack.Err? {
      return Err(GitFailed(pack.error));
    }
    return Ok((updates, pack.value));
  }
}
