/** `Repository::commit` and its helpers in the order the source runs them, for one call at a time. */
module Repositories {
  import opened Basics
  import opened Core
  import opened Refs
  import opened History
  import opened Store
  import opened Index
  import opened CommitMachine

  /**
   What may go wrong around one call: show-ref failing at the first or the second read, Git refusing the
   object checks, promotion stopping after some of the objects, the transaction breaking.
   */
  datatype Faults = Faults(
    readLost: bool, gitRefuses: bool, stoppedAfter: Option<set<GitObjectId>>, fate: Fate, rereadLost: bool)

  const NO_FAULTS := Faults(false, false, None, Faithful, false)

  function Written(repo: Repo, request: Request, next: RefState): Repo {
    repo.(objects := repo.objects + request.quarantine,
          blobs := repo.blobs + {StateBlob(next)} + {TransitionBlob(request.commit.transition)})
  }

  /** One call run alone. */
  ghost function CommitOnce(links: GitObjectId -> set<GitObjectId>, repo: Repo, request: Request, faults: Faults)
    : (Repo, Result<Outcome, StoreError>)
  {
    if Arrive(request).Returned? then (repo, Arrive(request).result)
    else
      var plan := PlanPhase(repo, request, Shown(repo, request, faults.readLost));
      if plan.Returned? then (repo, plan.result)
      else
        match CheckTargets(links, repo.format, plan.next.refs, repo.objects + request.quarantine, faults.gitRefuses)
        case Err(e) => (repo, Err(e))
        case Ok(_) =>
          if faults.stoppedAfter.Some? then
            (repo.(objects := repo.objects + faults.stoppedAfter.value * request.quarantine), Err(GitFailed))
          else
            Land(Written(repo, request, plan.next), request, plan.previous, plan.next, faults)
  }

  /** The transaction, and the second look at the state if it fails. */
  function Land(repo: Repo, request: Request, previous: Option<Prior>, next: RefState, faults: Faults)
    : (Repo, Result<Outcome, StoreError>)
  {
    var refs := Transact(repo.refs, EditsOf(request.commit, previous, next));
    var landed := if faults.fate.Broken? || refs.None? then repo else repo.(refs := refs.value);
    if faults.fate.Faithful? && refs.Some? then (landed, Ok(Applied(next)))
    else
      var end := ConcludePhase(landed, request, Shown(landed, request, faults.rereadLost));
      (landed, end.result)
  }

  class Repository {
    const id: RepositoryId
    const format: ObjectFormat
    var objects: set<GitObjectId>
    var blobs: set<BlobContent>
    var refs: map<Key, Id>

    constructor (id: RepositoryId, format: ObjectFormat)
      ensures Contents() == Initial(id, format).repo
    {
      this.id := id;
      this.format := format;
      objects, blobs, refs := {}, {}, map[];
    }

    function Contents(): Repo
      reads this
    {
      Repo(id, format, objects, blobs, refs)
    }

    /** `publisher_state_with_object` */
    method PublisherStateWithObject(publisher: Identity, lost: bool) returns (r: Result<Option<Prior>, StoreError>)
      ensures r == LoadState(Contents(), publisher, if lost then None else ResolveRef(Contents(), StateRef(publisher)))
    {
      if lost || StateRef(publisher) !in refs {
        return Ok(None);
      }
      var stateId := refs[StateRef(publisher)];
      if !stateId.Blob? || stateId.blob !in blobs || !stateId.blob.StateBlob? {
        return Err(GitFailed);
      }
      var state := stateId.blob.state;
      if state.repository != id || state.publisher != publisher {
        return Err(InvalidPublisherState);
      }
      return Ok(Some(Prior(stateId, state)));
    }

    /** `Quarantine::verify_targets`; `connected` is the answer of Git's own walk over the objects. */
    method VerifyTargets(targets: seq<RefTarget>, quarantine: set<GitObjectId>, gitRefuses: bool,
                         connected: (seq<RefTarget>, set<GitObjectId>) -> bool,
                         ghost links: GitObjectId -> set<GitObjectId>)
      returns (r: Result<(), StoreError>)
      requires forall ts, os :: connected(ts, os) <==> Connected(links, ts, os)
      ensures r == CheckTargets(links, format, targets, objects + quarantine, gitRefuses)
    {
      var available := objects + quarantine;
      for i := 0 to |targets|
        invariant CheckEach(format, targets, available) == CheckEach(format, targets[i..], available)
      {
        assert targets[i..][1..] == targets[i + 1..];
        var target := targets[i].target;
        if !target.Valid() {
          return Err(CoreFailed(InvalidRefTransition(BadObjectId)));
        }
        if target.algorithm != format.Name() {
          return Err(ObjectIdMismatch);
        }
        if target !in available {
          return Err(GitFailed);
        }
      }
      if gitRefuses || !connected(targets, available) {
        return Err(GitFailed);
      }
      return Ok(());
    }

    /** `promote_objects`, entry by entry; an entry that is there already is left alone. */
    method PromoteObjects(quarantine: set<GitObjectId>, stoppedAfter: Option<set<GitObjectId>>)
      returns (r: Result<(), StoreError>)
      modifies this`objects
      ensures r.Ok? <==> stoppedAfter.None?
      ensures r.Err? ==> r.error == GitFailed
      ensures objects == old(objects) + (if stoppedAfter.None? then quarantine else stoppedAfter.value * quarantine)
    {
      var left := if stoppedAfter.None? then quarantine else stoppedAfter.value * quarantine;
      ghost var all := left;
      while left != {}
        invariant left <= all
        invariant objects == old(objects) + (all - left)
        decreases left
      {
        var entry :| entry in left;
        left := left - {entry};
        if entry !in objects {
          objects := objects + {entry};
        }
      }
      return if stoppedAfter.None? then Ok(()) else Err(GitFailed);
    }

    /** `update_publisher_refs`: the transaction is built edit by edit and run. */
    method UpdatePublisherRefs(publisher: Identity, previous: Option<Prior>, next: RefState,
                               stateBlob: BlobContent, transitionBlob: BlobContent, fate: Fate)
      returns (r: Result<(), StoreError>)
      modifies this`refs
      ensures var after := Transact(old(refs), Transaction(publisher, previous, next, stateBlob, transitionBlob));
              && refs == (if fate.Broken? || after.None? then old(refs) else after.value)
              && (r.Ok? <==> fate.Faithful? && after.Some?)
    {
      var oldRefs := PriorRefs(previous);
      var newRefs := Entries(next.refs);
      var oldMap, newMap := RefMap(oldRefs), RefMap(newRefs);
      var edits: seq<Edit> := [];
      for i := 0 to |oldRefs|
        invariant edits == Deletes(publisher, Gone(oldRefs[..i], newMap))
      {
        assert oldRefs[..i + 1][..i] == oldRefs[..i];
        if oldRefs[i].name !in newMap {
          edits := edits + [Delete(NamespaceRef(publisher, oldRefs[i].name), Object(oldRefs[i].target))];
        }
      }
      assert oldRefs[..|oldRefs|] == oldRefs;
      ghost var deletes := edits;
      for j := 0 to |newRefs|
        invariant edits == deletes + Updates(publisher, newRefs[..j], oldMap)
      {
        var name := newRefs[j].name;
        var expected := if name in oldMap then Some(Object(oldMap[name])) else None;
        edits := edits + [Update(NamespaceRef(publisher, name), Object(newRefs[j].target), expected)];
      }
      assert newRefs[..|newRefs|] == newRefs;
      var currentState := if previous.None? then None else Some(previous.value.id);
      edits := edits + [Update(StateRef(publisher), Blob(stateBlob), currentState),
                        Create(TransitionRef(publisher, next.transition), Blob(transitionBlob))];
      assert edits == Transaction(publisher, previous, next, stateBlob, transitionBlob);
      var after := Transact(refs, edits);
      if after.Some? && !fate.Broken? {
        refs := after.value;
      }
      return if after.Some? && fate.Faithful? then Ok(()) else Err(GitFailed);
    }

    /** The end of `commit`: the transaction and, if it fails, a second look at the state. */
    method MoveRefs(request: Request, previous: Option<Prior>, next: RefState, faults: Faults)
      returns (r: Result<Outcome, StoreError>)
      modifies this`refs
      ensures (Contents(), r) == Land(old(Contents()), request, previous, next, faults)
    {
      var commit, publisher := request.commit, request.commit.selected.identity;
      var update := UpdatePublisherRefs(publisher, previous, next, StateBlob(next),
                                        TransitionBlob(commit.transition), faults.fate);
      if update.Ok? {
        return Ok(Applied(next));
      }
      var again := PublisherStateWithObject(publisher, faults.rereadLost);
      if again.Err? {
        return Err(again.error);
      }
      if again.value.Some? && again.value.value.state.transition == TransitionId(commit.transition) {
        return Ok(AlreadyPresent(again.value.value.state));
      }
      return Err(GitFailed);
    }

    /** `Repository::commit` */
    method Commit(request: Request, faults: Faults,
                  connected: (seq<RefTarget>, set<GitObjectId>) -> bool,
                  ghost links: GitObjectId -> set<GitObjectId>)
      returns (r: Result<Outcome, StoreError>)
      requires forall ts, os :: connected(ts, os) <==> Connected(links, ts, os)
      modifies this
      ensures (Contents(), r) == CommitOnce(links, old(Contents()), request, faults)
    {
      if !request.home {
        return Err(RepositoryMismatch);
      }
      var commit, publisher := request.commit, request.commit.selected.identity;
      var bound := VerifySelected(commit.binding, commit.selected);
      if bound.Err? {
        return Err(CoreFailed(bound.error));
      }
      var read := PublisherStateWithObject(publisher, faults.readLost);
      if read.Err? {
        return Err(read.error);
      }
      var previous := read.value;
      if previous.Some? && previous.value.state.transition == TransitionId(commit.transition) {
        return Ok(AlreadyPresent(previous.value.state));
      }
      var verified := Verify(commit.transition, id, commit.binding, commit.selected, PriorState(previous));
      if verified.Err? {
        return Err(CoreFailed(verified.error));
      }
      var next := verified.value;
      var checked := VerifyTargets(next.refs, request.quarantine, faults.gitRefuses, connected, links);
      if checked.Err? {
        return Err(checked.error);
      }
      var promoted := PromoteObjects(request.quarantine, faults.stoppedAfter);
      if promoted.Err? {
        return Err(GitFailed);
      }
      blobs := blobs + {StateBlob(next)};
      blobs := blobs + {TransitionBlob(commit.transition)};
      assert Contents() == Written(old(Contents()), request, next);
      r := MoveRefs(request, previous, next, faults);
    }
  }
}
