/**
 The three records of a publisher's history, its state blob, its namespace refs and its transition
 refs, and why one guarded transaction keeps them in agreement.
 */
module Index {
  import opened Basics
  import opened Core
  import opened Refs
  import opened History
  import opened Store

  /** The transition ids of an accepted chain, read off its last id. */
  ghost function Lineage(id: Digest): set<Digest> {
    if id.Blake3? && id.content.RefTransitionContent? then
      var parent := id.content.refTransition.payload.parent;
      {id} + (if parent.Some? then Lineage(parent.value) else {})
    else {id}
  }

  /** `id` is a transition numbered `sequence` on a chain numbered down to zero. */
  ghost predicate Chained(id: Digest, sequence: nat) {
    && id.Blake3? && id.domain == TRANSITION_DOMAIN && id.content.RefTransitionContent?
    && var payload := id.content.refTransition.payload;
    && payload.sequence == sequence
    && if sequence == 0 then payload.parent == None
       else payload.parent.Some? && Chained(payload.parent.value, sequence - 1)
  }

  lemma {:induction false} LineageBelow(id: Digest, sequence: nat, older: Digest)
    requires Chained(id, sequence) && older in Lineage(id)
    ensures older.Blake3? && older.content.RefTransitionContent?
    ensures older.content.refTransition.payload.sequence <= sequence
    ensures older == TransitionId(older.content.refTransition)
  {
    if older != id {
      LineageBelow(id.content.refTransition.payload.parent.value, sequence - 1, older);
    }
  }

  /** A chain numbered up to `sequence` has `sequence + 1` transitions. */
  lemma {:induction false} LineageCount(id: Digest, sequence: nat)
    requires Chained(id, sequence)
    ensures |Lineage(id)| == sequence + 1
  {
    if sequence > 0 {
      var parent := id.content.refTransition.payload.parent.value;
      LineageCount(parent, sequence - 1);
      if id in Lineage(parent) {
        LineageBelow(parent, sequence - 1, id);
      }
      assert Lineage(id) == {id} + Lineage(parent);
    }
  }

  function CurrentState(repo: Repo, publisher: Identity): Option<RefState> {
    match ResolveRef(repo, StateRef(publisher))
    case Some(Blob(StateBlob(state))) => Some(state)
    case _ => None
  }

  /** What each ref of a publisher in `state` holds. */
  ghost function Indexed(state: Option<RefState>, key: Key): Option<Id> {
    if state.None? then None
    else
      match key
      case StateRef(_) => Some(Blob(StateBlob(state.value)))
      case NamespaceRef(_, name) =>
        var target := Lookup(state.value.refs, name);
        if target.None? then None else Some(Object(target.value))
      case TransitionRef(_, id) =>
        if id in Lineage(state.value.transition) && id.Blake3? && id.content.RefTransitionContent?
        then Some(Blob(TransitionBlob(id.content.refTransition))) else None
  }

  ghost predicate Agrees(repo: Repo, publisher: Identity) {
    forall key: Key :: key.publisher == publisher ==>
      ResolveRef(repo, key) == Indexed(CurrentState(repo, publisher), key)
  }

  /** A state that `commit` may have stored. */
  ghost predicate Sound(repo: Repo, publisher: Identity, state: RefState) {
    && state.repository == repo.id
    && state.publisher == publisher
    && ValidRefs(state.refs)
    && Chained(state.transition, state.sequence)
    && TargetsPresent(repo.format, state.refs, repo.objects)
  }

  ghost predicate ObjectsReal(repo: Repo) {
    forall o :: o in repo.objects ==> !IsZeroObject(o)
  }

  /** What `commit` knows when it asks for the transaction. */
  ghost predicate Prepared(repo: Repo, commit: Commit, previous: Option<Prior>, next: RefState) {
    && Accept(repo.id, commit, PriorState(previous)) == Ok(next)
    && (previous.Some? ==> previous.value.id == Blob(StateBlob(previous.value.state)))
    && TargetsPresent(repo.format, next.refs, repo.objects)
    && ObjectsReal(repo)
  }

  function EditsOf(commit: Commit, previous: Option<Prior>, next: RefState): seq<Edit> {
    Transaction(commit.selected.identity, previous, next, StateBlob(next), TransitionBlob(commit.transition))
  }

  /** The state read at the start is the current one, its blob id being unchanged. */
  ghost predicate Unmoved(repo: Repo, publisher: Identity, previous: Option<Prior>) {
    ResolveRef(repo, StateRef(publisher)) == (if previous.None? then None else Some(previous.value.id))
  }

  lemma NextIsSound(repo: Repo, commit: Commit, previous: Option<Prior>, next: RefState)
    requires Prepared(repo, commit, previous, next)
    requires previous.Some? ==> Sound(repo, commit.selected.identity, previous.value.state)
    ensures Sound(repo, commit.selected.identity, next)
    ensures next.transition == TransitionId(commit.transition)
    ensures Lineage(next.transition) ==
            {next.transition} + (if previous.None? then {} else Lineage(previous.value.state.transition))
    ensures previous.Some? ==> next.transition !in Lineage(previous.value.state.transition)
  {
    ValidateRefsExact(next.refs);
    if previous.Some? {
      var state := previous.value.state;
      if next.transition in Lineage(state.transition) {
        LineageBelow(state.transition, state.sequence, next.transition);
      }
    }
  }

  /** The old and new entries of the transaction are the sorted lists themselves. */
  ghost predicate Sorted(previous: Option<Prior>, next: RefState) {
    && SortedUnique(next.refs)
    && (previous.Some? ==> SortedUnique(previous.value.state.refs))
  }

  function OldRefs(previous: Option<Prior>): seq<RefTarget> {
    if previous.None? then [] else previous.value.state.refs
  }

  function DeletesOf(commit: Commit, previous: Option<Prior>, next: RefState): seq<Edit> {
    Deletes(commit.selected.identity, Gone(OldRefs(previous), RefMap(next.refs)))
  }

  function UpdatesOf(commit: Commit, previous: Option<Prior>, next: RefState): seq<Edit> {
    Updates(commit.selected.identity, next.refs, RefMap(OldRefs(previous)))
  }

  function RecordsOf(commit: Commit, previous: Option<Prior>, next: RefState): seq<Edit> {
    Records(commit.selected.identity, previous, next, StateBlob(next), TransitionBlob(commit.transition))
  }

  lemma TransactionParts(commit: Commit, previous: Option<Prior>, next: RefState)
    requires Sorted(previous, next)
    ensures EditsOf(commit, previous, next) ==
            DeletesOf(commit, previous, next) + UpdatesOf(commit, previous, next) + RecordsOf(commit, previous, next)
  {
    EntriesOfSorted(next.refs);
    EntriesOfSorted(OldRefs(previous));
  }

  lemma DeletesDistinct(publisher: Identity, refs: seq<RefTarget>, kept: map<string, GitObjectId>)
    requires SortedUnique(refs)
    ensures DistinctKeys(Deletes(publisher, Gone(refs, kept)))
  {
    SortedDistinct(refs);
    GoneDistinct(refs, kept);
  }

  lemma UpdatesDistinct(publisher: Identity, refs: seq<RefTarget>, before: map<string, GitObjectId>)
    requires SortedUnique(refs)
    ensures DistinctKeys(Updates(publisher, refs, before))
  {
    SortedDistinct(refs);
  }

  lemma DeletedNotUpdated(publisher: Identity, refs: seq<RefTarget>, after: seq<RefTarget>)
    ensures DisjointKeys(Deletes(publisher, Gone(refs, RefMap(after))), Updates(publisher, after, RefMap(refs)))
  {
    var gone := Gone(refs, RefMap(after));
    forall i, j | 0 <= i < |gone| && 0 <= j < |after|
      ensures gone[i].name != after[j].name
    {
      GoneMembers(refs, RefMap(after));
      assert gone[i] in gone;
      RefMapKeys(after, gone[i].name);
      assert after[j] in after;
    }
  }

  lemma PartsDistinct(ds: seq<Edit>, us: seq<Edit>, rs: seq<Edit>)
    requires DistinctKeys(ds) && DistinctKeys(us) && DisjointKeys(ds, us)
    requires forall i :: 0 <= i < |ds| ==> ds[i].key.NamespaceRef?
    requires forall i :: 0 <= i < |us| ==> us[i].key.NamespaceRef?
    requires |rs| == 2 && rs[0].key.StateRef? && rs[1].key.TransitionRef?
    ensures DistinctKeys(ds + us + rs)
  {
    DistinctConcat(ds, us);
    DistinctConcat(ds + us, rs);
  }

  lemma EditsDistinct(commit: Commit, previous: Option<Prior>, next: RefState)
    requires Sorted(previous, next)
    ensures DistinctKeys(EditsOf(commit, previous, next))
  {
    TransactionParts(commit, previous, next);
    DeletesDistinct(commit.selected.identity, OldRefs(previous), RefMap(next.refs));
    UpdatesDistinct(commit.selected.identity, next.refs, RefMap(OldRefs(previous)));
    DeletedNotUpdated(commit.selected.identity, OldRefs(previous), next.refs);
    PartsDistinct(DeletesOf(commit, previous, next), UpdatesOf(commit, previous, next), RecordsOf(commit, previous, next));
  }

  /** Nothing but refs of the committing publisher is edited. */
  lemma EditsOwnKeys(commit: Commit, previous: Option<Prior>, next: RefState)
    requires Sorted(previous, next)
    ensures forall e :: e in EditsOf(commit, previous, next) ==> e.key.publisher == commit.selected.identity
  {
    TransactionParts(commit, previous, next);
  }

  lemma EditsOfName(commit: Commit, previous: Option<Prior>, next: RefState, name: string)
    requires Sorted(previous, next)
    ensures forall e :: e in EditsOf(commit, previous, next) && e.key == NamespaceRef(commit.selected.identity, name) ==>
            name in RefMap(next.refs) || name in RefMap(OldRefs(previous))
  {
    TransactionParts(commit, previous, next);
    GoneMembers(OldRefs(previous), RefMap(next.refs));
    RefMapKeys(next.refs, name);
    RefMapKeys(OldRefs(previous), name);
  }

  lemma EditOfNewName(commit: Commit, previous: Option<Prior>, next: RefState, name: string) returns (i: nat)
    requires Sorted(previous, next) && name in RefMap(next.refs)
    ensures i < |EditsOf(commit, previous, next)|
    ensures EditsOf(commit, previous, next)[i] ==
            UpdateOf(commit.selected.identity, RefTarget(name, RefMap(next.refs)[name]), RefMap(OldRefs(previous)))
  {
    TransactionParts(commit, previous, next);
    RefMapKeys(next.refs, name);
    i :| 0 <= i < |next.refs| && next.refs[i] == RefTarget(name, RefMap(next.refs)[name]);
    i := |DeletesOf(commit, previous, next)| + i;
  }

  lemma EditOfOldName(commit: Commit, previous: Option<Prior>, next: RefState, name: string) returns (i: nat)
    requires Sorted(previous, next) && name !in RefMap(next.refs) && name in RefMap(OldRefs(previous))
    ensures i < |EditsOf(commit, previous, next)|
    ensures EditsOf(commit, previous, next)[i] ==
            DeleteOf(commit.selected.identity, RefTarget(name, RefMap(OldRefs(previous))[name]))
  {
    TransactionParts(commit, previous, next);
    RefMapKeys(OldRefs(previous), name);
    GoneMembers(OldRefs(previous), RefMap(next.refs));
    var gone := Gone(OldRefs(previous), RefMap(next.refs));
    i :| 0 <= i < |gone| && gone[i] == RefTarget(name, RefMap(OldRefs(previous))[name]);
  }

  /** Each ref of the publisher after the transaction. */
  lemma CommittedNamespace(refs: map<Key, Id>, commit: Commit, previous: Option<Prior>, next: RefState, name: string)
    requires Sorted(previous, next) && DistinctKeys(EditsOf(commit, previous, next))
    requires forall r :: r in next.refs ==> !IsZeroObject(r.target)
    requires var key := NamespaceRef(commit.selected.identity, name);
             key in refs ==> name in RefMap(OldRefs(previous))
    ensures var key := NamespaceRef(commit.selected.identity, name);
            var refs' := PerformAll(refs, EditsOf(commit, previous, next));
            && (key in refs' <==> name in RefMap(next.refs))
            && (key in refs' ==> refs'[key] == Object(RefMap(next.refs)[name]))
  {
    var edits := EditsOf(commit, previous, next);
    if name in RefMap(next.refs) {
      var i := EditOfNewName(commit, previous, next, name);
      RefMapKeys(next.refs, name);
      PerformAllAt(refs, edits, i);
    } else if name in RefMap(OldRefs(previous)) {
      var i := EditOfOldName(commit, previous, next, name);
      PerformAllAt(refs, edits, i);
    } else {
      EditsOfName(commit, previous, next, name);
      PerformAllElsewhere(refs, edits, NamespaceRef(commit.selected.identity, name));
    }
  }

  lemma CommittedRecords(refs: map<Key, Id>, commit: Commit, previous: Option<Prior>, next: RefState, id: Digest)
    requires Sorted(previous, next) && DistinctKeys(EditsOf(commit, previous, next))
    ensures var publisher := commit.selected.identity;
            var refs' := PerformAll(refs, EditsOf(commit, previous, next));
            && StateRef(publisher) in refs' && refs'[StateRef(publisher)] == Blob(StateBlob(next))
            && var key := TransitionRef(publisher, id);
            && (key in refs' <==> key in refs || id == next.transition)
            && (key in refs' ==> refs'[key] == if id == next.transition then Blob(TransitionBlob(commit.transition)) else refs[key])
  {
    var edits := EditsOf(commit, previous, next);
    TransactionParts(commit, previous, next);
    PerformAllAt(refs, edits, |edits| - 2);
    PerformAllAt(refs, edits, |edits| - 1);
    if id != next.transition {
      PerformAllElsewhere(refs, edits, TransitionRef(commit.selected.identity, id));
    }
  }

  /** The prior state of a publisher that has not moved is its current state. */
  lemma UnmovedIsCurrent(repo: Repo, commit: Commit, previous: Option<Prior>, next: RefState)
    requires Prepared(repo, commit, previous, next) && Unmoved(repo, commit.selected.identity, previous)
    ensures CurrentState(repo, commit.selected.identity) == PriorState(previous)
  {
  }

  ghost predicate AllSound(repo: Repo) {
    forall p: Identity :: CurrentState(repo, p).Some? ==> Sound(repo, p, CurrentState(repo, p).value)
  }

  ghost predicate AllAgree(repo: Repo) {
    forall p: Identity :: Agrees(repo, p)
  }

  lemma SortedLists(repo: Repo, commit: Commit, previous: Option<Prior>, next: RefState)
    requires Prepared(repo, commit, previous, next) && AllSound(repo)
    requires Unmoved(repo, commit.selected.identity, previous)
    ensures Sorted(previous, next)
    ensures previous.Some? ==> Sound(repo, commit.selected.identity, previous.value.state)
  {
    UnmovedIsCurrent(repo, commit, previous, next);
    ValidateRefsExact(next.refs);
  }

  lemma DeleteGuards(repo: Repo, commit: Commit, previous: Option<Prior>, next: RefState)
    requires Prepared(repo, commit, previous, next) && AllSound(repo) && AllAgree(repo)
    requires Unmoved(repo, commit.selected.identity, previous)
    ensures forall e :: e in DeletesOf(commit, previous, next) ==> GuardHolds(repo.refs, e)
  {
    var p := commit.selected.identity;
    SortedLists(repo, commit, previous, next);
    UnmovedIsCurrent(repo, commit, previous, next);
    var before := OldRefs(previous);
    var gone := Gone(before, RefMap(next.refs));
    GoneMembers(before, RefMap(next.refs));
    forall i | 0 <= i < |gone|
      ensures GuardHolds(repo.refs, DeleteOf(p, gone[i]))
    {
      assert gone[i] in gone;
      var j :| 0 <= j < |before| && before[j] == gone[i];
      RefMapAt(before, j);
      assert Agrees(repo, p);
      assert ResolveRef(repo, NamespaceRef(p, gone[i].name)) == Indexed(CurrentState(repo, p), NamespaceRef(p, gone[i].name));
    }
  }

  lemma UpdateGuards(repo: Repo, commit: Commit, previous: Option<Prior>, next: RefState)
    requires Prepared(repo, commit, previous, next) && AllSound(repo) && AllAgree(repo)
    requires Unmoved(repo, commit.selected.identity, previous)
    ensures forall e :: e in UpdatesOf(commit, previous, next) ==> GuardHolds(repo.refs, e)
  {
    var p := commit.selected.identity;
    SortedLists(repo, commit, previous, next);
    UnmovedIsCurrent(repo, commit, previous, next);
    var before := OldRefs(previous);
    forall i | 0 <= i < |next.refs|
      ensures GuardHolds(repo.refs, UpdateOf(p, next.refs[i], RefMap(before)))
    {
      var name := next.refs[i].name;
      RefMapKeys(before, name);
      assert Agrees(repo, p);
      assert ResolveRef(repo, NamespaceRef(p, name)) == Indexed(CurrentState(repo, p), NamespaceRef(p, name));
    }
  }

  lemma RecordGuards(repo: Repo, commit: Commit, previous: Option<Prior>, next: RefState)
    requires Prepared(repo, commit, previous, next) && AllSound(repo) && AllAgree(repo)
    requires Unmoved(repo, commit.selected.identity, previous)
    ensures forall e :: e in RecordsOf(commit, previous, next) ==> GuardHolds(repo.refs, e)
  {
    var p := commit.selected.identity;
    SortedLists(repo, commit, previous, next);
    UnmovedIsCurrent(repo, commit, previous, next);
    NextIsSound(repo, commit, previous, next);
    var key := TransitionRef(p, next.transition);
    assert Agrees(repo, p);
    assert ResolveRef(repo, key) == Indexed(CurrentState(repo, p), key);
  }

  /**
   No ABA: while the state ref holds the blob that was read, every other guard of the transaction
   holds, and otherwise the transaction fails.  The one guard on the state ref guards everything.
   */
  lemma StateGuardDecides(repo: Repo, commit: Commit, previous: Option<Prior>, next: RefState)
    requires Prepared(repo, commit, previous, next) && AllSound(repo) && AllAgree(repo)
    ensures Store.Transact(repo.refs, EditsOf(commit, previous, next)).Some? <==>
            Unmoved(repo, commit.selected.identity, previous)
  {
    var p := commit.selected.identity;
    var edits := EditsOf(commit, previous, next);
    if Unmoved(repo, p, previous) {
      SortedLists(repo, commit, previous, next);
      EditsDistinct(commit, previous, next);
      DeleteGuards(repo, commit, previous, next);
      UpdateGuards(repo, commit, previous, next);
      RecordGuards(repo, commit, previous, next);
      TransactionParts(commit, previous, next);
    } else {
      assert edits[|edits| - 2] == RecordsOf(commit, previous, next)[0];
      assert !GuardHolds(repo.refs, edits[|edits| - 2]);
    }
  }

  /** The repository after the transaction of `commit`, its two blobs already written. */
  function Committed(repo: Repo, commit: Commit, previous: Option<Prior>, next: RefState): Repo {
    repo.(refs := PerformAll(repo.refs, EditsOf(commit, previous, next)))
  }

  lemma CommittedAgrees(repo: Repo, commit: Commit, previous: Option<Prior>, next: RefState, key: Key)
    requires Prepared(repo, commit, previous, next) && AllSound(repo) && AllAgree(repo)
    requires Unmoved(repo, commit.selected.identity, previous)
    requires key.publisher == commit.selected.identity
    ensures ResolveRef(Committed(repo, commit, previous, next), key) == Indexed(Some(next), key)
  {
    var p := commit.selected.identity;
    SortedLists(repo, commit, previous, next);
    UnmovedIsCurrent(repo, commit, previous, next);
    EditsDistinct(commit, previous, next);
    NextIsSound(repo, commit, previous, next);
    assert Agrees(repo, p);
    assert ResolveRef(repo, key) == Indexed(CurrentState(repo, p), key);
    match key
    case NamespaceRef(_, name) => CommittedNamespace(repo.refs, commit, previous, next, name);
    case StateRef(_) => CommittedRecords(repo.refs, commit, previous, next, next.transition);
    case TransitionRef(_, id) =>
      CommittedRecords(repo.refs, commit, previous, next, id);
      if previous.Some? && id in Lineage(previous.value.state.transition) {
        LineageBelow(previous.value.state.transition, previous.value.state.sequence, id);
      }
  }

  /**
   A successful transaction makes `next` the publisher's state, in all three records, and leaves every
   ref of every other publisher as it was.
   */
  lemma CommitKeepsIndex(repo: Repo, commit: Commit, previous: Option<Prior>, next: RefState)
    requires Prepared(repo, commit, previous, next) && AllSound(repo) && AllAgree(repo)
    requires Unmoved(repo, commit.selected.identity, previous)
    ensures var repo' := Committed(repo, commit, previous, next);
            && CurrentState(repo', commit.selected.identity) == Some(next)
            && (forall key: Key :: key.publisher != commit.selected.identity ==> ResolveRef(repo', key) == ResolveRef(repo, key))
            && AllAgree(repo') && AllSound(repo')
  {
    var p := commit.selected.identity;
    var repo' := Committed(repo, commit, previous, next);
    SortedLists(repo, commit, previous, next);
    NextIsSound(repo, commit, previous, next);
    CommittedAgrees(repo, commit, previous, next, StateRef(p));
    EditsOwnKeys(commit, previous, next);
    forall key: Key | key.publisher != p
      ensures ResolveRef(repo', key) == ResolveRef(repo, key)
    {
      PerformAllElsewhere(repo.refs, EditsOf(commit, previous, next), key);
    }
    forall q: Identity
      ensures Agrees(repo', q)
      ensures CurrentState(repo', q).Some? ==> Sound(repo', q, CurrentState(repo', q).value)
    {
      forall key: Key | key.publisher == q
        ensures ResolveRef(repo', key) == Indexed(CurrentState(repo', q), key)
      {
        if q == p {
          CommittedAgrees(repo, commit, previous, next, key);
        } else {
          assert ResolveRef(repo', StateRef(q)) == ResolveRef(repo, StateRef(q));
          assert Agrees(repo, q);
        }
      }
      assert Agrees(repo, q);
    }
  }
}
