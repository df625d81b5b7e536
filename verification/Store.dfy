/**
 The repository as `commit` sees it: an object set that only grows, written blobs, and one flat map
 of refs moved by guarded all-or-nothing transactions (crates/styrene-git-store/src/lib.rs).
 */
module Store {
  import opened Basics
  import opened Core
  import opened Refs
  import opened History

  datatype ObjectFormat = LegacySha1 | Sha256 {
    function Name(): string {
      match this case LegacySha1 => "sha1" case Sha256 => "sha256"
    }
  }

  datatype BlobContent = StateBlob(state: RefState) | TransitionBlob(transition: RefTransition)

  /** What a ref can hold.  A blob's id is its content: Git hashes it, and hashes do not collide. */
  datatype Id = Object(oid: GitObjectId) | Blob(blob: BlobContent)

  /** The ref names `commit` uses; module RefNames spells them out and shows that they never clash. */
  datatype RefKey<D> =
    | NamespaceRef(publisher: Identity, name: string)
    | StateRef(publisher: Identity)
    | TransitionRef(publisher: Identity, transition: D)

  type Key = RefKey<Digest>

  datatype Repo = Repo(
    id: RepositoryId,
    format: ObjectFormat,
    objects: set<GitObjectId>,
    blobs: set<BlobContent>,
    refs: map<Key, Id>)

  datatype StoreError =
    | RepositoryMismatch
    | ObjectIdMismatch
    | InvalidPublisherState
    | GitFailed
    | CoreFailed(error: CoreError)

  /// Guarded ref transactions

  /** The all-zero object id, which Git reads as "no such ref". */
  predicate IsZeroObject(oid: GitObjectId) {
    forall b :: b in oid.bytes ==> b == 0
  }

  predicate IsZero(id: Id) {
    id.Object? && IsZeroObject(id.oid)
  }

  /** One line of a transaction on refs named by `K`. */
  datatype GuardedEdit<K> =
    | Delete(key: K, before: Id)
    | Update(key: K, after: Id, expected: Option<Id>)
    | Create(key: K, after: Id)

  type Edit = GuardedEdit<Key>

  predicate GuardHolds<K(==)>(refs: map<K, Id>, edit: GuardedEdit<K>) {
    match edit
    case Delete(key, before) => !IsZero(before) && key in refs && refs[key] == before
    case Update(key, _, expected) =>
      if expected.None? || IsZero(expected.value) then key !in refs
      else key in refs && refs[key] == expected.value
    case Create(key, after) => !IsZero(after) && key !in refs
  }

  function Perform<K(==)>(refs: map<K, Id>, edit: GuardedEdit<K>): map<K, Id> {
    match edit
    case Delete(key, _) => refs - {key}
    case Update(key, after, _) => if IsZero(after) then refs - {key} else refs[key := after]
    case Create(key, after) => refs[key := after]
  }

  function PerformAll<K(==)>(refs: map<K, Id>, edits: seq<GuardedEdit<K>>): map<K, Id> {
    if edits == [] then refs
    else Perform(PerformAll(refs, edits[..|edits| - 1]), edits[|edits| - 1])
  }

  predicate DistinctKeys<K(==)>(edits: seq<GuardedEdit<K>>) {
    forall i, j :: 0 <= i < j < |edits| ==> edits[i].key != edits[j].key
  }

  predicate DisjointKeys(a: seq<Edit>, b: seq<Edit>) {
    forall i, j :: 0 <= i < |a| && 0 <= j < |b| ==> a[i].key != b[j].key
  }

  lemma DistinctConcat(a: seq<Edit>, b: seq<Edit>)
    requires DistinctKeys(a) && DistinctKeys(b) && DisjointKeys(a, b)
    ensures DistinctKeys(a + b)
  {
  }

  /** A transaction: every guard holds on the refs as they are and all edits happen, or none does. */
  function Transact<K(==)>(refs: map<K, Id>, edits: seq<GuardedEdit<K>>): Option<map<K, Id>> {
    if DistinctKeys(edits) && forall e :: e in edits ==> GuardHolds(refs, e)
    then Some(PerformAll(refs, edits))
    else None
  }

  lemma {:induction false} PerformAllElsewhere(refs: map<Key, Id>, edits: seq<Edit>, key: Key)
    requires forall e :: e in edits ==> e.key != key
    ensures key in PerformAll(refs, edits) <==> key in refs
    ensures key in refs ==> PerformAll(refs, edits)[key] == refs[key]
  {
    if edits != [] {
      PerformAllElsewhere(refs, edits[..|edits| - 1], key);
    }
  }

  lemma {:induction false} PerformAllAt(refs: map<Key, Id>, edits: seq<Edit>, i: nat)
    requires DistinctKeys(edits) && i < |edits|
    ensures edits[i].key in PerformAll(refs, edits) <==>
            edits[i].Create? || (edits[i].Update? && !IsZero(edits[i].after))
    ensures edits[i].key in PerformAll(refs, edits) ==> PerformAll(refs, edits)[edits[i].key] == edits[i].after
  {
    var last := |edits| - 1;
    if i < last {
      PerformAllAt(refs, edits[..last], i);
      assert edits[last].key != edits[i].key;
    }
  }

  /// The publisher's transaction

  datatype Prior = Prior(id: Id, state: RefState)

  function PriorState(previous: Option<Prior>): Option<RefState> {
    if previous.None? then None else Some(previous.value.state)
  }

  /** Insertion into an ordered map kept as its sorted entries. */
  function Enter(r: RefTarget, entries: seq<RefTarget>): seq<RefTarget> {
    if entries == [] then [r]
    else if entries[0].name == r.name then [r] + entries[1..]
    else if Order.TextLess(entries[0].name, r.name) then [entries[0]] + Enter(r, entries[1..])
    else [r] + entries
  }

  /** The sorted entries of the ordered map collected from `refs`. */
  function Entries(refs: seq<RefTarget>): seq<RefTarget> {
    if refs == [] then [] else Enter(refs[|refs| - 1], Entries(refs[..|refs| - 1]))
  }

  function PriorRefs(previous: Option<Prior>): seq<RefTarget> {
    if previous.None? then [] else Entries(previous.value.state.refs)
  }

  /** The entries whose names `kept` lacks, in order. */
  function Gone(refs: seq<RefTarget>, kept: map<string, GitObjectId>): seq<RefTarget> {
    if refs == [] then []
    else
      var r := refs[|refs| - 1];
      Gone(refs[..|refs| - 1], kept) + (if r.name in kept then [] else [r])
  }

  function DeleteOf(publisher: Identity, r: RefTarget): Edit {
    Delete(NamespaceRef(publisher, r.name), Object(r.target))
  }

  /** Delete each of the old references `gone`. */
  function Deletes(publisher: Identity, gone: seq<RefTarget>): seq<Edit> {
    seq(|gone|, i requires 0 <= i < |gone| => DeleteOf(publisher, gone[i]))
  }

  function UpdateOf(publisher: Identity, r: RefTarget, before: map<string, GitObjectId>): Edit {
    Update(NamespaceRef(publisher, r.name), Object(r.target),
           if r.name in before then Some(Object(before[r.name])) else None)
  }

  /** Move every new name from its old target, or from nothing. */
  function Updates(publisher: Identity, after: seq<RefTarget>, before: map<string, GitObjectId>): seq<Edit> {
    seq(|after|, i requires 0 <= i < |after| => UpdateOf(publisher, after[i], before))
  }

  function Transaction(publisher: Identity, previous: Option<Prior>, next: RefState,
                       stateBlob: BlobContent, transitionBlob: BlobContent): seq<Edit>
  {
    var before, after := PriorRefs(previous), Entries(next.refs);
    Deletes(publisher, Gone(before, RefMap(after))) + Updates(publisher, after, RefMap(before)) +
    Records(publisher, previous, next, stateBlob, transitionBlob)
  }

  /** Move the state ref from the blob that was read, and record the transition. */
  function Records(publisher: Identity, previous: Option<Prior>, next: RefState,
                   stateBlob: BlobContent, transitionBlob: BlobContent): seq<Edit>
  {
    [Update(StateRef(publisher), Blob(stateBlob), if previous.None? then None else Some(previous.value.id)),
     Create(TransitionRef(publisher, next.transition), Blob(transitionBlob))]
  }

  /// Reading a publisher's state

  function ResolveRef(repo: Repo, key: Key): Option<Id> {
    if key in repo.refs then Some(repo.refs[key]) else None
  }

  /** Load the blob the state ref resolved to, and check whose state it is. */
  function LoadState(repo: Repo, publisher: Identity, stateId: Option<Id>): Result<Option<Prior>, StoreError> {
    match stateId
    case None => Ok(None)
    case Some(id) =>
      if !id.Blob? || id.blob !in repo.blobs || !id.blob.StateBlob? then Err(GitFailed)
      else
        var state := id.blob.state;
        if state.repository != repo.id || state.publisher != publisher then Err(InvalidPublisherState)
        else Ok(Some(Prior(id, state)))
  }

  /** A state is loaded exactly if the ref holds a state blob that is there and is this publisher's in this repository. */
  lemma LoadExactly(repo: Repo, publisher: Identity, stateId: Option<Id>)
    ensures var r := LoadState(repo, publisher, stateId);
            && (r == Ok(None) <==> stateId.None?)
            && (forall state :: r == Ok(Some(Prior(Blob(StateBlob(state)), state))) <==>
                  && stateId == Some(Blob(StateBlob(state))) && StateBlob(state) in repo.blobs
                  && state.repository == repo.id && state.publisher == publisher)
            && (r.Ok? && r.value.Some? ==> r.value.value == Prior(Blob(StateBlob(r.value.value.state)), r.value.value.state))
            && (r == Err(InvalidPublisherState) <==>
                  exists state :: && stateId == Some(Blob(StateBlob(state))) && StateBlob(state) in repo.blobs
                                  && !(state.repository == repo.id && state.publisher == publisher))
            && (r.Err? ==> r.error.InvalidPublisherState? || r.error.GitFailed?)
  {
    var r := LoadState(repo, publisher, stateId);
    if stateId.Some? && stateId.value.Blob? && stateId.value.blob.StateBlob? {
      assert stateId == Some(Blob(StateBlob(stateId.value.blob.state)));
    }
  }

  /// Object reachability

  ghost predicate Path(links: GitObjectId -> set<GitObjectId>, path: seq<GitObjectId>) {
    path != [] && forall i :: 0 <= i < |path| - 1 ==> path[i + 1] in links(path[i])
  }

  /** Everything reachable from the targets of `refs` is among `objects`. */
  ghost predicate Connected(links: GitObjectId -> set<GitObjectId>, refs: seq<RefTarget>, objects: set<GitObjectId>) {
    forall path, r :: Path(links, path) && r in refs && path[0] == r.target ==> path[|path| - 1] in objects
  }

  function CheckEach(format: ObjectFormat, refs: seq<RefTarget>, objects: set<GitObjectId>): Result<(), StoreError> {
    if refs == [] then Ok(())
    else if !refs[0].target.Valid() then Err(CoreFailed(InvalidRefTransition(BadObjectId)))
    else if refs[0].target.algorithm != format.Name() then Err(ObjectIdMismatch)
    else if refs[0].target !in objects then Err(GitFailed)
    else CheckEach(format, refs[1..], objects)
  }

  /**
   `verify_targets` over the quarantine and the repository together; `gitRefuses` covers every other
   reason for which Git's object checks may fail.
   */
  ghost function CheckTargets(links: GitObjectId -> set<GitObjectId>, format: ObjectFormat, refs: seq<RefTarget>,
                              objects: set<GitObjectId>, gitRefuses: bool): Result<(), StoreError>
  {
    var _ :- CheckEach(format, refs, objects);
    if gitRefuses || !Connected(links, refs, objects) then Err(GitFailed) else Ok(())
  }

  predicate TargetsPresent(format: ObjectFormat, refs: seq<RefTarget>, objects: set<GitObjectId>) {
    forall r :: r in refs ==> r.target.algorithm == format.Name() && r.target in objects
  }

  lemma {:induction false} CheckEachExact(format: ObjectFormat, refs: seq<RefTarget>, objects: set<GitObjectId>)
    ensures CheckEach(format, refs, objects).Ok? <==>
            TargetsPresent(format, refs, objects) && forall r :: r in refs ==> r.target.Valid()
  {
    if refs != [] {
      CheckEachExact(format, refs[1..], objects);
      assert forall r :: r in refs <==> r == refs[0] || r in refs[1..];
    }
  }

  /// Facts about the generated transaction

  lemma {:induction false} EnterLast(r: RefTarget, entries: seq<RefTarget>)
    requires forall e :: e in entries ==> Order.TextLess(e.name, r.name)
    ensures Enter(r, entries) == entries + [r]
  {
    if entries != [] {
      Order.TextLessIrreflexive(r.name);
      assert entries[0] in entries;
      EnterLast(r, entries[1..]);
    }
  }

  /** A sorted list is its own ordered map. */
  lemma {:induction false} EntriesOfSorted(refs: seq<RefTarget>)
    requires SortedUnique(refs)
    ensures Entries(refs) == refs
  {
    if refs != [] {
      var n := |refs| - 1;
      SortedSlice(refs, 0, n);
      EntriesOfSorted(refs[..n]);
      forall e | e in refs[..n]
        ensures Order.TextLess(e.name, refs[n].name)
      {
        var i :| 0 <= i < n && refs[i] == e;
        SortedPairs(refs, i, n);
      }
      EnterLast(refs[n], refs[..n]);
    }
  }

  lemma {:induction false} GoneMembers(refs: seq<RefTarget>, kept: map<string, GitObjectId>)
    ensures forall r :: r in Gone(refs, kept) <==> r in refs && r.name !in kept
  {
    if refs != [] {
      GoneMembers(refs[..|refs| - 1], kept);
      assert refs == refs[..|refs| - 1] + [refs[|refs| - 1]];
    }
  }

  lemma {:induction false} GoneDistinct(refs: seq<RefTarget>, kept: map<string, GitObjectId>)
    requires DistinctNames(refs)
    ensures DistinctNames(Gone(refs, kept))
  {
    if refs != [] {
      GoneDistinct(refs[..|refs| - 1], kept);
      GoneMembers(refs[..|refs| - 1], kept);
    }
  }

  lemma SortedDistinct(refs: seq<RefTarget>)
    requires SortedUnique(refs)
    ensures DistinctNames(refs)
  {
    forall i, j | 0 <= i < j < |refs|
      ensures refs[i].name != refs[j].name
    {
      if refs[i].name == refs[j].name { SortedNamesDistinct(refs, i, j); }
    }
  }
}
