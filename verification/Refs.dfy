/** Signed publisher reference transitions: crates/styrene-git-core/src/refs.rs. */
module Refs {
  import opened Basics
  import opened Core
  import opened Order
  import opened Text

  const TRANSITION_DOMAIN := DomainSeparator("ref-transition")
  const SIGNATURE_DOMAIN := DomainSeparator("ref-transition-signature")

  function TransitionId(transition: RefTransition): Digest {
    Blake3(TRANSITION_DOMAIN, RefTransitionContent(transition))
  }

  function SignatureFrame(payload: RefPayload): Message {
    RefMessage(SIGNATURE_DOMAIN, payload)
  }

  /// Reference lists

  predicate InOrder(refs: seq<RefTarget>, i: int)
    requires 0 <= i < |refs| - 1
  {
    TextLess(refs[i].name, refs[i + 1].name)
  }

  predicate SortedUnique(refs: seq<RefTarget>) {
    forall i :: 0 <= i < |refs| - 1 ==> InOrder(refs, i)
  }

  predicate ValidName(name: string) {
    && StartsWith(name, "refs/")
    && !HasDotDot(name)
    && forall c :: c in name ==> !ForbiddenChar(c)
  }

  /** The first thing wrong with a reference, names before object ids. */
  function ValidateEach(refs: seq<RefTarget>): Result<(), CoreError> {
    if refs == [] then Ok(())
    else if !ValidName(refs[0].name) then Err(InvalidRefTransition(BadName))
    else if !refs[0].target.Valid() then Err(InvalidRefTransition(BadObjectId))
    else ValidateEach(refs[1..])
  }

  function ValidateRefs(refs: seq<RefTarget>): Result<(), CoreError> {
    if !SortedUnique(refs) then Err(InvalidRefTransition(NotSorted)) else ValidateEach(refs)
  }

  predicate ValidRefs(refs: seq<RefTarget>) {
    && SortedUnique(refs)
    && forall r :: r in refs ==> ValidName(r.name) && r.target.Valid()
  }

  lemma {:induction false} ValidateEachExact(refs: seq<RefTarget>)
    ensures ValidateEach(refs).Ok? <==> forall r :: r in refs ==> ValidName(r.name) && r.target.Valid()
  {
    if refs != [] {
      ValidateEachExact(refs[1..]);
      assert forall r :: r in refs <==> r == refs[0] || r in refs[1..];
    }
  }

  lemma ValidateRefsExact(refs: seq<RefTarget>)
    ensures ValidateRefs(refs).Ok? <==> ValidRefs(refs)
  {
    ValidateEachExact(refs);
  }

  /** Neighbours in order put every pair in order. */
  lemma {:induction false} SortedPairs(refs: seq<RefTarget>, i: nat, j: nat)
    requires SortedUnique(refs) && i < j < |refs|
    ensures TextLess(refs[i].name, refs[j].name)
    decreases j - i
  {
    if i + 1 == j {
      assert InOrder(refs, i);
    } else {
      SortedPairs(refs, i, j - 1);
      assert InOrder(refs, j - 1);
      TextLessTransitive(refs[i].name, refs[j - 1].name, refs[j].name);
    }
  }

  lemma SortedNamesDistinct(refs: seq<RefTarget>, i: nat, j: nat)
    requires SortedUnique(refs) && i < |refs| && j < |refs| && refs[i].name == refs[j].name
    ensures i == j
  {
    TextLessIrreflexive(refs[i].name);
    if i < j { SortedPairs(refs, i, j); } else if j < i { SortedPairs(refs, j, i); }
  }

  lemma SortedSlice(refs: seq<RefTarget>, lo: nat, hi: nat)
    requires SortedUnique(refs) && lo <= hi <= |refs|
    ensures SortedUnique(refs[lo..hi])
  {
    forall i | 0 <= i < hi - lo - 1
      ensures InOrder(refs[lo..hi], i)
    {
      assert InOrder(refs, lo + i);
    }
  }

  /** The map a list of references stands for; of two entries of one name the later wins. */
  function RefMap(refs: seq<RefTarget>): map<string, GitObjectId> {
    if refs == [] then map[]
    else
      var last := refs[|refs| - 1];
      RefMap(refs[..|refs| - 1])[last.name := last.target]
  }

  lemma {:induction false} RefMapKeys(refs: seq<RefTarget>, name: string)
    ensures name in RefMap(refs) <==> exists r :: r in refs && r.name == name
    ensures name in RefMap(refs) ==> RefTarget(name, RefMap(refs)[name]) in refs
  {
    if refs != [] {
      var n := |refs| - 1;
      RefMapKeys(refs[..n], name);
      assert refs == refs[..n] + [refs[n]];
    }
  }

  lemma RefMapAt(refs: seq<RefTarget>, i: nat)
    requires SortedUnique(refs) && i < |refs|
    ensures refs[i].name in RefMap(refs) && RefMap(refs)[refs[i].name] == refs[i].target
  {
    RefMapKeys(refs, refs[i].name);
    assert refs[i] in refs;
    var j :| 0 <= j < |refs| && refs[j] == RefTarget(refs[i].name, RefMap(refs)[refs[i].name]);
    SortedNamesDistinct(refs, i, j);
  }

  function Lookup(refs: seq<RefTarget>, name: string): Option<GitObjectId> {
    var m := RefMap(refs);
    if name in m then Some(m[name]) else None
  }

  /** In a sorted list a name has the target it stands with, and no other. */
  lemma LookupExactly(refs: seq<RefTarget>, name: string, target: GitObjectId)
    requires SortedUnique(refs)
    ensures Lookup(refs, name) == Some(target) <==> RefTarget(name, target) in refs
  {
    if RefTarget(name, target) in refs {
      var i :| 0 <= i < |refs| && refs[i] == RefTarget(name, target);
      RefMapAt(refs, i);
    }
    RefMapKeys(refs, name);
    if Lookup(refs, name) == Some(target) {
      var i :| 0 <= i < |refs| && refs[i].name == name;
      RefMapAt(refs, i);
    }
  }

  /** `RefState::target`: on a sorted list the binary search is the lookup in the map. */
  method Target(refs: seq<RefTarget>, name: string) returns (target: Option<GitObjectId>)
    ensures target.Some? ==> RefTarget(name, target.value) in refs
    ensures SortedUnique(refs) ==> target == Lookup(refs, name)
  {
    var lo, hi := 0, |refs|;
    while lo < hi
      invariant 0 <= lo <= hi <= |refs|
      invariant SortedUnique(refs) ==> forall i :: 0 <= i < lo ==> refs[i].name != name
      invariant SortedUnique(refs) ==> forall i :: hi <= i < |refs| ==> refs[i].name != name
    {
      var mid := lo + (hi - lo) / 2;
      if refs[mid].name == name {
        if SortedUnique(refs) {
          RefMapAt(refs, mid);
        }
        return Some(refs[mid].target);
      } else if TextLess(refs[mid].name, name) {
        if SortedUnique(refs) {
          forall i | lo <= i <= mid
            ensures refs[i].name != name
          {
            if i < mid { SortedPairs(refs, i, mid); }
            if refs[i].name == name && i < mid {
              TextLessTransitive(name, refs[mid].name, name);
              TextLessIrreflexive(name);
            }
          }
        }
        lo := mid + 1;
      } else {
        if SortedUnique(refs) {
          forall i | mid <= i < hi
            ensures refs[i].name != name
          {
            if i > mid { SortedPairs(refs, mid, i); }
          }
        }
        hi := mid;
      }
    }
    target := None;
    RefMapKeys(refs, name);
  }

  /// Sorting

  function Insert(r: RefTarget, refs: seq<RefTarget>): seq<RefTarget> {
    if refs == [] || !TextLess(refs[0].name, r.name) then [r] + refs
    else [refs[0]] + Insert(r, refs[1..])
  }

  /** The stable sort by name. */
  function SortByName(refs: seq<RefTarget>): seq<RefTarget> {
    if refs == [] then [] else Insert(refs[0], SortByName(refs[1..]))
  }

  predicate DistinctNames(refs: seq<RefTarget>) {
    forall i, j :: 0 <= i < j < |refs| ==> refs[i].name != refs[j].name
  }

  lemma {:induction false} InsertKeeps(r: RefTarget, refs: seq<RefTarget>)
    ensures multiset(Insert(r, refs)) == multiset([r]) + multiset(refs)
  {
    if refs == [] || !TextLess(refs[0].name, r.name) {
    } else {
      InsertKeeps(r, refs[1..]);
      assert refs == [refs[0]] + refs[1..];
    }
  }

  lemma {:induction false} SortPermutes(refs: seq<RefTarget>)
    ensures multiset(SortByName(refs)) == multiset(refs)
  {
    if refs != [] {
      SortPermutes(refs[1..]);
      InsertKeeps(refs[0], SortByName(refs[1..]));
      assert refs == [refs[0]] + refs[1..];
    }
  }

  lemma {:induction false} InsertSorted(r: RefTarget, refs: seq<RefTarget>)
    requires SortedUnique(refs)
    requires forall s :: s in refs ==> s.name != r.name
    ensures SortedUnique(Insert(r, refs))
  {
    if refs == [] {
    } else if !TextLess(refs[0].name, r.name) {
      TextLessTotal(refs[0].name, r.name);
      var out := [r] + refs;
      forall i | 0 <= i < |out| - 1
        ensures InOrder(out, i)
      {
        if i > 0 { assert InOrder(refs, i - 1); }
      }
    } else {
      SortedSlice(refs, 1, |refs|);
      assert refs[1..] == refs[1..|refs|];
      InsertSorted(r, refs[1..]);
      var tail := Insert(r, refs[1..]);
      var out := [refs[0]] + tail;
      assert tail[0] == r || (|refs| > 1 && tail[0] == refs[1]);
      if |refs| > 1 { assert InOrder(refs, 0); }
      forall i | 0 <= i < |out| - 1
        ensures InOrder(out, i)
      {
        if i > 0 { assert InOrder(tail, i - 1); }
      }
    }
  }

  lemma {:induction false} SortSorts(refs: seq<RefTarget>)
    requires DistinctNames(refs)
    ensures SortedUnique(SortByName(refs))
  {
    if refs != [] {
      SortSorts(refs[1..]);
      SortPermutes(refs[1..]);
      forall s | s in SortByName(refs[1..])
        ensures s.name != refs[0].name
      {
        assert s in multiset(refs[1..]);
        var i :| 0 <= i < |refs[1..]| && refs[1..][i] == s;
        assert refs[1 + i] == s;
      }
      InsertSorted(refs[0], SortByName(refs[1..]));
    }
  }

  lemma {:induction false} InsertSplits(r: RefTarget, refs: seq<RefTarget>) returns (k: nat)
    ensures k <= |refs| && Insert(r, refs) == refs[..k] + [r] + refs[k..]
  {
    if refs == [] || !TextLess(refs[0].name, r.name) {
      k := 0;
    } else {
      var rest := InsertSplits(r, refs[1..]);
      k := rest + 1;
    }
  }

  lemma InsertSortedBack(r: RefTarget, refs: seq<RefTarget>)
    requires SortedUnique(Insert(r, refs))
    ensures SortedUnique(refs)
    ensures forall s :: s in refs ==> s.name != r.name
  {
    var k := InsertSplits(r, refs);
    var out := Insert(r, refs);
    forall i | 0 <= i < |refs| - 1
      ensures InOrder(refs, i)
    {
      SortedPairs(out, if i < k then i else i + 1, if i + 1 < k then i + 1 else i + 2);
    }
    forall s | s in refs
      ensures s.name != r.name
    {
      var i :| 0 <= i < |refs| && refs[i] == s;
      if s.name == r.name {
        SortedNamesDistinct(out, k, if i < k then i else i + 1);
      }
    }
  }

  lemma {:induction false} SortedOnlyIfDistinct(refs: seq<RefTarget>)
    requires SortedUnique(SortByName(refs))
    ensures DistinctNames(refs)
  {
    if refs != [] {
      var tail := refs[1..];
      InsertSortedBack(refs[0], SortByName(tail));
      SortedOnlyIfDistinct(tail);
      SortPermutes(tail);
      forall i, j | 0 <= i < j < |refs|
        ensures refs[i].name != refs[j].name
      {
        assert refs[j] == tail[j - 1] && tail[j - 1] in multiset(tail);
        if i > 0 { assert refs[i] == tail[i - 1]; }
      }
    }
  }

  /** Sorting makes a list acceptable exactly when its names differ. */
  lemma SortSortsExactly(refs: seq<RefTarget>)
    ensures SortedUnique(SortByName(refs)) <==> DistinctNames(refs)
  {
    if DistinctNames(refs) {
      SortSorts(refs);
    } else if SortedUnique(SortByName(refs)) {
      SortedOnlyIfDistinct(refs);
    }
  }

  /// Transitions

  /** The parent and sequence number a transition on top of `previous` must carry. */
  function Expected(previous: Option<RefState>): Result<(Option<Digest>, u64), CoreError> {
    match previous
    case None => Ok((None, 0))
    case Some(state) =>
      if state.sequence == U64_MAX then Err(InvalidRefTransition(SequenceExhausted))
      else Ok((Some(state.transition), state.sequence + 1))
  }

  function Signed(repository: RepositoryId, binding: SignerBinding, key: SigningKey,
                  previous: Option<RefState>, refs: seq<RefTarget>): Result<RefTransition, CoreError>
  {
    if !binding.genuine || key.Public() != binding.repositoryKey then Err(InvalidBinding)
    else
      var sorted := SortByName(refs);
      var _ :- ValidateRefs(sorted);
      var (parent, sequence) :- Expected(previous);
      var payload := RefPayload(1, repository, binding.identity, binding.keyEpoch, parent, sequence, sorted);
      Ok(RefTransition(payload, key.Sign(SignatureFrame(payload))))
  }

  function Verify(transition: RefTransition, repository: RepositoryId, binding: SignerBinding,
                  selected: SignerSelection, previous: Option<RefState>): Result<RefState, CoreError>
  {
    var payload := transition.payload;
    var _ :- VerifySelected(binding, selected);
    var (parent, sequence) :- Expected(previous);
    if payload.version != 1
      || payload.repository != repository
      || payload.publisher != selected.identity
      || payload.keyEpoch != selected.keyEpoch
      || payload.parent != parent
      || payload.sequence != sequence
    then Err(InvalidRefTransition(ContextMismatch))
    else
      var _ :- ValidateRefs(payload.refs);
      if !Verifies(selected.repositoryKey, SignatureFrame(payload), transition.signature) then
        Err(InvalidSignature)
      else
        Ok(RefState(repository, payload.publisher, TransitionId(transition), payload.sequence, payload.refs))
  }

  /// What verification means

  /** A reference name in the clear: under `refs/`, dots apart, none of eight characters. */
  ghost predicate GoodName(name: string) {
    (exists rest :: name == "refs/" + rest) && DotsApart(name) && Unreserved(name)
  }

  /** Names in strict lexicographic order and in the clear, ids of SHA-1 or SHA-256 length. */
  ghost predicate GoodRefs(refs: seq<RefTarget>) {
    && (forall i, j :: 0 <= i < j < |refs| ==> TextPrecedes(refs[i].name, refs[j].name))
    && forall i :: 0 <= i < |refs| ==>
         && GoodName(refs[i].name)
         && ((refs[i].target.algorithm == "sha1" && |refs[i].target.bytes| == 20)
             || (refs[i].target.algorithm == "sha256" && |refs[i].target.bytes| == 32))
  }

  lemma NameExactly(name: string)
    ensures ValidName(name) <==> GoodName(name)
  {
    hide HasDotDot, DotsApart, Unreserved, StartsWith;
    DotsExactly(name);
    ReservedExactly(name);
    StartsExactly(name, "refs/");
  }

  lemma OrderExactly(refs: seq<RefTarget>)
    ensures SortedUnique(refs) <==>
            forall i, j :: 0 <= i < j < |refs| ==> TextPrecedes(refs[i].name, refs[j].name)
  {
    hide TextLess, TextPrecedes;
    forall i, j | 0 <= i < j < |refs|
      ensures TextLess(refs[i].name, refs[j].name) <==> TextPrecedes(refs[i].name, refs[j].name)
      ensures SortedUnique(refs) ==> TextLess(refs[i].name, refs[j].name)
    {
      TextLessExactly(refs[i].name, refs[j].name);
      if SortedUnique(refs) {
        SortedPairs(refs, i, j);
      }
    }
    if forall i, j :: 0 <= i < j < |refs| ==> TextPrecedes(refs[i].name, refs[j].name) {
      forall i | 0 <= i < |refs| - 1
        ensures InOrder(refs, i)
      {
        assert TextPrecedes(refs[i].name, refs[i + 1].name);
      }
    }
  }

  lemma ValidRefsExactly(refs: seq<RefTarget>)
    ensures ValidateRefs(refs).Ok? <==> GoodRefs(refs)
  {
    hide SortedUnique, ValidName, GoodName, TextPrecedes;
    ValidateRefsExact(refs);
    OrderExactly(refs);
    forall i | 0 <= i < |refs|
      ensures ValidName(refs[i].name) <==> GoodName(refs[i].name)
    {
      NameExactly(refs[i].name);
    }
    assert (forall r :: r in refs ==> ValidName(r.name) && r.target.Valid()) <==>
           forall i :: 0 <= i < |refs| ==> ValidName(refs[i].name) && refs[i].target.Valid();
  }

  /** The binding is genuine and the selected one. */
  predicate Bound(binding: SignerBinding, selected: SignerSelection) {
    binding.genuine && selected == SignerSelection(binding.identity, binding.repositoryKey, binding.keyEpoch)
  }

  /** The payload is the selected publisher's next one on top of `previous`. */
  predicate MadeFor(payload: RefPayload, repository: RepositoryId, selected: SignerSelection, previous: Option<RefState>) {
    && payload.version == 1 && payload.repository == repository
    && payload.publisher == selected.identity && payload.keyEpoch == selected.keyEpoch
    && (previous.None? ==> payload.parent == None && payload.sequence == 0)
    && (previous.Some? ==> payload.parent == Some(previous.value.transition) && payload.sequence == previous.value.sequence + 1)
  }

  /**
   Verification succeeds exactly for the selected publisher's next payload with good references, signed as a
   whole, under the signature's own domain, by the selected key.  It yields those references under the
   transition's id.
   */
  lemma VerifyExactly(transition: RefTransition, repository: RepositoryId, binding: SignerBinding,
                      selected: SignerSelection, previous: Option<RefState>)
    ensures var payload := transition.payload;
            Verify(transition, repository, binding, selected, previous).Ok? <==>
              && Bound(binding, selected) && MadeFor(payload, repository, selected, previous) && GoodRefs(payload.refs)
              && selected.repositoryKey.onCurve
              && transition.signature == Signature.Signed(selected.repositoryKey, RefMessage(SIGNATURE_DOMAIN, payload))
    ensures var payload := transition.payload;
            Verify(transition, repository, binding, selected, previous).Ok? ==>
              Verify(transition, repository, binding, selected, previous).value ==
              RefState(repository, selected.identity, Blake3(TRANSITION_DOMAIN, RefTransitionContent(transition)),
                       payload.sequence, payload.refs)
  {
    hide ValidateRefs, GoodRefs;
    ValidRefsExactly(transition.payload.refs);
  }

  /** What is wrong, in the order of the checks. */
  lemma RejectedFor(transition: RefTransition, repository: RepositoryId, binding: SignerBinding,
                    selected: SignerSelection, previous: Option<RefState>)
    ensures var r, payload := Verify(transition, repository, binding, selected, previous), transition.payload;
            && (!Bound(binding, selected) <==> r == Err(InvalidBinding))
            && (r == Err(InvalidRefTransition(SequenceExhausted)) <==>
                  Bound(binding, selected) && previous.Some? && previous.value.sequence == U64_MAX)
            && (r == Err(InvalidRefTransition(ContextMismatch)) <==>
                  && Bound(binding, selected) && (previous.Some? ==> previous.value.sequence < U64_MAX)
                  && !MadeFor(payload, repository, selected, previous))
            && (r == Err(InvalidSignature) ==> MadeFor(payload, repository, selected, previous) && GoodRefs(payload.refs))
            && (Bound(binding, selected) && MadeFor(payload, repository, selected, previous) && GoodRefs(payload.refs) ==>
                  r.Ok? || r == Err(InvalidSignature))
  {
    hide GoodRefs;
    ValidRefsExactly(transition.payload.refs);
    EachProblem(transition.payload.refs);
  }

  lemma {:induction false} EachProblem(refs: seq<RefTarget>)
    ensures ValidateEach(refs).Ok? || ValidateEach(refs) == Err(InvalidRefTransition(BadName))
            || ValidateEach(refs) == Err(InvalidRefTransition(BadObjectId))
  {
    if refs != [] {
      EachProblem(refs[1..]);
    }
  }

  lemma {:induction false} SortOfSorted(refs: seq<RefTarget>)
    requires SortedUnique(refs)
    ensures SortByName(refs) == refs
  {
    if refs != [] {
      SortedSlice(refs, 1, |refs|);
      assert refs[1..] == refs[1..|refs|];
      SortOfSorted(refs[1..]);
      if |refs| > 1 {
        assert InOrder(refs, 0);
        if TextLess(refs[1].name, refs[0].name) {
          TextLessTransitive(refs[0].name, refs[1].name, refs[0].name);
          TextLessIrreflexive(refs[0].name);
        }
      }
      assert refs == [refs[0]] + refs[1..];
    }
  }

  /** The converse of signing: what verifies is what the holder of the selected key signs for this state and these references. */
  lemma VerifiedIsSigned(transition: RefTransition, repository: RepositoryId, binding: SignerBinding,
                         selected: SignerSelection, previous: Option<RefState>)
    requires Verify(transition, repository, binding, selected, previous).Ok?
    ensures Signed(repository, binding, SigningKey(selected.repositoryKey.code), previous, transition.payload.refs) == Ok(transition)
  {
    hide GoodRefs, SortByName;
    VerifyExactly(transition, repository, binding, selected, previous);
    ValidRefsExactly(transition.payload.refs);
    ValidateRefsExact(transition.payload.refs);
    SortOfSorted(transition.payload.refs);
  }

  /// Main results

  lemma SortKeepsValidity(refs: seq<RefTarget>)
    ensures ValidateRefs(SortByName(refs)).Ok? <==>
            DistinctNames(refs) && forall r :: r in refs ==> ValidName(r.name) && r.target.Valid()
  {
    SortPermutes(refs);
    SortSortsExactly(refs);
    ValidateRefsExact(SortByName(refs));
    forall r
      ensures r in refs <==> r in SortByName(refs)
    {
      assert r in refs <==> r in multiset(refs);
    }
  }

  /** `signed` succeeds exactly on a genuine binding, its key, distinct valid references and a sequence left. */
  lemma SignedExactly(repository: RepositoryId, binding: SignerBinding, key: SigningKey,
                      previous: Option<RefState>, refs: seq<RefTarget>)
    ensures Signed(repository, binding, key, previous, refs).Ok? <==>
            && binding.genuine && key.Public() == binding.repositoryKey
            && DistinctNames(refs)
            && (forall r :: r in refs ==> ValidName(r.name) && r.target.Valid())
            && (previous.Some? ==> previous.value.sequence < U64_MAX)
  {
    SortKeepsValidity(refs);
  }

  /**
   What a publisher signs, every holder of the same prior state accepts under the selection of that
   binding, and the state it yields is the signed references, sorted.
   */
  lemma SignThenVerify(repository: RepositoryId, binding: SignerBinding, key: SigningKey,
                       previous: Option<RefState>, refs: seq<RefTarget>, selected: SignerSelection)
    requires Selection(binding) == Ok(selected)
    requires Signed(repository, binding, key, previous, refs).Ok?
    ensures var transition := Signed(repository, binding, key, previous, refs).value;
            var verified := Verify(transition, repository, binding, selected, previous);
            && verified.Ok?
            && SortedUnique(verified.value.refs)
            && multiset(verified.value.refs) == multiset(refs)
            && verified.value.transition == TransitionId(transition)
            && verified.value.sequence == (if previous.None? then 0 else previous.value.sequence + 1)
  {
    SortPermutes(refs);
    ValidateRefsExact(SortByName(refs));
  }

  /** A transition that verifies twice does so in one repository and on states of one transition. */
  lemma VerifyFixesContext(transition: RefTransition,
                           repository: RepositoryId, binding: SignerBinding, selected: SignerSelection, previous: Option<RefState>,
                           repository': RepositoryId, binding': SignerBinding, selected': SignerSelection, previous': Option<RefState>)
    requires Verify(transition, repository, binding, selected, previous).Ok?
    requires Verify(transition, repository', binding', selected', previous').Ok?
    ensures repository == repository' && selected == selected' && binding == binding'
    ensures previous.None? <==> previous'.None?
    ensures previous.Some? ==>
            && previous.value.transition == previous'.value.transition
            && previous.value.sequence == previous'.value.sequence
    ensures Verify(transition, repository, binding, selected, previous)
         == Verify(transition, repository', binding', selected', previous')
  {
  }
}
