/** Repository identity documents and their threshold-approved transitions: identity.rs. */
module Identities {
  import opened Basics
  import opened Core
  import opened Text

  const REPOSITORY_ID_DOMAIN := DomainSeparator("repository-id")
  const IDENTITY_ROOT_DOMAIN := DomainSeparator("identity-root")
  const IDENTITY_TRANSITION_DOMAIN := DomainSeparator("identity-transition")

  /// Documents

  predicate ValidBranchName(branch: string) {
    && branch != ""
    && branch[0] != '.' && branch[|branch| - 1] != '.'
    && !HasDotDot(branch)
    && (forall c :: c in branch ==> !ForbiddenChar(c))
    && branch[|branch| - 1] != '/'
    && !EndsWith(branch, ".lock")
  }

  predicate SortedIdentities(ids: seq<Identity>) {
    forall i, j :: 0 <= i && j == i + 1 < |ids| ==> ids[i] < ids[j]
  }

  function Validate(document: IdentityDocument): Result<(), CoreError> {
    if document.version != 1 then Err(InvalidIdentity(UnsupportedVersion))
    else if document.name == "" then Err(InvalidIdentity(EmptyName))
    else if !ValidBranchName(document.defaultBranch) then Err(InvalidIdentity(BadBranch))
    else if document.delegates == [] then Err(InvalidIdentity(NoDelegates))
    else if document.threshold == 0 || document.threshold > |document.delegates| then Err(InvalidIdentity(BadThreshold))
    else if !SortedIdentities(document.delegates) then Err(InvalidIdentity(DelegatesNotSorted))
    else Ok(())
  }

  /** A branch name in the clear: dots only inside and apart, none of eight characters, no slash or lock at the end. */
  ghost predicate GoodBranch(branch: string) {
    && |branch| > 0 && branch[0] != '.'
    && branch[|branch| - 1] != '.' && branch[|branch| - 1] != '/'
    && DotsApart(branch) && Unreserved(branch)
    && !exists front :: branch == front + ".lock"
  }

  /** A document somebody can govern with: a threshold its strictly ordered delegates can reach. */
  ghost predicate Sensible(document: IdentityDocument) {
    && document.version == 1 && |document.name| > 0 && GoodBranch(document.defaultBranch)
    && 1 <= document.threshold <= |document.delegates|
    && forall i, j :: 0 <= i < j < |document.delegates| ==> document.delegates[i] < document.delegates[j]
  }

  lemma BranchExactly(branch: string)
    ensures ValidBranchName(branch) <==> GoodBranch(branch)
  {
    hide HasDotDot, DotsApart, Unreserved, EndsWith;
    DotsExactly(branch);
    ReservedExactly(branch);
    EndsExactly(branch, ".lock");
  }

  lemma {:induction false} IdentitiesApart(ids: seq<Identity>, i: nat, j: nat)
    requires SortedIdentities(ids) && i < j < |ids|
    ensures ids[i] < ids[j]
    decreases j - i
  {
    if i + 1 < j {
      IdentitiesApart(ids, i, j - 1);
    }
  }

  /** Validation passes exactly the sensible documents. */
  lemma ValidateExactly(document: IdentityDocument)
    ensures Validate(document).Ok? <==> Sensible(document)
  {
    hide ValidBranchName, GoodBranch;
    BranchExactly(document.defaultBranch);
    if SortedIdentities(document.delegates) {
      forall i, j | 0 <= i < j < |document.delegates|
        ensures document.delegates[i] < document.delegates[j]
      {
        IdentitiesApart(document.delegates, i, j);
      }
    }
  }

  function RepositoryIdOf(document: IdentityDocument): RepositoryId {
    RepositoryId(Blake3(REPOSITORY_ID_DOMAIN, DocumentContent(document)))
  }

  function InitialState(document: IdentityDocument): Result<IdentityState, CoreError> {
    var _ :- Validate(document);
    Ok(IdentityState(RepositoryIdOf(document), Blake3(IDENTITY_ROOT_DOMAIN, DocumentContent(document)), 0, document))
  }

  /// Approvals

  predicate SortedApprovals(approvals: seq<Approval>) {
    forall i, j :: 0 <= i && j == i + 1 < |approvals| ==> approvals[i].identity < approvals[j].identity
  }

  lemma {:induction false} SortedApart(approvals: seq<Approval>, i: nat, j: nat)
    requires SortedApprovals(approvals) && i < j < |approvals|
    ensures approvals[i].identity < approvals[j].identity
    decreases j - i
  {
    if i + 1 < j {
      SortedApart(approvals, i, j - 1);
    }
  }

  /** `retain`: everything but the approvals of one identity. */
  function Without(approvals: seq<Approval>, identity: Identity): seq<Approval> {
    if approvals == [] then []
    else
      var last := approvals[|approvals| - 1];
      Without(approvals[..|approvals| - 1], identity) + (if last.identity == identity then [] else [last])
  }

  function Place(a: Approval, sorted: seq<Approval>): seq<Approval> {
    if sorted == [] || a.identity <= sorted[0].identity then [a] + sorted
    else [sorted[0]] + Place(a, sorted[1..])
  }

  /** The stable sort by identity. */
  function SortApprovals(approvals: seq<Approval>): seq<Approval> {
    if approvals == [] then [] else Place(approvals[0], SortApprovals(approvals[1..]))
  }

  /** What `approve` makes of the approvals. */
  function WithApproval(approvals: seq<Approval>, a: Approval): seq<Approval> {
    SortApprovals(Without(approvals, a.identity) + [a])
  }

  lemma {:induction false} WithoutMembers(approvals: seq<Approval>, identity: Identity)
    ensures forall a :: a in Without(approvals, identity) <==> a in approvals && a.identity != identity
  {
    if approvals != [] {
      var n := |approvals| - 1;
      WithoutMembers(approvals[..n], identity);
      assert approvals == approvals[..n] + [approvals[n]];
    }
  }

  predicate OneEach(approvals: seq<Approval>) {
    forall i, j :: 0 <= i < j < |approvals| ==> approvals[i].identity != approvals[j].identity
  }

  lemma {:induction false} WithoutOneEach(approvals: seq<Approval>, identity: Identity)
    requires OneEach(approvals)
    ensures OneEach(Without(approvals, identity))
  {
    if approvals != [] {
      WithoutOneEach(approvals[..|approvals| - 1], identity);
      WithoutMembers(approvals[..|approvals| - 1], identity);
    }
  }

  lemma {:induction false} PlaceMembers(a: Approval, sorted: seq<Approval>)
    ensures forall x :: x in Place(a, sorted) <==> x == a || x in sorted
  {
    if sorted != [] && a.identity > sorted[0].identity {
      PlaceMembers(a, sorted[1..]);
    }
  }

  lemma {:induction false} PlaceSorts(a: Approval, sorted: seq<Approval>)
    requires SortedApprovals(sorted) && forall x :: x in sorted ==> x.identity != a.identity
    ensures SortedApprovals(Place(a, sorted))
  {
    if sorted != [] && a.identity > sorted[0].identity {
      PlaceSorts(a, sorted[1..]);
      PlaceMembers(a, sorted[1..]);
    }
  }

  lemma {:induction false} SortApprovalsSorts(approvals: seq<Approval>)
    requires OneEach(approvals)
    ensures SortedApprovals(SortApprovals(approvals))
    ensures forall x :: x in SortApprovals(approvals) <==> x in approvals
  {
    if approvals != [] {
      SortApprovalsSorts(approvals[1..]);
      PlaceSorts(approvals[0], SortApprovals(approvals[1..]));
      PlaceMembers(approvals[0], SortApprovals(approvals[1..]));
    }
  }

  lemma SortedOneEach(approvals: seq<Approval>)
    requires SortedApprovals(approvals)
    ensures OneEach(approvals)
  {
    forall i, j | 0 <= i < j < |approvals|
      ensures approvals[i].identity != approvals[j].identity
    {
      SortedApart(approvals, i, j);
    }
  }

  /** One more approval: it replaces its identity's earlier one, and the list stays sorted. */
  lemma WithApprovalIs(approvals: seq<Approval>, a: Approval)
    requires SortedApprovals(approvals)
    ensures SortedApprovals(WithApproval(approvals, a))
    ensures forall x :: x in WithApproval(approvals, a) <==> x == a || (x in approvals && x.identity != a.identity)
  {
    var rest := Without(approvals, a.identity);
    SortedOneEach(approvals);
    WithoutOneEach(approvals, a.identity);
    WithoutMembers(approvals, a.identity);
    SortApprovalsSorts(rest + [a]);
  }

  /** The approvals of a proposal after approving with `given`, one after the other. */
  function Accumulate(given: seq<Approval>): seq<Approval> {
    if given == [] then [] else WithApproval(Accumulate(given[..|given| - 1]), given[|given| - 1])
  }

  /** `a` is the last approval its identity gave. */
  ghost predicate LastOf(given: seq<Approval>, a: Approval) {
    exists i :: 0 <= i < |given| && given[i] == a && forall j :: i < j < |given| ==> given[j].identity != a.identity
  }

  lemma LastOfStep(given: seq<Approval>, a: Approval)
    requires given != []
    ensures LastOf(given, a) <==>
            a == given[|given| - 1] || (LastOf(given[..|given| - 1], a) && a.identity != given[|given| - 1].identity)
  {
    var n := |given| - 1;
    if a == given[n] {
      assert LastOf(given, a);
    }
    if LastOf(given[..n], a) && a.identity != given[n].identity {
      var i :| 0 <= i < n && given[..n][i] == a && forall j :: i < j < n ==> given[..n][j].identity != a.identity;
      assert given[i] == a && forall j :: i < j < |given| ==> j == n || given[j] == given[..n][j];
    }
    if LastOf(given, a) && a != given[n] {
      var i :| 0 <= i < |given| && given[i] == a && forall j :: i < j < |given| ==> given[j].identity != a.identity;
      assert given[..n][i] == a;
    }
  }

  /**
   However approvals are gathered, the list is strictly sorted, so `verify` accepts its order, and it
   holds exactly the last approval of each identity.
   */
  lemma {:induction false} AccumulateIs(given: seq<Approval>)
    ensures SortedApprovals(Accumulate(given))
    ensures forall a :: a in Accumulate(given) <==> LastOf(given, a)
  {
    if given != [] {
      var n := |given| - 1;
      AccumulateIs(given[..n]);
      WithApprovalIs(Accumulate(given[..n]), given[n]);
      forall a
        ensures a in Accumulate(given) <==> LastOf(given, a)
      {
        LastOfStep(given, a);
      }
    }
  }

  /** Two strictly sorted lists with the same members are the same list. */
  lemma {:induction false} SortedSame(a: seq<Approval>, b: seq<Approval>)
    requires SortedApprovals(a) && SortedApprovals(b)
    requires forall x :: x in a <==> x in b
    ensures a == b
  {
    assert a != [] ==> a[0] in a;
    assert b != [] ==> b[0] in b;
    if a != [] && b != [] {
      HeadLeast(a, b[0]);
      HeadLeast(b, a[0]);
      TailOf(a);
      TailOf(b);
      SortedSame(a[1..], b[1..]);
      assert a == [a[0]] + a[1..] && b == [b[0]] + b[1..];
    }
  }

  lemma HeadLeast(a: seq<Approval>, x: Approval)
    requires SortedApprovals(a) && x in a
    ensures a[0] == x || a[0].identity < x.identity
  {
    var i :| 0 <= i < |a| && a[i] == x;
    if i > 0 { SortedApart(a, 0, i); }
  }

  lemma TailOf(a: seq<Approval>)
    requires SortedApprovals(a) && a != []
    ensures forall x :: x in a[1..] <==> x in a && x != a[0]
  {
    forall x | x in a[1..]
      ensures x != a[0]
    {
      var i :| 0 <= i < |a[1..]| && a[1..][i] == x;
      SortedApart(a, 0, i + 1);
    }
  }

  lemma OneEachLast(given: seq<Approval>, a: Approval)
    requires OneEach(given)
    ensures LastOf(given, a) <==> a in given
  {
    if a in given {
      var i :| 0 <= i < |given| && given[i] == a;
      assert forall j :: i < j < |given| ==> given[j].identity != a.identity;
    }
  }

  lemma {:induction false} OneEachOnce(given: seq<Approval>, x: Approval)
    requires OneEach(given)
    ensures multiset(given)[x] <= 1
  {
    if given != [] {
      var n := |given| - 1;
      OneEachOnce(given[..n], x);
      assert given == given[..n] + [given[n]];
      if given[n] == x {
        assert x !in given[..n];
      }
    }
  }

  lemma TwiceInMultiset(list: seq<Approval>, i: nat, j: nat)
    requires i < j < |list| && list[i] == list[j]
    ensures multiset(list)[list[i]] >= 2
  {
    assert list == list[..j] + list[j..];
    assert list[i] == list[..j][i] && list[j] == list[j..][0];
  }

  lemma PermutedOneEach(given: seq<Approval>, reordered: seq<Approval>)
    requires OneEach(given) && multiset(given) == multiset(reordered)
    ensures OneEach(reordered)
  {
    forall i, j | 0 <= i < j < |reordered|
      ensures reordered[i].identity != reordered[j].identity
    {
      var x, y := reordered[i], reordered[j];
      assert x in multiset(given) && y in multiset(given);
      var a :| 0 <= a < |given| && given[a] == x;
      var b :| 0 <= b < |given| && given[b] == y;
      if a == b {
        OneEachOnce(given, x);
        TwiceInMultiset(reordered, i, j);
      }
    }
  }

  /** The order in which distinct delegates approve does not matter. */
  lemma ApprovalOrderIrrelevant(given: seq<Approval>, reordered: seq<Approval>)
    requires OneEach(given) && multiset(given) == multiset(reordered)
    ensures Accumulate(given) == Accumulate(reordered)
  {
    PermutedOneEach(given, reordered);
    AccumulateIs(given);
    AccumulateIs(reordered);
    forall a
      ensures a in Accumulate(given) <==> a in Accumulate(reordered)
    {
      OneEachLast(given, a);
      OneEachLast(reordered, a);
      assert a in given <==> a in multiset(given);
      assert a in reordered <==> a in multiset(reordered);
    }
    SortedSame(Accumulate(given), Accumulate(reordered));
  }

  function ApprovalOf(payload: IdentityPayload, binding: SignerBinding, key: SigningKey): Approval {
    Approval(binding.identity, binding.keyEpoch, key.Sign(IdentityMessage(payload)))
  }

  function Proposed(previous: IdentityState, document: IdentityDocument): Result<IdentityTransition, CoreError> {
    if previous.sequence == U64_MAX then Err(InvalidIdentityTransition(IdentitySequenceExhausted))
    else Ok(IdentityTransition(
              IdentityPayload(1, previous.repository, previous.transition, previous.sequence + 1, document), []))
  }

  /** A proposal gathering approvals. */
  class Proposal {
    const payload: IdentityPayload
    var approvals: seq<Approval>

    constructor (transition: IdentityTransition)
      ensures Contents() == transition
    {
      payload, approvals := transition.payload, transition.approvals;
    }

    function Contents(): IdentityTransition
      reads this
    {
      IdentityTransition(payload, approvals)
    }

    /** `approve`: retain the others' approvals, push this one, sort. */
    method Approve(binding: SignerBinding, key: SigningKey) returns (r: Result<(), CoreError>)
      modifies this
      ensures r.Ok? <==> key.Public() == binding.repositoryKey
      ensures r.Ok? ==> approvals == WithApproval(old(approvals), ApprovalOf(payload, binding, key))
      ensures r.Err? ==> r.error == InvalidBinding && approvals == old(approvals)
    {
      if key.Public() != binding.repositoryKey {
        return Err(InvalidBinding);
      }
      var signature := key.Sign(IdentityMessage(payload));
      var kept: seq<Approval> := [];
      for i := 0 to |approvals|
        invariant approvals == old(approvals) && kept == Without(approvals[..i], binding.identity)
      {
        assert approvals[..i + 1][..i] == approvals[..i];
        if approvals[i].identity != binding.identity {
          kept := kept + [approvals[i]];
        }
      }
      assert approvals[..|approvals|] == approvals;
      approvals := kept + [Approval(binding.identity, binding.keyEpoch, signature)];
      approvals := SortApprovals(approvals);
      return Ok(());
    }
  }
}
