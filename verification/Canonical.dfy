/** The canonical head: the delegates' vote on the default branch (canonical.rs), and its keeper (operator.rs). */
module Canonical {
  import opened Basics
  import opened Core
  import opened Identities
  import Refs
  import IdentityHistory

  type States = map<Identity, RefState>

  /** Holds of every state that verification or `commit` produced. */
  predicate Sorted(states: States) {
    forall d :: d in states ==> Refs.SortedUnique(states[d].refs)
  }

  function Branch(document: IdentityDocument): string {
    "refs/heads/" + document.defaultBranch
  }

  /** The commit a delegate's own namespace holds for the branch. */
  function Vote(states: States, branch: string, delegate: Identity): Option<GitObjectId> {
    if delegate in states then Refs.Lookup(states[delegate].refs, branch) else None
  }

  /** How many entries of the delegate list vote for `commit`. */
  function Tally(delegates: seq<Identity>, states: States, branch: string, commit: GitObjectId): nat {
    if delegates == [] then 0
    else
      Tally(delegates[..|delegates| - 1], states, branch, commit) +
      (if Vote(states, branch, delegates[|delegates| - 1]) == Some(commit) then 1 else 0)
  }

  /** The vote map: an entry for every commit voted for, its counter 16 bits wide. */
  ghost predicate Counted(votes: map<GitObjectId, u16>, delegates: seq<Identity>, states: States, branch: string) {
    forall c :: (c in votes <==> Tally(delegates, states, branch, c) > 0)
             && (c in votes ==> votes[c] == Tally(delegates, states, branch, c) % IdentityHistory.U16_COUNT)
  }

  datatype Decision =
    Advance(head: GitObjectId) | Retain | NoAgreement | Diverged(rival: GitObjectId)

  /** `commit` has votes, and its counter reaches the threshold. */
  predicate Qualifies(document: IdentityDocument, states: States, commit: GitObjectId) {
    var tally := Tally(document.delegates, states, Branch(document), commit);
    tally > 0 && tally % IdentityHistory.U16_COUNT >= document.threshold
  }

  ghost predicate OnlyQualifier(document: IdentityDocument, states: States, commit: GitObjectId) {
    Qualifies(document, states, commit) && forall c :: Qualifies(document, states, c) ==> c == commit
  }

  /** What follows from one qualifying commit: the head is there already, is moved forward to it, or parts from it. */
  predicate Judged(previous: Option<GitObjectId>, candidate: GitObjectId,
                   isDescendant: (GitObjectId, GitObjectId) -> bool, decision: Decision)
  {
    && (decision == Advance(candidate) <==>
          previous.None? || (previous.value != candidate && isDescendant(previous.value, candidate)))
    && (decision == Retain <==> previous == Some(candidate))
    && (decision == Diverged(candidate) <==>
          previous.Some? && previous.value != candidate && !isDescendant(previous.value, candidate))
  }

  method CountVotes(delegates: seq<Identity>, states: States, branch: string) returns (votes: map<GitObjectId, u16>)
    requires Sorted(states)
    ensures Counted(votes, delegates, states, branch)
  {
    votes := map[];
    for i := 0 to |delegates|
      invariant Counted(votes, delegates[..i], states, branch)
    {
      assert delegates[..i + 1][..i] == delegates[..i];
      ghost var before := votes;
      var target := None;
      if delegates[i] in states {
        target := Refs.Target(states[delegates[i]].refs, branch);
      }
      assert target == Vote(states, branch, delegates[i]);
      if target.Some? {
        var count := if target.value in votes then votes[target.value] else 0;
        votes := votes[target.value := (count + 1) % IdentityHistory.U16_COUNT];
      }
      forall c
        ensures c in votes <==> Tally(delegates[..i + 1], states, branch, c) > 0
        ensures c in votes ==> votes[c] == Tally(delegates[..i + 1], states, branch, c) % IdentityHistory.U16_COUNT
      {
        IdentityHistory.WrapStep(Tally(delegates[..i], states, branch, c));
      }
    }
    assert delegates[..|delegates|] == delegates;
  }

  /** `derive_canonical_head`. */
  method DeriveCanonicalHead(document: IdentityDocument, states: States, previous: Option<GitObjectId>,
                             isDescendant: (GitObjectId, GitObjectId) -> bool) returns (decision: Decision)
    requires Sorted(states)
    ensures forall c :: OnlyQualifier(document, states, c) ==> Judged(previous, c, isDescendant, decision)
    ensures (forall c :: !OnlyQualifier(document, states, c)) ==>
            decision == if previous.Some? then Retain else NoAgreement
  {
    var votes := CountVotes(document.delegates, states, Branch(document));
    var qualifying := set c | c in votes && votes[c] >= document.threshold;
    assert forall c :: c in qualifying <==> Qualifies(document, states, c);
    if |qualifying| != 1 {
      NotSingleton(qualifying);
      return if previous.Some? then Retain else NoAgreement;
    }
    var candidate :| candidate in qualifying;
    Singleton(qualifying, candidate);
    assert OnlyQualifier(document, states, candidate);
    if previous == Some(candidate) {
      return Retain;
    }
    if previous.Some? && !isDescendant(previous.value, candidate) {
      return Diverged(candidate);
    }
    return Advance(candidate);
  }

  lemma Singleton<T>(s: set<T>, x: T)
    requires |s| == 1 && x in s
    ensures forall y :: y in s ==> y == x
  {
    assert |s - {x}| == 0;
  }

  lemma NotSingleton<T(!new)>(s: set<T>)
    requires |s| != 1
    ensures forall x :: x in s ==> exists y :: y in s && y != x
  {
    forall x | x in s
      ensures exists y :: y in s && y != x
    {
      assert s != {x};
    }
  }

  /// What a vote is

  /** The delegates voting for `commit`. */
  function Voters(delegates: seq<Identity>, states: States, branch: string, commit: GitObjectId): set<Identity> {
    set d | d in delegates && Vote(states, branch, d) == Some(commit)
  }

  lemma SortedNoRepeat(ids: seq<Identity>, n: nat)
    requires SortedIdentities(ids) && n < |ids|
    ensures ids[n] !in ids[..n]
  {
    forall i | 0 <= i < n
      ensures ids[i] != ids[n]
    {
      IdentitiesApart(ids, i, n);
    }
  }

  /** Over distinct delegates the tally is the number of them that hold the commit. */
  lemma {:induction false} TallyIsVoters(delegates: seq<Identity>, states: States, branch: string, commit: GitObjectId)
    requires SortedIdentities(delegates)
    ensures Tally(delegates, states, branch, commit) == |Voters(delegates, states, branch, commit)|
  {
    if delegates == [] {
      assert Voters(delegates, states, branch, commit) == {};
    } else {
      var n := |delegates| - 1;
      TallyIsVoters(delegates[..n], states, branch, commit);
      SortedNoRepeat(delegates, n);
      assert delegates == delegates[..n] + [delegates[n]];
      assert Voters(delegates, states, branch, commit) ==
             Voters(delegates[..n], states, branch, commit) +
             (if Vote(states, branch, delegates[n]) == Some(commit) then {delegates[n]} else {});
    }
  }

  /** The delegates whose own namespace has the default branch at `commit`. */
  function Holders(document: IdentityDocument, states: States, commit: GitObjectId): set<Identity> {
    set d | d in document.delegates && d in states &&
            RefTarget("refs/heads/" + document.defaultBranch, commit) in states[d].refs
  }

  lemma VotersHold(document: IdentityDocument, states: States, commit: GitObjectId)
    requires Sorted(states)
    ensures Voters(document.delegates, states, Branch(document), commit) == Holders(document, states, commit)
  {
    hide Refs.SortedUnique, Refs.Lookup;
    forall d | d in states
      ensures Vote(states, Branch(document), d) == Some(commit) <==> RefTarget(Branch(document), commit) in states[d].refs
    {
      Refs.LookupExactly(states[d].refs, Branch(document), commit);
    }
  }

  /** For a valid document: to qualify is to be held by a threshold of delegates, counted in 16 bits. */
  lemma QualifiesWhen(document: IdentityDocument, states: States, commit: GitObjectId)
    requires Validate(document).Ok? && Sorted(states)
    ensures Qualifies(document, states, commit) <==>
            |Holders(document, states, commit)| % IdentityHistory.U16_COUNT >= document.threshold
  {
    hide Vote, Voters, Holders, Sorted;
    ValidParts(document);
    TallyIsVoters(document.delegates, states, Branch(document), commit);
    VotersHold(document, states, commit);
  }

  lemma VotersFit(document: IdentityDocument, states: States, commit: GitObjectId)
    requires |document.delegates| <= U16_MAX
    ensures |Voters(document.delegates, states, Branch(document), commit)| < IdentityHistory.U16_COUNT
  {
    IdentityHistory.DelegateCount(document.delegates);
    IdentityHistory.SubsetSize(Voters(document.delegates, states, Branch(document), commit), IdentityHistory.Members(document.delegates));
  }

  /** Nobody votes twice. */
  lemma VotersApart(delegates: seq<Identity>, states: States, branch: string, a: GitObjectId, b: GitObjectId)
    requires a != b
    ensures |Voters(delegates, states, branch, a)| + |Voters(delegates, states, branch, b)| <= |delegates|
  {
    hide Vote;
    var va, vb := Voters(delegates, states, branch, a), Voters(delegates, states, branch, b);
    IdentityHistory.DelegateCount(delegates);
    IdentityHistory.SubsetSize(va + vb, IdentityHistory.Members(delegates));
    assert va !! vb;
    assert |va + vb| == |va| + |vb|;
  }

  /** At most one commit qualifies once twice the threshold exceeds the number of delegates. */
  lemma MajorityIsUnique(document: IdentityDocument, states: States, a: GitObjectId, b: GitObjectId)
    requires Validate(document).Ok? && 2 * document.threshold > |document.delegates|
    requires Qualifies(document, states, a) && Qualifies(document, states, b)
    ensures a == b
  {
    hide Voters, Vote;
    TallyIsVoters(document.delegates, states, Branch(document), a);
    TallyIsVoters(document.delegates, states, Branch(document), b);
    if a != b {
      VotersApart(document.delegates, states, Branch(document), a, b);
    }
  }

  /** A delegate's state holding nothing but `commit` on the branch. */
  function Lone(delegate: Identity, branch: string, commit: GitObjectId): RefState {
    RefState(RepositoryId(RawDigest(0)), delegate, RawDigest(0), 0, [RefTarget(branch, commit)])
  }

  lemma LoneVote(delegate: Identity, branch: string, commit: GitObjectId)
    ensures Refs.SortedUnique(Lone(delegate, branch, commit).refs)
    ensures Refs.Lookup(Lone(delegate, branch, commit).refs, branch) == Some(commit)
  {
    Refs.RefMapAt(Lone(delegate, branch, commit).refs, 0);
  }

  /** `ayes` hold `a` and `noes` hold `b`; nobody else has a state. */
  function Camps(ayes: set<Identity>, noes: set<Identity>, branch: string, a: GitObjectId, b: GitObjectId): States {
    map d | d in ayes + noes :: Lone(d, branch, if d in ayes then a else b)
  }

  lemma CampVotes(ayes: set<Identity>, noes: set<Identity>, branch: string, a: GitObjectId, b: GitObjectId)
    requires ayes !! noes
    ensures Sorted(Camps(ayes, noes, branch, a, b))
    ensures forall d :: Vote(Camps(ayes, noes, branch, a, b), branch, d) ==
              if d in ayes then Some(a) else if d in noes then Some(b) else None
  {
    hide Lone, Refs.SortedUnique, Refs.Lookup;
    forall d | d in ayes + noes
      ensures Refs.SortedUnique(Camps(ayes, noes, branch, a, b)[d].refs)
      ensures Vote(Camps(ayes, noes, branch, a, b), branch, d) == if d in ayes then Some(a) else Some(b)
    {
      LoneVote(d, branch, if d in ayes then a else b);
    }
  }

  lemma {:induction false} DistinctMembers(ids: seq<Identity>)
    requires SortedIdentities(ids)
    ensures |IdentityHistory.Members(ids)| == |ids|
  {
    if ids == [] {
      assert IdentityHistory.Members(ids) == {};
    } else {
      var n := |ids| - 1;
      DistinctMembers(ids[..n]);
      SortedNoRepeat(ids, n);
      assert ids == ids[..n] + [ids[n]];
      assert IdentityHistory.Members(ids) == IdentityHistory.Members(ids[..n]) + {ids[n]};
    }
  }

  lemma CampsApart(ids: seq<Identity>, t: nat)
    requires SortedIdentities(ids) && 2 * t <= |ids|
    ensures IdentityHistory.Members(ids[..t]) !! IdentityHistory.Members(ids[t..2 * t])
    ensures |IdentityHistory.Members(ids[..t])| == t && |IdentityHistory.Members(ids[t..2 * t])| == t
  {
    DistinctMembers(ids[..t]);
    DistinctMembers(ids[t..2 * t]);
    forall i, j | 0 <= i < t && t <= j < 2 * t
      ensures ids[i] != ids[j]
    {
      IdentitiesApart(ids, i, j);
    }
    assert forall j :: 0 <= j < t ==> ids[t..2 * t][j] == ids[t + j];
  }

  /** Without that majority, two halves of the delegates can each carry a commit. */
  lemma MinoritySplits(document: IdentityDocument, a: GitObjectId, b: GitObjectId) returns (states: States)
    requires Validate(document).Ok? && 2 * document.threshold <= |document.delegates| && a != b
    ensures Sorted(states) && Qualifies(document, states, a) && Qualifies(document, states, b)
  {
    hide Vote, Validate, Camps, IdentityHistory.Members;
    var delegates, branch := document.delegates, Branch(document);
    var t: nat := document.threshold;
    assert SortedIdentities(delegates) && t > 0 by { ValidParts(document); }
    var ayes, noes := IdentityHistory.Members(delegates[..t]), IdentityHistory.Members(delegates[t..2 * t]);
    CampsApart(delegates, t);
    states := Camps(ayes, noes, branch, a, b);
    CampVotes(ayes, noes, branch, a, b);
    TallyIsVoters(delegates, states, branch, a);
    TallyIsVoters(delegates, states, branch, b);
    MembersWithin(delegates, 0, t);
    MembersWithin(delegates, t, 2 * t);
    assert Voters(delegates, states, branch, a) == ayes;
    assert Voters(delegates, states, branch, b) == noes;
  }

  lemma ValidParts(document: IdentityDocument)
    requires Validate(document).Ok?
    ensures SortedIdentities(document.delegates) && 0 < document.threshold <= |document.delegates|
  {
  }

  lemma MembersWithin(ids: seq<Identity>, lo: nat, hi: nat)
    requires lo <= hi <= |ids|
    ensures forall d :: d in IdentityHistory.Members(ids[lo..hi]) ==> d in ids
    ensures ids[0..hi] == ids[..hi]
  {
  }

  /** Whatever the states, at most one commit can qualify: exactly under a threshold above half. */
  lemma UniqueExactly(document: IdentityDocument)
    requires Validate(document).Ok?
    ensures (forall states, a, b :: Sorted(states) && Qualifies(document, states, a) && Qualifies(document, states, b) ==> a == b)
       <==> 2 * document.threshold > |document.delegates|
  {
    hide Qualifies, Validate, Sorted;
    if 2 * document.threshold > |document.delegates| {
      forall states, a, b | Sorted(states) && Qualifies(document, states, a) && Qualifies(document, states, b)
        ensures a == b
      {
        MajorityIsUnique(document, states, a, b);
      }
    } else {
      var a, b := GitObjectId("sha1", []), GitObjectId("sha256", []);
      var states := MinoritySplits(document, a, b);
    }
  }

  /** The promised rule of the vote: a commit qualifies exactly if threshold many delegates hold it. */
  ghost predicate VoteRule(document: IdentityDocument) {
    forall states, c :: Sorted(states) ==>
      (Qualifies(document, states, c) <==> |Holders(document, states, c)| >= document.threshold)
  }

  /** 65536 votes count as none. */
  lemma UnanimityIgnored(document: IdentityDocument, commit: GitObjectId) returns (states: States)
    requires Validate(document).Ok? && |document.delegates| > U16_MAX
    ensures Sorted(states) && !Qualifies(document, states, commit)
    ensures |Holders(document, states, commit)| == IdentityHistory.U16_COUNT
    ensures IdentityHistory.U16_COUNT >= document.threshold
  {
    hide Vote, Validate, Camps, IdentityHistory.Members;
    ValidParts(document);
    var delegates, branch, n := document.delegates, Branch(document), IdentityHistory.U16_COUNT;
    var ayes := IdentityHistory.Members(delegates[..n]);
    states := Camps(ayes, {}, branch, commit, commit);
    CampVotes(ayes, {}, branch, commit, commit);
    TallyIsVoters(delegates, states, branch, commit);
    MembersWithin(delegates, 0, n);
    DistinctMembers(delegates[..n]);
    assert Voters(delegates, states, branch, commit) == ayes;
    VotersHold(document, states, commit);
  }

  /** The rule holds of all states and commits exactly up to 65535 delegates. */
  lemma QualifiesExactly(document: IdentityDocument)
    requires Validate(document).Ok?
    ensures VoteRule(document) <==> |document.delegates| <= U16_MAX
  {
    hide Qualifies, Validate, Sorted, Holders, Voters;
    if |document.delegates| <= U16_MAX {
      forall states, c | Sorted(states)
        ensures Qualifies(document, states, c) <==> |Holders(document, states, c)| >= document.threshold
      {
        QualifiesWhen(document, states, c);
        VotersHold(document, states, c);
        VotersFit(document, states, c);
      }
    } else {
      var commit := GitObjectId("sha1", []);
      var states := UnanimityIgnored(document, commit);
      assert Sorted(states) && !Qualifies(document, states, commit);
    }
  }

  /** Entries of anybody but the delegates have no influence. */
  lemma {:induction false} OthersHaveNoVote(delegates: seq<Identity>, states: States, states': States, branch: string,
                                            commit: GitObjectId)
    requires forall d :: d in delegates ==> (d in states <==> d in states') && (d in states ==> states[d] == states'[d])
    ensures Tally(delegates, states, branch, commit) == Tally(delegates, states', branch, commit)
  {
    if delegates != [] {
      OthersHaveNoVote(delegates[..|delegates| - 1], states, states', branch, commit);
    }
  }

  /// The keeper of the head

  /** What a call to `state` reads: publishers' states (or a failure), and ancestry answers. */
  datatype Reading = Reading(read: Identity -> Option<Option<RefState>>,
                             isAncestor: (GitObjectId, GitObjectId) -> bool)

  ghost predicate SortedReading(reading: Reading) {
    forall d :: reading.read(d).Some? && reading.read(d).value.Some? ==>
                Refs.SortedUnique(reading.read(d).value.value.refs)
  }

  /** The head of the branch "main", whatever the document's default branch is called. */
  function MainHead(state: Option<RefState>): Option<GitObjectId> {
    if state.None? then None else Refs.Lookup(state.value.refs, "refs/heads/main")
  }

  /** The states read for the requested delegates; a failing read fails the whole call. */
  function Gathered(reading: Reading, delegates: seq<Identity>): Option<States> {
    if delegates == [] then Some(map[])
    else
      var last := delegates[|delegates| - 1];
      var earlier := Gathered(reading, delegates[..|delegates| - 1]);
      if earlier.None? || reading.read(last).None? then None
      else if reading.read(last).value.None? then earlier
      else Some(earlier.value[last := reading.read(last).value.value])
  }

  /** The states gathered are those that exist of the requested delegates, all of which could be read. */
  lemma {:induction false} GatheredExactly(reading: Reading, delegates: seq<Identity>)
    ensures Gathered(reading, delegates).Some? <==> forall d :: d in delegates ==> reading.read(d).Some?
    ensures Gathered(reading, delegates).Some? ==>
            forall d :: (d in Gathered(reading, delegates).value <==> d in delegates && reading.read(d).value.Some?)
                     && (d in Gathered(reading, delegates).value ==>
                           Some(Some(Gathered(reading, delegates).value[d])) == reading.read(d))
  {
    if delegates != [] {
      var n := |delegates| - 1;
      GatheredExactly(reading, delegates[..n]);
      assert delegates == delegates[..n] + [delegates[n]];
    }
  }

  /** The head that is shown is where `refs/heads/main` stands. */
  lemma MainHeadExactly(state: Option<RefState>, target: GitObjectId)
    requires state.Some? ==> Refs.SortedUnique(state.value.refs)
    ensures MainHead(state) == Some(target) <==> state.Some? && RefTarget("refs/heads/main", target) in state.value.refs
  {
    if state.Some? {
      Refs.LookupExactly(state.value.refs, "refs/heads/main", target);
    }
  }

  datatype Response = Response(canonical: Option<GitObjectId>, decision: Decision,
                               publishers: map<Identity, Option<GitObjectId>>)

  /** A decision that follows from the vote on `states` with `previous` as the head so far. */
  ghost predicate Decides(document: IdentityDocument, states: States, previous: Option<GitObjectId>,
                          isDescendant: (GitObjectId, GitObjectId) -> bool, decision: Decision)
  {
    || (exists c :: OnlyQualifier(document, states, c) && Judged(previous, c, isDescendant, decision))
    || ((forall c :: !OnlyQualifier(document, states, c)) && decision == if previous.Some? then Retain else NoAgreement)
  }

  /** The head after one call. */
  ghost predicate NextHead(document: IdentityDocument, delegates: seq<Identity>, reading: Reading,
                           before: Option<GitObjectId>, after: Option<GitObjectId>)
  {
    match Gathered(reading, delegates)
    case None => after == before
    case Some(states) =>
      exists decision :: Decides(document, states, before, reading.isAncestor, decision) &&
                         after == if decision.Advance? then Some(decision.head) else before
  }

  class RepositoryContext {
    const identity: IdentityDocument
    var canonical: Option<GitObjectId>

    constructor (identity: IdentityDocument)
      ensures this.identity == identity && canonical == None
    {
      this.identity, canonical := identity, None;
    }

    /** `OperatorState::state`. */
    method State(delegates: seq<Identity>, reading: Reading) returns (r: Option<Response>)
      requires SortedReading(reading)
      modifies this
      ensures NextHead(identity, delegates, reading, old(canonical), canonical)
      ensures r.None? <==> Gathered(reading, delegates).None?
      ensures r.Some? ==>
              && r.value.canonical == canonical
              && Decides(identity, Gathered(reading, delegates).value, old(canonical), reading.isAncestor, r.value.decision)
              && r.value.publishers.Keys == IdentityHistory.Members(delegates)
              && forall d :: d in delegates ==> reading.read(d).Some? && r.value.publishers[d] == MainHead(reading.read(d).value)
    {
      var states: States := map[];
      var publishers: map<Identity, Option<GitObjectId>> := map[];
      for i := 0 to |delegates|
        invariant canonical == old(canonical)
        invariant Gathered(reading, delegates[..i]) == Some(states)
        invariant Sorted(states)
        invariant publishers.Keys == IdentityHistory.Members(delegates[..i])
        invariant forall d :: d in delegates[..i] ==> reading.read(d).Some?
        invariant forall d :: d in delegates[..i] ==> publishers[d] == MainHead(reading.read(d).value)
      {
        assert delegates[..i + 1] == delegates[..i] + [delegates[i]];
        assert delegates[..i + 1][..i] == delegates[..i];
        var state := reading.read(delegates[i]);
        if state.None? {
          FailedRead(reading, delegates, i + 1);
          return None;
        }
        var head := None;
        if state.value.Some? {
          head := Refs.Target(state.value.value.refs, "refs/heads/main");
          states := states[delegates[i] := state.value.value];
        }
        publishers := publishers[delegates[i] := head];
      }
      assert delegates[..|delegates|] == delegates;
      var decision := DeriveCanonicalHead(identity, states, canonical, reading.isAncestor);
      assert Decides(identity, states, canonical, reading.isAncestor, decision);
      if decision.Advance? {
        canonical := Some(decision.head);
      }
      r := Some(Response(canonical, decision, publishers));
    }
  }

  lemma {:induction false} FailedRead(reading: Reading, delegates: seq<Identity>, k: nat)
    requires k <= |delegates| && Gathered(reading, delegates[..k]).None?
    ensures Gathered(reading, delegates).None?
    decreases |delegates|
  {
    if k == |delegates| {
      assert delegates[..k] == delegates;
    } else {
      assert delegates[..|delegates| - 1][..k] == delegates[..k];
      FailedRead(reading, delegates[..|delegates| - 1], k);
    }
  }

  /// Runs

  /** Every commit of the line is a parent of the next. */
  ghost predicate Descent(parents: GitObjectId -> set<GitObjectId>, line: seq<GitObjectId>) {
    forall i :: 0 <= i < |line| - 1 ==> line[i] in parents(line[i + 1])
  }

  /** `descendant` is reached from `ancestor` by following commits to their children. */
  ghost predicate Ancestor(parents: GitObjectId -> set<GitObjectId>, ancestor: GitObjectId, descendant: GitObjectId) {
    exists line: seq<GitObjectId> ::
      line != [] && line[0] == ancestor && line[|line| - 1] == descendant && Descent(parents, line)
  }

  /** A run: one reading and delegate list a call, and the head before the first call and after each. */
  datatype HeadRun = HeadRun(requests: seq<seq<Identity>>, readings: seq<Reading>, heads: seq<Option<GitObjectId>>)

  ghost predicate Call(document: IdentityDocument, parents: GitObjectId -> set<GitObjectId>, run: HeadRun, k: int)
    requires 0 <= k < |run.requests| == |run.readings| == |run.heads| - 1
  {
    && (forall a, b :: run.readings[k].isAncestor(a, b) ==> Ancestor(parents, a, b))
    && NextHead(document, run.requests[k], run.readings[k], run.heads[k], run.heads[k + 1])
  }

  ghost predicate IsHeadRun(document: IdentityDocument, parents: GitObjectId -> set<GitObjectId>, run: HeadRun) {
    && |run.requests| == |run.readings| == |run.heads| - 1
    && forall k :: 0 <= k < |run.requests| ==> Call(document, parents, run, k)
  }

  lemma AncestorSelf(parents: GitObjectId -> set<GitObjectId>, a: GitObjectId)
    ensures Ancestor(parents, a, a)
  {
    var line := [a];
    assert line[0] == a;
  }

  lemma AncestorTransitive(parents: GitObjectId -> set<GitObjectId>, a: GitObjectId, b: GitObjectId, c: GitObjectId)
    requires Ancestor(parents, a, b) && Ancestor(parents, b, c)
    ensures Ancestor(parents, a, c)
  {
    var p: seq<GitObjectId> :| p != [] && p[0] == a && p[|p| - 1] == b && Descent(parents, p);
    var q: seq<GitObjectId> :| q != [] && q[0] == b && q[|q| - 1] == c && Descent(parents, q);
    DescentConcat(parents, p, q);
    var line := p + q[1..];
    assert line[0] == a && line[|line| - 1] == c;
  }

  lemma DescentConcat(parents: GitObjectId -> set<GitObjectId>, p: seq<GitObjectId>, q: seq<GitObjectId>)
    requires p != [] && q != [] && p[|p| - 1] == q[0] && Descent(parents, p) && Descent(parents, q)
    ensures Descent(parents, p + q[1..])
  {
    var line, n := p + q[1..], |p| - 1;
    assert forall i :: n <= i < |line| ==> line[i] == q[i - n];
    forall i | 0 <= i < |line| - 1
      ensures line[i] in parents(line[i + 1])
    {
      if i < n {
        assert line[i] == p[i] && line[i + 1] == p[i + 1];
      } else {
        assert q[i - n] in parents(q[i - n + 1]);
      }
    }
  }

  /**
   Exactly when the head moves: to the only qualifying commit, if there is no head yet or that commit is
   reported as a descendant of the head and is not the head.
   */
  lemma HeadMovesExactly(document: IdentityDocument, parents: GitObjectId -> set<GitObjectId>, run: HeadRun, k: nat)
    requires IsHeadRun(document, parents, run) && k < |run.requests|
    ensures var before, after := run.heads[k], run.heads[k + 1];
            var gathered := Gathered(run.readings[k], run.requests[k]);
            && (gathered.None? ==> after == before)
            && (gathered.Some? && (forall c :: !OnlyQualifier(document, gathered.value, c)) ==> after == before)
            && forall c :: gathered.Some? && OnlyQualifier(document, gathered.value, c) ==>
                 after == if before.None? || (before.value != c && run.readings[k].isAncestor(before.value, c)) then Some(c) else before
  {
    hide Qualifies;
    assert Call(document, parents, run, k);
  }

  /** One call leaves the head, or moves it to a qualifying descendant. */
  lemma HeadStep(document: IdentityDocument, parents: GitObjectId -> set<GitObjectId>, run: HeadRun, k: nat)
    requires IsHeadRun(document, parents, run) && k < |run.requests|
    ensures var before, after := run.heads[k], run.heads[k + 1];
            || after == before
            || (&& after.Some? && Gathered(run.readings[k], run.requests[k]).Some?
                && Qualifies(document, Gathered(run.readings[k], run.requests[k]).value, after.value)
                && (before.Some? ==> Ancestor(parents, before.value, after.value)))
  {
    assert Call(document, parents, run, k);
  }

  /** Over any run of decisions a head never goes back to none, and heads only move to descendants. */
  lemma {:induction false} HeadsFastForward(document: IdentityDocument, parents: GitObjectId -> set<GitObjectId>,
                                            run: HeadRun, i: nat, j: nat)
    requires IsHeadRun(document, parents, run) && i <= j < |run.heads| && run.heads[i].Some?
    ensures run.heads[j].Some? && Ancestor(parents, run.heads[i].value, run.heads[j].value)
    decreases j
  {
    hide Ancestor, NextHead, Qualifies;
    if i == j {
      AncestorSelf(parents, run.heads[i].value);
    } else {
      HeadsFastForward(document, parents, run, i, j - 1);
      HeadStep(document, parents, run, j - 1);
      if run.heads[j] != run.heads[j - 1] {
        AncestorTransitive(parents, run.heads[i].value, run.heads[j - 1].value, run.heads[j].value);
      }
    }
  }
}
