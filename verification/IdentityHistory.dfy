/** Verification of identity transitions, and the histories it admits. */
module IdentityHistory {
  import opened Basics
  import opened Core
  import opened Identities

  type Selections = map<Identity, SignerSelection>

  /** The checks on one delegate's approval. */
  function CheckApproval(selections: Selections, a: Approval, message: Message): Result<(), CoreError> {
    if a.identity !in selections then Err(InvalidIdentityTransition(MissingSelection))
    else
      var selection := selections[a.identity];
      if selection.identity != a.identity then Err(InvalidIdentityTransition(SelectionMismatch))
      else if selection.keyEpoch != a.keyEpoch then Err(InvalidIdentityTransition(EpochMismatch))
      else if !Verifies(selection.repositoryKey, message, a.signature) then Err(InvalidSignature)
      else Ok(())
  }

  const U16_COUNT := 0x1_0000

  /** The counting loop over the approvals; the counter is 16 bits wide and wraps. */
  function CountApprovals(delegates: set<Identity>, selections: Selections, approvals: seq<Approval>, message: Message)
    : (r: Result<u16, CoreError>)
  {
    if approvals == [] then Ok(0)
    else
      var last := approvals[|approvals| - 1];
      var count :- CountApprovals(delegates, selections, approvals[..|approvals| - 1], message);
      if last.identity !in delegates then Ok(count)
      else
        var _ :- CheckApproval(selections, last, message);
        Ok((count + 1) % U16_COUNT)
  }

  function Members(ids: seq<Identity>): set<Identity> {
    set d | d in ids
  }

  function Delegates(document: IdentityDocument): set<Identity> {
    Members(document.delegates)
  }

  predicate Continues(payload: IdentityPayload, previous: IdentityState) {
    && previous.sequence < U64_MAX
    && payload.version == 1
    && payload.repository == previous.repository
    && payload.parent == previous.transition
    && payload.sequence == previous.sequence + 1
  }

  function TransitionId(transition: IdentityTransition): Digest {
    Blake3(IDENTITY_TRANSITION_DOMAIN, IdentityTransitionContent(transition))
  }

  function NextState(transition: IdentityTransition, previous: IdentityState): IdentityState {
    IdentityState(previous.repository, TransitionId(transition), transition.payload.sequence, transition.payload.document)
  }

  function Verify(transition: IdentityTransition, previous: IdentityState, selections: Selections)
    : Result<IdentityState, CoreError>
  {
    var payload := transition.payload;
    if previous.sequence == U64_MAX then Err(InvalidIdentityTransition(IdentitySequenceExhausted))
    else if !Continues(payload, previous) then Err(InvalidIdentityTransition(LineageMismatch))
    else
      var _ :- Validate(payload.document);
      if !SortedApprovals(transition.approvals) then Err(InvalidIdentityTransition(ApprovalsNotSorted))
      else
        var count :- CountApprovals(Delegates(previous.document), selections, transition.approvals, IdentityMessage(payload));
        if count < previous.document.threshold then Err(InvalidIdentityTransition(ThresholdNotMet))
        else Ok(NextState(transition, previous))
  }

  /** `IdentityTransition::verify` with its counting loop. */
  method VerifyTransition(transition: IdentityTransition, previous: IdentityState, selections: Selections)
    returns (r: Result<IdentityState, CoreError>)
    ensures r == Verify(transition, previous, selections)
  {
    if previous.sequence == U64_MAX {
      return Err(InvalidIdentityTransition(IdentitySequenceExhausted));
    }
    if !Continues(transition.payload, previous) {
      return Err(InvalidIdentityTransition(LineageMismatch));
    }
    var valid := Validate(transition.payload.document);
    if valid.Err? {
      return Err(valid.error);
    }
    if !SortedApprovals(transition.approvals) {
      return Err(InvalidIdentityTransition(ApprovalsNotSorted));
    }
    var delegates, message := Delegates(previous.document), IdentityMessage(transition.payload);
    var approvals := transition.approvals;
    var count: u16 := 0;
    for i := 0 to |approvals|
      invariant CountApprovals(delegates, selections, approvals[..i], message) == Ok(count)
    {
      assert approvals[..i + 1][..i] == approvals[..i];
      if approvals[i].identity in delegates {
        var checked := CheckApproval(selections, approvals[i], message);
        if checked.Err? {
          CountFails(delegates, selections, approvals, message, i + 1);
          return Err(checked.error);
        }
        count := (count + 1) % U16_COUNT;
      }
    }
    assert approvals[..|approvals|] == approvals;
    if count < previous.document.threshold {
      return Err(InvalidIdentityTransition(ThresholdNotMet));
    }
    return Ok(NextState(transition, previous));
  }

  lemma {:induction false} CountFails(delegates: set<Identity>, selections: Selections, approvals: seq<Approval>,
                                      message: Message, k: nat)
    requires k <= |approvals| && CountApprovals(delegates, selections, approvals[..k], message).Err?
    ensures CountApprovals(delegates, selections, approvals, message)
         == CountApprovals(delegates, selections, approvals[..k], message)
    decreases |approvals|
  {
    if k == |approvals| {
      assert approvals[..k] == approvals;
    } else {
      assert approvals[..|approvals| - 1][..k] == approvals[..k];
      CountFails(delegates, selections, approvals[..|approvals| - 1], message, k);
    }
  }

  /// The threshold rule

  /** The prior delegates that approve. */
  function Approving(delegates: set<Identity>, approvals: seq<Approval>): set<Identity> {
    set i | 0 <= i < |approvals| && approvals[i].identity in delegates :: approvals[i].identity
  }

  /** The approval is signed for this message by the key selected for its identity, in the selected epoch. */
  predicate Endorses(selections: Selections, a: Approval, message: Message) {
    && a.identity in selections
    && var selection := selections[a.identity];
    && selection.identity == a.identity && selection.keyEpoch == a.keyEpoch
    && selection.repositoryKey.onCurve && a.signature == Signed(selection.repositoryKey, message)
  }

  predicate AllValid(delegates: set<Identity>, selections: Selections, approvals: seq<Approval>, message: Message) {
    forall a :: a in approvals && a.identity in delegates ==> Endorses(selections, a, message)
  }

  /** What is wrong with an approval that is no endorsement: no selection, another identity's, another epoch, the signature. */
  function ProblemOf(selections: Selections, a: Approval): CoreError {
    if a.identity in selections && selections[a.identity].identity == a.identity
      && selections[a.identity].keyEpoch == a.keyEpoch then InvalidSignature
    else if a.identity !in selections then InvalidIdentityTransition(MissingSelection)
    else if selections[a.identity].identity == a.identity then InvalidIdentityTransition(EpochMismatch)
    else InvalidIdentityTransition(SelectionMismatch)
  }

  /** The check passes exactly an endorsement, and otherwise reports what is missing. */
  lemma CheckExactly(selections: Selections, a: Approval, message: Message)
    ensures CheckApproval(selections, a, message)
         == if Endorses(selections, a, message) then Ok(()) else Err(ProblemOf(selections, a))
  {
  }

  lemma ApprovingLast(delegates: set<Identity>, approvals: seq<Approval>)
    requires SortedApprovals(approvals) && approvals != []
    ensures var n := |approvals| - 1;
            && SortedApprovals(approvals[..n])
            && approvals[n].identity !in Approving(delegates, approvals[..n])
            && Approving(delegates, approvals) == Approving(delegates, approvals[..n]) +
               (if approvals[n].identity in delegates then {approvals[n].identity} else {})
            && |Approving(delegates, approvals)| == |Approving(delegates, approvals[..n])| +
               (if approvals[n].identity in delegates then 1 else 0)
  {
    var n := |approvals| - 1;
    if approvals[n].identity in Approving(delegates, approvals[..n]) {
      var i :| 0 <= i < n && approvals[..n][i].identity == approvals[n].identity;
      SortedApart(approvals, i, n);
    }
    assert approvals == approvals[..n] + [approvals[n]];
  }

  lemma WrapStep(n: nat)
    ensures (n % U16_COUNT + 1) % U16_COUNT == (n + 1) % U16_COUNT
  {
  }

  lemma CountStep(delegates: set<Identity>, selections: Selections, approvals: seq<Approval>, message: Message)
    requires approvals != []
    ensures var last, count := approvals[|approvals| - 1],
                               CountApprovals(delegates, selections, approvals[..|approvals| - 1], message);
            CountApprovals(delegates, selections, approvals, message) ==
            if count.Err? then count
            else if last.identity !in delegates then count
            else if CheckApproval(selections, last, message).Err? then
              Err(CheckApproval(selections, last, message).error)
            else Ok((count.value + 1) % U16_COUNT)
  {
    hide CheckApproval;
  }

  lemma AllValidStep(delegates: set<Identity>, selections: Selections, approvals: seq<Approval>, message: Message)
    requires approvals != []
    ensures var last := approvals[|approvals| - 1];
            AllValid(delegates, selections, approvals, message) <==>
            && AllValid(delegates, selections, approvals[..|approvals| - 1], message)
            && (last.identity in delegates ==> Endorses(selections, last, message))
  {
    hide Endorses;
    assert approvals == approvals[..|approvals| - 1] + [approvals[|approvals| - 1]];
  }

  lemma NoneApproving(delegates: set<Identity>, selections: Selections, approvals: seq<Approval>, message: Message)
    requires approvals == []
    ensures AllValid(delegates, selections, approvals, message)
    ensures |Approving(delegates, approvals)| == 0
    ensures CountApprovals(delegates, selections, approvals, message) == Ok(0)
  {
    assert Approving(delegates, approvals) == {};
  }

  /** The counter is the number of distinct prior delegates approving, as far as 16 bits hold it. */
  lemma {:induction false} CountIsCardinality(delegates: set<Identity>, selections: Selections, approvals: seq<Approval>,
                                              message: Message)
    requires SortedApprovals(approvals)
    ensures CountApprovals(delegates, selections, approvals, message).Ok? <==> AllValid(delegates, selections, approvals, message)
    ensures AllValid(delegates, selections, approvals, message) ==>
            CountApprovals(delegates, selections, approvals, message) == Ok(|Approving(delegates, approvals)| % U16_COUNT)
  {
    hide CheckApproval, Endorses, AllValid, Approving, SortedApprovals;
    if approvals == [] {
      NoneApproving(delegates, selections, approvals, message);
    } else {
      var shorter := approvals[..|approvals| - 1];
      ApprovingLast(delegates, approvals);
      CountIsCardinality(delegates, selections, shorter, message);
      CountStep(delegates, selections, approvals, message);
      AllValidStep(delegates, selections, approvals, message);
      CheckExactly(selections, approvals[|approvals| - 1], message);
      WrapStep(|Approving(delegates, shorter)|);
    }
  }

  lemma SubsetSize<T>(a: set<T>, b: set<T>)
    requires a <= b
    ensures |a| <= |b|
  {
    assert b == a + (b - a);
  }

  lemma {:induction false} DelegateCount(delegates: seq<Identity>)
    ensures |Members(delegates)| <= |delegates|
  {
    if delegates != [] {
      var n := |delegates| - 1;
      DelegateCount(delegates[..n]);
      assert delegates == delegates[..n] + [delegates[n]];
      assert Members(delegates) == Members(delegates[..n]) + {delegates[n]};
    }
  }

  /** The transition is made for this state, and adopts a document one can govern with. */
  ghost predicate MadeFor(payload: IdentityPayload, previous: IdentityState) {
    && payload.version == 1
    && payload.repository == previous.repository
    && payload.parent == previous.transition
    && payload.sequence == previous.sequence + 1
    && Sensible(payload.document)
  }

  /** Approvals in strict order, those of prior delegates all endorsements. */
  ghost predicate Endorsed(transition: IdentityTransition, previous: IdentityState, selections: Selections) {
    && (forall i, j :: 0 <= i < j < |transition.approvals| ==>
          transition.approvals[i].identity < transition.approvals[j].identity)
    && AllValid(Delegates(previous.document), selections, transition.approvals, IdentityMessage(transition.payload))
  }

  /** What the documentation promises of verification. */
  ghost predicate Governed(transition: IdentityTransition, previous: IdentityState, selections: Selections) {
    && MadeFor(transition.payload, previous) && Endorsed(transition, previous, selections)
    && |Approving(Delegates(previous.document), transition.approvals)| >= previous.document.threshold
  }

  lemma OrderedExactly(approvals: seq<Approval>)
    ensures SortedApprovals(approvals) <==>
            forall i, j :: 0 <= i < j < |approvals| ==> approvals[i].identity < approvals[j].identity
  {
    if SortedApprovals(approvals) {
      forall i, j | 0 <= i < j < |approvals|
        ensures approvals[i].identity < approvals[j].identity
      {
        SortedApart(approvals, i, j);
      }
    }
  }

  /**
   Verification succeeds exactly when the transition is made for this state with a sensible document and
   ordered approvals, every approval by a prior delegate is signed for it by the selected key in the selected
   epoch, and enough distinct prior delegates approve, counted modulo 65536.  Approvals by others do not matter.
   What it yields is the transition's document under the transition's id.
   */
  lemma VerifiesWhen(transition: IdentityTransition, previous: IdentityState, selections: Selections)
    ensures Verify(transition, previous, selections).Ok? <==>
              && MadeFor(transition.payload, previous) && Endorsed(transition, previous, selections)
              && |Approving(Delegates(previous.document), transition.approvals)| % U16_COUNT >= previous.document.threshold
    ensures Verify(transition, previous, selections).Ok? ==>
            var state := Verify(transition, previous, selections).value;
            && state.repository == previous.repository && state.sequence == previous.sequence + 1
            && state.transition == Blake3(IDENTITY_TRANSITION_DOMAIN, IdentityTransitionContent(transition))
            && state.document == transition.payload.document
  {
    hide CheckApproval, AllValid, Approving, Validate, Sensible, SortedApprovals;
    OrderedExactly(transition.approvals);
    ValidateExactly(transition.payload.document);
    if SortedApprovals(transition.approvals) {
      CountIsCardinality(Delegates(previous.document), selections, transition.approvals, IdentityMessage(transition.payload));
    }
  }

  /** The first thing wrong, in the order of the checks. */
  lemma RejectedFor(transition: IdentityTransition, previous: IdentityState, selections: Selections)
    ensures var r := Verify(transition, previous, selections);
            && (previous.sequence == U64_MAX ==> r == Err(InvalidIdentityTransition(IdentitySequenceExhausted)))
            && (previous.sequence < U64_MAX && Sensible(transition.payload.document) && !MadeFor(transition.payload, previous) ==>
                  r == Err(InvalidIdentityTransition(LineageMismatch)))
            && (MadeFor(transition.payload, previous) && Endorsed(transition, previous, selections) && r.Err? ==>
                  r == Err(InvalidIdentityTransition(ThresholdNotMet)))
  {
    hide CheckApproval, AllValid, Approving, Validate, Sensible, SortedApprovals, CountApprovals;
    OrderedExactly(transition.approvals);
    ValidateExactly(transition.payload.document);
    if SortedApprovals(transition.approvals) {
      CountIsCardinality(Delegates(previous.document), selections, transition.approvals, IdentityMessage(transition.payload));
    }
  }

  /** The count fails with the error of the first approval by a delegate that is no endorsement. */
  lemma FirstFailure(delegates: set<Identity>, selections: Selections, approvals: seq<Approval>, message: Message, i: nat)
    requires i < |approvals| && SortedApprovals(approvals) && AllValid(delegates, selections, approvals[..i], message)
    requires approvals[i].identity in delegates && !Endorses(selections, approvals[i], message)
    ensures CountApprovals(delegates, selections, approvals, message) == Err(ProblemOf(selections, approvals[i]))
  {
    hide CheckApproval, Endorses, AllValid, Approving, ProblemOf;
    assert SortedApprovals(approvals[..i]);
    CountIsCardinality(delegates, selections, approvals[..i], message);
    assert approvals[..i + 1][..i] == approvals[..i];
    CountStep(delegates, selections, approvals[..i + 1], message);
    CheckExactly(selections, approvals[i], message);
    CountFails(delegates, selections, approvals, message, i + 1);
  }

  /** An approval by a delegate that is no endorsement fails the whole transition, with its own error if it is the first. */
  lemma RejectedApproval(transition: IdentityTransition, previous: IdentityState, selections: Selections, i: nat)
    requires i < |transition.approvals| && MadeFor(transition.payload, previous)
    requires forall j, k :: 0 <= j < k < |transition.approvals| ==>
               transition.approvals[j].identity < transition.approvals[k].identity
    requires AllValid(Delegates(previous.document), selections, transition.approvals[..i], IdentityMessage(transition.payload))
    requires transition.approvals[i].identity in Delegates(previous.document)
    requires !Endorses(selections, transition.approvals[i], IdentityMessage(transition.payload))
    ensures Verify(transition, previous, selections) == Err(ProblemOf(selections, transition.approvals[i]))
  {
    hide CheckApproval, Endorses, AllValid, Validate, Sensible, ProblemOf, CountApprovals;
    ValidateExactly(transition.payload.document);
    FirstFailure(Delegates(previous.document), selections, transition.approvals, IdentityMessage(transition.payload), i);
  }

  /** With at most 65535 delegates the 16-bit counter cannot overflow, and the rule is the promised one. */
  lemma ThresholdRule(transition: IdentityTransition, previous: IdentityState, selections: Selections)
    requires |previous.document.delegates| <= U16_MAX
    ensures Verify(transition, previous, selections).Ok? <==> Governed(transition, previous, selections)
  {
    hide Verify, AllValid;
    var delegates := Delegates(previous.document);
    VerifiesWhen(transition, previous, selections);
    DelegateCount(previous.document.delegates);
    SubsetSize(Approving(delegates, transition.approvals), delegates);
  }

  /** One key and one epoch for everybody: the selections of the counterexample. */
  function SharedKey(delegates: seq<Identity>): Selections {
    map d | d in delegates :: SignerSelection(d, PublicKey(0, true), 0)
  }

  /** The first 65536 delegates re-adopt the document they govern. */
  function Unanimous(previous: IdentityState): IdentityTransition
    requires previous.sequence < U64_MAX && |previous.document.delegates| >= U16_COUNT
  {
    var payload := IdentityPayload(1, previous.repository, previous.transition, previous.sequence + 1, previous.document);
    IdentityTransition(payload, seq(U16_COUNT, i requires 0 <= i < U16_COUNT =>
      Approval(previous.document.delegates[i], 0, Signed(PublicKey(0, true), IdentityMessage(payload)))))
  }

  lemma {:induction false} ApprovingAll(delegates: set<Identity>, approvals: seq<Approval>)
    requires SortedApprovals(approvals) && forall a :: a in approvals ==> a.identity in delegates
    ensures |Approving(delegates, approvals)| == |approvals|
  {
    if approvals != [] {
      ApprovingLast(delegates, approvals);
      ApprovingAll(delegates, approvals[..|approvals| - 1]);
      assert approvals[|approvals| - 1] in approvals;
    }
  }

  lemma UnanimousIsMadeFor(previous: IdentityState)
    requires Validate(previous.document).Ok? && previous.sequence < U64_MAX
    requires |previous.document.delegates| >= U16_COUNT
    ensures MadeFor(Unanimous(previous).payload, previous) && SortedApprovals(Unanimous(previous).approvals)
  {
    ValidateExactly(previous.document);
  }

  /** 65536 approvals count as none. */
  lemma UnanimityRejected(previous: IdentityState)
    requires Validate(previous.document).Ok? && previous.sequence < U64_MAX
    requires |previous.document.delegates| >= U16_COUNT
    ensures var transition, selections := Unanimous(previous), SharedKey(previous.document.delegates);
            Governed(transition, previous, selections) && Verify(transition, previous, selections).Err?
  {
    var transition, selections := Unanimous(previous), SharedKey(previous.document.delegates);
    var delegates := Delegates(previous.document);
    assert SortedApprovals(transition.approvals);
    assert forall a :: a in transition.approvals ==> a.identity in delegates;
    ApprovingAll(delegates, transition.approvals);
    UnanimousIsMadeFor(previous);
    OrderedExactly(transition.approvals);
    assert AllValid(delegates, selections, transition.approvals, IdentityMessage(transition.payload));
    VerifiesWhen(transition, previous, selections);
  }

  /** The first delegates up to the threshold adopt the document. */
  function Adopting(previous: IdentityState, document: IdentityDocument): IdentityTransition
    requires previous.sequence < U64_MAX && previous.document.threshold <= |previous.document.delegates|
  {
    var payload := IdentityPayload(1, previous.repository, previous.transition, previous.sequence + 1, document);
    IdentityTransition(payload, seq(previous.document.threshold, i requires 0 <= i < previous.document.threshold =>
      Approval(previous.document.delegates[i], 0, Signed(PublicKey(0, true), IdentityMessage(payload)))))
  }

  /** Nobody is locked out: whatever the size, a threshold of delegates can adopt any sensible document. */
  lemma AlwaysGovernable(previous: IdentityState, document: IdentityDocument)
    requires Sensible(previous.document) && Sensible(document) && previous.sequence < U64_MAX
    ensures Verify(Adopting(previous, document), previous, SharedKey(previous.document.delegates)).Ok?
  {
    hide Verify;
    var transition, selections := Adopting(previous, document), SharedKey(previous.document.delegates);
    var delegates := Delegates(previous.document);
    assert SortedApprovals(transition.approvals);
    OrderedExactly(transition.approvals);
    assert forall a :: a in transition.approvals ==> a.identity in delegates;
    ApprovingAll(delegates, transition.approvals);
    assert AllValid(delegates, selections, transition.approvals, IdentityMessage(transition.payload));
    VerifiesWhen(transition, previous, selections);
  }

  /** The promised rule holds of all transitions and selections exactly up to 65535 delegates. */
  lemma ThresholdRuleExactly(previous: IdentityState)
    requires Validate(previous.document).Ok? && previous.sequence < U64_MAX
    ensures (forall transition, selections :: Verify(transition, previous, selections).Ok? <==>
                                              Governed(transition, previous, selections))
       <==> |previous.document.delegates| <= U16_MAX
  {
    hide Verify, Governed, Validate;
    if |previous.document.delegates| <= U16_MAX {
      forall transition, selections
        ensures Verify(transition, previous, selections).Ok? <==> Governed(transition, previous, selections)
      {
        ThresholdRule(transition, previous, selections);
      }
    } else {
      UnanimityRejected(previous);
    }
  }

  /// Histories

  /** An accepted transition and the selections it was verified under. */
  datatype Step = Step(transition: IdentityTransition, selections: Selections)

  /** A repository's identity history: its founding document, the steps, and the state after each. */
  datatype IdentityChain = IdentityChain(document: IdentityDocument, steps: seq<Step>, states: seq<IdentityState>)

  predicate Founded(chain: IdentityChain) {
    |chain.states| == |chain.steps| + 1 && InitialState(chain.document) == Ok(chain.states[0])
  }

  predicate Follows(chain: IdentityChain, k: int)
    requires |chain.states| == |chain.steps| + 1 && 0 <= k < |chain.steps|
  {
    Verify(chain.steps[k].transition, chain.states[k], chain.steps[k].selections) == Ok(chain.states[k + 1])
  }

  predicate ValidChain(chain: IdentityChain) {
    Founded(chain) && forall k :: 0 <= k < |chain.steps| ==> Follows(chain, k)
  }

  /** Over any run the repository id is fixed, steps are numbered, and every document is valid. */
  lemma {:induction false} HistoryShape(chain: IdentityChain, k: nat)
    requires ValidChain(chain) && k < |chain.states|
    ensures var state := chain.states[k];
            && state.repository == RepositoryIdOf(chain.document)
            && state.sequence == k
            && Validate(state.document).Ok?
            && state.transition == (if k == 0 then Blake3(IDENTITY_ROOT_DOMAIN, DocumentContent(chain.document))
                                    else TransitionId(chain.steps[k - 1].transition))
            && (k > 0 ==> chain.steps[k - 1].transition.payload.sequence == k)
            && (k > 0 ==> state.document == chain.steps[k - 1].transition.payload.document)
  {
    if k > 0 {
      HistoryShape(chain, k - 1);
      assert Follows(chain, k - 1);
    }
  }

  /** No transition id recurs, the root's included. */
  lemma IdsDistinct(chain: IdentityChain, i: nat, j: nat)
    requires ValidChain(chain) && i < |chain.states| && j < |chain.states|
    requires chain.states[i].transition == chain.states[j].transition
    ensures i == j
  {
    HistoryShape(chain, i);
    HistoryShape(chain, j);
  }

  lemma VerifyContinues(transition: IdentityTransition, previous: IdentityState, selections: Selections)
    requires Verify(transition, previous, selections).Ok?
    ensures Continues(transition.payload, previous)
    ensures Verify(transition, previous, selections).value == NextState(transition, previous)
  {
  }

  /**
   A transition of one repository's history is accepted on the state it was made on and on no other state
   of that history, before or after, and on no state of any other repository's.
   */
  lemma AcceptedOnce(chain: IdentityChain, i: nat, other: IdentityChain, k: nat, selections: Selections)
    requires ValidChain(chain) && i < |chain.steps|
    requires ValidChain(other) && k < |other.states|
    requires chain == other || chain.document != other.document
    ensures Verify(chain.steps[i].transition, other.states[k], selections).Ok? ==> chain == other && k == i
  {
    if Verify(chain.steps[i].transition, other.states[k], selections).Ok? {
      assert Follows(chain, i);
      VerifyContinues(chain.steps[i].transition, chain.states[i], chain.steps[i].selections);
      VerifyContinues(chain.steps[i].transition, other.states[k], selections);
      HistoryShape(chain, i);
      HistoryShape(other, k);
    }
  }

  /** Two different transitions of one parent have different ids, and neither follows the other. */
  lemma SiblingsExclude(previous: IdentityState, a: IdentityTransition, b: IdentityTransition,
                        sa: Selections, sb: Selections, sc: Selections)
    requires Verify(a, previous, sa).Ok? && Verify(b, previous, sb).Ok? && a != b
    ensures Verify(a, previous, sa).value.transition != Verify(b, previous, sb).value.transition
    ensures Verify(b, Verify(a, previous, sa).value, sc).Err?
  {
    VerifyContinues(a, previous, sa);
    VerifyContinues(b, previous, sb);
  }

  /**
   A proposal of a valid document verifies, whatever the order of its approvals and whoever else approved,
   exactly when the last approval of each delegate is valid under its selected key and epoch, and enough
   distinct delegates approve, counted modulo 65536.
   */
  lemma ApprovedProposalVerifies(previous: IdentityState, document: IdentityDocument, given: seq<Approval>, selections: Selections)
    requires Proposed(previous, document).Ok? && Validate(document).Ok?
    ensures var transition := Proposed(previous, document).value.(approvals := Accumulate(given));
            var delegates := Delegates(previous.document);
            && (Verify(transition, previous, selections).Ok? <==>
                  && (forall a :: LastOf(given, a) && a.identity in delegates ==>
                        Endorses(selections, a, IdentityMessage(transition.payload)))
                  && |Approving(delegates, given)| % U16_COUNT >= previous.document.threshold)
            && (Verify(transition, previous, selections).Ok? ==>
                  Verify(transition, previous, selections) == Ok(NextState(transition, previous)))
  {
    hide Verify, Endorses, Approving, Validate, LastOf;
    var transition := Proposed(previous, document).value.(approvals := Accumulate(given));
    AccumulateIs(given);
    ApprovingAccumulated(Delegates(previous.document), given);
    VerifiesWhen(transition, previous, selections);
    ValidateExactly(document);
    OrderedExactly(Accumulate(given));
    if Verify(transition, previous, selections).Ok? {
      VerifyContinues(transition, previous, selections);
    }
  }

  /// Those who approve

  /** Somebody who approves: a binding and the private key at hand. */
  datatype Signer = Signer(binding: SignerBinding, key: SigningKey)

  predicate Selects(selections: Selections, binding: SignerBinding) {
    && binding.identity in selections
    && selections[binding.identity] == SignerSelection(binding.identity, binding.repositoryKey, binding.keyEpoch)
  }

  /** What `approve` adds is an endorsement of the proposal exactly if the binding's key and epoch are the selected ones. */
  lemma ApprovalEndorses(payload: IdentityPayload, signer: Signer, selections: Selections)
    requires signer.key.Public() == signer.binding.repositoryKey
    ensures Endorses(selections, ApprovalOf(payload, signer.binding, signer.key), IdentityMessage(payload)) <==>
            Selects(selections, signer.binding)
  {
  }

  function ApprovalsBy(payload: IdentityPayload, signers: seq<Signer>): (given: seq<Approval>)
    ensures |given| == |signers|
    ensures forall i :: 0 <= i < |given| ==> given[i] == ApprovalOf(payload, signers[i].binding, signers[i].key)
  {
    seq(|signers|, i requires 0 <= i < |signers| => ApprovalOf(payload, signers[i].binding, signers[i].key))
  }

  /** The last of the signers with its identity. */
  predicate SignsLast(signers: seq<Signer>, i: nat) {
    i < |signers| && forall j :: i < j < |signers| ==> signers[j].binding.identity != signers[i].binding.identity
  }

  /**
   Proposed and approved by these signers, in any order: the transition verifies exactly if the document is sensible,
   each delegate's last approval was under its selected key and epoch, and enough delegates approved, modulo 65536.
   */
  lemma SignersDecide(previous: IdentityState, document: IdentityDocument, signers: seq<Signer>, selections: Selections)
    requires Proposed(previous, document).Ok?
    requires forall s :: s in signers ==> s.key.Public() == s.binding.repositoryKey
    ensures var payload, delegates := Proposed(previous, document).value.payload, Delegates(previous.document);
            var transition := IdentityTransition(payload, Accumulate(ApprovalsBy(payload, signers)));
            Verify(transition, previous, selections).Ok? <==>
              && Sensible(document)
              && (forall i :: 0 <= i < |signers| && SignsLast(signers, i) && signers[i].binding.identity in delegates ==>
                    Selects(selections, signers[i].binding))
              && |set i | 0 <= i < |signers| && signers[i].binding.identity in delegates :: signers[i].binding.identity| % U16_COUNT
                   >= previous.document.threshold
  {
    hide Verify, Endorses, Validate, Sensible, Accumulate, Selects;
    var payload, delegates := Proposed(previous, document).value.payload, Delegates(previous.document);
    var given := ApprovalsBy(payload, signers);
    var transition := IdentityTransition(payload, Accumulate(given));
    ValidateExactly(document);
    VerifiesWhen(transition, previous, selections);
    if Sensible(document) {
      ApprovedProposalVerifies(previous, document, given, selections);
      assert Approving(delegates, given) ==
             set i | 0 <= i < |signers| && signers[i].binding.identity in delegates :: signers[i].binding.identity;
      LastSigners(payload, signers, selections, delegates);
    }
  }

  lemma LastSigners(payload: IdentityPayload, signers: seq<Signer>, selections: Selections, delegates: set<Identity>)
    requires forall s :: s in signers ==> s.key.Public() == s.binding.repositoryKey
    ensures (forall a :: LastOf(ApprovalsBy(payload, signers), a) && a.identity in delegates ==>
                         Endorses(selections, a, IdentityMessage(payload))) <==>
            forall i :: 0 <= i < |signers| && SignsLast(signers, i) && signers[i].binding.identity in delegates ==>
                        Selects(selections, signers[i].binding)
  {
    hide Endorses, Selects;
    var given := ApprovalsBy(payload, signers);
    forall i | 0 <= i < |signers|
      ensures Endorses(selections, given[i], IdentityMessage(payload)) <==> Selects(selections, signers[i].binding)
      ensures SignsLast(signers, i) ==> LastOf(given, given[i])
    {
      assert signers[i] in signers;
      ApprovalEndorses(payload, signers[i], selections);
    }
    forall a | LastOf(given, a)
      ensures exists i :: 0 <= i < |signers| && SignsLast(signers, i) && given[i] == a
    {
      var i :| 0 <= i < |given| && given[i] == a && forall j :: i < j < |given| ==> given[j].identity != a.identity;
      assert SignsLast(signers, i);
    }
  }

  lemma {:induction false} HasLast(given: seq<Approval>, i: nat) returns (a: Approval)
    requires i < |given|
    ensures LastOf(given, a) && a.identity == given[i].identity
    decreases |given| - i
  {
    if j :| i < j < |given| && given[j].identity == given[i].identity {
      a := HasLast(given, j);
    } else {
      a := given[i];
    }
  }

  lemma ApprovingAccumulated(delegates: set<Identity>, given: seq<Approval>)
    ensures Approving(delegates, Accumulate(given)) == Approving(delegates, given)
  {
    AccumulateIs(given);
    var list := Accumulate(given);
    forall identity | identity in Approving(delegates, given)
      ensures identity in Approving(delegates, list)
    {
      var i :| 0 <= i < |given| && given[i].identity == identity;
      var a := HasLast(given, i);
      assert a in list;
    }
    forall identity | identity in Approving(delegates, list)
      ensures identity in Approving(delegates, given)
    {
      var i :| 0 <= i < |list| && list[i].identity == identity;
      assert list[i] in list;
    }
  }
}
