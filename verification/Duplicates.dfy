/**
 Two calls that present the same transition at once.  The replication contract promises that both
 observe the same final state.  They do whenever both succeed; but one can fail, in two ways, because a
 later transition lands first.  Module Overtaken has the exact condition.
 */
module Duplicates {
  import opened Basics
  import opened CommitMachine
  import opened Core
  import opened History
  import opened Index
  import opened Refs
  import opened Solo
  import opened Store

  /** The state a transition leads to, wherever and whenever it is accepted. */
  function StateOf(id: RepositoryId, transition: RefTransition): RefState {
    var payload := transition.payload;
    RefState(id, payload.publisher, Refs.TransitionId(transition), payload.sequence, payload.refs)
  }

  lemma AcceptYields(id: RepositoryId, commit: Commit, previous: Option<RefState>)
    requires Accept(id, commit, previous).Ok?
    ensures Accept(id, commit, previous).value == StateOf(id, commit.transition)
    ensures StateOf(id, commit.transition).transition == Refs.TransitionId(commit.transition)
  {
  }

  /** A current state is the one its own transition leads to. */
  lemma CurrentIsOfTransition(links: GitObjectId -> set<GitObjectId>, id: RepositoryId, format: ObjectFormat,
                              steps: seq<Step>, publisher: Identity, transition: RefTransition)
    requires var state := CurrentState(Run(links, Initial(id, format), steps).repo, publisher);
             state.Some? && state.value.transition == Refs.TransitionId(transition)
    ensures CurrentState(Run(links, Initial(id, format), steps).repo, publisher) == Some(StateOf(id, transition))
  {
    hide Exec, Accept, CurrentState;
    var log := Effects(links, Initial(id, format), steps, publisher);
    CommitsLinearize(links, id, format, steps, publisher);
    var earlier := Replay(id, log[..|log| - 1]).value;
    AcceptYields(id, log[|log| - 1], earlier);
  }

  /** A plan, and what is reported of it, is the call's own transition applied. */
  predicate PlansOwn(id: RepositoryId, call: Call) {
    && (Plans(call.phase) ==> call.phase.next == StateOf(id, call.request.commit.transition))
    && (call.phase.Returned? && call.phase.result.Ok? && call.phase.result.value.Applied? ==>
          call.phase.result.value.state == StateOf(id, call.request.commit.transition))
  }

  lemma StepPlansOwn(links: GitObjectId -> set<GitObjectId>, s: Sys, step: Step, call: nat)
    requires At(s, call) ==> PlansOwn(s.repo.id, s.calls[call])
    ensures Exec(links, s, step).repo.id == s.repo.id
    ensures At(Exec(links, s, step), call) ==> PlansOwn(s.repo.id, Exec(links, s, step).calls[call])
  {
    hide Effective, TransactionResult;
    if At(s, call) && s.calls[call].phase.Resolved? {
      var previous := LoadState(s.repo, s.calls[call].request.Publisher(), s.calls[call].phase.stateId);
      if previous.Ok? && Accept(s.repo.id, s.calls[call].request.commit, PriorState(previous.value)).Ok? {
        AcceptYields(s.repo.id, s.calls[call].request.commit, PriorState(previous.value));
      }
    }
  }

  lemma {:induction false} RunPlansOwn(links: GitObjectId -> set<GitObjectId>, id: RepositoryId, format: ObjectFormat,
                                       steps: seq<Step>, call: nat)
    ensures var s := Run(links, Initial(id, format), steps);
            s.repo.id == id && (At(s, call) ==> PlansOwn(id, s.calls[call]))
  {
    hide Exec;
    if steps != [] {
      var n := |steps| - 1;
      RunPlansOwn(links, id, format, steps[..n], call);
      StepPlansOwn(links, Run(links, Initial(id, format), steps[..n]), steps[n], call);
    }
  }

  /** Whatever a call reports, applied or already present, is the state its transition leads to. */
  lemma ReportsTheState(links: GitObjectId -> set<GitObjectId>, id: RepositoryId, format: ObjectFormat,
                        steps: seq<Step>, call: nat, outcome: Outcome)
    requires var s := Run(links, Initial(id, format), steps);
             At(s, call) && s.calls[call].phase == Returned(Ok(outcome))
    ensures outcome.state == StateOf(id, Run(links, Initial(id, format), steps).calls[call].request.commit.transition)
  {
    hide Exec;
    var c := Run(links, Initial(id, format), steps).calls[call];
    if outcome.Applied? {
      RunPlansOwn(links, id, format, steps, call);
    } else {
      var k := AlreadyPresentWasCurrent(links, id, format, steps, call, outcome.state);
      CurrentIsOfTransition(links, id, format, steps[..k], c.request.Publisher(), c.request.commit.transition);
    }
  }

  /** Two calls with one transition that both succeed report the same state, in every run. */
  lemma DuplicatesAgree(links: GitObjectId -> set<GitObjectId>, id: RepositoryId, format: ObjectFormat,
                        steps: seq<Step>, a: nat, b: nat, first: Outcome, second: Outcome)
    requires var s := Run(links, Initial(id, format), steps);
             && At(s, a) && s.calls[a].phase == Returned(Ok(first))
             && At(s, b) && s.calls[b].phase == Returned(Ok(second))
             && s.calls[a].request.commit.transition == s.calls[b].request.commit.transition
    ensures first.state == second.state
  {
    hide Exec;
    ReportsTheState(links, id, format, steps, a, first);
    ReportsTheState(links, id, format, steps, b, second);
  }

  /// The later call

  lemma CurrentLoads(links: GitObjectId -> set<GitObjectId>, s: Sys, publisher: Identity)
    requires Inv(links, s)
    ensures var current := CurrentState(s.repo, publisher);
            LoadState(s.repo, publisher, ResolveRef(s.repo, StateRef(publisher))) ==
            Ok(if current.None? then None else Some(Prior(Blob(StateBlob(current.value)), current.value)))
  {
    hide RepoOk;
    CurrentIsLoaded(links, s.repo, publisher);
  }

  /**
   A call whose transaction failed reports its transition as present exactly if it is still the current
   one when the call looks again, and reports the failure otherwise.
   */
  lemma LoserLooksAgain(links: GitObjectId -> set<GitObjectId>, id: RepositoryId, format: ObjectFormat,
                        steps: seq<Step>, call: nat)
    requires var s := Run(links, Initial(id, format), steps); At(s, call) && s.calls[call].phase.Refused?
    ensures var s := Run(links, Initial(id, format), steps);
            var request := s.calls[call].request;
            var current := CurrentState(s.repo, request.Publisher());
            var later := Exec(links, Exec(links, s, Resolve(call, false)), Conclude(call));
            && At(later, call)
            && later.calls[call].phase ==
               Returned(if current.Some? && current.value.transition == request.Id()
                        then Ok(AlreadyPresent(current.value)) else Err(GitFailed))
  {
    hide Inv, LoadState, CurrentState;
    InitialInv(links, id, format);
    RunKeepsInv(links, Initial(id, format), steps);
    var s := Run(links, Initial(id, format), steps);
    CurrentLoads(links, s, s.calls[call].request.Publisher());
  }

  /// An overtaken call

  const KEY := SigningKey(0)
  const BINDING := SignerBinding(1, KEY.Public(), 0, true)
  const SELECTED := SignerSelection(1, KEY.Public(), 0)

  /** The publisher's first transition, of no references at all, and a second one on top of it. */
  function First(id: RepositoryId): RefTransition {
    var payload := RefPayload(1, id, 1, 0, None, 0, []);
    RefTransition(payload, KEY.Sign(SignatureFrame(payload)))
  }

  function Second(id: RepositoryId): RefTransition {
    var payload := RefPayload(1, id, 1, 0, Some(Refs.TransitionId(First(id))), 1, []);
    RefTransition(payload, KEY.Sign(SignatureFrame(payload)))
  }

  function RequestOf(transition: RefTransition): Request {
    Request(Commit(transition, BINDING, SELECTED), true, {})
  }

  lemma BothAccepted(id: RepositoryId)
    ensures Accept(id, Commit(First(id), BINDING, SELECTED), None) == Ok(StateOf(id, First(id)))
    ensures Accept(id, Commit(Second(id), BINDING, SELECTED), Some(StateOf(id, First(id)))) == Ok(StateOf(id, Second(id)))
    ensures Refs.TransitionId(First(id)) != Refs.TransitionId(Second(id))
  {
    ValidateRefsExact([]);
  }

  /** Everything up to the ref transaction. */
  function Prepare(call: nat): seq<Step> {
    [Resolve(call, false), Plan(call), Check(call, false), FinishPromotion(call), WriteState(call), WriteTransition(call)]
  }

  lemma RunTwo(links: GitObjectId -> set<GitObjectId>, start: Sys, steps: seq<Step>)
    requires |steps| == 2
    ensures Run(links, start, steps) == Exec(links, Exec(links, start, steps[0]), steps[1])
  {
    hide Exec, Run;
    assert steps == [steps[0]] + [steps[1]];
    RunConcat(links, start, [steps[0]], [steps[1]]);
    RunOne(links, start, steps[0]);
    RunOne(links, Exec(links, start, steps[0]), steps[1]);
  }

  lemma RunThree(links: GitObjectId -> set<GitObjectId>, start: Sys, steps: seq<Step>)
    requires |steps| == 3
    ensures Run(links, start, steps) == Exec(links, Exec(links, Exec(links, start, steps[0]), steps[1]), steps[2])
  {
    hide Exec, Run;
    assert steps == steps[..2] + [steps[2]];
    RunConcat(links, start, steps[..2], [steps[2]]);
    RunTwo(links, start, steps[..2]);
    RunOne(links, Run(links, start, steps[..2]), steps[2]);
  }

  lemma RunFour(links: GitObjectId -> set<GitObjectId>, start: Sys, steps: seq<Step>)
    requires |steps| == 4
    ensures Run(links, start, steps) ==
            Exec(links, Exec(links, Exec(links, Exec(links, start, steps[0]), steps[1]), steps[2]), steps[3])
  {
    hide Exec, Run;
    assert steps == steps[..2] + steps[2..];
    RunConcat(links, start, steps[..2], steps[2..]);
    RunTwo(links, start, steps[..2]);
    RunTwo(links, Run(links, start, steps[..2]), steps[2..]);
  }

  lemma RunSix(links: GitObjectId -> set<GitObjectId>, start: Sys, steps: seq<Step>)
    requires |steps| == 6
    ensures Run(links, start, steps) ==
            Exec(links, Exec(links, Exec(links, Exec(links, Exec(links, Exec(links, start,
              steps[0]), steps[1]), steps[2]), steps[3]), steps[4]), steps[5])
  {
    hide Exec, Run;
    assert steps == steps[..3] + steps[3..];
    RunConcat(links, start, steps[..3], steps[3..]);
    RunThree(links, start, steps[..3]);
    RunThree(links, Run(links, start, steps[..3]), steps[3..]);
  }

  /** What a fresh call reads. */
  function Found(repo: Repo): Option<Prior> {
    var current := CurrentState(repo, 1);
    if current.None? then None else Some(Prior(Blob(StateBlob(current.value)), current.value))
  }

  predicate MayPlan(s: Sys, call: nat, transition: RefTransition) {
    && At(s, call) && s.calls[call] == Call(RequestOf(transition), Entered)
    && (Found(s.repo).Some? ==> Found(s.repo).value.state.transition != Refs.TransitionId(transition))
    && Accept(s.repo.id, Commit(transition, BINDING, SELECTED), PriorState(Found(s.repo))) == Ok(StateOf(s.repo.id, transition))
    && StateOf(s.repo.id, transition).refs == []
  }

  lemma ReadsAndPlans(links: GitObjectId -> set<GitObjectId>, s: Sys, call: nat, transition: RefTransition)
    requires Inv(links, s) && MayPlan(s, call, transition)
    ensures Exec(links, Exec(links, s, Resolve(call, false)), Plan(call)) ==
            Goto(s, call, Planned(Found(s.repo), StateOf(s.repo.id, transition)))
  {
    hide Accept, Inv, LoadState, CurrentState, StateOf;
    CurrentLoads(links, s, 1);
  }

  lemma ChecksAndPromotes(links: GitObjectId -> set<GitObjectId>, s: Sys, call: nat, previous: Option<Prior>, next: RefState)
    requires At(s, call) && s.calls[call].phase == Planned(previous, next)
    requires s.calls[call].request.quarantine == {} && next.refs == []
    ensures Exec(links, Exec(links, s, Check(call, false)), FinishPromotion(call)) ==
            Goto(s, call, Promoted(previous, next))
  {
    assert CheckEach(s.repo.format, next.refs, s.repo.objects + {}) == Ok(());
    assert Connected(links, next.refs, s.repo.objects + {});
    assert CheckPhase(links, s.repo, s.calls[call], false) == Promoting(previous, next);
  }

  lemma WritesBlobs(links: GitObjectId -> set<GitObjectId>, s: Sys, call: nat, previous: Option<Prior>, next: RefState)
    requires At(s, call) && s.calls[call].phase == Promoted(previous, next)
    ensures Exec(links, Exec(links, s, WriteState(call)), WriteTransition(call)) ==
            Goto(s.(repo := s.repo.(blobs := s.repo.blobs + {StateBlob(next)} +
                                             {TransitionBlob(s.calls[call].request.commit.transition)})),
                 call, Ready(previous, next))
  {
  }

  lemma Prepares(links: GitObjectId -> set<GitObjectId>, s: Sys, call: nat, transition: RefTransition)
    requires Inv(links, s) && MayPlan(s, call, transition)
    ensures var later := Run(links, s, Prepare(call));
            && Inv(links, later)
            && later.calls == s.calls[call := Call(RequestOf(transition), Ready(Found(s.repo), StateOf(s.repo.id, transition)))]
            && later.repo.refs == s.repo.refs && later.repo.id == s.repo.id
  {
    hide Exec, Inv, Accept, CurrentState, StateOf;
    RunKeepsInv(links, s, Prepare(call));
    RunSix(links, s, Prepare(call));
    ReadsAndPlans(links, s, call, transition);
    var planned := Goto(s, call, Planned(Found(s.repo), StateOf(s.repo.id, transition)));
    ChecksAndPromotes(links, planned, call, Found(s.repo), StateOf(s.repo.id, transition));
    var promoted := Goto(planned, call, Promoted(Found(s.repo), StateOf(s.repo.id, transition)));
    WritesBlobs(links, promoted, call, Found(s.repo), StateOf(s.repo.id, transition));
  }

  /** A transaction whose state was read is still current goes through, another is refused. */
  lemma Transacts(links: GitObjectId -> set<GitObjectId>, s: Sys, call: nat)
    requires Inv(links, s) && At(s, call) && s.calls[call].phase.Ready? && s.calls[call].request.Publisher() == 1
    ensures var later := Exec(links, s, RunTransaction(call, Faithful));
            && Inv(links, later) && later.repo.id == s.repo.id
            && if CurrentState(s.repo, 1) == PriorState(s.calls[call].phase.previous)
               then CurrentState(later.repo, 1) == Some(s.calls[call].phase.next)
                    && later.calls == s.calls[call := s.calls[call].(phase := Returned(Ok(Applied(s.calls[call].phase.next))))]
               else later == Goto(s, call, Refused)
  {
    hide Inv, CurrentState, Effective, TransactionResult;
    EffectiveWhen(links, s, call, Faithful);
    StepKeepsInv(links, s, RunTransaction(call, Faithful));
    if Effective(s, RunTransaction(call, Faithful)) {
      TransactionKeepsInv(links, s, RunTransaction(call, Faithful));
    }
  }

  lemma Enters(links: GitObjectId -> set<GitObjectId>, s: Sys, call: nat, transition: RefTransition)
    requires Inv(links, s) && !At(s, call)
    ensures Exec(links, s, Enter(call, RequestOf(transition))) == s.(calls := s.calls[call := Call(RequestOf(transition), Entered)])
    ensures Inv(links, Exec(links, s, Enter(call, RequestOf(transition))))
  {
    hide Inv;
    StepKeepsInv(links, s, Enter(call, RequestOf(transition)));
  }

  /** Calls 0 and 1 present the first transition; call 2 lands the second one before call 1 is through. */
  function Overtaking(id: RepositoryId): seq<Step> {
    var first, second := RequestOf(First(id)), RequestOf(Second(id));
    [Enter(0, first), Enter(1, first), Enter(2, second)] + Prepare(0) + Prepare(1) + [RunTransaction(0, Faithful)]
    + Prepare(2) + [RunTransaction(2, Faithful), RunTransaction(1, Faithful), Resolve(1, false), Conclude(1)]
  }

  /** The three calls have entered an empty repository. */
  function AllEntered(id: RepositoryId, format: ObjectFormat): Sys {
    Initial(id, format).(calls := map[0 := Call(RequestOf(First(id)), Entered), 1 := Call(RequestOf(First(id)), Entered),
                                      2 := Call(RequestOf(Second(id)), Entered)])
  }

  lemma AllEnter(links: GitObjectId -> set<GitObjectId>, id: RepositoryId, format: ObjectFormat)
    ensures Exec(links, Exec(links, Exec(links, Initial(id, format), Enter(0, RequestOf(First(id)))),
                             Enter(1, RequestOf(First(id)))), Enter(2, RequestOf(Second(id)))) == AllEntered(id, format)
    ensures Inv(links, AllEntered(id, format))
    ensures CurrentState(AllEntered(id, format).repo, 1) == None
  {
    hide Exec, Inv;
    InitialInv(links, id, format);
    var s := Initial(id, format);
    Enters(links, s, 0, First(id));
    s := Exec(links, s, Enter(0, RequestOf(First(id))));
    Enters(links, s, 1, First(id));
    s := Exec(links, s, Enter(1, RequestOf(First(id))));
    Enters(links, s, 2, Second(id));
    s := Exec(links, s, Enter(2, RequestOf(Second(id))));
    assert s.calls == AllEntered(id, format).calls;
  }

  /** Both duplicates are prepared, the first lands, and the second transition is prepared on top of it. */
  lemma OneLands(links: GitObjectId -> set<GitObjectId>, id: RepositoryId, s: Sys) returns (later: Sys)
    requires Inv(links, s) && s.repo.id == id && CurrentState(s.repo, 1) == None
    requires At(s, 0) && s.calls[0] == Call(RequestOf(First(id)), Entered)
    requires At(s, 1) && s.calls[1] == Call(RequestOf(First(id)), Entered)
    requires At(s, 2) && s.calls[2] == Call(RequestOf(Second(id)), Entered)
    ensures later.calls.Keys == s.calls.Keys
    ensures later == Run(links, Exec(links, Run(links, Run(links, s, Prepare(0)), Prepare(1)), RunTransaction(0, Faithful)), Prepare(2))
    ensures Inv(links, later) && later.repo.id == id && CurrentState(later.repo, 1) == Some(StateOf(id, First(id)))
    ensures At(later, 0) && later.calls[0].phase == Returned(Ok(Applied(StateOf(id, First(id)))))
    ensures At(later, 1) && later.calls[1] == Call(RequestOf(First(id)), Ready(None, StateOf(id, First(id))))
    ensures At(later, 2) && later.calls[2].request == RequestOf(Second(id))
    ensures later.calls[2].phase.Ready? && later.calls[2].phase.next == StateOf(id, Second(id))
    ensures PriorState(later.calls[2].phase.previous) == Some(StateOf(id, First(id)))
  {
    hide Exec, Run, Inv, Accept;
    BothAccepted(id);
    Prepares(links, s, 0, First(id));
    var s1 := Run(links, s, Prepare(0));
    SameRefs(s.repo, s1.repo);
    Prepares(links, s1, 1, First(id));
    var s2 := Run(links, s1, Prepare(1));
    SameRefs(s1.repo, s2.repo);
    Transacts(links, s2, 0);
    var s3 := Exec(links, s2, RunTransaction(0, Faithful));
    Prepares(links, s3, 2, Second(id));
    later := Run(links, s3, Prepare(2));
    SameRefs(s3.repo, later.repo);
  }

  lemma SameRefs(repo: Repo, repo': Repo)
    requires repo.refs == repo'.refs
    ensures CurrentState(repo, 1) == CurrentState(repo', 1)
  {
  }

  /** The second transition lands, and the late duplicate fails although its transition was committed. */
  lemma LateFails(links: GitObjectId -> set<GitObjectId>, id: RepositoryId, s: Sys) returns (later: Sys)
    requires Inv(links, s) && s.repo.id == id && CurrentState(s.repo, 1) == Some(StateOf(id, First(id)))
    requires At(s, 0) && At(s, 1) && s.calls[1] == Call(RequestOf(First(id)), Ready(None, StateOf(id, First(id))))
    requires At(s, 2) && s.calls[2].request == RequestOf(Second(id)) && s.calls[2].phase.Ready?
    requires s.calls[2].phase.next == StateOf(id, Second(id))
    requires PriorState(s.calls[2].phase.previous) == Some(StateOf(id, First(id)))
    ensures later == Exec(links, Exec(links, Exec(links, Exec(links, s, RunTransaction(2, Faithful)),
                       RunTransaction(1, Faithful)), Resolve(1, false)), Conclude(1))
    ensures Inv(links, later) && later.repo.id == id && later.calls.Keys == s.calls.Keys
    ensures CurrentState(later.repo, 1) == Some(StateOf(id, Second(id)))
    ensures At(later, 0) && later.calls[0] == s.calls[0]
    ensures At(later, 1) && later.calls[1].phase == Returned(Err(GitFailed))
  {
    hide Inv, TransactionResult, Effective, Accept;
    BothAccepted(id);
    Transacts(links, s, 2);
    var s1 := Exec(links, s, RunTransaction(2, Faithful));
    Transacts(links, s1, 1);
    var s2 := Exec(links, s1, RunTransaction(1, Faithful));
    CurrentLoads(links, s2, 1);
    var s3 := Exec(links, s2, Resolve(1, false));
    later := Exec(links, s3, Conclude(1));
    StepKeepsInv(links, s2, Resolve(1, false));
    StepKeepsInv(links, s3, Conclude(1));
    SameRefs(s2.repo, later.repo);
  }

  /** Read out step by step, the run is these pieces. */
  lemma OvertakingRun(links: GitObjectId -> set<GitObjectId>, id: RepositoryId, format: ObjectFormat)
    ensures var entered := AllEntered(id, format);
            var landed := Run(links, Exec(links, Run(links, Run(links, entered, Prepare(0)), Prepare(1)),
                                          RunTransaction(0, Faithful)), Prepare(2));
            Run(links, Initial(id, format), Overtaking(id)) ==
            Exec(links, Exec(links, Exec(links, Exec(links, landed, RunTransaction(2, Faithful)),
              RunTransaction(1, Faithful)), Resolve(1, false)), Conclude(1))
  {
    hide Exec, Run, Prepare, RequestOf;
    var start := Initial(id, format);
    var first, second := RequestOf(First(id)), RequestOf(Second(id));
    var enter := [Enter(0, first), Enter(1, first), Enter(2, second)];
    var land: seq<Step> := [RunTransaction(0, Faithful)];
    var end := [RunTransaction(2, Faithful), RunTransaction(1, Faithful), Resolve(1, false), Conclude(1)];
    RunConcat(links, start, enter + Prepare(0) + Prepare(1) + land + Prepare(2), end);
    RunConcat(links, start, enter + Prepare(0) + Prepare(1) + land, Prepare(2));
    RunConcat(links, start, enter + Prepare(0) + Prepare(1), land);
    RunConcat(links, start, enter + Prepare(0), Prepare(1));
    RunConcat(links, start, enter, Prepare(0));
    AllEnter(links, id, format);
    RunThree(links, start, enter);
    RunOne(links, Run(links, start, enter + Prepare(0) + Prepare(1)), land[0]);
    RunFour(links, Run(links, start, enter + Prepare(0) + Prepare(1) + land + Prepare(2)), end);
  }

  /**
   The contract's promise fails: of two calls with the same transition one reports it applied, the other
   reports an error, although nothing was broken and the transition is part of the history.
   */
  lemma DuplicateOvertaken(links: GitObjectId -> set<GitObjectId>, id: RepositoryId, format: ObjectFormat)
    ensures var end := Run(links, Initial(id, format), Overtaking(id));
            && At(end, 0) && end.calls[0].phase == Returned(Ok(Applied(StateOf(id, First(id)))))
            && At(end, 1) && end.calls[1].phase == Returned(Err(GitFailed))
  {
    hide Exec, Run, Inv;
    AllEnter(links, id, format);
    OvertakingRun(links, id, format);
    var landed := OneLands(links, id, AllEntered(id, format));
    var end := LateFails(links, id, landed);
  }

  /** A third call presents the first transition when all this is over. */
  function LateArrival(id: RepositoryId): seq<Step> {
    [Enter(3, RequestOf(First(id))), Resolve(3, false), Plan(3)]
  }

  /** A duplicate whose first look already finds a later state is refused before any transaction. */
  lemma LateArrivalRefused(links: GitObjectId -> set<GitObjectId>, id: RepositoryId, s: Sys)
    requires Inv(links, s) && s.repo.id == id && !At(s, 3) && CurrentState(s.repo, 1) == Some(StateOf(id, Second(id)))
    ensures var end := Run(links, s, LateArrival(id));
            At(end, 3) && end.calls[3].phase == Returned(Err(CoreFailed(InvalidRefTransition(ContextMismatch))))
  {
    hide Exec, Inv, CurrentState, LoadState;
    RunThree(links, s, LateArrival(id));
    Enters(links, s, 3, First(id));
    var entered := Exec(links, s, Enter(3, RequestOf(First(id))));
    LateLook(links, id, entered);
  }

  lemma SecondExcludesFirst(id: RepositoryId)
    ensures Accept(id, Commit(First(id), BINDING, SELECTED), Some(StateOf(id, Second(id))))
         == Err(InvalidRefTransition(ContextMismatch))
  {
  }

  lemma LateLook(links: GitObjectId -> set<GitObjectId>, id: RepositoryId, s: Sys)
    requires Inv(links, s) && s.repo.id == id && CurrentState(s.repo, 1) == Some(StateOf(id, Second(id)))
    requires At(s, 3) && s.calls[3] == Call(RequestOf(First(id)), Entered)
    ensures var end := Exec(links, Exec(links, s, Resolve(3, false)), Plan(3));
            At(end, 3) && end.calls[3].phase == Returned(Err(CoreFailed(InvalidRefTransition(ContextMismatch))))
  {
    hide Inv, CurrentState, LoadState, Accept;
    BothAccepted(id);
    CurrentLoads(links, s, 1);
    SecondExcludesFirst(id);
  }

  /** The other way to miss: the same run, and a duplicate that comes after it, answered by a core error. */
  lemma DuplicateTooLate(links: GitObjectId -> set<GitObjectId>, id: RepositoryId, format: ObjectFormat)
    ensures var end := Run(links, Initial(id, format), Overtaking(id) + LateArrival(id));
            At(end, 3) && end.calls[3].phase == Returned(Err(CoreFailed(InvalidRefTransition(ContextMismatch))))
  {
    hide Exec, Run, Inv;
    AllEnter(links, id, format);
    OvertakingRun(links, id, format);
    var landed := OneLands(links, id, AllEntered(id, format));
    var end := LateFails(links, id, landed);
    RunConcat(links, Initial(id, format), Overtaking(id), LateArrival(id));
    LateArrivalRefused(links, id, end);
  }
}
