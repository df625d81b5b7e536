/** What calls are told, against what happened: effects, looks and answers over whole runs of the machine. */
module Answers {
  import opened Basics
  import opened CommitMachine
  import opened Core
  import opened History
  import opened Index
  import opened Refs
  import opened Solo
  import opened Store

  /// The door

  /** A call for another repository, or whose binding is not genuine or not the selected one, is answered so and no more. */
  predicate AtTheDoor(c: Call) {
    if !c.request.home then c.phase == Returned(Err(RepositoryMismatch))
    else if !Bound(c.request.commit.binding, c.request.commit.selected) then c.phase == Returned(Err(CoreFailed(InvalidBinding)))
    else true
  }

  lemma DoorStep(links: GitObjectId -> set<GitObjectId>, s: Sys, step: Step, call: nat)
    requires At(Exec(links, s, step), call) && (At(s, call) ==> AtTheDoor(s.calls[call]))
    ensures AtTheDoor(Exec(links, s, step).calls[call])
  {
    hide TransactionResult, Effective, PlanPhase, ConcludePhase, CheckPhase, Shown, Arrive;
    ArriveExactly(Exec(links, s, step).calls[call].request);
  }

  /**
   In every run, a call that reports success, or is under way at all, was presented to its own repository under
   a genuine binding and the selection of that binding; any other has been answered with the reason.
   */
  lemma {:induction false} OnlyTheBoundEnter(links: GitObjectId -> set<GitObjectId>, id: RepositoryId, format: ObjectFormat,
                                             steps: seq<Step>, call: nat)
    ensures var s := Run(links, Initial(id, format), steps); At(s, call) ==> AtTheDoor(s.calls[call])
  {
    hide Exec, AtTheDoor;
    if steps != [] {
      var n := |steps| - 1;
      OnlyTheBoundEnter(links, id, format, steps[..n], call);
      if At(Run(links, Initial(id, format), steps), call) {
        DoorStep(links, Run(links, Initial(id, format), steps[..n]), steps[n], call);
      }
    }
  }

  /// The answer "applied"

  predicate ReportsApplied(s: Sys, call: nat, state: RefState) {
    At(s, call) && s.calls[call].phase == Returned(Ok(Applied(state)))
  }

  /** A call comes to report "applied" in the step that makes its transaction take effect, and in no other. */
  lemma AppliedStep(links: GitObjectId -> set<GitObjectId>, s: Sys, step: Step, call: nat, state: RefState)
    requires ReportsApplied(Exec(links, s, step), call, state)
    ensures At(s, call) && s.calls[call].request == Exec(links, s, step).calls[call].request
    ensures ReportsApplied(s, call, state) ||
            (step == RunTransaction(call, Faithful) && Effective(s, step) && s.calls[call].phase.next == state)
  {
    hide TransactionResult;
  }

  /**
   An answer "applied" is no mere answer: it comes from one step of the run, the call's own transaction,
   which took effect and made the reported state the publisher's current one.
   */
  lemma {:induction false} AppliedTookEffect(links: GitObjectId -> set<GitObjectId>, id: RepositoryId, format: ObjectFormat,
                                             steps: seq<Step>, call: nat, state: RefState) returns (k: nat)
    requires ReportsApplied(Run(links, Initial(id, format), steps), call, state)
    ensures k < |steps| && steps[k] == RunTransaction(call, Faithful)
    ensures var before := Run(links, Initial(id, format), steps[..k]);
            var request := Run(links, Initial(id, format), steps).calls[call].request;
            && Effective(before, steps[k]) && before.calls[call].request == request
            && CurrentState(Run(links, Initial(id, format), steps[..k + 1]).repo, request.Publisher()) == Some(state)
  {
    hide Exec, Effective, CurrentState;
    var start := Initial(id, format);
    var n := |steps| - 1;
    var before := Run(links, start, steps[..n]);
    AppliedStep(links, before, steps[n], call, state);
    if ReportsApplied(before, call, state) {
      k := AppliedTookEffect(links, id, format, steps[..n], call, state);
      assert steps[..n][..k] == steps[..k] && steps[..n][..k + 1] == steps[..k + 1];
    } else {
      k := n;
      InitialInv(links, id, format);
      RunKeepsInv(links, start, steps[..n]);
      TransactionKeepsInv(links, before, steps[n]);
      assert steps[..n + 1] == steps;
    }
  }

  /** In every run, at most one call answers "applied" for a transition. */
  lemma AnsweredAppliedOnce(links: GitObjectId -> set<GitObjectId>, id: RepositoryId, format: ObjectFormat,
                            steps: seq<Step>, a: nat, b: nat, first: RefState, second: RefState)
    requires var s := Run(links, Initial(id, format), steps);
             && ReportsApplied(s, a, first) && ReportsApplied(s, b, second)
             && s.calls[a].request.Id() == s.calls[b].request.Id()
    ensures a == b
  {
    hide Exec, Effective, CurrentState;
    var i := AppliedTookEffect(links, id, format, steps, a, first);
    var j := AppliedTookEffect(links, id, format, steps, b, second);
    if i < j {
      AppliedAtMostOnce(links, id, format, steps, i, j);
    } else if j < i {
      AppliedAtMostOnce(links, id, format, steps, j, i);
    }
  }

  /**
   The answer fits the linearization: replaying the publisher's effects up to the step of the answer ends
   with this call's commit and in the state it reports.
   */
  lemma AppliedIsLinearized(links: GitObjectId -> set<GitObjectId>, id: RepositoryId, format: ObjectFormat,
                            steps: seq<Step>, call: nat, state: RefState) returns (k: nat)
    requires ReportsApplied(Run(links, Initial(id, format), steps), call, state)
    ensures k < |steps| && steps[k] == RunTransaction(call, Faithful)
    ensures var request := Run(links, Initial(id, format), steps).calls[call].request;
            var log := Effects(links, Initial(id, format), steps[..k + 1], request.Publisher());
            && log != [] && log[|log| - 1] == request.commit
            && Replay(id, log) == Ok(Some(state))
  {
    hide Exec, Effective, CurrentState, Accept;
    k := AppliedTookEffect(links, id, format, steps, call, state);
    var request := Run(links, Initial(id, format), steps).calls[call].request;
    CommitsLinearize(links, id, format, steps[..k + 1], request.Publisher());
    assert steps[..k + 1][..k] == steps[..k];
  }

  /// Looks

  /** This step is a look: the call resolves its publisher's state ref, for the first or the second time. */
  predicate IsLook(s: Sys, step: Step, call: nat) {
    && step.Resolve? && step.call == call && At(s, call)
    && (s.calls[call].phase.Entered? || s.calls[call].phase.Refused?)
  }

  /** The step of the call's last look. */
  ghost function LastLook(links: GitObjectId -> set<GitObjectId>, start: Sys, steps: seq<Step>, call: nat): (k: Option<nat>)
    ensures k.Some? ==> k.value < |steps|
  {
    if steps == [] then None
    else
      var n := |steps| - 1;
      if IsLook(Run(links, start, steps[..n]), steps[n], call) then Some(n)
      else LastLook(links, start, steps[..n], call)
  }

  /** The call's own transaction took effect at some step. */
  ghost predicate TookEffect(links: GitObjectId -> set<GitObjectId>, start: Sys, steps: seq<Step>, call: nat) {
    exists k :: 0 <= k < |steps| && steps[k].call == call && Effective(Run(links, start, steps[..k]), steps[k])
  }

  lemma TookEffectStep(links: GitObjectId -> set<GitObjectId>, start: Sys, steps: seq<Step>, call: nat)
    requires steps != []
    ensures var n := |steps| - 1;
            TookEffect(links, start, steps, call) <==>
            TookEffect(links, start, steps[..n], call) ||
            (steps[n].call == call && Effective(Run(links, start, steps[..n]), steps[n]))
  {
    hide Exec, Effective;
    var n := |steps| - 1;
    if TookEffect(links, start, steps[..n], call) {
      var k :| 0 <= k < n && steps[..n][k].call == call && Effective(Run(links, start, steps[..n][..k]), steps[..n][k]);
      assert steps[..n][..k] == steps[..k];
      assert steps[k].call == call && Effective(Run(links, start, steps[..k]), steps[k]);
    }
    if TookEffect(links, start, steps, call) {
      var k :| 0 <= k < |steps| && steps[k].call == call && Effective(Run(links, start, steps[..k]), steps[k]);
      if k < n {
        assert steps[..n][..k] == steps[..k];
        assert steps[..n][k].call == call && Effective(Run(links, start, steps[..n][..k]), steps[..n][k]);
      }
    }
  }

  /** The publisher's state at the call's last look. */
  ghost function Seen(links: GitObjectId -> set<GitObjectId>, start: Sys, steps: seq<Step>, call: nat, publisher: Identity)
    : Option<RefState>
  {
    var look := LastLook(links, start, steps, call);
    if look.None? then None else CurrentState(Run(links, start, steps[..look.value]).repo, publisher)
  }

  lemma SeenStep(links: GitObjectId -> set<GitObjectId>, start: Sys, steps: seq<Step>, call: nat, publisher: Identity)
    requires steps != []
    ensures var n := |steps| - 1;
            var before := Run(links, start, steps[..n]);
            Seen(links, start, steps, call, publisher) ==
            if IsLook(before, steps[n], call) then CurrentState(before.repo, publisher)
            else Seen(links, start, steps[..n], call, publisher)
  {
    hide Exec, IsLook;
    var n := |steps| - 1;
    var look := LastLook(links, start, steps[..n], call);
    if look.Some? {
      assert steps[..n][..look.value] == steps[..look.value];
    }
  }

  /**
   Nothing goes wrong with the call itself: it is not stopped, none of its looks is lost, and it is told of
   its transaction if that takes effect.  Git may still refuse its objects and its transaction.
   */
  predicate Undisturbed(steps: seq<Step>, call: nat) {
    forall k :: 0 <= k < |steps| && steps[k].call == call ==> Honest(steps[k])
  }

  predicate Honest(step: Step) {
    !step.Fail? && (step.Resolve? ==> !step.lost) && (step.RunTransaction? ==> !step.fate.AppliedUnseen?)
  }

  predicate Finds(seen: Option<RefState>, request: Request) {
    seen.Some? && seen.value.transition == request.Id()
  }

  /** The state that was seen can still be loaded. */
  predicate Loadable(repo: Repo, publisher: Identity, seen: Option<RefState>) {
    seen.Some? ==>
      StateBlob(seen.value) in repo.blobs && seen.value.repository == repo.id && seen.value.publisher == publisher
  }

  function StateId(seen: Option<RefState>): Option<Id> {
    if seen.None? then None else Some(Blob(StateBlob(seen.value)))
  }

  /** What a phase tells of the effect and the last look. */
  predicate Tells(phase: Phase, request: Request, took: bool, seen: Option<RefState>) {
    match phase
    case Entered => !took && !Finds(seen, request)
    case Resolved(stateId) => !took && stateId == StateId(seen)
    case ResolvedAgain(stateId) => !took && stateId == StateId(seen)
    case Returned(r) => r.Ok? <==> took || Finds(seen, request)
    case _ => !took && !Finds(seen, request)
  }

  lemma LookIsCurrent(links: GitObjectId -> set<GitObjectId>, s: Sys, publisher: Identity)
    requires Inv(links, s)
    ensures ResolveRef(s.repo, StateRef(publisher)) == StateId(CurrentState(s.repo, publisher))
    ensures Loadable(s.repo, publisher, CurrentState(s.repo, publisher))
  {
    hide ObjectsReal, Connected, ValidRefs, TargetsPresent, Chained;
    var key: Key := StateRef(publisher);
    assert Agrees(s.repo, publisher);
    assert ResolveRef(s.repo, key) == Indexed(CurrentState(s.repo, publisher), key);
    if CurrentState(s.repo, publisher).Some? {
      assert Sound(s.repo, publisher, CurrentState(s.repo, publisher).value);
    }
  }

  lemma LoadsSeen(repo: Repo, publisher: Identity, seen: Option<RefState>)
    requires Loadable(repo, publisher, seen)
    ensures LoadState(repo, publisher, StateId(seen)) ==
            Ok(if seen.None? then None else Some(Prior(Blob(StateBlob(seen.value)), seen.value)))
  {
  }

  /** One step keeps what the call's phase tells. */
  lemma TellsStep(links: GitObjectId -> set<GitObjectId>, s: Sys, step: Step, call: nat, took: bool, seen: Option<RefState>)
    requires Inv(links, s) && At(s, call) && (step.call == call ==> Honest(step))
    requires var publisher := s.calls[call].request.Publisher();
             Loadable(s.repo, publisher, seen) && Tells(s.calls[call].phase, s.calls[call].request, took, seen)
    ensures var s' := Exec(links, s, step);
            var request := s.calls[call].request;
            var took' := took || (step.call == call && Effective(s, step));
            var seen' := if IsLook(s, step, call) then CurrentState(s.repo, request.Publisher()) else seen;
            && At(s', call) && s'.calls[call].request == request
            && Loadable(s'.repo, request.Publisher(), seen')
            && Tells(s'.calls[call].phase, request, took', seen')
  {
    hide Inv, CurrentState, LoadState, TransactionResult, Accept, CheckTargets;
    var request := s.calls[call].request;
    LookIsCurrent(links, s, request.Publisher());
    LoadsSeen(s.repo, request.Publisher(), seen);
  }

  lemma CallsStay(links: GitObjectId -> set<GitObjectId>, s: Sys, step: Step, call: nat)
    requires At(s, call)
    ensures At(Exec(links, s, step), call)
  {
    hide TransactionResult, Effective;
  }

  /** A call that has not entered has looked at nothing and moved nothing. */
  lemma {:induction false} NotEntered(links: GitObjectId -> set<GitObjectId>, start: Sys, steps: seq<Step>, call: nat)
    requires !At(Run(links, start, steps), call)
    ensures !TookEffect(links, start, steps, call) && LastLook(links, start, steps, call).None?
  {
    hide Exec, TransactionResult;
    if steps != [] {
      var n := |steps| - 1;
      var before := Run(links, start, steps[..n]);
      if At(before, call) {
        CallsStay(links, before, steps[n], call);
      }
      NotEntered(links, start, steps[..n], call);
      TookEffectStep(links, start, steps, call);
    }
  }

  lemma EnterTells(links: GitObjectId -> set<GitObjectId>, s: Sys, step: Step, call: nat)
    requires !At(s, call) && At(Exec(links, s, step), call)
    ensures var c := Exec(links, s, step).calls[call];
            Tells(c.phase, c.request, false, None)
  {
    hide TransactionResult, Effective;
  }

  lemma {:induction false} RunTells(links: GitObjectId -> set<GitObjectId>, id: RepositoryId, format: ObjectFormat,
                                    steps: seq<Step>, call: nat)
    requires Undisturbed(steps, call) && At(Run(links, Initial(id, format), steps), call)
    ensures var s := Run(links, Initial(id, format), steps);
            var request := s.calls[call].request;
            var seen := Seen(links, Initial(id, format), steps, call, request.Publisher());
            && Loadable(s.repo, request.Publisher(), seen)
            && Tells(s.calls[call].phase, request, TookEffect(links, Initial(id, format), steps, call), seen)
  {
    hide Exec, Effective, Tells, Loadable, IsLook, CurrentState, TookEffect, Seen, LastLook, Honest;
    var start := Initial(id, format);
    var n := |steps| - 1;
    var before := Run(links, start, steps[..n]);
    TookEffectStep(links, start, steps, call);
    if At(before, call) {
      assert Undisturbed(steps[..n], call);
      InitialInv(links, id, format);
      RunKeepsInv(links, start, steps[..n]);
      var publisher := before.calls[call].request.Publisher();
      RunTells(links, id, format, steps[..n], call);
      SeenStep(links, start, steps, call, publisher);
      TellsStep(links, before, steps[n], call, TookEffect(links, start, steps[..n], call),
                Seen(links, start, steps[..n], call, publisher));
    } else {
      EnteringTells(links, start, steps, call);
    }
  }

  lemma EnteringTells(links: GitObjectId -> set<GitObjectId>, start: Sys, steps: seq<Step>, call: nat)
    requires steps != [] && !At(Run(links, start, steps[..|steps| - 1]), call) && At(Run(links, start, steps), call)
    ensures var s := Run(links, start, steps);
            var request := s.calls[call].request;
            var seen := Seen(links, start, steps, call, request.Publisher());
            && Loadable(s.repo, request.Publisher(), seen)
            && Tells(s.calls[call].phase, request, TookEffect(links, start, steps, call), seen)
  {
    hide Exec, TransactionResult, Tells;
    var n := |steps| - 1;
    NotEntered(links, start, steps[..n], call);
    TookEffectStep(links, start, steps, call);
    EnterTells(links, Run(links, start, steps[..n]), steps[n], call);
  }

  /// What a look shows

  /** The commit with this transition is the publisher's latest effect so far. */
  ghost predicate IsLatest(log: seq<Commit>, transition: RefTransition) {
    log != [] && log[|log| - 1].transition == transition
  }

  /** Of an effect that is in the log: nothing later is. */
  lemma LatestMeansNothingLater(id: RepositoryId, log: seq<Commit>, i: nat)
    requires Replay(id, log).Ok? && i < |log|
    ensures IsLatest(log, log[i].transition) <==> i == |log| - 1
  {
    var chain := ReplayIsChain(id, log);
    if log[|log| - 1].transition == log[i].transition {
      HistoryDistinct(id, chain, i, |log| - 1);
    }
  }

  /** A transition is current exactly if its commit is the publisher's latest effect. */
  lemma CurrentIsLatest(links: GitObjectId -> set<GitObjectId>, id: RepositoryId, format: ObjectFormat,
                        steps: seq<Step>, request: Request)
    ensures Finds(CurrentState(Run(links, Initial(id, format), steps).repo, request.Publisher()), request) <==>
            IsLatest(Effects(links, Initial(id, format), steps, request.Publisher()), request.commit.transition)
  {
    hide Exec, CurrentState, Finds, IsLatest, Accept;
    var log := Effects(links, Initial(id, format), steps, request.Publisher());
    CommitsLinearize(links, id, format, steps, request.Publisher());
    LastIsFound(id, log, CurrentState(Run(links, Initial(id, format), steps).repo, request.Publisher()), request);
  }

  lemma LastIsFound(id: RepositoryId, log: seq<Commit>, current: Option<RefState>, request: Request)
    requires Replay(id, log) == Ok(current)
    ensures Finds(current, request) <==> IsLatest(log, request.commit.transition)
  {
    hide Accept;
    if log != [] {
      AcceptedIsOwn(id, log[|log| - 1], Replay(id, log[..|log| - 1]).value);
    }
  }

  lemma AcceptedIsOwn(id: RepositoryId, commit: Commit, previous: Option<RefState>)
    requires Accept(id, commit, previous).Ok?
    ensures Accept(id, commit, previous).value.transition == TransitionId(commit.transition)
  {
  }

  /** At its last look the call found its own commit to be the publisher's latest effect. */
  ghost predicate FoundItself(links: GitObjectId -> set<GitObjectId>, start: Sys, steps: seq<Step>, call: nat, request: Request) {
    var look := LastLook(links, start, steps, call);
    look.Some? && IsLatest(Effects(links, start, steps[..look.value], request.Publisher()), request.commit.transition)
  }

  lemma SeenIsFound(links: GitObjectId -> set<GitObjectId>, id: RepositoryId, format: ObjectFormat,
                    steps: seq<Step>, call: nat, request: Request)
    ensures Finds(Seen(links, Initial(id, format), steps, call, request.Publisher()), request) <==>
            FoundItself(links, Initial(id, format), steps, call, request)
  {
    hide Exec, CurrentState, IsLatest, LastLook;
    var look := LastLook(links, Initial(id, format), steps, call);
    if look.Some? {
      CurrentIsLatest(links, id, format, steps[..look.value], request);
    }
  }

  /**
   When a call succeeds: in every run, an undisturbed call that has returned reports success exactly if its
   own transaction took effect, or its commit was the publisher's latest effect at the call's last look,
   whether that was the first one, before anything was verified, or the second, after a failed transaction.
   */
  lemma SucceedsExactly(links: GitObjectId -> set<GitObjectId>, id: RepositoryId, format: ObjectFormat,
                        steps: seq<Step>, call: nat)
    requires Undisturbed(steps, call)
    requires var s := Run(links, Initial(id, format), steps); At(s, call) && s.calls[call].phase.Returned?
    ensures var c := Run(links, Initial(id, format), steps).calls[call];
            c.phase.result.Ok? <==>
            TookEffect(links, Initial(id, format), steps, call) ||
            FoundItself(links, Initial(id, format), steps, call, c.request)
  {
    hide Exec, CurrentState, TookEffect, FoundItself, Seen;
    RunTells(links, id, format, steps, call);
    SeenIsFound(links, id, format, steps, call, Run(links, Initial(id, format), steps).calls[call].request);
  }
}
