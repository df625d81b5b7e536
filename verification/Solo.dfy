/** One call run alone: what it does to the repository, and that it is a run of the step machine. */
module Solo {
  import opened Basics
  import opened Core
  import opened Refs
  import opened History
  import opened Store
  import opened Index
  import opened CommitMachine
  import opened Repositories

  predicate RealQuarantine(request: Request) {
    forall o :: o in request.quarantine ==> !IsZeroObject(o)
  }

  /** What a call may leave behind for its publisher: the old state, or the transition applied to it. */
  ghost predicate Advances(repo: Repo, repo': Repo, request: Request) {
    var p := request.Publisher();
    || CurrentState(repo', p) == CurrentState(repo, p)
    || (&& CurrentState(repo', p).Some?
        && Accept(repo.id, request.commit, CurrentState(repo, p)) == Ok(CurrentState(repo', p).value))
  }

  ghost predicate OutcomeTrue(repo': Repo, request: Request, r: Result<Outcome, StoreError>) {
    r.Ok? ==>
      && CurrentState(repo', request.Publisher()) == Some(r.value.state)
      && r.value.state.transition == request.Id()
  }

  lemma CurrentIsLoaded(links: GitObjectId -> set<GitObjectId>, repo: Repo, publisher: Identity)
    requires RepoOk(links, repo)
    ensures var state := CurrentState(repo, publisher);
            LoadState(repo, publisher, ResolveRef(repo, StateRef(publisher))) ==
            Ok(if state.None? then None else Some(Prior(Blob(StateBlob(state.value)), state.value)))
  {
    var key: Key := StateRef(publisher);
    assert Agrees(repo, publisher);
    assert ResolveRef(repo, key) == Indexed(CurrentState(repo, publisher), key);
  }

  /** A system with one call, in a given phase. */
  function Lone(repo: Repo, request: Request, phase: Phase): Sys {
    Sys(repo, map[0 := Call(request, phase)])
  }

  lemma LandedRepo(links: GitObjectId -> set<GitObjectId>, repo: Repo, request: Request,
                   previous: Option<Prior>, next: RefState, faults: Faults)
    requires RepoOk(links, repo)
    requires CallOk(links, repo, Call(request, Ready(previous, next)))
    ensures var repo' := Land(repo, request, previous, next, faults).0;
            && RepoOk(links, repo') && Grows(repo, repo')
            && Advances(repo, repo', request)
            && forall q: Identity :: q != request.Publisher() ==> CurrentState(repo', q) == CurrentState(repo, q)
  {
    hide RepoOk, EditsOf, ConcludePhase, Accept, Connected;
    var call := Call(request, Ready(previous, next));
    var repo' := Land(repo, request, previous, next, faults).0;
    if TransactionResult(repo, call).Some? && !faults.fate.Broken? {
      TransactionKeepsRepo(links, repo, call);
      forall q: Identity | q != request.Publisher()
        ensures CurrentState(repo', q) == CurrentState(repo, q)
      {
        var key: Key := StateRef(q);
        assert ResolveRef(repo', key) == ResolveRef(repo, key);
      }
    }
  }

  lemma LandedResult(links: GitObjectId -> set<GitObjectId>, repo: Repo, request: Request,
                     previous: Option<Prior>, next: RefState, faults: Faults)
    requires RepoOk(links, repo)
    requires CallOk(links, repo, Call(request, Ready(previous, next)))
    ensures var (repo', r) := Land(repo, request, previous, next, faults);
            && OutcomeTrue(repo', request, r)
            && (PriorState(previous) == CurrentState(repo, request.Publisher()) && faults.fate.Faithful? ==>
                  r == Ok(Applied(next)) && CurrentState(repo', request.Publisher()) == Some(next))
  {
    hide EditsOf;
    var (repo', r) := Land(repo, request, previous, next, faults);
    LandedRepo(links, repo, request, previous, next, faults);
    CurrentIsLoaded(links, repo, request.Publisher());
    CurrentIsLoaded(links, repo', request.Publisher());
    StateGuardDecides(repo, request.commit, previous, next);
    if Transact(repo.refs, EditsOf(request.commit, previous, next)).Some? && faults.fate.Faithful? {
      CommitKeepsIndex(repo, request.commit, previous, next);
    }
  }

  /** The call stands ready, its blobs and objects written, if nothing turned it away. */
  lemma WrittenIsReady(links: GitObjectId -> set<GitObjectId>, repo: Repo, request: Request, stateId: Option<Id>, gitRefuses: bool)
    requires RepoOk(links, repo) && RealQuarantine(request)
    requires PlanPhase(repo, request, stateId).Planned?
    requires var next := PlanPhase(repo, request, stateId).next;
             CheckTargets(links, repo.format, next.refs, repo.objects + request.quarantine, gitRefuses).Ok?
    ensures var plan := PlanPhase(repo, request, stateId);
            var repo' := Written(repo, request, plan.next);
            && RepoOk(links, repo') && Grows(repo, repo')
            && CallOk(links, repo', Call(request, Ready(plan.previous, plan.next)))
            && forall q: Identity :: CurrentState(repo', q) == CurrentState(repo, q)
  {
    var plan := PlanPhase(repo, request, stateId);
    CheckEachExact(repo.format, plan.next.refs, repo.objects + request.quarantine);
    RepoGrows(links, repo, Written(repo, request, plan.next));
  }

  /**
   One call, whatever goes wrong around it: the repository stays sound, other publishers are untouched,
   and the call's publisher keeps its state or moves by exactly one accepted transition.
   */
  lemma CommitOnceIsSound(links: GitObjectId -> set<GitObjectId>, repo: Repo, request: Request, faults: Faults)
    requires RepoOk(links, repo) && RealQuarantine(request)
    ensures var (repo', r) := CommitOnce(links, repo, request, faults);
            && RepoOk(links, repo') && Grows(repo, repo')
            && Advances(repo, repo', request)
            && OutcomeTrue(repo', request, r)
            && forall q: Identity :: q != request.Publisher() ==> CurrentState(repo', q) == CurrentState(repo, q)
  {
    hide EditsOf, Accept;
    CurrentIsLoaded(links, repo, request.Publisher());
    var stateId := Shown(repo, request, faults.readLost);
    var plan := PlanPhase(repo, request, stateId);
    if !Arrive(request).Returned? && !plan.Returned? {
      var checked := CheckTargets(links, repo.format, plan.next.refs, repo.objects + request.quarantine, faults.gitRefuses);
      if checked.Ok? && faults.stoppedAfter.Some? {
        RepoGrows(links, repo, CommitOnce(links, repo, request, faults).0);
      } else if checked.Ok? {
        var repo1 := Written(repo, request, plan.next);
        WrittenIsReady(links, repo, request, stateId, faults.gitRefuses);
        LandedRepo(links, repo1, request, plan.previous, plan.next, faults);
        LandedResult(links, repo1, request, plan.previous, plan.next, faults);
        assert CurrentState(repo1, request.Publisher()) == CurrentState(repo, request.Publisher());
      }
    }
  }

  /** What a call needs to apply its transition, all of it checkable beforehand. */
  ghost predicate Applicable(links: GitObjectId -> set<GitObjectId>, repo: Repo, request: Request) {
    && request.home
    && var accepted := Accept(repo.id, request.commit, CurrentState(repo, request.Publisher()));
    && accepted.Ok?
    && TargetsPresent(repo.format, accepted.value.refs, repo.objects + request.quarantine)
    && Connected(links, accepted.value.refs, repo.objects + request.quarantine)
  }

  predicate Present(repo: Repo, request: Request) {
    var state := CurrentState(repo, request.Publisher());
    state.Some? && state.value.transition == request.Id()
  }

  lemma PlanOfCurrent(links: GitObjectId -> set<GitObjectId>, repo: Repo, request: Request)
    requires RepoOk(links, repo)
    ensures var p := request.Publisher();
            var plan := PlanPhase(repo, request, ResolveRef(repo, StateRef(p)));
            var accepted := Accept(repo.id, request.commit, CurrentState(repo, p));
            && (plan.Planned? <==> accepted.Ok? && !Present(repo, request))
            && (plan.Planned? ==> plan.next == accepted.value && PriorState(plan.previous) == CurrentState(repo, p))
            && (!plan.Planned? ==> plan.Returned?)
            && (plan.Returned? && plan.result.Ok? <==> Present(repo, request))
            && (Present(repo, request) ==> plan.result == Ok(AlreadyPresent(CurrentState(repo, p).value)))
  {
    CurrentIsLoaded(links, repo, request.Publisher());
  }

  lemma ChecksPass(links: GitObjectId -> set<GitObjectId>, format: ObjectFormat, refs: seq<RefTarget>, objects: set<GitObjectId>)
    requires ValidRefs(refs)
    ensures CheckTargets(links, format, refs, objects, false).Ok? <==>
            TargetsPresent(format, refs, objects) && Connected(links, refs, objects)
  {
    CheckEachExact(format, refs, objects);
  }

  lemma CommitPlanned(links: GitObjectId -> set<GitObjectId>, repo: Repo, request: Request)
    requires RepoOk(links, repo) && RealQuarantine(request) && !Arrive(request).Returned?
    requires PlanPhase(repo, request, ResolveRef(repo, StateRef(request.Publisher()))).Planned?
    ensures var (repo', r) := CommitOnce(links, repo, request, NO_FAULTS);
            if Applicable(links, repo, request)
            then r == Ok(Applied(Accept(repo.id, request.commit, CurrentState(repo, request.Publisher())).value))
                 && CurrentState(repo', request.Publisher()) == Some(r.value.state)
                 && repo'.objects == repo.objects + request.quarantine
            else r.Err? && repo' == repo
  {
    hide RepoOk, CallOk, Arrive, PlanPhase, CheckTargets, Land, CurrentState, Accept, TargetsPresent, Connected;
    var stateId := ResolveRef(repo, StateRef(request.Publisher()));
    var plan := PlanPhase(repo, request, stateId);
    ArriveExactly(request);
    PlanOfCurrent(links, repo, request);
    AcceptedAreValid(repo.id, request.commit, CurrentState(repo, request.Publisher()));
    ChecksPass(links, repo.format, plan.next.refs, repo.objects + request.quarantine);
    if Applicable(links, repo, request) {
      WrittenIsReady(links, repo, request, stateId, false);
      var repo1 := Written(repo, request, plan.next);
      LandedResult(links, repo1, request, plan.previous, plan.next, NO_FAULTS);
      LandKeepsObjects(repo1, request, plan.previous, plan.next, NO_FAULTS);
      assert CurrentState(repo1, request.Publisher()) == CurrentState(repo, request.Publisher());
    }
  }

  lemma LandKeepsObjects(repo: Repo, request: Request, previous: Option<Prior>, next: RefState, faults: Faults)
    ensures Land(repo, request, previous, next, faults).0.objects == repo.objects
  {
  }

  lemma ArriveExactly(request: Request)
    ensures Arrive(request).Entered? <==> request.home && Bound(request.commit.binding, request.commit.selected)
    ensures !request.home ==> Arrive(request) == Returned(Err(RepositoryMismatch))
    ensures request.home && !Bound(request.commit.binding, request.commit.selected) ==>
            Arrive(request) == Returned(Err(CoreFailed(InvalidBinding)))
  {
  }

  /**
   Left in peace, a call applies its transition exactly when that is applicable and not done already, and finds
   it present exactly when it is, presented under its genuine and selected binding.  An applied transition is
   current afterwards and its objects are there; in all other cases nothing changes.
   */
  lemma CommitOnceApplies(links: GitObjectId -> set<GitObjectId>, repo: Repo, request: Request)
    requires RepoOk(links, repo) && RealQuarantine(request)
    ensures var (repo', r) := CommitOnce(links, repo, request, NO_FAULTS);
            var current := CurrentState(repo, request.Publisher());
            && (r.Ok? && r.value.Applied? <==> Applicable(links, repo, request) && !Present(repo, request))
            && (r.Ok? && r.value.Applied? ==>
                  && r.value.state == Accept(repo.id, request.commit, current).value
                  && CurrentState(repo', request.Publisher()) == Some(r.value.state)
                  && repo'.objects == repo.objects + request.quarantine)
            && (r.Ok? && r.value.AlreadyPresent? <==>
                  request.home && Bound(request.commit.binding, request.commit.selected) && Present(repo, request))
            && (r.Ok? && r.value.AlreadyPresent? ==> Some(r.value.state) == current)
            && (!(r.Ok? && r.value.Applied?) ==> repo' == repo)
  {
    hide RepoOk, Accept, Connected;
    PlanOfCurrent(links, repo, request);
    ArriveExactly(request);
    AcceptIsBound(repo.id, request.commit, CurrentState(repo, request.Publisher()));
    if !Arrive(request).Returned? && PlanPhase(repo, request, ResolveRef(repo, StateRef(request.Publisher()))).Planned? {
      CommitPlanned(links, repo, request);
    }
  }

  /** The first reference whose target is of the other format or not at hand. */
  predicate FirstAbsent(format: ObjectFormat, refs: seq<RefTarget>, objects: set<GitObjectId>, i: nat) {
    && i < |refs|
    && TargetsPresent(format, refs[..i], objects)
    && !TargetsPresent(format, [refs[i]], objects)
  }

  lemma {:induction false} CheckEachFailsFor(format: ObjectFormat, refs: seq<RefTarget>, objects: set<GitObjectId>, i: nat)
    requires (forall r :: r in refs ==> r.target.Valid()) && FirstAbsent(format, refs, objects, i)
    ensures CheckEach(format, refs, objects) ==
            Err(if refs[i].target.algorithm != format.Name() then ObjectIdMismatch else GitFailed)
  {
    if i > 0 {
      assert refs[0] in refs[..i];
      assert refs[..i][1..] == refs[1..][..i - 1];
      CheckEachFailsFor(format, refs[1..], objects, i - 1);
    }
  }

  /** What an undisturbed call is refused for, in the order of the checks; the errors of Accept are those of Refs.RejectedFor. */
  lemma CommitRefusedFor(links: GitObjectId -> set<GitObjectId>, repo: Repo, request: Request)
    requires RepoOk(links, repo) && RealQuarantine(request)
    ensures var r := CommitOnce(links, repo, request, NO_FAULTS).1;
            var accepted := Accept(repo.id, request.commit, CurrentState(repo, request.Publisher()));
            var objects := repo.objects + request.quarantine;
            if !request.home then r == Err(RepositoryMismatch)
            else if !Bound(request.commit.binding, request.commit.selected) then r == Err(CoreFailed(InvalidBinding))
            else !Present(repo, request) ==>
              && (accepted.Err? ==> r == Err(CoreFailed(accepted.error)))
              && (accepted.Ok? ==>
                    && (forall i: nat :: i < |accepted.value.refs| && FirstAbsent(repo.format, accepted.value.refs, objects, i) ==>
                          r == Err(if accepted.value.refs[i].target.algorithm != repo.format.Name() then ObjectIdMismatch else GitFailed))
                    && (TargetsPresent(repo.format, accepted.value.refs, objects) && !Connected(links, accepted.value.refs, objects) ==>
                          r == Err(GitFailed)))
  {
    hide RepoOk, Accept, Connected, TargetsPresent, FirstAbsent;
    PlanOfCurrent(links, repo, request);
    PlanRefused(links, repo, request);
    ArriveExactly(request);
    var plan := PlanPhase(repo, request, ResolveRef(repo, StateRef(request.Publisher())));
    var objects := repo.objects + request.quarantine;
    if plan.Planned? {
      AcceptedAreValid(repo.id, request.commit, CurrentState(repo, request.Publisher()));
      ChecksPass(links, repo.format, plan.next.refs, objects);
      CheckEachExact(repo.format, plan.next.refs, objects);
      forall i: nat | i < |plan.next.refs| && FirstAbsent(repo.format, plan.next.refs, objects, i)
        ensures CheckEach(repo.format, plan.next.refs, objects) ==
                Err(if plan.next.refs[i].target.algorithm != repo.format.Name() then ObjectIdMismatch else GitFailed)
      {
        CheckEachFailsFor(repo.format, plan.next.refs, objects, i);
      }
    }
  }

  lemma AcceptedAreValid(id: RepositoryId, commit: Commit, previous: Option<RefState>)
    ensures Accept(id, commit, previous).Ok? ==> ValidRefs(Accept(id, commit, previous).value.refs)
  {
    ValidateRefsExact(commit.transition.payload.refs);
  }

  lemma PlanRefused(links: GitObjectId -> set<GitObjectId>, repo: Repo, request: Request)
    requires RepoOk(links, repo)
    ensures var plan := PlanPhase(repo, request, ResolveRef(repo, StateRef(request.Publisher())));
            var accepted := Accept(repo.id, request.commit, CurrentState(repo, request.Publisher()));
            !Present(repo, request) && accepted.Err? ==> plan == Returned(Err(CoreFailed(accepted.error)))
  {
    hide Accept;
    CurrentIsLoaded(links, repo, request.Publisher());
  }

  lemma AcceptIsBound(id: RepositoryId, commit: Commit, previous: Option<RefState>)
    ensures Accept(id, commit, previous).Ok? ==> Bound(commit.binding, commit.selected)
  {
    VerifyExactly(commit.transition, id, commit.binding, commit.selected, previous);
  }

  /// The machine refined

  lemma {:induction false} RunConcat(links: GitObjectId -> set<GitObjectId>, s: Sys, a: seq<Step>, b: seq<Step>)
    ensures Run(links, s, a + b) == Run(links, Run(links, s, a), b)
  {
    if b == [] {
      assert a + b == a;
    } else {
      var n := |b| - 1;
      RunConcat(links, s, a, b[..n]);
      assert (a + b)[..|a + b| - 1] == a + b[..n];
    }
  }

  lemma RunOne(links: GitObjectId -> set<GitObjectId>, s: Sys, step: Step)
    ensures Run(links, s, [step]) == Exec(links, s, step)
  {
    assert Run(links, s, [step][..0]) == s;
  }

  /** Objects are promoted one step each, in any order. */
  lemma {:induction false} PromoteRun(links: GitObjectId -> set<GitObjectId>, s: Sys, call: nat, oids: set<GitObjectId>)
    returns (steps: seq<Step>)
    requires At(s, call) && s.calls[call].phase.Promoting? && oids <= s.calls[call].request.quarantine
    ensures Run(links, s, steps) == s.(repo := s.repo.(objects := s.repo.objects + oids))
    decreases oids
  {
    if oids == {} {
      steps := [];
      assert s.repo.objects + oids == s.repo.objects;
    } else {
      var oid :| oid in oids;
      var step := Promote(call, oid);
      var s' := Exec(links, s, step);
      var rest := PromoteRun(links, s', call, oids - {oid});
      steps := [step] + rest;
      RunOne(links, s, step);
      RunConcat(links, s, [step], rest);
      assert s.repo.objects + {oid} + (oids - {oid}) == s.repo.objects + oids;
    }
  }

  lemma RunThen(links: GitObjectId -> set<GitObjectId>, s: Sys, steps: seq<Step>, step: Step)
    ensures Run(links, s, steps + [step]) == Exec(links, Run(links, s, steps), step)
  {
    assert (steps + [step])[..|steps|] == steps;
  }

  lemma LoneGoto(repo: Repo, request: Request, phase: Phase, repo': Repo, phase': Phase)
    ensures Goto(Lone(repo, request, phase).(repo := repo'), 0, phase') == Lone(repo', request, phase')
  {
  }

  /** The two writes after promotion. */
  lemma WriteRun(links: GitObjectId -> set<GitObjectId>, repo: Repo, request: Request,
                 previous: Option<Prior>, next: RefState)
    ensures var blobs := repo.blobs + {StateBlob(next)} + {TransitionBlob(request.commit.transition)};
            Run(links, Lone(repo, request, Promoted(previous, next)), [WriteState(0), WriteTransition(0)]) ==
            Lone(repo.(blobs := blobs), request, Ready(previous, next))
  {
    var s := Lone(repo, request, Promoted(previous, next));
    RunOne(links, s, WriteState(0));
    RunThen(links, s, [WriteState(0)], WriteTransition(0));
    assert [WriteState(0)] + [WriteTransition(0)] == [WriteState(0), WriteTransition(0)];
    var repo1 := repo.(blobs := repo.blobs + {StateBlob(next)});
    LoneGoto(repo, request, Promoted(previous, next), repo1, StateWritten(previous, next));
    LoneGoto(repo1, request, StateWritten(previous, next),
             repo1.(blobs := repo1.blobs + {TransitionBlob(request.commit.transition)}), Ready(previous, next));
  }

  /** After a refused transaction, the second look. */
  lemma RefusedRun(links: GitObjectId -> set<GitObjectId>, repo: Repo, request: Request, lost: bool)
    ensures Run(links, Lone(repo, request, Refused), [Resolve(0, lost), Conclude(0)]) ==
            Lone(repo, request, ConcludePhase(repo, request, Shown(repo, request, lost)))
  {
    var s := Lone(repo, request, Refused);
    RunOne(links, s, Resolve(0, lost));
    RunThen(links, s, [Resolve(0, lost)], Conclude(0));
    assert [Resolve(0, lost)] + [Conclude(0)] == [Resolve(0, lost), Conclude(0)];
    var again := ResolvedAgain(Shown(repo, request, lost));
    LoneGoto(repo, request, Refused, repo, again);
    LoneGoto(repo, request, again, repo, ConcludePhase(repo, request, Shown(repo, request, lost)));
  }

  lemma LandStep(links: GitObjectId -> set<GitObjectId>, repo: Repo, request: Request,
                 previous: Option<Prior>, next: RefState, fate: Fate)
    ensures var refs := Transact(repo.refs, EditsOf(request.commit, previous, next));
            Exec(links, Lone(repo, request, Ready(previous, next)), RunTransaction(0, fate)) ==
            Lone(if fate.Broken? || refs.None? then repo else repo.(refs := refs.value), request,
                 if fate.Faithful? && refs.Some? then Returned(Ok(Applied(next))) else Refused)
  {
    hide EditsOf;
    var refs := Transact(repo.refs, EditsOf(request.commit, previous, next));
    var landed := if fate.Broken? || refs.None? then repo else repo.(refs := refs.value);
    LoneGoto(repo, request, Ready(previous, next), landed,
             if fate.Faithful? && refs.Some? then Returned(Ok(Applied(next))) else Refused);
  }

  lemma LandRun(links: GitObjectId -> set<GitObjectId>, repo: Repo, request: Request,
                previous: Option<Prior>, next: RefState, faults: Faults) returns (steps: seq<Step>)
    ensures var (repo', r) := Land(repo, request, previous, next, faults);
            Run(links, Lone(repo, request, Ready(previous, next)), steps) == Lone(repo', request, Returned(r))
  {
    hide EditsOf, Store.Transact;
    var s := Lone(repo, request, Ready(previous, next));
    var step := RunTransaction(0, faults.fate);
    RunOne(links, s, step);
    LandStep(links, repo, request, previous, next, faults.fate);
    var s' := Exec(links, s, step);
    if s'.calls[0].phase.Refused? {
      RefusedRun(links, s'.repo, request, faults.rereadLost);
      RunConcat(links, s, [step], [Resolve(0, faults.rereadLost), Conclude(0)]);
      steps := [step] + [Resolve(0, faults.rereadLost), Conclude(0)];
    } else {
      steps := [step];
    }
  }

  /** From a passed check to its end, the call run alone is a run of the machine. */
  lemma PromotingRun(links: GitObjectId -> set<GitObjectId>, repo: Repo, request: Request,
                     previous: Option<Prior>, next: RefState, faults: Faults) returns (steps: seq<Step>)
    ensures Run(links, Lone(repo, request, Promoting(previous, next)), steps) ==
            if faults.stoppedAfter.Some? then
              Lone(repo.(objects := repo.objects + faults.stoppedAfter.value * request.quarantine), request,
                   Returned(Err(GitFailed)))
            else
              var (repo', r) := Land(Written(repo, request, next), request, previous, next, faults);
              Lone(repo', request, Returned(r))
  {
    hide EditsOf, Store.Transact;
    var s := Lone(repo, request, Promoting(previous, next));
    if faults.stoppedAfter.Some? {
      var promote := PromoteRun(links, s, 0, faults.stoppedAfter.value * request.quarantine);
      steps := promote + [Fail(0)];
      RunThen(links, s, promote, Fail(0));
      LoneGoto(repo, request, Promoting(previous, next), Run(links, s, promote).repo, Returned(Err(GitFailed)));
    } else {
      var promote := PromoteRun(links, s, 0, request.quarantine);
      var promoted := Run(links, s, promote).repo;
      RunThen(links, s, promote, FinishPromotion(0));
      LoneGoto(repo, request, Promoting(previous, next), promoted, Promoted(previous, next));
      WriteRun(links, promoted, request, previous, next);
      RunConcat(links, s, promote + [FinishPromotion(0)], [WriteState(0), WriteTransition(0)]);
      var head := promote + [FinishPromotion(0)] + [WriteState(0), WriteTransition(0)];
      var tail := LandRun(links, Written(repo, request, next), request, previous, next, faults);
      RunConcat(links, s, head, tail);
      steps := head + tail;
    }
  }

  lemma PlannedRun(links: GitObjectId -> set<GitObjectId>, repo: Repo, request: Request, plan: Phase, faults: Faults)
    returns (steps: seq<Step>)
    requires plan.Planned? && !Arrive(request).Returned?
    requires plan == PlanPhase(repo, request, Shown(repo, request, faults.readLost))
    ensures var (repo', r) := CommitOnce(links, repo, request, faults);
            Run(links, Lone(repo, request, plan), steps) == Lone(repo', request, Returned(r))
  {
    var s := Lone(repo, request, plan);
    var check := Check(0, faults.gitRefuses);
    RunOne(links, s, check);
    var checked := CheckPhase(links, repo, Call(request, plan), faults.gitRefuses);
    LoneGoto(repo, request, plan, repo, checked);
    if checked.Returned? {
      steps := [check];
    } else {
      var rest := PromotingRun(links, repo, request, plan.previous, plan.next, faults);
      RunConcat(links, s, [check], rest);
      steps := [check] + rest;
    }
  }

  lemma ReadRun(links: GitObjectId -> set<GitObjectId>, repo: Repo, request: Request, lost: bool)
    ensures Run(links, Lone(repo, request, Entered), [Resolve(0, lost), Plan(0)]) ==
            Lone(repo, request, PlanPhase(repo, request, Shown(repo, request, lost)))
  {
    var s := Lone(repo, request, Entered);
    RunOne(links, s, Resolve(0, lost));
    RunThen(links, s, [Resolve(0, lost)], Plan(0));
    assert [Resolve(0, lost)] + [Plan(0)] == [Resolve(0, lost), Plan(0)];
    var read := Resolved(Shown(repo, request, lost));
    LoneGoto(repo, request, Entered, repo, read);
    LoneGoto(repo, request, read, repo, PlanPhase(repo, request, Shown(repo, request, lost)));
  }

  lemma PlanEnds(repo: Repo, request: Request, stateId: Option<Id>)
    ensures PlanPhase(repo, request, stateId).Planned? || PlanPhase(repo, request, stateId).Returned?
  {
  }

  /** The sequential `commit` is one of the runs of the machine, repository and answer alike. */
  lemma CommitIsARun(links: GitObjectId -> set<GitObjectId>, repo: Repo, request: Request, faults: Faults)
    returns (steps: seq<Step>)
    requires RealQuarantine(request)
    ensures var (repo', r) := CommitOnce(links, repo, request, faults);
            Run(links, Sys(repo, map[]), steps) == Lone(repo', request, Returned(r))
    ensures steps != [] && steps[0] == CommitMachine.Step.Enter(0, request)
  {
    var s := Sys(repo, map[]);
    var enter := CommitMachine.Step.Enter(0, request);
    RunOne(links, s, enter);
    assert Exec(links, s, enter) == Lone(repo, request, Arrive(request));
    steps := [enter];
    if !Arrive(request).Returned? {
      var plan := PlanPhase(repo, request, Shown(repo, request, faults.readLost));
      ReadRun(links, repo, request, faults.readLost);
      RunConcat(links, s, [enter], [Resolve(0, faults.readLost), Plan(0)]);
      steps := [enter] + [Resolve(0, faults.readLost), Plan(0)];
      PlanEnds(repo, request, Shown(repo, request, faults.readLost));
      if plan.Planned? {
        var rest := PlannedRun(links, repo, request, plan, faults);
        RunConcat(links, s, steps, rest);
        steps := steps + rest;
      }
    }
  }
}
