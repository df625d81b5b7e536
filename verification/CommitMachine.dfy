/**
 Any number of `commit` calls on one repository, interleaved step by step
 (crates/styrene-git-store/src/lib.rs, `Repository::commit`).  A run is a sequence of steps; every
 choice that is not the program's, which call moves, what Git loses or refuses, where a transaction
 breaks, is part of a step.  A call that crashes is one that no later step names.
 */
module CommitMachine {
  import opened Basics
  import opened Core
  import opened Refs
  import opened History
  import opened Store
  import opened Index

  datatype Outcome = Applied(state: RefState) | AlreadyPresent(state: RefState)

  /** A call: what is presented, whether the quarantine is this repository's, and its objects. */
  datatype Request = Request(commit: Commit, home: bool, quarantine: set<GitObjectId>) {
    function Publisher(): Identity { commit.selected.identity }

    function Id(): Digest { TransitionId(commit.transition) }
  }

  datatype Phase =
    | Entered
    | Resolved(stateId: Option<Id>)
    | Planned(previous: Option<Prior>, next: RefState)
    | Promoting(previous: Option<Prior>, next: RefState)
    | Promoted(previous: Option<Prior>, next: RefState)
    | StateWritten(previous: Option<Prior>, next: RefState)
    | Ready(previous: Option<Prior>, next: RefState)
    | Refused
    | ResolvedAgain(stateId: Option<Id>)
    | Returned(result: Result<Outcome, StoreError>)

  datatype Call = Call(request: Request, phase: Phase)

  datatype Sys = Sys(repo: Repo, calls: map<nat, Call>)

  /** How a ref transaction ends, besides its guards: it may fail for no reason of ours, or take effect
      although the caller is told that it failed. */
  datatype Fate = Faithful | Broken | AppliedUnseen

  datatype Step =
    | Enter(call: nat, request: Request)
    | Resolve(call: nat, lost: bool)
    | Plan(call: nat)
    | Check(call: nat, gitRefuses: bool)
    | Promote(call: nat, oid: GitObjectId)
    | FinishPromotion(call: nat)
    | WriteState(call: nat)
    | WriteTransition(call: nat)
    | RunTransaction(call: nat, fate: Fate)
    | Conclude(call: nat)
    | Fail(call: nat)

  function Initial(id: RepositoryId, format: ObjectFormat): Sys {
    Sys(Repo(id, format, {}, {}, map[]), map[])
  }

  predicate At(s: Sys, call: nat) {
    call in s.calls
  }

  function Goto(s: Sys, call: nat, phase: Phase): Sys
    requires At(s, call)
  {
    s.(calls := s.calls[call := s.calls[call].(phase := phase)])
  }

  /** The call enters: the quarantine and the binding are checked before anything is read. */
  function Arrive(request: Request): Phase {
    if !request.home then Returned(Err(RepositoryMismatch))
    else
      match VerifySelected(request.commit.binding, request.commit.selected)
      case Err(e) => Returned(Err(CoreFailed(e)))
      case Ok(_) => Entered
  }

  /** The state blob is loaded and the transition verified on top of it. */
  function PlanPhase(repo: Repo, request: Request, stateId: Option<Id>): Phase {
    match LoadState(repo, request.Publisher(), stateId)
    case Err(e) => Returned(Err(e))
    case Ok(previous) =>
      if previous.Some? && previous.value.state.transition == request.Id() then
        Returned(Ok(AlreadyPresent(previous.value.state)))
      else
        match Accept(repo.id, request.commit, PriorState(previous))
        case Err(e) => Returned(Err(CoreFailed(e)))
        case Ok(next) => Planned(previous, next)
  }

  ghost function CheckPhase(links: GitObjectId -> set<GitObjectId>, repo: Repo, call: Call, gitRefuses: bool): Phase
    requires call.phase.Planned?
  {
    match CheckTargets(links, repo.format, call.phase.next.refs, repo.objects + call.request.quarantine, gitRefuses)
    case Err(e) => Returned(Err(e))
    case Ok(_) => Promoting(call.phase.previous, call.phase.next)
  }

  /** After a failed transaction: already present if the transition is current now, the failure if not. */
  function ConcludePhase(repo: Repo, request: Request, stateId: Option<Id>): Phase {
    match LoadState(repo, request.Publisher(), stateId)
    case Err(e) => Returned(Err(e))
    case Ok(current) =>
      if current.Some? && current.value.state.transition == request.Id() then
        Returned(Ok(AlreadyPresent(current.value.state)))
      else Returned(Err(GitFailed))
  }

  function TransactionResult(repo: Repo, call: Call): Option<map<Key, Id>>
    requires call.phase.Ready?
  {
    Transact(repo.refs, EditsOf(call.request.commit, call.phase.previous, call.phase.next))
  }

  /** The call's ref transaction takes effect in this step. */
  predicate Effective(s: Sys, step: Step) {
    && step.RunTransaction? && !step.fate.Broken?
    && At(s, step.call) && s.calls[step.call].phase.Ready?
    && TransactionResult(s.repo, s.calls[step.call]).Some?
  }

  /** A show-ref that fails for any reason reads as a missing ref. */
  function Shown(repo: Repo, request: Request, lost: bool): Option<Id> {
    if lost then None else ResolveRef(repo, StateRef(request.Publisher()))
  }

  function TransactionStep(s: Sys, call: nat, fate: Fate): Sys
    requires At(s, call) && s.calls[call].phase.Ready?
  {
    var c := s.calls[call];
    if Effective(s, RunTransaction(call, fate)) then
      Goto(s.(repo := s.repo.(refs := TransactionResult(s.repo, c).value)), call,
           if fate.Faithful? then Returned(Ok(Applied(c.phase.next))) else Refused)
    else Goto(s, call, Refused)
  }

  /** One step; a step whose call is not in the phase it needs changes nothing. */
  ghost function Exec(links: GitObjectId -> set<GitObjectId>, s: Sys, step: Step): Sys {
    if step.Enter? then
      if At(s, step.call) || exists o :: o in step.request.quarantine && IsZeroObject(o) then s
      else s.(calls := s.calls[step.call := Call(step.request, Arrive(step.request))])
    else if !At(s, step.call) then s
    else
      var call, c := step.call, s.calls[step.call];
      match (step, c.phase)
      case (Resolve(_, lost), Entered) => Goto(s, call, Resolved(Shown(s.repo, c.request, lost)))
      case (Plan(_), Resolved(stateId)) => Goto(s, call, PlanPhase(s.repo, c.request, stateId))
      case (Check(_, gitRefuses), Planned(_, _)) => Goto(s, call, CheckPhase(links, s.repo, c, gitRefuses))
      case (Promote(_, oid), Promoting(_, _)) =>
        if oid in c.request.quarantine then s.(repo := s.repo.(objects := s.repo.objects + {oid})) else s
      case (FinishPromotion(_), Promoting(previous, next)) =>
        if c.request.quarantine <= s.repo.objects then Goto(s, call, Promoted(previous, next)) else s
      case (WriteState(_), Promoted(previous, next)) =>
        Goto(s.(repo := s.repo.(blobs := s.repo.blobs + {StateBlob(next)})), call, StateWritten(previous, next))
      case (WriteTransition(_), StateWritten(previous, next)) =>
        Goto(s.(repo := s.repo.(blobs := s.repo.blobs + {TransitionBlob(c.request.commit.transition)})),
             call, Ready(previous, next))
      case (RunTransaction(_, fate), Ready(_, _)) => TransactionStep(s, call, fate)
      case (Resolve(_, lost), Refused) => Goto(s, call, ResolvedAgain(Shown(s.repo, c.request, lost)))
      case (Conclude(_), ResolvedAgain(stateId)) => Goto(s, call, ConcludePhase(s.repo, c.request, stateId))
      case (Fail(_), phase) =>
        if phase.Returned? then s else Goto(s, call, Returned(Err(GitFailed)))
      case _ => s
  }

  ghost function Run(links: GitObjectId -> set<GitObjectId>, start: Sys, steps: seq<Step>): Sys {
    if steps == [] then start
    else Exec(links, Run(links, start, steps[..|steps| - 1]), steps[|steps| - 1])
  }

  /// The invariant

  /** Every object reachable from the targets of every current state is in the repository. */
  ghost predicate AllConnected(links: GitObjectId -> set<GitObjectId>, repo: Repo) {
    forall p: Identity :: CurrentState(repo, p).Some? ==>
      Connected(links, CurrentState(repo, p).value.refs, repo.objects)
  }

  ghost predicate AllWritten(repo: Repo) {
    forall p: Identity :: CurrentState(repo, p).Some? ==> StateBlob(CurrentState(repo, p).value) in repo.blobs
  }

  ghost predicate RepoOk(links: GitObjectId -> set<GitObjectId>, repo: Repo) {
    && AllAgree(repo) && AllSound(repo) && AllConnected(links, repo) && AllWritten(repo) && ObjectsReal(repo)
  }

  /** The objects `next` needs, as far as the call has come. */
  ghost predicate Covered(links: GitObjectId -> set<GitObjectId>, repo: Repo, next: RefState, objects: set<GitObjectId>) {
    TargetsPresent(repo.format, next.refs, objects) && Connected(links, next.refs, objects)
  }

  predicate Plans(phase: Phase) {
    phase.Planned? || phase.Promoting? || phase.Promoted? || phase.StateWritten? || phase.Ready?
  }

  ghost predicate CallOk(links: GitObjectId -> set<GitObjectId>, repo: Repo, call: Call) {
    && (forall o :: o in call.request.quarantine ==> !IsZeroObject(o))
    && var phase := call.phase;
    && (Plans(phase) ==>
          && Accept(repo.id, call.request.commit, PriorState(phase.previous)) == Ok(phase.next)
          && (phase.previous.Some? ==> phase.previous.value.id == Blob(StateBlob(phase.previous.value.state))))
    && (phase.Promoting? ==> Covered(links, repo, phase.next, repo.objects + call.request.quarantine))
    && (phase.Promoted? || phase.StateWritten? || phase.Ready? ==> Covered(links, repo, phase.next, repo.objects))
    && (phase.StateWritten? || phase.Ready? ==> StateBlob(phase.next) in repo.blobs)
    && (phase.Ready? ==> TransitionBlob(call.request.commit.transition) in repo.blobs)
  }

  ghost predicate Inv(links: GitObjectId -> set<GitObjectId>, s: Sys) {
    && RepoOk(links, s.repo)
    && forall c :: c in s.calls ==> CallOk(links, s.repo, s.calls[c])
  }

  /// Preservation

  /** Objects and blobs may be added to the repository without touching a ref. */
  ghost predicate Grows(repo: Repo, repo': Repo) {
    && repo'.id == repo.id && repo'.format == repo.format
    && repo.objects <= repo'.objects && repo.blobs <= repo'.blobs
  }

  lemma CallGrows(links: GitObjectId -> set<GitObjectId>, repo: Repo, repo': Repo, call: Call)
    requires CallOk(links, repo, call) && Grows(repo, repo')
    ensures CallOk(links, repo', call)
  {
  }

  lemma RepoGrows(links: GitObjectId -> set<GitObjectId>, repo: Repo, repo': Repo)
    requires RepoOk(links, repo) && Grows(repo, repo') && repo'.refs == repo.refs && ObjectsReal(repo')
    ensures RepoOk(links, repo')
  {
    forall p: Identity
      ensures CurrentState(repo', p) == CurrentState(repo, p)
      ensures Agrees(repo', p)
    {
      assert Agrees(repo, p);
      forall key: Key | key.publisher == p
        ensures ResolveRef(repo', key) == ResolveRef(repo, key)
      {
      }
    }
  }

  lemma InvGrows(links: GitObjectId -> set<GitObjectId>, s: Sys, repo': Repo)
    requires Inv(links, s) && Grows(s.repo, repo') && repo'.refs == s.repo.refs && ObjectsReal(repo')
    ensures Inv(links, s.(repo := repo'))
  {
    RepoGrows(links, s.repo, repo');
    forall c | c in s.calls
      ensures CallOk(links, repo', s.calls[c])
    {
      CallGrows(links, s.repo, repo', s.calls[c]);
    }
  }

  /** Other publishers' states are untouched and the new one is covered and written. */
  lemma CommittedIsCovered(links: GitObjectId -> set<GitObjectId>, repo: Repo, repo': Repo, publisher: Identity, next: RefState)
    requires AllConnected(links, repo) && AllWritten(repo)
    requires repo'.objects == repo.objects && repo'.blobs == repo.blobs
    requires CurrentState(repo', publisher) == Some(next)
    requires Connected(links, next.refs, repo.objects) && StateBlob(next) in repo.blobs
    requires forall key: Key :: key.publisher != publisher ==> ResolveRef(repo', key) == ResolveRef(repo, key)
    ensures AllConnected(links, repo') && AllWritten(repo')
  {
    forall p: Identity | CurrentState(repo', p).Some?
      ensures Connected(links, CurrentState(repo', p).value.refs, repo'.objects)
      ensures StateBlob(CurrentState(repo', p).value) in repo'.blobs
    {
      if p != publisher {
        var key: Key := StateRef(p);
        assert ResolveRef(repo', key) == ResolveRef(repo, key);
        assert CurrentState(repo', p) == CurrentState(repo, p);
      }
    }
  }

  /** A transaction that passes its guards keeps the whole repository sound. */
  lemma TransactionKeepsRepo(links: GitObjectId -> set<GitObjectId>, repo: Repo, call: Call)
    requires RepoOk(links, repo) && CallOk(links, repo, call) && call.phase.Ready?
    requires TransactionResult(repo, call).Some?
    ensures var p := call.request.Publisher();
            var repo' := repo.(refs := TransactionResult(repo, call).value);
            && Unmoved(repo, p, call.phase.previous)
            && CurrentState(repo, p) == PriorState(call.phase.previous)
            && CurrentState(repo', p) == Some(call.phase.next)
            && RepoOk(links, repo')
            && forall key: Key :: key.publisher != p ==> ResolveRef(repo', key) == ResolveRef(repo, key)
  {
    var commit, previous, next := call.request.commit, call.phase.previous, call.phase.next;
    StateGuardDecides(repo, commit, previous, next);
    UnmovedIsCurrent(repo, commit, previous, next);
    CommitKeepsIndex(repo, commit, previous, next);
    CommittedIsCovered(links, repo, Committed(repo, commit, previous, next), call.request.Publisher(), next);
  }

  lemma TransactionKeepsInv(links: GitObjectId -> set<GitObjectId>, s: Sys, step: Step)
    requires Inv(links, s) && Effective(s, step)
    ensures var c := s.calls[step.call];
            && Unmoved(s.repo, c.request.Publisher(), c.phase.previous)
            && CurrentState(s.repo, c.request.Publisher()) == PriorState(c.phase.previous)
            && CurrentState(Exec(links, s, step).repo, c.request.Publisher()) == Some(c.phase.next)
    ensures Inv(links, Exec(links, s, step))
    ensures forall key: Key :: key.publisher != s.calls[step.call].request.Publisher() ==>
              ResolveRef(Exec(links, s, step).repo, key) == ResolveRef(s.repo, key)
  {
    var c := s.calls[step.call];
    TransactionKeepsRepo(links, s.repo, c);
    var s' := Exec(links, s, step);
    assert s' == TransactionStep(s, step.call, step.fate);
    forall i | i in s'.calls
      ensures CallOk(links, s'.repo, s'.calls[i])
    {
      CallGrows(links, s.repo, s'.repo, s.calls[i]);
    }
  }

  lemma PlanOk(links: GitObjectId -> set<GitObjectId>, repo: Repo, call: Call, stateId: Option<Id>)
    requires CallOk(links, repo, call)
    ensures CallOk(links, repo, call.(phase := PlanPhase(repo, call.request, stateId)))
    ensures CallOk(links, repo, call.(phase := ConcludePhase(repo, call.request, stateId)))
  {
  }

  lemma CheckOk(links: GitObjectId -> set<GitObjectId>, repo: Repo, call: Call, gitRefuses: bool)
    requires CallOk(links, repo, call) && call.phase.Planned?
    ensures CallOk(links, repo, call.(phase := CheckPhase(links, repo, call, gitRefuses)))
  {
    CheckEachExact(repo.format, call.phase.next.refs, repo.objects + call.request.quarantine);
  }

  lemma FinishOk(links: GitObjectId -> set<GitObjectId>, repo: Repo, call: Call)
    requires CallOk(links, repo, call) && call.phase.Promoting? && call.request.quarantine <= repo.objects
    ensures CallOk(links, repo, call.(phase := Promoted(call.phase.previous, call.phase.next)))
  {
    assert repo.objects + call.request.quarantine == repo.objects;
  }

  lemma QuietStepKeepsInv(links: GitObjectId -> set<GitObjectId>, s: Sys, step: Step)
    requires Inv(links, s) && !Effective(s, step)
    ensures Inv(links, Exec(links, s, step))
    ensures Exec(links, s, step).repo.refs == s.repo.refs
  {
    hide PlanPhase, ConcludePhase, CheckPhase, Accept, Connected, TransactionResult, TargetsPresent;
    if !step.Enter? && At(s, step.call) {
      var c := s.calls[step.call];
      match (step, c.phase) {
        case (Plan(_), Resolved(stateId)) => PlanOk(links, s.repo, c, stateId);
        case (Conclude(_), ResolvedAgain(stateId)) => PlanOk(links, s.repo, c, stateId);
        case (Check(_, gitRefuses), Planned(_, _)) => CheckOk(links, s.repo, c, gitRefuses);
        case (Promote(_, oid), Promoting(_, _)) =>
          if oid in c.request.quarantine {
            InvGrows(links, s, s.repo.(objects := s.repo.objects + {oid}));
          }
        case (FinishPromotion(_), Promoting(previous, next)) =>
          if c.request.quarantine <= s.repo.objects { FinishOk(links, s.repo, c); }
        case (WriteState(_), Promoted(previous, next)) =>
          InvGrows(links, s, s.repo.(blobs := s.repo.blobs + {StateBlob(next)}));
        case (WriteTransition(_), StateWritten(previous, next)) =>
          InvGrows(links, s, s.repo.(blobs := s.repo.blobs + {TransitionBlob(c.request.commit.transition)}));
        case _ =>
      }
    }
  }

  lemma StepKeepsInv(links: GitObjectId -> set<GitObjectId>, s: Sys, step: Step)
    requires Inv(links, s)
    ensures Inv(links, Exec(links, s, step))
    ensures Grows(s.repo, Exec(links, s, step).repo)
  {
    if Effective(s, step) {
      TransactionKeepsInv(links, s, step);
    } else {
      QuietStepKeepsInv(links, s, step);
    }
  }

  lemma InitialInv(links: GitObjectId -> set<GitObjectId>, id: RepositoryId, format: ObjectFormat)
    ensures Inv(links, Initial(id, format))
  {
    var repo := Initial(id, format).repo;
    forall p: Identity
      ensures Agrees(repo, p) && CurrentState(repo, p) == None
    {
    }
  }

  lemma {:induction false} RunKeepsInv(links: GitObjectId -> set<GitObjectId>, start: Sys, steps: seq<Step>)
    requires Inv(links, start)
    ensures Inv(links, Run(links, start, steps))
  {
    hide Exec;
    if steps != [] {
      RunKeepsInv(links, start, steps[..|steps| - 1]);
      StepKeepsInv(links, Run(links, start, steps[..|steps| - 1]), steps[|steps| - 1]);
    }
  }

  /// Main results, over every run

  /**
   The three records of a publisher agree in every reachable state, whoever runs with whom: namespace
   refs are the map in the stored state, transition refs are the accepted chain, one more of them than
   the state's sequence number, and no ref of a publisher without a state exists.
   */
  lemma IndexAgreesWithState(links: GitObjectId -> set<GitObjectId>, id: RepositoryId, format: ObjectFormat,
                             steps: seq<Step>, publisher: Identity)
    ensures var repo := Run(links, Initial(id, format), steps).repo;
            var state := CurrentState(repo, publisher);
            && (forall name: string :: ResolveRef(repo, NamespaceRef(publisher, name)) ==
                  if state.Some? && Lookup(state.value.refs, name).Some?
                  then Some(Object(Lookup(state.value.refs, name).value)) else None)
            && (forall d: Digest :: ResolveRef(repo, TransitionRef(publisher, d)).Some? <==>
                  state.Some? && d in Lineage(state.value.transition))
            && (state.None? ==> ResolveRef(repo, StateRef(publisher)) == None)
            && (state.Some? ==> |Lineage(state.value.transition)| == state.value.sequence + 1)
  {
    hide Exec;
    InitialInv(links, id, format);
    RunKeepsInv(links, Initial(id, format), steps);
    var repo := Run(links, Initial(id, format), steps).repo;
    var state := CurrentState(repo, publisher);
    assert Agrees(repo, publisher);
    forall d: Digest
      ensures ResolveRef(repo, TransitionRef(publisher, d)).Some? <==> state.Some? && d in Lineage(state.value.transition)
    {
      var key: Key := TransitionRef(publisher, d);
      assert ResolveRef(repo, key) == Indexed(state, key);
      if state.Some? && d in Lineage(state.value.transition) {
        LineageBelow(state.value.transition, state.value.sequence, d);
      }
    }
    forall name: string
      ensures ResolveRef(repo, NamespaceRef(publisher, name)) ==
              if state.Some? && Lookup(state.value.refs, name).Some?
              then Some(Object(Lookup(state.value.refs, name).value)) else None
    {
      var key: Key := NamespaceRef(publisher, name);
      assert ResolveRef(repo, key) == Indexed(state, key);
    }
    if state.Some? {
      LineageCount(state.value.transition, state.value.sequence);
    }
  }

  lemma EffectiveWhen(links: GitObjectId -> set<GitObjectId>, s: Sys, call: nat, fate: Fate)
    requires Inv(links, s) && At(s, call) && s.calls[call].phase.Ready?
    ensures Effective(s, RunTransaction(call, fate)) <==>
              && fate != Broken
              && CurrentState(s.repo, s.calls[call].request.Publisher()) == PriorState(s.calls[call].phase.previous)
  {
    var c := s.calls[call];
    var key: Key := StateRef(c.request.Publisher());
    StateGuardDecides(s.repo, c.request.commit, c.phase.previous, c.phase.next);
    assert Agrees(s.repo, c.request.Publisher());
    assert ResolveRef(s.repo, key) == Indexed(CurrentState(s.repo, c.request.Publisher()), key);
  }

  /**
   Whenever a transaction is run, it takes effect exactly if the state read at the start of the call is
   still the publisher's current state, and Git does not break it.
   */
  lemma EffectiveIffUnmoved(links: GitObjectId -> set<GitObjectId>, id: RepositoryId, format: ObjectFormat,
                            steps: seq<Step>, call: nat, fate: Fate)
    requires var s := Run(links, Initial(id, format), steps); At(s, call) && s.calls[call].phase.Ready?
    ensures var s := Run(links, Initial(id, format), steps);
            Effective(s, RunTransaction(call, fate)) <==>
              && fate != Broken
              && CurrentState(s.repo, s.calls[call].request.Publisher()) == PriorState(s.calls[call].phase.previous)
  {
    hide Exec, Inv, Effective, CurrentState;
    InitialInv(links, id, format);
    RunKeepsInv(links, Initial(id, format), steps);
    EffectiveWhen(links, Run(links, Initial(id, format), steps), call, fate);
  }

  /** The commits of one publisher whose transaction took effect, in order. */
  ghost function Effects(links: GitObjectId -> set<GitObjectId>, start: Sys, steps: seq<Step>,
                         publisher: Identity): seq<Commit>
  {
    if steps == [] then []
    else
      var earlier := steps[..|steps| - 1];
      var s, step := Run(links, start, earlier), steps[|steps| - 1];
      Effects(links, start, earlier, publisher) +
      (if Effective(s, step) && s.calls[step.call].request.Publisher() == publisher
       then [s.calls[step.call].request.commit] else [])
  }

  lemma QuietForOthers(links: GitObjectId -> set<GitObjectId>, s: Sys, step: Step, publisher: Identity)
    requires Inv(links, s)
    requires Effective(s, step) ==> s.calls[step.call].request.Publisher() != publisher
    ensures CurrentState(Exec(links, s, step).repo, publisher) == CurrentState(s.repo, publisher)
  {
    var key: Key := StateRef(publisher);
    if Effective(s, step) {
      TransactionKeepsInv(links, s, step);
      assert ResolveRef(Exec(links, s, step).repo, key) == ResolveRef(s.repo, key);
    } else {
      QuietStepKeepsInv(links, s, step);
    }
  }

  lemma NothingAtFirst(id: RepositoryId, format: ObjectFormat, publisher: Identity)
    ensures CurrentState(Initial(id, format).repo, publisher) == None
  {
  }

  lemma EffectAccepted(links: GitObjectId -> set<GitObjectId>, s: Sys, step: Step)
    requires Inv(links, s) && Effective(s, step)
    ensures var publisher, after := s.calls[step.call].request.Publisher(), Exec(links, s, step).repo;
            && CurrentState(after, publisher).Some? && after.id == s.repo.id
            && Accept(s.repo.id, s.calls[step.call].request.commit, CurrentState(s.repo, publisher)) ==
               Ok(CurrentState(after, publisher).value)
  {
    hide Accept, CurrentState, TransactionResult, RepoOk;
    TransactionKeepsInv(links, s, step);
  }

  /**
   Linearizability: the commits that took effect, replayed one at a time from nothing as atomic
   verify-and-apply, are all accepted, and yield exactly the publisher's stored state.
   */
  lemma {:induction false} CommitsLinearize(links: GitObjectId -> set<GitObjectId>, id: RepositoryId, format: ObjectFormat,
                                            steps: seq<Step>, publisher: Identity)
    ensures Replay(id, Effects(links, Initial(id, format), steps, publisher))
         == Ok(CurrentState(Run(links, Initial(id, format), steps).repo, publisher))
    ensures Run(links, Initial(id, format), steps).repo.id == id
  {
    hide Exec, Accept, Inv, CurrentState, TransactionResult;
    var start := Initial(id, format);
    InitialInv(links, id, format);
    NothingAtFirst(id, format, publisher);
    if steps != [] {
      var earlier := steps[..|steps| - 1];
      var s, step := Run(links, start, earlier), steps[|steps| - 1];
      CommitsLinearize(links, id, format, earlier, publisher);
      RunKeepsInv(links, start, earlier);
      StepKeepsInv(links, s, step);
      var log := Effects(links, start, earlier, publisher);
      if Effective(s, step) && s.calls[step.call].request.Publisher() == publisher {
        var c := s.calls[step.call];
        EffectAccepted(links, s, step);
        assert (log + [c.request.commit])[..|log|] == log;
      } else {
        QuietForOthers(links, s, step, publisher);
        assert log + [] == log;
      }
    }
  }

  lemma {:induction false} RunGrows(links: GitObjectId -> set<GitObjectId>, start: Sys, steps: seq<Step>, k: nat)
    requires Inv(links, start) && k <= |steps|
    ensures Grows(Run(links, start, steps[..k]).repo, Run(links, start, steps).repo)
    decreases |steps|
  {
    hide Exec;
    if k == |steps| {
      assert steps[..k] == steps;
    } else {
      var n := |steps| - 1;
      RunGrows(links, start, steps[..n], k);
      assert steps[..n][..k] == steps[..k];
      RunKeepsInv(links, start, steps[..n]);
      StepKeepsInv(links, Run(links, start, steps[..n]), steps[n]);
    }
  }

  /**
   Reachability: whatever any publisher's state ever was during a run, its targets and everything
   reachable from them are in the repository at the end, and at the end of every longer run.
   */
  lemma AcceptedStaysReachable(links: GitObjectId -> set<GitObjectId>, id: RepositoryId, format: ObjectFormat,
                               steps: seq<Step>, k: nat, publisher: Identity)
    requires k <= |steps|
    ensures var state := CurrentState(Run(links, Initial(id, format), steps[..k]).repo, publisher);
            state.Some? ==>
              && TargetsPresent(format, state.value.refs, Run(links, Initial(id, format), steps).repo.objects)
              && Connected(links, state.value.refs, Run(links, Initial(id, format), steps).repo.objects)
  {
    var start := Initial(id, format);
    InitialInv(links, id, format);
    RunKeepsInv(links, start, steps[..k]);
    RunGrows(links, start, steps, k);
    RunGrows(links, start, steps[..k], 0);
  }

  lemma StepKeepsTransitionRef(links: GitObjectId -> set<GitObjectId>, s: Sys, step: Step, key: Key)
    requires Inv(links, s) && key.TransitionRef? && ResolveRef(s.repo, key).Some?
    ensures ResolveRef(Exec(links, s, step).repo, key).Some?
  {
    if Effective(s, step) {
      var c := s.calls[step.call];
      TransactionKeepsInv(links, s, step);
      if key.publisher == c.request.Publisher() {
        var commit, previous, next := c.request.commit, c.phase.previous, c.phase.next;
        SortedLists(s.repo, commit, previous, next);
        EditsDistinct(commit, previous, next);
        CommittedRecords(s.repo.refs, commit, previous, next, key.transition);
      } else {
        assert ResolveRef(Exec(links, s, step).repo, key) == ResolveRef(s.repo, key);
      }
    } else {
      QuietStepKeepsInv(links, s, step);
    }
  }

  /** Once recorded, a transition ref is there for good. */
  lemma {:induction false} TransitionRefStays(links: GitObjectId -> set<GitObjectId>, start: Sys, steps: seq<Step>,
                                              k: nat, key: Key)
    requires Inv(links, start) && k <= |steps| && key.TransitionRef?
    requires ResolveRef(Run(links, start, steps[..k]).repo, key).Some?
    ensures ResolveRef(Run(links, start, steps).repo, key).Some?
    decreases |steps|
  {
    hide Exec;
    if k == |steps| {
      assert steps[..k] == steps;
    } else {
      var n := |steps| - 1;
      assert steps[..n][..k] == steps[..k];
      TransitionRefStays(links, start, steps[..n], k, key);
      RunKeepsInv(links, start, steps[..n]);
      StepKeepsTransitionRef(links, Run(links, start, steps[..n]), steps[n], key);
    }
  }

  /** What an effective transaction has at hand: a transition of its publisher, not yet recorded. */
  lemma EffectIsFresh(links: GitObjectId -> set<GitObjectId>, s: Sys, step: Step)
    requires Inv(links, s) && Effective(s, step)
    ensures var request := s.calls[step.call].request;
            var key: Key := TransitionRef(request.Publisher(), request.Id());
            && request.commit.transition.payload.publisher == request.Publisher()
            && ResolveRef(s.repo, key) == None
            && ResolveRef(Exec(links, s, step).repo, key).Some?
  {
    hide Connected, TargetsPresent, EditsOf;
    var c := s.calls[step.call];
    var commit, previous, next := c.request.commit, c.phase.previous, c.phase.next;
    TransactionKeepsInv(links, s, step);
    SortedLists(s.repo, commit, previous, next);
    EditsDistinct(commit, previous, next);
    CommittedRecords(s.repo.refs, commit, previous, next, next.transition);
    RecordGuarded(s.repo, commit, previous, next);
  }

  lemma RecordGuarded(repo: Repo, commit: Commit, previous: Option<Prior>, next: RefState)
    requires Transact(repo.refs, EditsOf(commit, previous, next)).Some?
    ensures TransitionRef(commit.selected.identity, next.transition) !in repo.refs
  {
    var edits := EditsOf(commit, previous, next);
    assert edits[|edits| - 1] in edits;
  }

  /** Over a whole run, whoever commits, no transition takes effect twice. */
  lemma AppliedAtMostOnce(links: GitObjectId -> set<GitObjectId>, id: RepositoryId, format: ObjectFormat,
                          steps: seq<Step>, i: nat, j: nat)
    requires i < j < |steps|
    requires Effective(Run(links, Initial(id, format), steps[..i]), steps[i])
    requires Effective(Run(links, Initial(id, format), steps[..j]), steps[j])
    ensures Run(links, Initial(id, format), steps[..i]).calls[steps[i].call].request.Id()
         != Run(links, Initial(id, format), steps[..j]).calls[steps[j].call].request.Id()
  {
    hide Exec, Inv, TransactionResult;
    var start := Initial(id, format);
    var si, sj := Run(links, start, steps[..i]), Run(links, start, steps[..j]);
    InitialInv(links, id, format);
    RunKeepsInv(links, start, steps[..i]);
    RunKeepsInv(links, start, steps[..j]);
    EffectIsFresh(links, si, steps[i]);
    EffectIsFresh(links, sj, steps[j]);
    var request := si.calls[steps[i].call].request;
    assert steps[..i + 1][..i] == steps[..i];
    assert steps[..j][..i + 1] == steps[..i + 1];
    TransitionRefStays(links, start, steps[..j], i + 1, TransitionRef(request.Publisher(), request.Id()));
  }

  /** Before step `k` of the run, `call` was told by show-ref what its publisher's state ref holds. */
  ghost predicate ReadAt(links: GitObjectId -> set<GitObjectId>, start: Sys, steps: seq<Step>, k: int,
                         call: nat, publisher: Identity, stateId: Id)
  {
    && 0 <= k < |steps| && steps[k] == Resolve(call, false)
    && ResolveRef(Run(links, start, steps[..k]).repo, StateRef(publisher)) == Some(stateId)
  }

  ghost predicate WasRead(links: GitObjectId -> set<GitObjectId>, start: Sys, steps: seq<Step>,
                          call: nat, publisher: Identity, stateId: Id)
  {
    exists k :: ReadAt(links, start, steps, k, call, publisher, stateId)
  }

  lemma WasReadStays(links: GitObjectId -> set<GitObjectId>, start: Sys, steps: seq<Step>,
                     call: nat, publisher: Identity, stateId: Id)
    requires steps != [] && WasRead(links, start, steps[..|steps| - 1], call, publisher, stateId)
    ensures WasRead(links, start, steps, call, publisher, stateId)
  {
    hide Exec;
    var n := |steps| - 1;
    var k :| ReadAt(links, start, steps[..n], k, call, publisher, stateId);
    assert steps[..n][..k] == steps[..k];
    assert ReadAt(links, start, steps, k, call, publisher, stateId);
  }

  /** The state blob a call goes by, if its phase holds one. */
  function Held(phase: Phase): Option<Id> {
    match phase
    case Resolved(stateId) => stateId
    case ResolvedAgain(stateId) => stateId
    case Returned(Ok(AlreadyPresent(state))) => Some(Blob(StateBlob(state)))
    case _ => None
  }

  /** A blob that a call comes to hold in a step is the one the step read. */
  lemma HeldIsRead(links: GitObjectId -> set<GitObjectId>, s: Sys, step: Step, call: nat)
    requires var s' := Exec(links, s, step);
             At(s', call) && Held(s'.calls[call].phase).Some?
    ensures var s' := Exec(links, s, step);
            || (At(s, call) && Held(s.calls[call].phase) == Held(s'.calls[call].phase)
                && s.calls[call].request == s'.calls[call].request)
            || (step == Resolve(call, false)
                && ResolveRef(s.repo, StateRef(s'.calls[call].request.Publisher())) == Held(s'.calls[call].phase))
  {
  }

  lemma {:induction false} HeldWasRead(links: GitObjectId -> set<GitObjectId>, start: Sys, steps: seq<Step>, call: nat)
    requires start.calls == map[]
    requires At(Run(links, start, steps), call) && Held(Run(links, start, steps).calls[call].phase).Some?
    ensures WasRead(links, start, steps, call, Run(links, start, steps).calls[call].request.Publisher(),
                    Held(Run(links, start, steps).calls[call].phase).value)
  {
    hide Exec;
    if steps != [] {
      var n := |steps| - 1;
      var s, s' := Run(links, start, steps[..n]), Run(links, start, steps);
      var publisher, stateId := s'.calls[call].request.Publisher(), Held(s'.calls[call].phase).value;
      HeldIsRead(links, s, steps[n], call);
      if At(s, call) && Held(s.calls[call].phase) == Some(stateId) && s.calls[call].request == s'.calls[call].request {
        HeldWasRead(links, start, steps[..n], call);
        WasReadStays(links, start, steps, call, publisher, stateId);
      } else {
        assert ReadAt(links, start, steps, n, call, publisher, stateId);
      }
    }
  }

  /**
   A call reports "already present" only for its own transition, and only if the state it reports was
   the publisher's current state at one of the call's own reads.
   */
  lemma AlreadyPresentWasCurrent(links: GitObjectId -> set<GitObjectId>, id: RepositoryId, format: ObjectFormat,
                                 steps: seq<Step>, call: nat, state: RefState) returns (k: nat)
    requires var s := Run(links, Initial(id, format), steps);
             At(s, call) && s.calls[call].phase == Returned(Ok(AlreadyPresent(state)))
    ensures k < |steps| && steps[k] == Resolve(call, false)
    ensures CurrentState(Run(links, Initial(id, format), steps[..k]).repo,
                         Run(links, Initial(id, format), steps).calls[call].request.Publisher()) == Some(state)
    ensures state.transition == Run(links, Initial(id, format), steps).calls[call].request.Id()
  {
    hide Exec;
    var start := Initial(id, format);
    HeldWasRead(links, start, steps, call);
    ReportedIsOwn(links, id, format, steps, call);
    k :| ReadAt(links, start, steps, k, call, Run(links, start, steps).calls[call].request.Publisher(),
                Blob(StateBlob(state)));
  }

  predicate ReportsOwn(call: Call) {
    && (Plans(call.phase) ==> call.phase.next.transition == call.request.Id())
    && (call.phase.Returned? && call.phase.result.Ok? ==>
          call.phase.result.value.state.transition == call.request.Id())
  }

  lemma StepReportsOwn(links: GitObjectId -> set<GitObjectId>, s: Sys, step: Step, call: nat)
    requires At(s, call) ==> ReportsOwn(s.calls[call])
    ensures At(Exec(links, s, step), call) ==> ReportsOwn(Exec(links, s, step).calls[call])
  {
  }

  /** Whatever a call reports, it reports of its own transition. */
  lemma {:induction false} ReportedIsOwn(links: GitObjectId -> set<GitObjectId>, id: RepositoryId, format: ObjectFormat,
                                         steps: seq<Step>, call: nat)
    ensures var s := Run(links, Initial(id, format), steps);
            At(s, call) ==> ReportsOwn(s.calls[call])
  {
    hide Exec;
    if steps != [] {
      var n := |steps| - 1;
      ReportedIsOwn(links, id, format, steps[..n], call);
      StepReportsOwn(links, Run(links, Initial(id, format), steps[..n]), steps[n], call);
    }
  }

  /**
   Isolation and stopping: a stretch of steps in which no transaction of a publisher takes effect,
   however many others commit and wherever its own calls stop, leaves every ref of the publisher alone.
   */
  lemma {:induction false} OthersLeaveRefsAlone(links: GitObjectId -> set<GitObjectId>, start: Sys, steps: seq<Step>, key: Key)
    requires Inv(links, start)
    requires forall k :: 0 <= k < |steps| ==> LeavesAlone(Run(links, start, steps[..k]), steps[k], key.publisher)
    ensures ResolveRef(Run(links, start, steps).repo, key) == ResolveRef(start.repo, key)
  {
    hide Exec;
    if steps != [] {
      var n := |steps| - 1;
      forall k | 0 <= k < n
        ensures LeavesAlone(Run(links, start, steps[..n][..k]), steps[..n][k], key.publisher)
      {
        assert steps[..n][..k] == steps[..k];
        assert LeavesAlone(Run(links, start, steps[..k]), steps[k], key.publisher);
      }
      OthersLeaveRefsAlone(links, start, steps[..n], key);
      RunKeepsInv(links, start, steps[..n]);
      assert LeavesAlone(Run(links, start, steps[..n]), steps[n], key.publisher);
      StepLeavesAlone(links, Run(links, start, steps[..n]), steps[n], key);
    }
  }

  predicate LeavesAlone(s: Sys, step: Step, publisher: Identity) {
    Effective(s, step) ==> s.calls[step.call].request.Publisher() != publisher
  }

  lemma StepLeavesAlone(links: GitObjectId -> set<GitObjectId>, s: Sys, step: Step, key: Key)
    requires Inv(links, s) && LeavesAlone(s, step, key.publisher)
    ensures ResolveRef(Exec(links, s, step).repo, key) == ResolveRef(s.repo, key)
  {
    if Effective(s, step) {
      TransactionKeepsInv(links, s, step);
    } else {
      QuietStepKeepsInv(links, s, step);
    }
  }
}
