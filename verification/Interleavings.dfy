/**
 Any number of `apply_transfer` calls on one replica (crates/styrene-git-protocol/src/lib.rs), interleaved
 step by step with each other and with commits of the replica's own.
 */
module Interleavings {
  import opened Basics
  import opened Core
  import opened Refs
  import opened History
  import opened Store
  import opened Index
  import opened CommitMachine
  import opened Repositories
  import opened Solo
  import opened Transfers
  import opened Convergence
  import Answers

  /** How far an application has come: which state it read, which prerequisites it has looked up. */
  datatype Work =
    | Admitted
    | Looked(stateId: Option<Id>)
    | Probing(current: Option<Prior>, checked: nat, missing: seq<Prerequisite>)
    | Importing
    | Committing
    | Done(result: Result<ApplyOutcome, ProtocolError>)

  datatype Job = Rejected(error: ProtocolError) | Job(transfer: Transfer, request: Request, work: Work)

  /** The repository with its calls, and the applications; an application's commit is the call of its number. */
  datatype Replica = Replica(sys: Sys, jobs: map<nat, Job>)

  datatype Move =
    | Start(job: nat, transfer: Transfer, selected: SignerSelection, maxPayload: nat)
    | Look(job: nat, lost: bool)
    | Load(job: nat)
    | Probe(job: nat, lost: bool)
    | Import(job: nat, fails: bool)
    | Answer(job: nat)
    | Store(step: CommitMachine.Step)

  function Open(id: RepositoryId, format: ObjectFormat): Replica {
    Replica(Initial(id, format), map[])
  }

  function Put(r: Replica, job: nat, work: Work): Replica
    requires job in r.jobs && r.jobs[job].Job?
  {
    r.(jobs := r.jobs[job := r.jobs[job].(work := work)])
  }

  /** The state that was read is loaded and compared with the transfer's transition. */
  function LoadWork(repo: Repo, transfer: Transfer, request: Request, stateId: Option<Id>): Work {
    match LoadState(repo, request.Publisher(), stateId)
    case Err(e) => Done(Err(StoreFailed(e)))
    case Ok(current) =>
      if current.Some? && current.value.state.transition == transfer.manifest.resultingTransition then
        Done(Ok(TransferPresent(current.value.state)))
      else Probing(current, 0, [])
  }

  /** One prerequisite is looked up; after the last, the application goes on or tells what is missing. */
  function ProbeWork(repo: Repo, transfer: Transfer, work: Work, lost: bool): Work
    requires work.Probing?
  {
    var ps := transfer.manifest.prerequisites;
    if work.checked < |ps| then
      var p := ps[work.checked];
      match Holds(repo, work.current, p, if lost && p.ObjectPresent? then {p.oid} else {})
      case Err(e) => Done(Err(StoreFailed(e)))
      case Ok(present) => Probing(work.current, work.checked + 1, if present then work.missing else work.missing + [p])
    else if work.missing != [] then Done(Ok(MissingPrerequisites(work.missing)))
    else Importing
  }

  ghost function JobMove(links: GitObjectId -> set<GitObjectId>, r: Replica, move: Move): Replica
    requires !move.Start? && !move.Store? && move.job in r.jobs && r.jobs[move.job].Job?
  {
    var job, j := move.job, r.jobs[move.job];
    match (move, j.work)
    case (Look(_, lost), Admitted) => Put(r, job, Looked(Shown(r.sys.repo, j.request, lost)))
    case (Load(_), Looked(stateId)) => Put(r, job, LoadWork(r.sys.repo, j.transfer, j.request, stateId))
    case (Probe(_, lost), Probing(_, _, _)) => Put(r, job, ProbeWork(r.sys.repo, j.transfer, j.work, lost))
    case (Import(_, fails), Importing) =>
      if fails then Put(r, job, Done(Err(StoreFailed(GitFailed))))
      else Put(r.(sys := Exec(links, r.sys, CommitMachine.Step.Enter(job, j.request))), job, Committing)
    case (Answer(_), Committing) =>
      if At(r.sys, job) && r.sys.calls[job].phase.Returned? then Put(r, job, Done(Transfers.Outcome(r.sys.calls[job].phase.result)))
      else r
    case _ => r
  }

  /** One move; a move that does not fit changes nothing. */
  ghost function Next(links: GitObjectId -> set<GitObjectId>, rank: Digest -> nat, r: Replica, move: Move): Replica {
    match move
    case Start(job, transfer, selected, maxPayload) =>
      if job in r.jobs || At(r.sys, job) then r
      else
        r.(jobs := r.jobs[job :=
             match Admit(rank, r.sys.repo, transfer, selected, maxPayload)
             case Err(e) => Rejected(e)
             case Ok(request) => Job(transfer, request, Admitted)])
    case Store(step) =>
      if step.Enter? && step.call in r.jobs then r else r.(sys := Exec(links, r.sys, step))
    case _ =>
      if move.job in r.jobs && r.jobs[move.job].Job? then JobMove(links, r, move) else r
  }

  ghost function Go(links: GitObjectId -> set<GitObjectId>, rank: Digest -> nat, start: Replica, moves: seq<Move>): Replica {
    if moves == [] then start
    else Next(links, rank, Go(links, rank, start, moves[..|moves| - 1]), moves[|moves| - 1])
  }

  /// Projection

  /** What a move is for the repository: a step of the commit machine, or none. */
  ghost function StepOf(r: Replica, move: Move): seq<CommitMachine.Step> {
    if move.Store? then
      if move.step.Enter? && move.step.call in r.jobs then [] else [move.step]
    else if move.Import? && !move.fails && move.job in r.jobs && r.jobs[move.job].Job? && r.jobs[move.job].work.Importing? then
      [CommitMachine.Step.Enter(move.job, r.jobs[move.job].request)]
    else []
  }

  ghost function StepsOf(links: GitObjectId -> set<GitObjectId>, rank: Digest -> nat, start: Replica, moves: seq<Move>)
    : seq<CommitMachine.Step>
  {
    if moves == [] then []
    else
      StepsOf(links, rank, start, moves[..|moves| - 1])
      + StepOf(Go(links, rank, start, moves[..|moves| - 1]), moves[|moves| - 1])
  }

  lemma MoveIsAStep(links: GitObjectId -> set<GitObjectId>, rank: Digest -> nat, r: Replica, move: Move)
    ensures |StepOf(r, move)| <= 1
    ensures Next(links, rank, r, move).sys == if StepOf(r, move) == [] then r.sys else Exec(links, r.sys, StepOf(r, move)[0])
  {
    hide Exec, Admit, LoadWork, ProbeWork;
  }

  /** However applications interleave, for the repository it is a run of the commit machine. */
  lemma {:induction false} MovesAreARun(links: GitObjectId -> set<GitObjectId>, rank: Digest -> nat, start: Replica, moves: seq<Move>)
    ensures Go(links, rank, start, moves).sys == Run(links, start.sys, StepsOf(links, rank, start, moves))
  {
    hide Exec, Next, StepOf;
    if moves != [] {
      var n := |moves| - 1;
      var before := Go(links, rank, start, moves[..n]);
      MovesAreARun(links, rank, start, moves[..n]);
      MoveIsAStep(links, rank, before, moves[n]);
      var steps, last := StepsOf(links, rank, start, moves[..n]), StepOf(before, moves[n]);
      if last != [] {
        assert (steps + last)[..|steps|] == steps;
      } else {
        assert steps + last == steps;
      }
    }
  }

  /// Safety

  /** Nobody but the publisher signs for it: what is presented as its transition is in the history, or does not verify. */
  ghost predicate Owned(publisher: Identity, chain: Chain, request: Request) {
    && request.Publisher() == publisher
    && Verifies(request.commit.selected.repositoryKey, SignatureFrame(request.commit.transition.payload),
                request.commit.transition.signature)
    ==> exists i :: 0 <= i < |chain.commits| && chain.commits[i].transition == request.commit.transition
  }

  ghost predicate AllOwned(publisher: Identity, chain: Chain, s: Sys) {
    forall c :: c in s.calls ==> Owned(publisher, chain, s.calls[c].request)
  }

  ghost predicate OwnedStep(publisher: Identity, chain: Chain, step: CommitMachine.Step) {
    step.Enter? ==> Owned(publisher, chain, step.request)
  }

  lemma RequestsStay(links: GitObjectId -> set<GitObjectId>, s: Sys, step: CommitMachine.Step, call: nat)
    requires At(Exec(links, s, step), call)
    ensures if At(s, call) then s.calls[call].request == Exec(links, s, step).calls[call].request
            else step == CommitMachine.Step.Enter(call, Exec(links, s, step).calls[call].request)
  {
    hide TransactionResult, Effective, PlanPhase, ConcludePhase, CheckPhase, Shown;
  }

  lemma StepKeepsOwned(links: GitObjectId -> set<GitObjectId>, s: Sys, step: CommitMachine.Step, publisher: Identity, chain: Chain)
    requires AllOwned(publisher, chain, s) && OwnedStep(publisher, chain, step)
    ensures AllOwned(publisher, chain, Exec(links, s, step))
  {
    hide Exec, Owned;
    forall c | c in Exec(links, s, step).calls
      ensures Owned(publisher, chain, Exec(links, s, step).calls[c].request)
    {
      RequestsStay(links, s, step, c);
    }
  }

  /** One step leaves the publisher where it is or moves it to the next position. */
  lemma StepMoves(links: GitObjectId -> set<GitObjectId>, s: Sys, step: CommitMachine.Step, publisher: Identity,
                  chain: Chain, k: nat) returns (k': nat)
    requires Inv(links, s) && AllOwned(publisher, chain, s)
    requires HistoryOf(s.repo.id, publisher, chain) && AtPosition(s.repo, publisher, chain, k)
    ensures k <= k' <= k + 1 && AtPosition(Exec(links, s, step).repo, publisher, chain, k')
    ensures Exec(links, s, step).repo.id == s.repo.id
  {
    hide Exec, Inv, Effective, Accept, Owned, CurrentState;
    StepKeepsInv(links, s, step);
    k' := k;
    if Effective(s, step) && EffectOf(s, step).Publisher() == publisher {
      k' := k + 1;
      TransactionKeepsInv(links, s, step);
      EffectIsNext(links, s, step, publisher, chain, k);
    } else {
      EffectOfOthers(s, step, publisher);
      QuietForOthers(links, s, step, publisher);
    }
  }

  function EffectOf(s: Sys, step: CommitMachine.Step): Request
    requires Effective(s, step)
  {
    s.calls[step.call].request
  }

  lemma EffectOfOthers(s: Sys, step: CommitMachine.Step, publisher: Identity)
    requires Effective(s, step) ==> EffectOf(s, step).Publisher() != publisher
    ensures Effective(s, step) ==> s.calls[step.call].request.Publisher() != publisher
  {
  }

  lemma EffectIsNext(links: GitObjectId -> set<GitObjectId>, s: Sys, step: CommitMachine.Step, publisher: Identity, chain: Chain, k: nat)
    requires Inv(links, s) && AllOwned(publisher, chain, s) && Effective(s, step)
    requires HistoryOf(s.repo.id, publisher, chain) && AtPosition(s.repo, publisher, chain, k)
    requires EffectOf(s, step).Publisher() == publisher
    ensures k < |chain.states| && CurrentState(Exec(links, s, step).repo, publisher) == Some(chain.states[k])
  {
    hide Exec, Accept, CurrentState, RepoOk;
    var c := s.calls[step.call];
    TransactionKeepsInv(links, s, step);
    assert CallOk(links, s.repo, c);
    AcceptVerifies(s.repo.id, c.request.commit, StateAt(chain, k));
    assert Owned(publisher, chain, c.request);
    var i :| 0 <= i < |chain.commits| && chain.commits[i].transition == c.request.commit.transition;
    AcceptedIsNext(s.repo.id, chain, k, i, c.request.commit);
  }

  ghost predicate OwnedMove(publisher: Identity, chain: Chain, move: Move) {
    && (move.Start? && move.transfer.binding.Canonical? && move.transfer.transition.Canonical? ==>
          Owned(publisher, chain, RequestOf(move.transfer, move.selected)))
    && (move.Store? ==> OwnedStep(publisher, chain, move.step))
  }

  /** The replica is sound, and whatever is under way for the publisher is in its history or does not verify. */
  ghost predicate Healthy(links: GitObjectId -> set<GitObjectId>, publisher: Identity, chain: Chain, r: Replica) {
    && Inv(links, r.sys) && AllOwned(publisher, chain, r.sys)
    && forall job :: job in r.jobs && r.jobs[job].Job? ==> Owned(publisher, chain, r.jobs[job].request)
  }

  lemma JobsStayOwned(links: GitObjectId -> set<GitObjectId>, rank: Digest -> nat, publisher: Identity, chain: Chain,
                      r: Replica, move: Move, job: nat)
    requires Healthy(links, publisher, chain, r) && OwnedMove(publisher, chain, move)
    requires job in Next(links, rank, r, move).jobs && Next(links, rank, r, move).jobs[job].Job?
    ensures Owned(publisher, chain, Next(links, rank, r, move).jobs[job].request)
  {
    hide Exec, Inv, AllOwned, Owned, OwnedStep, LoadWork, ProbeWork, Shown;
    if move.Start? && job == move.job && job !in r.jobs {
      assert Admit(rank, r.sys.repo, move.transfer, move.selected, move.maxPayload).Ok?;
    }
  }

  lemma StepIsOwned(links: GitObjectId -> set<GitObjectId>, publisher: Identity, chain: Chain, r: Replica, move: Move)
    requires Healthy(links, publisher, chain, r) && OwnedMove(publisher, chain, move) && StepOf(r, move) != []
    ensures OwnedStep(publisher, chain, StepOf(r, move)[0])
  {
    hide Inv, AllOwned, Owned;
  }

  /** One move leaves the publisher where it is or moves it to the next position. */
  lemma MoveMoves(links: GitObjectId -> set<GitObjectId>, rank: Digest -> nat, publisher: Identity, chain: Chain,
                  r: Replica, move: Move, k: nat) returns (k': nat)
    requires Healthy(links, publisher, chain, r) && OwnedMove(publisher, chain, move)
    requires HistoryOf(r.sys.repo.id, publisher, chain) && AtPosition(r.sys.repo, publisher, chain, k)
    ensures var r' := Next(links, rank, r, move);
            && Healthy(links, publisher, chain, r') && r'.sys.repo.id == r.sys.repo.id
            && k <= k' <= k + 1 && AtPosition(r'.sys.repo, publisher, chain, k')
  {
    hide Exec, Inv, AllOwned, Owned, OwnedMove, OwnedStep, StepOf, Next, HistoryOf, AtPosition;
    MoveIsAStep(links, rank, r, move);
    k' := k;
    if StepOf(r, move) != [] {
      var step := StepOf(r, move)[0];
      StepIsOwned(links, publisher, chain, r, move);
      StepKeepsOwned(links, r.sys, step, publisher, chain);
      StepKeepsInv(links, r.sys, step);
      k' := StepMoves(links, r.sys, step, publisher, chain, k);
    }
    forall job | job in Next(links, rank, r, move).jobs && Next(links, rank, r, move).jobs[job].Job?
      ensures Owned(publisher, chain, Next(links, rank, r, move).jobs[job].request)
    {
      JobsStayOwned(links, rank, publisher, chain, r, move, job);
    }
  }

  ghost predicate OwnedMoves(publisher: Identity, chain: Chain, moves: seq<Move>) {
    forall i :: 0 <= i < |moves| ==> OwnedMove(publisher, chain, moves[i])
  }

  lemma {:induction false} GoPosition(links: GitObjectId -> set<GitObjectId>, rank: Digest -> nat, repository: RepositoryId,
                                      format: ObjectFormat, publisher: Identity, chain: Chain, moves: seq<Move>) returns (k: nat)
    requires HistoryOf(repository, publisher, chain) && OwnedMoves(publisher, chain, moves)
    ensures var r := Go(links, rank, Open(repository, format), moves);
            && Healthy(links, publisher, chain, r) && r.sys.repo.id == repository
            && AtPosition(r.sys.repo, publisher, chain, k)
  {
    hide Next, HistoryOf, OwnedMove;
    if moves == [] {
      hide Inv;
      InitialInv(links, repository, format);
      k := 0;
    } else {
      hide Healthy, AtPosition;
      var n := |moves| - 1;
      var j := GoPosition(links, rank, repository, format, publisher, chain, moves[..n]);
      k := MoveMoves(links, rank, publisher, chain, Go(links, rank, Open(repository, format), moves[..n]), moves[n], j);
    }
  }

  /**
   Safety: whatever is applied and committed on a replica, in however many calls at a time and wherever they
   stop, it is at every moment at no state or at a state of the publisher's history, and it never goes back.
   */
  lemma {:induction false} NeverBackwards(links: GitObjectId -> set<GitObjectId>, rank: Digest -> nat, repository: RepositoryId,
                                          format: ObjectFormat, publisher: Identity, chain: Chain, moves: seq<Move>, m: nat)
    returns (before: nat, after: nat)
    requires HistoryOf(repository, publisher, chain) && OwnedMoves(publisher, chain, moves) && m <= |moves|
    ensures var start := Open(repository, format);
            && Go(links, rank, start, moves).sys.repo.id == repository
            && AtPosition(Go(links, rank, start, moves[..m]).sys.repo, publisher, chain, before)
            && AtPosition(Go(links, rank, start, moves).sys.repo, publisher, chain, after)
            && before <= after
    decreases |moves|
  {
    hide Next, HistoryOf, OwnedMove, AtPosition, Healthy;
    if m == |moves| {
      before := GoPosition(links, rank, repository, format, publisher, chain, moves);
      after := before;
      assert moves[..m] == moves;
    } else {
      var n := |moves| - 1;
      assert moves[..n][..m] == moves[..m];
      var mid;
      before, mid := NeverBackwards(links, rank, repository, format, publisher, chain, moves[..n], m);
      var k := GoPosition(links, rank, repository, format, publisher, chain, moves[..n]);
      after := MoveMoves(links, rank, publisher, chain, Go(links, rank, Open(repository, format), moves[..n]), moves[n], mid);
    }
  }

  /** Any two replicas, whatever runs on each, agree as far as both have come. */
  lemma ReplicasComparable(links: GitObjectId -> set<GitObjectId>, rank: Digest -> nat, repository: RepositoryId,
                           format: ObjectFormat, publisher: Identity, chain: Chain, a: seq<Move>, b: seq<Move>)
    requires HistoryOf(repository, publisher, chain) && OwnedMoves(publisher, chain, a) && OwnedMoves(publisher, chain, b)
    ensures var r1 := Go(links, rank, Open(repository, format), a).sys.repo;
            var r2 := Go(links, rank, Open(repository, format), b).sys.repo;
            && (AcceptedBy(r1, publisher) <= AcceptedBy(r2, publisher) || AcceptedBy(r2, publisher) <= AcceptedBy(r1, publisher))
            && (AcceptedBy(r1, publisher) == AcceptedBy(r2, publisher) <==>
                  CurrentState(r1, publisher) == CurrentState(r2, publisher))
  {
    hide Go, OwnedMoves, CurrentState, AcceptedBy, Healthy;
    var r1 := Go(links, rank, Open(repository, format), a).sys.repo;
    var r2 := Go(links, rank, Open(repository, format), b).sys.repo;
    var k1 := GoPosition(links, rank, repository, format, publisher, chain, a);
    var k2 := GoPosition(links, rank, repository, format, publisher, chain, b);
    AcceptedAt(r1, publisher, chain, k1);
    AcceptedAt(r2, publisher, chain, k2);
    if k1 < k2 {
      FurtherOn(r1, r2, publisher, chain, k1, k2);
    } else if k2 < k1 {
      FurtherOn(r2, r1, publisher, chain, k2, k1);
    }
  }

  /// What an application is told

  /** A prefix of the steps is what a prefix of the moves does. */
  lemma {:induction false} StepsOfPrefix(links: GitObjectId -> set<GitObjectId>, rank: Digest -> nat, start: Replica,
                                         moves: seq<Move>, k: nat) returns (m: nat)
    requires k <= |StepsOf(links, rank, start, moves)|
    ensures m <= |moves| && StepsOf(links, rank, start, moves[..m]) == StepsOf(links, rank, start, moves)[..k]
  {
    hide StepOf;
    m := |moves|;
    assert moves[..m] == moves;
    if k < |StepsOf(links, rank, start, moves)| {
      var n := |moves| - 1;
      MoveIsAStep(links, rank, Go(links, rank, start, moves[..n]), moves[n]);
      m := StepsOfPrefix(links, rank, start, moves[..n], k);
      assert moves[..n][..m] == moves[..m];
    } else {
      assert StepsOf(links, rank, start, moves)[..k] == StepsOf(links, rank, start, moves);
    }
  }

  /** The state was the publisher's current one after the first `m` moves. */
  ghost predicate CurrentAfter(links: GitObjectId -> set<GitObjectId>, rank: Digest -> nat, start: Replica,
                               moves: seq<Move>, m: nat, publisher: Identity, state: RefState)
  {
    m <= |moves| && CurrentState(Go(links, rank, start, moves[..m]).sys.repo, publisher) == Some(state)
  }

  ghost predicate WasCurrent(links: GitObjectId -> set<GitObjectId>, rank: Digest -> nat, start: Replica,
                             moves: seq<Move>, publisher: Identity, state: RefState)
  {
    exists m: nat :: CurrentAfter(links, rank, start, moves, m, publisher, state)
  }

  lemma WasCurrentStays(links: GitObjectId -> set<GitObjectId>, rank: Digest -> nat, start: Replica,
                        moves: seq<Move>, publisher: Identity, state: RefState)
    requires moves != [] && WasCurrent(links, rank, start, moves[..|moves| - 1], publisher, state)
    ensures WasCurrent(links, rank, start, moves, publisher, state)
  {
    hide Go, CurrentState;
    var m: nat :| CurrentAfter(links, rank, start, moves[..|moves| - 1], m, publisher, state);
    assert moves[..|moves| - 1][..m] == moves[..m];
    assert CurrentAfter(links, rank, start, moves, m, publisher, state);
  }

  /** The state an application goes by or reports, if it does. */
  function Goes(work: Work): Option<RefState> {
    match work
    case Looked(Some(Blob(StateBlob(state)))) => Some(state)
    case Done(Ok(TransferApplied(state))) => Some(state)
    case Done(Ok(TransferPresent(state))) => Some(state)
    case _ => None
  }

  /** What holds of an application at any moment. */
  ghost predicate JobOk(links: GitObjectId -> set<GitObjectId>, rank: Digest -> nat, start: Replica, moves: seq<Move>,
                        sys: Sys, job: nat, j: Job)
    requires j.Job?
  {
    && j.transfer.manifest.resultingTransition == j.request.Id() && RealQuarantine(j.request)
    && (Goes(j.work).Some? ==> WasCurrent(links, rank, start, moves, j.request.Publisher(), Goes(j.work).value))
    && (j.work.Done? && Goes(j.work).Some? ==> Goes(j.work).value.transition == j.request.Id())
    && (At(sys, job) ==> sys.calls[job].request == j.request)
    && (!At(sys, job) ==> !j.work.Committing?)
  }

  /** A commit that ends in a state ends in one that was current, and in the request's own. */
  lemma CommitTells(links: GitObjectId -> set<GitObjectId>, rank: Digest -> nat, id: RepositoryId, format: ObjectFormat,
                    moves: seq<Move>, call: nat)
    requires var s := Go(links, rank, Open(id, format), moves).sys;
             At(s, call) && s.calls[call].phase.Returned? && s.calls[call].phase.result.Ok?
    ensures var s := Go(links, rank, Open(id, format), moves).sys;
            var state := s.calls[call].phase.result.value.state;
            && WasCurrent(links, rank, Open(id, format), moves, s.calls[call].request.Publisher(), state)
            && state.transition == s.calls[call].request.Id()
  {
    hide Go, StepsOf, Run, CurrentState;
    var start := Open(id, format);
    var s, steps := Go(links, rank, start, moves).sys, StepsOf(links, rank, start, moves);
    var k;
    MovesAreARun(links, rank, start, moves);
    ReportedIsOwn(links, id, format, steps, call);
    match s.calls[call].phase.result.value {
    case Applied(state) =>
      var j := Answers.AppliedTookEffect(links, id, format, steps, call, state);
      k := j + 1;
    case AlreadyPresent(state) =>
      k := AlreadyPresentWasCurrent(links, id, format, steps, call, state);
    }
    var m := StepsOfPrefix(links, rank, start, moves, k);
    MovesAreARun(links, rank, start, moves[..m]);
    assert CurrentAfter(links, rank, start, moves, m, s.calls[call].request.Publisher(), s.calls[call].phase.result.value.state);
  }

  /** An application that is not moved, or is only started. */
  lemma UnmovedJob(links: GitObjectId -> set<GitObjectId>, rank: Digest -> nat, r: Replica, move: Move, job: nat)
    requires var r' := Next(links, rank, r, move);
             job in r'.jobs && r'.jobs[job].Job?
    ensures var r' := Next(links, rank, r, move);
            var j := r'.jobs[job];
            if job in r.jobs then r.jobs[job].Job? && j.request == r.jobs[job].request && j.transfer == r.jobs[job].transfer
            else
              && j.work == Admitted && !At(r'.sys, job)
              && j.transfer.manifest.resultingTransition == j.request.Id() && RealQuarantine(j.request)
  {
    hide Exec, LoadWork, ProbeWork, Shown, Validate;
  }

  lemma EnterEnters(links: GitObjectId -> set<GitObjectId>, s: Sys, call: nat, request: Request)
    requires RealQuarantine(request)
    ensures At(Exec(links, s, CommitMachine.Step.Enter(call, request)), call)
  {
  }

  /** In a move an application comes by a state only by looking it up, loading it, or from its commit. */
  lemma GoesHow(links: GitObjectId -> set<GitObjectId>, rank: Digest -> nat, r: Replica, move: Move, job: nat)
    requires job in r.jobs && r.jobs[job].Job? && RealQuarantine(r.jobs[job].request)
    ensures job in Next(links, rank, r, move).jobs
    ensures var j := Next(links, rank, r, move).jobs[job];
            var before := r.jobs[job];
            && j.Job?
            && (Goes(j.work).Some? ==>
                  || (Goes(before.work) == Goes(j.work) && (j.work.Done? ==>
                        before.work.Done? || Goes(j.work).value.transition == before.transfer.manifest.resultingTransition))
                  || (CurrentState(r.sys.repo, before.request.Publisher()) == Goes(j.work) && !j.work.Done?)
                  || (before.work.Committing? && At(r.sys, job) && r.sys.calls[job].phase.Returned?
                      && r.sys.calls[job].phase.result.Ok?
                      && r.sys.calls[job].phase.result.value.state == Goes(j.work).value))
            && (j.work.Committing? ==> before.work.Committing? || At(Next(links, rank, r, move).sys, job))
  {
    hide Exec, Admit, Holds;
    var before := r.jobs[job];
    EnterEnters(links, r.sys, job, before.request);
  }

  /** Nobody else's commit takes the number of an application. */
  lemma EntersAsItself(r: Replica, move: Move, job: nat, request: Request)
    requires job in r.jobs && StepOf(r, move) == [CommitMachine.Step.Enter(job, request)]
    ensures r.jobs[job].Job? && r.jobs[job].request == request
  {
  }

  lemma CallIsItsOwn(links: GitObjectId -> set<GitObjectId>, rank: Digest -> nat, r: Replica, move: Move, job: nat)
    requires job in r.jobs && r.jobs[job].Job? && (At(r.sys, job) ==> r.sys.calls[job].request == r.jobs[job].request)
    ensures var sys := Next(links, rank, r, move).sys;
            && (At(sys, job) ==> sys.calls[job].request == r.jobs[job].request)
            && (At(r.sys, job) ==> At(sys, job))
  {
    hide Next, Exec, StepOf;
    MoveIsAStep(links, rank, r, move);
    var sys := Next(links, rank, r, move).sys;
    if StepOf(r, move) != [] {
      var step := StepOf(r, move)[0];
      if At(r.sys, job) {
        Answers.CallsStay(links, r.sys, step, job);
        RequestsStay(links, r.sys, step, job);
      } else if At(sys, job) {
        RequestsStay(links, r.sys, step, job);
        assert StepOf(r, move) == [step];
        EntersAsItself(r, move, job, sys.calls[job].request);
      }
    }
  }

  lemma GoLast(links: GitObjectId -> set<GitObjectId>, rank: Digest -> nat, start: Replica, moves: seq<Move>)
    requires moves != []
    ensures Go(links, rank, start, moves) == Next(links, rank, Go(links, rank, start, moves[..|moves| - 1]), moves[|moves| - 1])
  {
  }

  /** What an application goes by after a move was current before. */
  lemma GoesByCurrent(links: GitObjectId -> set<GitObjectId>, rank: Digest -> nat, id: RepositoryId,
                      format: ObjectFormat, moves: seq<Move>, job: nat)
    requires moves != []
    requires var before := Go(links, rank, Open(id, format), moves[..|moves| - 1]);
             && job in before.jobs && before.jobs[job].Job?
             && JobOk(links, rank, Open(id, format), moves[..|moves| - 1], before.sys, job, before.jobs[job])
    ensures job in Go(links, rank, Open(id, format), moves).jobs
    ensures var before, r := Go(links, rank, Open(id, format), moves[..|moves| - 1]), Go(links, rank, Open(id, format), moves);
            var j := r.jobs[job];
            && j.Job?
            && (Goes(j.work).Some? ==>
                  WasCurrent(links, rank, Open(id, format), moves, before.jobs[job].request.Publisher(), Goes(j.work).value))
            && (j.work.Done? && Goes(j.work).Some? ==> Goes(j.work).value.transition == before.jobs[job].request.Id())
            && (j.work.Committing? ==> At(r.sys, job))
  {
    hide Next, Exec, Goes, CurrentState, WasCurrent, RealQuarantine, Go, TransitionId, Initial;
    var start, n := Open(id, format), |moves| - 1;
    GoLast(links, rank, start, moves);
    var before, r := Go(links, rank, start, moves[..n]), Go(links, rank, start, moves);
    GoesHow(links, rank, before, moves[n], job);
    var j, publisher := r.jobs[job], before.jobs[job].request.Publisher();
    CallIsItsOwn(links, rank, before, moves[n], job);
    if Goes(j.work).Some? {
      var state := Goes(j.work).value;
      if CurrentState(before.sys.repo, publisher) == Some(state) {
        IsCurrent(links, rank, start, moves[..n], publisher, state);
      }
      if before.jobs[job].work.Committing? && before.sys.calls[job].phase.Returned? && before.sys.calls[job].phase.result.Ok? {
        CommitTells(links, rank, id, format, moves[..n], job);
      }
      WasCurrentStays(links, rank, start, moves, publisher, state);
    }
  }

  lemma IsCurrent(links: GitObjectId -> set<GitObjectId>, rank: Digest -> nat, start: Replica,
                  moves: seq<Move>, publisher: Identity, state: RefState)
    requires CurrentState(Go(links, rank, start, moves).sys.repo, publisher) == Some(state)
    ensures WasCurrent(links, rank, start, moves, publisher, state)
  {
    hide Go, CurrentState;
    assert moves[..|moves|] == moves;
    assert CurrentAfter(links, rank, start, moves, |moves|, publisher, state);
  }

  lemma {:induction false} JobsOk(links: GitObjectId -> set<GitObjectId>, rank: Digest -> nat, id: RepositoryId,
                                  format: ObjectFormat, moves: seq<Move>, job: nat)
    requires var r := Go(links, rank, Open(id, format), moves);
             job in r.jobs && r.jobs[job].Job?
    ensures var r := Go(links, rank, Open(id, format), moves);
            JobOk(links, rank, Open(id, format), moves, r.sys, job, r.jobs[job])
  {
    hide Next, CurrentState, WasCurrent, RealQuarantine;
    var start, n := Open(id, format), |moves| - 1;
    var before := Go(links, rank, start, moves[..n]);
    UnmovedJob(links, rank, before, moves[n], job);
    if job in before.jobs {
      JobsOk(links, rank, id, format, moves[..n], job);
      CallIsItsOwn(links, rank, before, moves[n], job);
      GoesByCurrent(links, rank, id, format, moves, job);
    }
  }

  /**
   In every run, an application that reports a state, as applied or as present, reports the state its own
   transition leads to, and that was the publisher's current state at some moment of the run.
   */
  lemma AnswersAreTrue(links: GitObjectId -> set<GitObjectId>, rank: Digest -> nat, id: RepositoryId,
                       format: ObjectFormat, moves: seq<Move>, job: nat, state: RefState) returns (m: nat)
    requires var r := Go(links, rank, Open(id, format), moves);
             && job in r.jobs && r.jobs[job].Job?
             && (r.jobs[job].work == Done(Ok(TransferApplied(state))) || r.jobs[job].work == Done(Ok(TransferPresent(state))))
    ensures var j := Go(links, rank, Open(id, format), moves).jobs[job];
            && m <= |moves|
            && CurrentState(Go(links, rank, Open(id, format), moves[..m]).sys.repo, j.request.Publisher()) == Some(state)
            && state.transition == j.transfer.manifest.resultingTransition
  {
    hide Go, CurrentState;
    JobsOk(links, rank, id, format, moves, job);
    var j := Go(links, rank, Open(id, format), moves).jobs[job];
    assert Goes(j.work) == Some(state);
    m :| CurrentAfter(links, rank, Open(id, format), moves, m, j.request.Publisher(), state);
  }

  /// One application by itself

  function Alone(repo: Repo): Replica {
    Replica(Sys(repo, map[]), map[])
  }

  function AnswerOf(j: Job): Option<Result<ApplyOutcome, ProtocolError>> {
    if j.Rejected? then Some(Err(j.error)) else if j.work.Done? then Some(j.work.result) else None
  }

  lemma GoOne(links: GitObjectId -> set<GitObjectId>, rank: Digest -> nat, r: Replica, move: Move)
    ensures Go(links, rank, r, [move]) == Next(links, rank, r, move)
  {
    hide Next;
    assert Go(links, rank, r, [move][..0]) == r;
  }

  lemma {:induction false} GoConcat(links: GitObjectId -> set<GitObjectId>, rank: Digest -> nat, r: Replica, a: seq<Move>, b: seq<Move>)
    ensures Go(links, rank, r, a + b) == Go(links, rank, Go(links, rank, r, a), b)
  {
    hide Next;
    if b == [] {
      assert a + b == a;
    } else {
      GoConcat(links, rank, r, a, b[..|b| - 1]);
      assert (a + b)[..|a + b| - 1] == a + b[..|b| - 1];
    }
  }

  /** The application numbered 0, on a repository nobody else uses. */
  function One(repo: Repo, transfer: Transfer, request: Request, work: Work): Replica {
    Replica(Sys(repo, map[]), map[0 := Job(transfer, request, work)])
  }

  lemma ProbeAlone(links: GitObjectId -> set<GitObjectId>, rank: Digest -> nat, repo: Repo, transfer: Transfer, request: Request,
                   work: Work, lost: bool)
    requires work.Probing?
    ensures Next(links, rank, One(repo, transfer, request, work), Probe(0, lost))
         == One(repo, transfer, request, ProbeWork(repo, transfer, work, lost))
  {
    hide ProbeWork;
    assert map[0 := Job(transfer, request, work)][0 := Job(transfer, request, ProbeWork(repo, transfer, work, lost))]
        == map[0 := Job(transfer, request, ProbeWork(repo, transfer, work, lost))];
  }

  lemma {:induction false} MissingFails(repo: Repo, current: Option<Prior>, ps: seq<Prerequisite>, k: nat, probesLost: set<GitObjectId>)
    requires k <= |ps| && Missing(repo, current, ps[..k], probesLost).Err?
    ensures Missing(repo, current, ps, probesLost) == Missing(repo, current, ps[..k], probesLost)
    decreases |ps|
  {
    hide Holds;
    if k == |ps| {
      assert ps[..k] == ps;
    } else {
      var n := |ps| - 1;
      assert ps[..n][..k] == ps[..k];
      MissingFails(repo, current, ps[..n], k, probesLost);
    }
  }

  /** What comes after the prerequisites have been looked up. */
  function AfterProbes(r: Result<seq<Prerequisite>, StoreError>): Work {
    match r
    case Err(e) => Done(Err(StoreFailed(e)))
    case Ok(missing) => if missing != [] then Done(Ok(MissingPrerequisites(missing))) else Importing
  }

  lemma {:induction false} ProbesRun(links: GitObjectId -> set<GitObjectId>, rank: Digest -> nat, repo: Repo, transfer: Transfer,
                                     request: Request, current: Option<Prior>, k: nat, missing: seq<Prerequisite>,
                                     probesLost: set<GitObjectId>) returns (moves: seq<Move>)
    requires k <= |transfer.manifest.prerequisites|
    requires Missing(repo, current, transfer.manifest.prerequisites[..k], probesLost) == Ok(missing)
    ensures Go(links, rank, One(repo, transfer, request, Probing(current, k, missing)), moves)
         == One(repo, transfer, request, AfterProbes(Missing(repo, current, transfer.manifest.prerequisites, probesLost)))
    decreases |transfer.manifest.prerequisites| - k
  {
    hide HasObject, Missing, Go, Next, Holds;
    var ps, r := transfer.manifest.prerequisites, One(repo, transfer, request, Probing(current, k, missing));
    if k == |ps| {
      moves := [Probe(0, false)];
      GoOne(links, rank, r, moves[0]);
      ProbeAlone(links, rank, repo, transfer, request, Probing(current, k, missing), false);
      assert ps[..k] == ps;
    } else {
      var probe := Probe(0, ps[k].ObjectPresent? && ps[k].oid in probesLost);
      ProbeStep(repo, transfer, current, k, missing, probesLost);
      GoOne(links, rank, r, probe);
      ProbeAlone(links, rank, repo, transfer, request, Probing(current, k, missing), probe.lost);
      moves := [probe];
      var sofar := Missing(repo, current, ps[..k + 1], probesLost);
      if sofar.Ok? {
        var rest := ProbesRun(links, rank, repo, transfer, request, current, k + 1, sofar.value, probesLost);
        GoConcat(links, rank, r, [probe], rest);
        moves := [probe] + rest;
      } else {
        MissingFails(repo, current, ps, k + 1, probesLost);
      }
    }
  }

  lemma ProbeStep(repo: Repo, transfer: Transfer, current: Option<Prior>, k: nat, missing: seq<Prerequisite>, probesLost: set<GitObjectId>)
    requires k < |transfer.manifest.prerequisites|
    requires Missing(repo, current, transfer.manifest.prerequisites[..k], probesLost) == Ok(missing)
    ensures var ps := transfer.manifest.prerequisites;
            ProbeWork(repo, transfer, Probing(current, k, missing), ps[k].ObjectPresent? && ps[k].oid in probesLost)
              == match Missing(repo, current, ps[..k + 1], probesLost)
                 case Err(e) => Done(Err(StoreFailed(e)))
                 case Ok(more) => Probing(current, k + 1, more)
  {
    var ps := transfer.manifest.prerequisites;
    assert ps[..k + 1][..k] == ps[..k] && ps[..k + 1][k] == ps[k];
  }

  function Stores(steps: seq<CommitMachine.Step>): (moves: seq<Move>)
    ensures |moves| == |steps| && forall i :: 0 <= i < |steps| ==> moves[i] == Store(steps[i])
  {
    seq(|steps|, i requires 0 <= i < |steps| => Store(steps[i]))
  }

  lemma {:induction false} StoresRun(links: GitObjectId -> set<GitObjectId>, rank: Digest -> nat, r: Replica, steps: seq<CommitMachine.Step>)
    requires r.jobs.Keys == {0} && At(r.sys, 0)
    ensures Go(links, rank, r, Stores(steps)) == r.(sys := Run(links, r.sys, steps))
    ensures At(Run(links, r.sys, steps), 0)
  {
    if steps != [] {
      var n := |steps| - 1;
      StoresRun(links, rank, r, steps[..n]);
      assert Stores(steps)[..n] == Stores(steps[..n]);
      Answers.CallsStay(links, Run(links, r.sys, steps[..n]), steps[n], 0);
      StoreStep(links, rank, r.(sys := Run(links, r.sys, steps[..n])), steps[n]);
    }
  }

  lemma StoreStep(links: GitObjectId -> set<GitObjectId>, rank: Digest -> nat, r: Replica, step: CommitMachine.Step)
    requires r.jobs.Keys == {0} && At(r.sys, 0)
    ensures Next(links, rank, r, Store(step)) == r.(sys := Exec(links, r.sys, step))
  {
  }

  /** The commit of an application: it enters, runs, and is answered. */
  lemma CommitRun(links: GitObjectId -> set<GitObjectId>, rank: Digest -> nat, repo: Repo, transfer: Transfer, request: Request,
                  faults: Faults) returns (moves: seq<Move>)
    requires RealQuarantine(request)
    ensures var end := Go(links, rank, One(repo, transfer, request, Importing), moves);
            var (repo', r) := CommitOnce(links, repo, request, faults);
            end.sys.repo == repo' && 0 in end.jobs && AnswerOf(end.jobs[0]) == Some(Transfers.Outcome(r))
  {
    hide CommitOnce, Go, Exec, Run;
    var start := One(repo, transfer, request, Importing);
    var (repo', r) := CommitOnce(links, repo, request, faults);
    var steps := CommitIsARun(links, repo, request, faults);
    var entered := Next(links, rank, start, Import(0, false));
    GoOne(links, rank, start, Import(0, false));
    EnterEnters(links, start.sys, 0, request);
    RunOne(links, start.sys, steps[0]);
    RunConcat(links, start.sys, [steps[0]], steps[1..]);
    assert steps == [steps[0]] + steps[1..];
    StoresRun(links, rank, entered, steps[1..]);
    var landed := entered.(sys := Lone(repo', request, Returned(r)));
    GoConcat(links, rank, start, [Import(0, false)], Stores(steps[1..]));
    GoOne(links, rank, landed, Answer(0));
    moves := [Import(0, false)] + Stores(steps[1..]);
    GoConcat(links, rank, start, moves, [Answer(0)]);
    moves := moves + [Answer(0)];
  }

  /** From the loaded state on. */
  lemma AfterLoad(links: GitObjectId -> set<GitObjectId>, rank: Digest -> nat, repo: Repo, transfer: Transfer, request: Request,
                  current: Option<Prior>, noise: Noise) returns (moves: seq<Move>)
    requires RealQuarantine(request)
    ensures var end := Go(links, rank, One(repo, transfer, request, Probing(current, 0, [])), moves);
            var missing := Missing(repo, current, transfer.manifest.prerequisites, noise.probesLost);
            && 0 in end.jobs
            && if AfterProbes(missing).Done? then end.sys.repo == repo && AnswerOf(end.jobs[0]) == Some(AfterProbes(missing).result)
               else if noise.importFails then end.sys.repo == repo && AnswerOf(end.jobs[0]) == Some(Err(StoreFailed(GitFailed)))
               else
                 var (repo', r) := CommitOnce(links, repo, request, noise.faults);
                 end.sys.repo == repo' && AnswerOf(end.jobs[0]) == Some(Transfers.Outcome(r))
  {
    hide CommitOnce, Go, Exec, Missing;
    var start := One(repo, transfer, request, Probing(current, 0, []));
    assert Missing(repo, current, [], noise.probesLost) == Ok([]) by { NothingMissing(repo, current, noise.probesLost); }
    assert transfer.manifest.prerequisites[..0] == [];
    moves := ProbesRun(links, rank, repo, transfer, request, current, 0, [], noise.probesLost);
    var missing := Missing(repo, current, transfer.manifest.prerequisites, noise.probesLost);
    if AfterProbes(missing).Importing? {
      var importing := One(repo, transfer, request, Importing);
      var rest := [Import(0, true)];
      if noise.importFails {
        GoOne(links, rank, importing, Import(0, true));
      } else {
        rest := CommitRun(links, rank, repo, transfer, request, noise.faults);
      }
      GoConcat(links, rank, start, moves, rest);
      moves := moves + rest;
    }
  }

  lemma NothingMissing(repo: Repo, current: Option<Prior>, probesLost: set<GitObjectId>)
    ensures Missing(repo, current, [], probesLost) == Ok([])
  {
  }

  /** The state is read and loaded. */
  lemma LoadRun(links: GitObjectId -> set<GitObjectId>, rank: Digest -> nat, repo: Repo, transfer: Transfer, request: Request, lost: bool)
    ensures Go(links, rank, One(repo, transfer, request, Admitted), [Look(0, lost), Load(0)])
         == One(repo, transfer, request, LoadWork(repo, transfer, request, Shown(repo, request, lost)))
  {
    hide LoadWork, Shown, Go;
    var stateId := Shown(repo, request, lost);
    var start, looked := One(repo, transfer, request, Admitted), One(repo, transfer, request, Looked(stateId));
    GoOne(links, rank, start, Look(0, lost));
    GoOne(links, rank, looked, Load(0));
    GoConcat(links, rank, start, [Look(0, lost)], [Load(0)]);
    assert [Look(0, lost)] + [Load(0)] == [Look(0, lost), Load(0)];
    assert Next(links, rank, start, Look(0, lost)) == looked;
    assert Next(links, rank, looked, Load(0)).jobs == map[0 := Job(transfer, request, LoadWork(repo, transfer, request, stateId))];
  }

  lemma StartAlone(links: GitObjectId -> set<GitObjectId>, rank: Digest -> nat, repo: Repo, transfer: Transfer,
                   selected: SignerSelection, maxPayload: nat)
    ensures Next(links, rank, Alone(repo), Start(0, transfer, selected, maxPayload))
         == match Admit(rank, repo, transfer, selected, maxPayload)
            case Err(e) => Alone(repo).(jobs := map[0 := Rejected(e)])
            case Ok(request) => One(repo, transfer, request, Admitted)
  {
    hide Admit;
  }

  /** The sequential `apply_transfer` is one of these runs, repository and answer alike. */
  lemma ApplyIsARun(links: GitObjectId -> set<GitObjectId>, rank: Digest -> nat, repo: Repo, transfer: Transfer,
                    selected: SignerSelection, maxPayload: nat, noise: Noise) returns (moves: seq<Move>)
    ensures var end := Go(links, rank, Alone(repo), moves);
            var (repo', r) := ApplyTransfer(links, rank, repo, transfer, selected, maxPayload, noise);
            end.sys.repo == repo' && 0 in end.jobs && AnswerOf(end.jobs[0]) == Some(r)
  {
    hide CommitOnce, Go, Next, Missing, LoadState, Admit, Shown;
    var begin := Start(0, transfer, selected, maxPayload);
    GoOne(links, rank, Alone(repo), begin);
    StartAlone(links, rank, repo, transfer, selected, maxPayload);
    moves := [begin];
    var admitted := Admit(rank, repo, transfer, selected, maxPayload);
    if admitted.Ok? {
      var request := admitted.value;
      var load := [Look(0, noise.readLost), Load(0)];
      LoadRun(links, rank, repo, transfer, request, noise.readLost);
      GoConcat(links, rank, Alone(repo), [begin], load);
      moves := [begin] + load;
      var loaded := LoadWork(repo, transfer, request, Shown(repo, request, noise.readLost));
      if loaded.Probing? {
        var rest := AfterLoad(links, rank, repo, transfer, request, loaded.current, noise);
        GoConcat(links, rank, Alone(repo), moves, rest);
        moves := moves + rest;
      }
    }
  }
}
