/**
 When a duplicate misses: a call whose commit lands in the run, if nothing goes wrong with it, succeeds
 exactly if no later commit has landed when it looks last.
 */
module Overtaken {
  import opened Answers
  import opened Basics
  import opened CommitMachine
  import opened Convergence
  import opened Core
  import opened History
  import opened Index
  import opened Refs
  import opened Store
  import opened Duplicates

  /// Positions along the final history

  lemma {:induction false} EffectsGrow(links: GitObjectId -> set<GitObjectId>, start: Sys, steps: seq<Step>,
                                       publisher: Identity, k: nat)
    requires k <= |steps|
    ensures var log, earlier := Effects(links, start, steps, publisher), Effects(links, start, steps[..k], publisher);
            |earlier| <= |log| && log[..|earlier|] == earlier
    decreases |steps|
  {
    hide Exec, Effective;
    if k == |steps| {
      assert steps[..k] == steps;
    } else {
      var n := |steps| - 1;
      EffectsGrow(links, start, steps[..n], publisher, k);
      assert steps[..n][..k] == steps[..k];
      var log := Effects(links, start, steps, publisher);
      var shorter := Effects(links, start, steps[..n], publisher);
      assert log[..|shorter|] == shorter;
    }
  }

  lemma {:induction false} ReplayPrefix(id: RepositoryId, chain: Chain, h: nat)
    requires ValidChain(id, chain) && h <= |chain.commits|
    ensures Replay(id, chain.commits[..h]) == Ok(StateAt(chain, h))
  {
    hide Accept;
    if h > 0 {
      ReplayPrefix(id, chain, h - 1);
      assert chain.commits[..h][..h - 1] == chain.commits[..h - 1];
      assert Link(id, chain, h - 1);
    }
  }

  /** How many commits of the publisher have taken effect. */
  ghost function Height(links: GitObjectId -> set<GitObjectId>, start: Sys, steps: seq<Step>, publisher: Identity): nat {
    |Effects(links, start, steps, publisher)|
  }

  /** The history a whole run leads to. */
  ghost predicate HistoryOfRun(links: GitObjectId -> set<GitObjectId>, id: RepositoryId, format: ObjectFormat,
                               steps: seq<Step>, publisher: Identity, chain: Chain)
  {
    ValidChain(id, chain) && chain.commits == Effects(links, Initial(id, format), steps, publisher)
  }

  lemma RunHasHistory(links: GitObjectId -> set<GitObjectId>, id: RepositoryId, format: ObjectFormat,
                      steps: seq<Step>, publisher: Identity) returns (chain: Chain)
    ensures HistoryOfRun(links, id, format, steps, publisher, chain)
  {
    hide Exec;
    CommitsLinearize(links, id, format, steps, publisher);
    chain := ReplayIsChain(id, Effects(links, Initial(id, format), steps, publisher));
  }

  /** At every moment of the run the publisher is at the position of that history which its height says. */
  lemma AtHeight(links: GitObjectId -> set<GitObjectId>, id: RepositoryId, format: ObjectFormat,
                 steps: seq<Step>, publisher: Identity, chain: Chain, k: nat)
    requires HistoryOfRun(links, id, format, steps, publisher, chain) && k <= |steps|
    ensures var h := Height(links, Initial(id, format), steps[..k], publisher);
            && h <= |chain.commits|
            && CurrentState(Run(links, Initial(id, format), steps[..k]).repo, publisher) == StateAt(chain, h)
  {
    hide Exec, CurrentState;
    EffectsGrow(links, Initial(id, format), steps, publisher, k);
    CommitsLinearize(links, id, format, steps[..k], publisher);
    ReplayPrefix(id, chain, Height(links, Initial(id, format), steps[..k], publisher));
  }

  lemma HeightGrows(links: GitObjectId -> set<GitObjectId>, start: Sys, steps: seq<Step>, publisher: Identity, j: nat, k: nat)
    requires j <= k <= |steps|
    ensures Height(links, start, steps[..j], publisher) <= Height(links, start, steps[..k], publisher)
  {
    hide Exec;
    EffectsGrow(links, start, steps[..k], publisher, j);
    assert steps[..k][..j] == steps[..j];
  }

  lemma PositionsApart(id: RepositoryId, chain: Chain, h: nat, i: nat)
    requires ValidChain(id, chain) && h <= |chain.commits| && i <= |chain.commits| && StateAt(chain, h) == StateAt(chain, i)
    ensures h == i
  {
    if h > 0 { StateShape(id, chain, h - 1); }
    if i > 0 { StateShape(id, chain, i - 1); }
  }

  /// A timely, smooth call

  /** Nothing goes wrong with the call: no stop, no lost look, no refusal by Git, no broken transaction. */
  predicate Smooth(steps: seq<Step>, call: nat) {
    forall k :: 0 <= k < |steps| && steps[k].call == call ==> Good(steps[k])
  }

  predicate Good(step: Step) {
    && Honest(step)
    && (step.Check? ==> !step.gitRefuses)
    && (step.RunTransaction? ==> step.fate.Faithful?)
  }

  /** What the transition refers to is in the quarantine or the repository. */
  ghost predicate Supplied(links: GitObjectId -> set<GitObjectId>, repo: Repo, request: Request) {
    Covered(links, repo, StateOf(repo.id, request.commit.transition), repo.objects + request.quarantine)
  }

  /** At each of its looks the call's turn has come, and its objects are at hand. */
  ghost predicate Timely(links: GitObjectId -> set<GitObjectId>, start: Sys, steps: seq<Step>, call: nat) {
    forall k :: 0 <= k < |steps| ==> TimelyAt(links, start, steps, call, k)
  }

  ghost predicate TimelyAt(links: GitObjectId -> set<GitObjectId>, start: Sys, steps: seq<Step>, call: nat, k: int)
    requires 0 <= k < |steps|
  {
    var s := Run(links, start, steps[..k]);
    IsLook(s, steps[k], call) ==>
      var request := s.calls[call].request;
      && request.commit.transition.payload.sequence <= Height(links, start, steps[..k], request.Publisher())
      && Supplied(links, s.repo, request)
  }

  /** How far history had come at the call's last look. */
  ghost function SeenHeight(links: GitObjectId -> set<GitObjectId>, start: Sys, steps: seq<Step>, call: nat, publisher: Identity): nat {
    var look := LastLook(links, start, steps, call);
    if look.None? then 0 else Height(links, start, steps[..look.value], publisher)
  }

  /** Where a call on its way to position `i + 1` stands; `seen` and `now` are heights. */
  ghost predicate OnTrack(links: GitObjectId -> set<GitObjectId>, repo: Repo, call: Call, chain: Chain, i: nat, seen: nat, now: nat)
    requires i <= |chain.states|
  {
    match call.phase
    case Entered => true
    case Resolved(_) => i <= seen <= now && Supplied(links, repo, call.request)
    case Planned(previous, _) =>
      seen == i <= now && PriorState(previous) == StateAt(chain, i) && Supplied(links, repo, call.request)
    case Refused => i < now
    case ResolvedAgain(_) => i < seen
    case Returned(r) => r.Ok? <==> seen <= i + 1
    case phase => seen == i <= now && PriorState(phase.previous) == StateAt(chain, i)
  }

  lemma SuppliedStays(links: GitObjectId -> set<GitObjectId>, repo: Repo, repo': Repo, request: Request)
    requires Supplied(links, repo, request) && Grows(repo, repo')
    ensures Supplied(links, repo', request)
  {
  }

  /** A history in which the call's commit is the one at position `i`. */
  predicate Holds(id: RepositoryId, chain: Chain, i: nat, request: Request) {
    ValidChain(id, chain) && i < |chain.commits| && chain.commits[i] == request.commit
  }

  lemma FindsAtNext(id: RepositoryId, chain: Chain, i: nat, request: Request, h: nat)
    requires Holds(id, chain, i, request) && h <= |chain.commits|
    ensures Finds(StateAt(chain, h), request) <==> h == i + 1
  {
    StateShape(id, chain, i);
    if h > 0 {
      StateShape(id, chain, h - 1);
      if Finds(StateAt(chain, h), request) {
        HistoryDistinct(id, chain, h - 1, i);
      }
    }
  }

  lemma PlanOnTrack(links: GitObjectId -> set<GitObjectId>, repo: Repo, request: Request, chain: Chain, i: nat, h: nat, now: nat)
    requires Holds(repo.id, chain, i, request) && i <= h <= now && h <= |chain.commits|
    requires Loadable(repo, request.Publisher(), StateAt(chain, h)) && Supplied(links, repo, request)
    ensures OnTrack(links, repo, Call(request, PlanPhase(repo, request, StateId(StateAt(chain, h)))), chain, i, h, now)
  {
    hide Accept, Supplied, Loadable;
    FindsAtNext(repo.id, chain, i, request, h);
    LoadsSeen(repo, request.Publisher(), StateAt(chain, h));
    AcceptedAtTurn(repo.id, chain, i, request, h);
  }

  lemma AcceptedAtTurn(id: RepositoryId, chain: Chain, i: nat, request: Request, h: nat)
    requires Holds(id, chain, i, request) && h <= |chain.commits|
    ensures Accept(id, request.commit, StateAt(chain, h)).Ok? <==> h == i
  {
    VerifiesOnlyOnItsParent(id, chain, i, h, id, request.commit.binding, request.commit.selected);
  }

  lemma CheckOnTrack(links: GitObjectId -> set<GitObjectId>, repo: Repo, call: Call)
    requires CallOk(links, repo, call) && call.phase.Planned? && PlansOwn(repo.id, call) && Supplied(links, repo, call.request)
    ensures CheckPhase(links, repo, call, false) == Promoting(call.phase.previous, call.phase.next)
  {
    ValidateRefsExact(call.phase.next.refs);
    CheckEachExact(repo.format, call.phase.next.refs, repo.objects + call.request.quarantine);
  }

  lemma ConcludeOnTrack(links: GitObjectId -> set<GitObjectId>, repo: Repo, request: Request, chain: Chain, i: nat, h: nat, now: nat)
    requires Holds(repo.id, chain, i, request) && i < h && h <= |chain.commits|
    requires Loadable(repo, request.Publisher(), StateAt(chain, h))
    ensures OnTrack(links, repo, Call(request, ConcludePhase(repo, request, StateId(StateAt(chain, h)))), chain, i, h, now)
  {
    hide Loadable;
    FindsAtNext(repo.id, chain, i, request, h);
    LoadsSeen(repo, request.Publisher(), StateAt(chain, h));
  }

  /** One step keeps a smooth call on its track. */
  lemma OnTrackStep(links: GitObjectId -> set<GitObjectId>, s: Sys, step: Step, call: nat, chain: Chain,
                    i: nat, h: nat, now: nat, later: nat)
    requires Inv(links, s) && At(s, call) && (step.call == call ==> Good(step))
    requires var c := s.calls[call];
             && Holds(s.repo.id, chain, i, c.request) && PlansOwn(s.repo.id, c)
             && h <= |chain.commits| && now <= |chain.commits| && now <= later
             && CurrentState(s.repo, c.request.Publisher()) == StateAt(chain, now)
             && Loadable(s.repo, c.request.Publisher(), StateAt(chain, h))
             && (c.phase.Resolved? || c.phase.ResolvedAgain? ==> c.phase.stateId == StateId(StateAt(chain, h)))
             && OnTrack(links, s.repo, c, chain, i, h, now)
             && (IsLook(s, step, call) ==> i <= now && Supplied(links, s.repo, c.request))
    requires Grows(s.repo, Exec(links, s, step).repo)
    ensures OnTrack(links, Exec(links, s, step).repo, Exec(links, s, step).calls[call], chain, i,
                    if IsLook(s, step, call) then now else h, later)
  {
    hide Inv, CurrentState, LoadState, TransactionResult, Accept, CheckPhase, PlanPhase, ConcludePhase, Effective,
         Supplied, Loadable, CallOk, Holds, PlansOwn, Grows;
    var c := s.calls[call];
    var s' := Exec(links, s, step);
    if Supplied(links, s.repo, c.request) {
      SuppliedStays(links, s.repo, s'.repo, c.request);
    }
    if step.call == call {
      match c.phase {
        case Resolved(_) => PlanOnTrack(links, s.repo, c.request, chain, i, h, now);
        case ResolvedAgain(_) => ConcludeOnTrack(links, s.repo, c.request, chain, i, h, now);
        case Planned(_, _) =>
          CallsOk(links, s, call);
          CheckOnTrack(links, s.repo, c);
        case Ready(previous, _) =>
          if step.RunTransaction? {
            EffectiveWhen(links, s, call, step.fate);
            ChainOf(s.repo.id, chain, i, c.request);
            if StateAt(chain, now) == StateAt(chain, i) { PositionsApart(s.repo.id, chain, now, i); }
          }
        case _ =>
      }
    }
  }

  lemma ChainOf(id: RepositoryId, chain: Chain, i: nat, request: Request)
    requires Holds(id, chain, i, request)
    ensures ValidChain(id, chain) && i < |chain.commits|
  {
  }

  lemma CallsOk(links: GitObjectId -> set<GitObjectId>, s: Sys, call: nat)
    requires Inv(links, s) && At(s, call)
    ensures CallOk(links, s.repo, s.calls[call])
  {
  }

  lemma RequestStays(links: GitObjectId -> set<GitObjectId>, s: Sys, step: Step, call: nat)
    requires At(s, call)
    ensures At(Exec(links, s, step), call) && Exec(links, s, step).calls[call].request == s.calls[call].request
  {
    hide TransactionResult, Effective;
  }

  lemma Entering(links: GitObjectId -> set<GitObjectId>, s: Sys, step: Step, call: nat)
    requires !At(s, call) && At(Exec(links, s, step), call)
    ensures Exec(links, s, step).calls[call].phase == Arrive(Exec(links, s, step).calls[call].request)
  {
    hide TransactionResult, Effective;
  }

  lemma SeenAtHeight(links: GitObjectId -> set<GitObjectId>, id: RepositoryId, format: ObjectFormat, steps: seq<Step>,
                     call: nat, publisher: Identity, chain: Chain, m: nat)
    requires HistoryOfRun(links, id, format, steps, publisher, chain) && m <= |steps|
    ensures var h := SeenHeight(links, Initial(id, format), steps[..m], call, publisher);
            h <= |chain.commits| && Seen(links, Initial(id, format), steps[..m], call, publisher) == StateAt(chain, h)
  {
    hide Exec, CurrentState, IsLook, HistoryOfRun;
    var look := LastLook(links, Initial(id, format), steps[..m], call);
    if look.Some? {
      assert steps[..m][..look.value] == steps[..look.value];
      AtHeight(links, id, format, steps, publisher, chain, look.value);
    }
  }

  lemma SeenHeightStep(links: GitObjectId -> set<GitObjectId>, start: Sys, steps: seq<Step>, call: nat, publisher: Identity)
    requires steps != []
    ensures var n := |steps| - 1;
            SeenHeight(links, start, steps, call, publisher) ==
            if IsLook(Run(links, start, steps[..n]), steps[n], call) then Height(links, start, steps[..n], publisher)
            else SeenHeight(links, start, steps[..n], call, publisher)
  {
    hide Exec, IsLook, Height;
    var n := |steps| - 1;
    var look := LastLook(links, start, steps[..n], call);
    if look.Some? {
      assert steps[..n][..look.value] == steps[..look.value];
    }
  }

  /** The call's own repository, a binding that verifies: it is not turned away at the door. */
  predicate Admissible(request: Request) {
    Arrive(request).Entered?
  }

  /** What a run must be for its call: smooth and timely, with the call's commit at position `i`. */
  ghost predicate Tracked(links: GitObjectId -> set<GitObjectId>, id: RepositoryId, format: ObjectFormat, steps: seq<Step>,
                          call: nat, request: Request, chain: Chain, i: nat)
  {
    && HistoryOfRun(links, id, format, steps, request.Publisher(), chain)
    && Holds(id, chain, i, request) && Admissible(request)
    && Smooth(steps, call) && Timely(links, Initial(id, format), steps, call)
  }

  lemma SmoothIsUndisturbed(steps: seq<Step>, call: nat, m: nat)
    requires Smooth(steps, call) && m <= |steps|
    ensures Undisturbed(steps[..m], call)
  {
    hide Honest;
    forall k | 0 <= k < m && steps[..m][k].call == call
      ensures Honest(steps[..m][k])
    {
      assert Good(steps[k]);
    }
  }

  lemma {:induction false} RunOnTrack(links: GitObjectId -> set<GitObjectId>, id: RepositoryId, format: ObjectFormat,
                                      steps: seq<Step>, call: nat, request: Request, chain: Chain, i: nat, m: nat)
    requires Tracked(links, id, format, steps, call, request, chain, i) && m <= |steps|
    requires var s := Run(links, Initial(id, format), steps[..m]); At(s, call) && s.calls[call].request == request
    ensures var s := Run(links, Initial(id, format), steps[..m]);
            OnTrack(links, s.repo, s.calls[call], chain, i,
                    SeenHeight(links, Initial(id, format), steps[..m], call, request.Publisher()),
                    Height(links, Initial(id, format), steps[..m], request.Publisher()))
    decreases m
  {
    hide Exec, Run, Inv, CurrentState, Effective, OnTrack, IsLook, Tells, Loadable, Holds, HistoryOfRun, SeenHeight, Height,
         Seen, TookEffect, Supplied, TransactionResult, Arrive, PlansOwn, Good, Honest, Grows;
    var start, publisher := Initial(id, format), request.Publisher();
    if m == 0 {
      StartsEmpty(links, id, format, steps, call);
    } else {
      var n := m - 1;
      var before := Run(links, start, steps[..n]);
      RunLast(links, start, steps, m);
      if At(before, call) {
        RequestStays(links, before, steps[n], call);
        RunOnTrack(links, id, format, steps, call, request, chain, i, n);
        StepFacts(links, id, format, steps, call, request, chain, i, n);
        OnTrackStep(links, before, steps[n], call, chain, i,
                    SeenHeight(links, start, steps[..n], call, publisher), Height(links, start, steps[..n], publisher),
                    Height(links, start, steps[..m], publisher));
        SeenHeightStep(links, start, steps[..m], call, publisher);
      } else {
        Entering(links, before, steps[n], call);
        ChainOf(id, chain, i, request);
        EntersOnTrack(links, Run(links, start, steps[..m]).repo, request, chain, i,
                      SeenHeight(links, start, steps[..m], call, publisher), Height(links, start, steps[..m], publisher));
      }
    }
  }

  lemma StartsEmpty(links: GitObjectId -> set<GitObjectId>, id: RepositoryId, format: ObjectFormat, steps: seq<Step>, call: nat)
    ensures !At(Run(links, Initial(id, format), steps[..0]), call)
  {
  }

  lemma RunLast(links: GitObjectId -> set<GitObjectId>, start: Sys, steps: seq<Step>, m: nat)
    requires 0 < m <= |steps|
    ensures Run(links, start, steps[..m]) == Exec(links, Run(links, start, steps[..m - 1]), steps[m - 1])
    ensures steps[..m][..m - 1] == steps[..m - 1] && steps[..m][m - 1] == steps[m - 1]
  {
    hide Exec;
    assert steps[..m][..m - 1] == steps[..m - 1];
  }

  lemma EntersOnTrack(links: GitObjectId -> set<GitObjectId>, repo: Repo, request: Request, chain: Chain, i: nat, seen: nat, now: nat)
    requires Admissible(request) && i <= |chain.states|
    ensures OnTrack(links, repo, Call(request, Arrive(request)), chain, i, seen, now)
  {
    hide Supplied;
  }

  /** What the invariants say before step `n`. */
  lemma StepFacts(links: GitObjectId -> set<GitObjectId>, id: RepositoryId, format: ObjectFormat,
                  steps: seq<Step>, call: nat, request: Request, chain: Chain, i: nat, n: nat)
    requires Tracked(links, id, format, steps, call, request, chain, i) && n < |steps|
    requires var s := Run(links, Initial(id, format), steps[..n]); At(s, call) && s.calls[call].request == request
    ensures var start, publisher := Initial(id, format), request.Publisher();
            var s := Run(links, start, steps[..n]);
            var h, now := SeenHeight(links, start, steps[..n], call, publisher), Height(links, start, steps[..n], publisher);
            && Inv(links, s) && s.repo.id == id && (steps[n].call == call ==> Good(steps[n]))
            && PlansOwn(id, s.calls[call])
            && h <= |chain.commits| && now <= |chain.commits|
            && now <= Height(links, start, steps[..n + 1], publisher)
            && CurrentState(s.repo, publisher) == StateAt(chain, now)
            && Loadable(s.repo, publisher, StateAt(chain, h))
            && (s.calls[call].phase.Resolved? || s.calls[call].phase.ResolvedAgain? ==>
                  s.calls[call].phase.stateId == StateId(StateAt(chain, h)))
            && (IsLook(s, steps[n], call) ==> i <= now && Supplied(links, s.repo, request))
            && Grows(s.repo, Exec(links, s, steps[n]).repo)
  {
    hide Exec, Run, Inv, CurrentState, Effective, IsLook, Loadable, SeenHeight, Height, Seen, TookEffect, Supplied,
         Arrive, PlansOwn, Good, Honest, Grows, HistoryOfRun;
    var start, publisher := Initial(id, format), request.Publisher();
    InitialInv(links, id, format);
    RunKeepsInv(links, start, steps[..n]);
    RunPlansOwn(links, id, format, steps[..n], call);
    HistoryIsChain(links, id, format, steps, publisher, chain);
    AtHeight(links, id, format, steps, publisher, chain, n);
    SeenAtHeight(links, id, format, steps, call, publisher, chain, n);
    HeightGrows(links, start, steps, publisher, n, n + 1);
    SmoothIsUndisturbed(steps, call, n);
    RunTells(links, id, format, steps[..n], call);
    StateShape(id, chain, i);
    assert TimelyAt(links, start, steps, call, n);
    StepKeepsInv(links, Run(links, start, steps[..n]), steps[n]);
  }

  lemma HistoryIsChain(links: GitObjectId -> set<GitObjectId>, id: RepositoryId, format: ObjectFormat,
                       steps: seq<Step>, publisher: Identity, chain: Chain)
    requires HistoryOfRun(links, id, format, steps, publisher, chain)
    ensures ValidChain(id, chain)
  {
  }

  /// The exact condition

  /** After `commit` another commit has taken effect. */
  ghost predicate LaterLanded(log: seq<Commit>, commit: Commit) {
    exists i :: 0 <= i < |log| - 1 && log[i] == commit
  }

  /** The publisher's commits that have landed when the call looks for the last time. */
  ghost function LandedAtLastLook(links: GitObjectId -> set<GitObjectId>, start: Sys, steps: seq<Step>, call: nat,
                                  publisher: Identity): seq<Commit>
  {
    var look := LastLook(links, start, steps, call);
    if look.None? then [] else Effects(links, start, steps[..look.value], publisher)
  }

  /** The commit took effect in the run, whichever call brought it about and whatever that call was told. */
  ghost predicate Landed(links: GitObjectId -> set<GitObjectId>, id: RepositoryId, format: ObjectFormat, steps: seq<Step>,
                         request: Request)
  {
    request.commit in Effects(links, Initial(id, format), steps, request.Publisher())
  }

  /** A commit that a call answers "applied" has landed. */
  lemma AppliedLanded(links: GitObjectId -> set<GitObjectId>, id: RepositoryId, format: ObjectFormat,
                      steps: seq<Step>, call: nat, state: RefState)
    requires ReportsApplied(Run(links, Initial(id, format), steps), call, state)
    ensures Landed(links, id, format, steps, Run(links, Initial(id, format), steps).calls[call].request)
  {
    hide Exec;
    var request := Run(links, Initial(id, format), steps).calls[call].request;
    var k := AppliedIsLinearized(links, id, format, steps, call, state);
    EffectsGrow(links, Initial(id, format), steps, request.Publisher(), k + 1);
    var log := Effects(links, Initial(id, format), steps[..k + 1], request.Publisher());
    assert Effects(links, Initial(id, format), steps, request.Publisher())[|log| - 1] == log[|log| - 1];
  }

  lemma LandedInHistory(links: GitObjectId -> set<GitObjectId>, id: RepositoryId, format: ObjectFormat,
                        steps: seq<Step>, request: Request) returns (chain: Chain, i: nat)
    requires Landed(links, id, format, steps, request)
    ensures HistoryOfRun(links, id, format, steps, request.Publisher(), chain) && Holds(id, chain, i, request)
    ensures VerifySelected(request.commit.binding, request.commit.selected).Ok?
  {
    hide Exec;
    chain := RunHasHistory(links, id, format, steps, request.Publisher());
    i :| 0 <= i < |chain.commits| && chain.commits[i] == request.commit;
    assert Link(id, chain, i);
  }

  /**
   The exact condition, call by call.  A call presents a commit that lands in the run, in its turn and with
   its objects at hand, and nothing goes wrong with it.  Whenever it has returned, it reports success if and
   only if no later commit of the publisher had landed at its last look, be that the first one or the second.
   */
  lemma ReturnsExactly(links: GitObjectId -> set<GitObjectId>, id: RepositoryId, format: ObjectFormat,
                       steps: seq<Step>, call: nat)
    requires var s := Run(links, Initial(id, format), steps);
             && At(s, call) && s.calls[call].phase.Returned? && s.calls[call].request.home
             && Landed(links, id, format, steps, s.calls[call].request)
    requires Smooth(steps, call) && Timely(links, Initial(id, format), steps, call)
    ensures var c := Run(links, Initial(id, format), steps).calls[call];
            c.phase.result.Ok? <==>
            !LaterLanded(LandedAtLastLook(links, Initial(id, format), steps, call, c.request.Publisher()), c.request.commit)
  {
    hide Exec, Run, CurrentState, HistoryOfRun, Holds, Timely, Smooth, SeenHeight, Height, LandedAtLastLook, LaterLanded,
         Landed, Supplied, FoundItself;
    var c := Run(links, Initial(id, format), steps).calls[call];
    var chain, i := LandedInHistory(links, id, format, steps, c.request);
    assert steps[..|steps|] == steps;
    RunOnTrack(links, id, format, steps, call, c.request, chain, i, |steps|);
    LaterExactly(links, id, format, steps, call, c.request, chain, i);
  }

  /**
   The exact condition of the contract's promise.  Two calls present one commit, which lands, and one of them
   reports a state; the other, smooth and in its turn, has returned.  Both observe the same state if and only
   if no later commit of the publisher had landed at the other's last look.
   */
  lemma OvertakenExactly(links: GitObjectId -> set<GitObjectId>, id: RepositoryId, format: ObjectFormat,
                         steps: seq<Step>, a: nat, b: nat, first: Outcome)
    requires var s := Run(links, Initial(id, format), steps);
             && At(s, a) && s.calls[a].phase == Returned(Ok(first))
             && At(s, b) && s.calls[b].phase.Returned? && s.calls[b].request.home
             && s.calls[a].request.commit == s.calls[b].request.commit
             && Landed(links, id, format, steps, s.calls[b].request)
    requires Smooth(steps, b) && Timely(links, Initial(id, format), steps, b)
    ensures var c := Run(links, Initial(id, format), steps).calls[b];
            (c.phase.result.Ok? && c.phase.result.value.state == first.state) <==>
            !LaterLanded(LandedAtLastLook(links, Initial(id, format), steps, b, c.request.Publisher()), c.request.commit)
  {
    hide Exec, Run, Timely, Smooth, LandedAtLastLook, LaterLanded, Landed;
    ReturnsExactly(links, id, format, steps, b);
    var c := Run(links, Initial(id, format), steps).calls[b];
    if c.phase.result.Ok? {
      DuplicatesAgree(links, id, format, steps, a, b, first, c.phase.result.value);
    }
  }

  lemma LaterInPrefix(id: RepositoryId, chain: Chain, i: nat, request: Request, log: seq<Commit>)
    requires Holds(id, chain, i, request) && |log| <= |chain.commits| && log == chain.commits[..|log|]
    ensures LaterLanded(log, request.commit) <==> i + 1 < |log|
    ensures IsLatest(log, request.commit.transition) ==> |log| == i + 1
  {
    hide ValidChain;
    if LaterLanded(log, request.commit) {
      var j :| 0 <= j < |log| - 1 && log[j] == request.commit;
      HistoryDistinct(id, chain, j, i);
    }
    if i + 1 < |log| {
      assert log[i] == request.commit;
    }
    if IsLatest(log, request.commit.transition) {
      HistoryDistinct(id, chain, |log| - 1, i);
    }
  }

  /** In terms of heights: a later commit had landed exactly if the last look saw more than this one. */
  lemma LaterExactly(links: GitObjectId -> set<GitObjectId>, id: RepositoryId, format: ObjectFormat,
                     steps: seq<Step>, call: nat, request: Request, chain: Chain, i: nat)
    requires HistoryOfRun(links, id, format, steps, request.Publisher(), chain) && Holds(id, chain, i, request)
    ensures var start, publisher := Initial(id, format), request.Publisher();
            LaterLanded(LandedAtLastLook(links, start, steps, call, publisher), request.commit) <==>
            i + 1 < SeenHeight(links, start, steps, call, publisher)
    ensures FoundItself(links, Initial(id, format), steps, call, request) ==>
            SeenHeight(links, Initial(id, format), steps, call, request.Publisher()) == i + 1
  {
    hide Exec, LastLook, LaterLanded, IsLatest, Holds, Effects;
    var start, publisher := Initial(id, format), request.Publisher();
    var look := LastLook(links, start, steps, call);
    if look.Some? {
      var log := Effects(links, start, steps[..look.value], publisher);
      EffectsGrow(links, start, steps, publisher, look.value);
      LaterInPrefix(id, chain, i, request, log);
    } else {
      NothingLanded(request.commit);
    }
  }

  lemma NothingLanded(commit: Commit)
    ensures !LaterLanded([], commit)
  {
  }
}
