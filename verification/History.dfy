/** A publisher's history: transitions accepted one on top of the other, from no state at all. */
module History {
  import opened Basics
  import opened Core
  import opened Refs

  /** A transition with the binding and the selection it is presented under. */
  datatype Commit = Commit(transition: RefTransition, binding: SignerBinding, selected: SignerSelection)

  function Accept(repository: RepositoryId, commit: Commit, previous: Option<RefState>): Result<RefState, CoreError> {
    Verify(commit.transition, repository, commit.binding, commit.selected, previous)
  }

  /** The state after presenting `log` in order, or the first rejection. */
  function Replay(repository: RepositoryId, log: seq<Commit>): Result<Option<RefState>, CoreError> {
    if log == [] then Ok(None)
    else
      var previous :- Replay(repository, log[..|log| - 1]);
      var next :- Accept(repository, log[|log| - 1], previous);
      Ok(Some(next))
  }

  /** Commits and the states they lead to, `states[k]` after `commits[k]`. */
  datatype Chain = Chain(commits: seq<Commit>, states: seq<RefState>)

  /** The state after the first `k` commits. */
  function StateAt(chain: Chain, k: nat): Option<RefState>
    requires k <= |chain.states|
  {
    if k == 0 then None else Some(chain.states[k - 1])
  }

  predicate Link(repository: RepositoryId, chain: Chain, k: int)
    requires 0 <= k < |chain.commits| == |chain.states|
  {
    Accept(repository, chain.commits[k], StateAt(chain, k)) == Ok(chain.states[k])
  }

  predicate ValidChain(repository: RepositoryId, chain: Chain) {
    && |chain.commits| == |chain.states|
    && forall k :: 0 <= k < |chain.commits| ==> Link(repository, chain, k)
  }

  /** A log that replays is a chain, and conversely. */
  lemma {:induction false} ReplayIsChain(repository: RepositoryId, log: seq<Commit>) returns (chain: Chain)
    ensures Replay(repository, log).Ok? ==>
            && ValidChain(repository, chain) && chain.commits == log
            && Replay(repository, log) == Ok(StateAt(chain, |log|))
  {
    if log == [] {
      chain := Chain([], []);
    } else {
      var n := |log| - 1;
      var shorter := ReplayIsChain(repository, log[..n]);
      if Replay(repository, log).Ok? {
        chain := Chain(log, shorter.states + [Replay(repository, log).value.value]);
        forall k | 0 <= k < |log|
          ensures Link(repository, chain, k)
        {
          if k < n { assert Link(repository, shorter, k); }
        }
      } else {
        chain := shorter;
      }
    }
  }

  /** A history numbers its transitions from zero, and each state is its transition's. */
  lemma {:induction false} StateShape(repository: RepositoryId, chain: Chain, k: nat)
    requires ValidChain(repository, chain) && k < |chain.commits|
    ensures var state := chain.states[k];
            && state.repository == repository
            && state.sequence == k
            && state.transition == TransitionId(chain.commits[k].transition)
            && state.publisher == chain.commits[k].selected.identity
            && chain.commits[k].transition.payload.sequence == k
            && chain.commits[k].transition.payload.parent ==
               (if k == 0 then None else Some(TransitionId(chain.commits[k - 1].transition)))
            && ValidRefs(state.refs)
  {
    assert Link(repository, chain, k);
    ValidateRefsExact(chain.states[k].refs);
    if k > 0 {
      StateShape(repository, chain, k - 1);
    }
  }

  /** No transition occurs twice in a history. */
  lemma HistoryDistinct(repository: RepositoryId, chain: Chain, i: nat, j: nat)
    requires ValidChain(repository, chain) && i < |chain.commits| && j < |chain.commits|
    requires TransitionId(chain.commits[i].transition) == TransitionId(chain.commits[j].transition)
    ensures i == j
  {
    StateShape(repository, chain, i);
    StateShape(repository, chain, j);
  }

  /**
   A transition of a history verifies on one state of that history only, the one it was made on, in
   that repository only, and under its own binding and selection only.
   */
  lemma VerifiesOnlyOnItsParent(repository: RepositoryId, chain: Chain, i: nat, k: nat,
                                repository': RepositoryId, binding: SignerBinding, selected: SignerSelection)
    requires ValidChain(repository, chain) && i < |chain.commits| && k <= |chain.commits|
    ensures Verify(chain.commits[i].transition, repository', binding, selected, StateAt(chain, k)).Ok? <==>
            && k == i && repository' == repository
            && binding == chain.commits[i].binding && selected == chain.commits[i].selected
  {
    var commit := chain.commits[i];
    assert Link(repository, chain, i);
    if Verify(commit.transition, repository', binding, selected, StateAt(chain, k)).Ok? {
      VerifyFixesContext(commit.transition,
                         repository, commit.binding, commit.selected, StateAt(chain, i),
                         repository', binding, selected, StateAt(chain, k));
      if i > 0 { StateShape(repository, chain, i - 1); }
      if k > 0 { StateShape(repository, chain, k - 1); }
    }
  }
}
