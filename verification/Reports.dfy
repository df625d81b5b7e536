/** What a run of the remote helper reports about pushes, against the pushes it sent. */
module Reports {
  import opened Basics
  import opened CommandLoop
  import opened Core
  import opened Ipc
  import opened RemoteOperations
  import opened Text
  import Batches
  import Client
  import Sessions

  /// The requests of one command

  /** The session goes on: what was sent stays sent. */
  predicate Extends(s: Client.Session, t: Client.Session) {
    s.sent <= t.sent && t.maxResponseBytes == s.maxResponseBytes
  }

  /** Nothing but queries is sent between the two. */
  predicate Pushless(s: Client.Session, t: Client.Session) {
    Extends(s, t) && forall i :: |s.sent| <= i < |t.sent| ==> !t.sent[i].body.Push?
  }

  lemma PushlessSelf(s: Client.Session)
    ensures Pushless(s, s)
  {
  }

  lemma PushlessTransitive(s: Client.Session, t: Client.Session, u: Client.Session)
    requires Pushless(s, t) && Pushless(t, u)
    ensures Pushless(s, u)
  {
    forall i | |s.sent| <= i < |u.sent|
      ensures !u.sent[i].body.Push?
    {
      if i < |t.sent| {
        assert u.sent[i] == t.sent[i];
      }
    }
  }

  lemma SendPushless(world: Client.World, s: Client.Session, body: RequestBody)
    requires !body.Push?
    ensures Pushless(s, Client.Send(world, s, body, false).0)
  {
    hide Client.Send, Client.ValidateRequest, Sessions.Concluded;
    Sessions.SendCases(world, s, body, false);
  }

  lemma NegotiatePushless(world: Client.World, s: Client.Session)
    ensures Pushless(s, Client.Negotiate(world, s).0)
  {
    hide Client.Send;
    SendPushless(world, s, GetCapabilities);
  }

  lemma ListingPushless(world: Client.World, git: Git, remote: Remote, s: Client.Session)
    ensures Pushless(s, Listing(world, git, remote, s).0)
  {
    hide Client.Send, Client.Negotiate, Pushless;
    var s1 := Client.Negotiate(world, s).0;
    var body := RequestBody.ListRefs(remote.repository, remote.view);
    NegotiatePushless(world, s);
    SendPushless(world, s1, body);
    PushlessTransitive(s, s1, Client.Send(world, s1, body, false).0);
  }

  lemma PushListingPushless(world: Client.World, git: Git, repository: RepositoryId, s: Client.Session)
    ensures Pushless(s, PushListing(world, git, repository, s).0)
  {
    hide Client.Send, Client.Negotiate, Pushless;
    var s1 := Client.Negotiate(world, s).0;
    var body := RequestBody.ListPushRefs(repository);
    NegotiatePushless(world, s);
    SendPushless(world, s1, body);
    PushlessTransitive(s, s1, Client.Send(world, s1, body, false).0);
  }

  lemma FetchPushless(world: Client.World, git: Git, remote: Remote, s: Client.Session, commands: seq<FetchCommand>)
    ensures Pushless(s, FetchBatch(world, git, remote, s, commands).0)
  {
    hide Client.Send, Client.Negotiate, Pushless, PrepareFetch, FinishFetch;
    PushlessSelf(s);
    var (s1, negotiated) := Client.Negotiate(world, s);
    NegotiatePushless(world, s);
    if negotiated.Ok? {
      var prepared := PrepareFetch(git, negotiated.value.limits, commands);
      if prepared.Ok? {
        var body := RequestBody.Fetch(remote.repository, remote.view, prepared.value.0, prepared.value.1);
        SendPushless(world, s1, body);
        PushlessTransitive(s, s1, Client.Send(world, s1, body, false).0);
      }
    }
  }

  /// The push of a batch

  /** The `k`th request is a push to the repository whose updates are of the commands' references, in order. */
  predicate PushesAt(repository: RepositoryId, sent: seq<Request>, k: nat, commands: seq<PushCommand>) {
    && k < |sent| && sent[k].body.Push? && sent[k].body.repository == repository
    && |sent[k].body.updates| == |commands|
    && forall i :: 0 <= i < |commands| ==> sent[k].body.updates[i].name == commands[i].destination
  }

  /** The daemon answered the `k`th request, as the client accepts it, with a committed push. */
  ghost predicate CommittedAt(env: Env, sent: seq<Request>, k: nat, maxResponseBytes: u64) {
    k < |sent| && exists result ::
      Sessions.Accepted(env.world, sent[..k + 1], maxResponseBytes, PushCommitted(result))
      && result.state.repository == env.remote.repository
  }

  /** The last request is the one push, and it is of these commands. */
  predicate PushesLast(env: Env, s: Client.Session, t: Client.Session, commands: seq<PushCommand>) {
    && Extends(s, t) && |s.sent| < |t.sent|
    && PushesAt(env.remote.repository, t.sent, |t.sent| - 1, commands)
    && forall i :: |s.sent| <= i < |t.sent| - 1 ==> !t.sent[i].body.Push?
  }

  lemma SendKeepsLimit(world: Client.World, s: Client.Session, body: RequestBody, mutating: bool)
    ensures Client.Send(world, s, body, mutating).0.maxResponseBytes == s.maxResponseBytes
  {
    hide Client.Send, Client.ValidateRequest, Sessions.Concluded, Sessions.Sends;
    Sessions.SendCases(world, s, body, mutating);
  }

  lemma BatchKeepsLimit(env: Env, s: Client.Session, commands: seq<PushCommand>)
    ensures PushBatch(env.world, env.git, env.remote.repository, s, commands).0.maxResponseBytes == s.maxResponseBytes
  {
    hide Client.Send, Client.Negotiate, PreparePush, Pushless;
    var (s1, negotiated) := Client.Negotiate(env.world, s);
    var list := RequestBody.ListPushRefs(env.remote.repository);
    NegotiateKeepsLimit(env.world, s);
    var (s2, answer) := Client.Ask(env.world, s1, list);
    SendKeepsLimit(env.world, s1, list, false);
    if negotiated.Ok? && env.git.format.Ok? && Client.PushRefsIn(answer).Ok? {
      var prepared := PreparePush(env.git, env.git.format.value, negotiated.value.limits, Client.PushRefsIn(answer).value.refs, commands);
      if prepared.Ok? {
        SendKeepsLimit(env.world, s2, Push(env.remote.repository, prepared.value.0, prepared.value.1), true);
      }
    }
  }

  lemma NegotiateKeepsLimit(world: Client.World, s: Client.Session)
    ensures Client.Negotiate(world, s).0.maxResponseBytes == s.maxResponseBytes
  {
    hide Client.Send;
    SendKeepsLimit(world, s, GetCapabilities, false);
  }

  lemma SendsLast(env: Env, s: Client.Session, middle: Client.Session, after: Client.Session, listing: seq<RefTarget>,
                  commands: seq<PushCommand>, plan: Plan, pack: Bytes)
    requires Batches.Queries(s, middle) && env.git.format.Ok? && after.maxResponseBytes == s.maxResponseBytes
    requires Batches.Planned(env.git, env.git.format.value, listing, commands, plan)
    requires Sessions.Sends(env.world, middle, after, Push(env.remote.repository, plan.updates, pack))
    ensures PushesLast(env, s, after, commands)
  {
    hide Client.ValidateRequest;
    assert after.sent[..|middle.sent|] == middle.sent;
    forall i | 0 <= i < |commands|
      ensures plan.updates[i].name == commands[i].destination
    {
      assert Batches.Maps(env.git, env.git.format.value, listing, commands[i], plan.updates[i]);
    }
  }

  lemma BatchPushes(env: Env, s: Client.Session, commands: seq<PushCommand>)
    ensures var (after, r) := PushBatch(env.world, env.git, env.remote.repository, s, commands);
            && (r.Ok? ==> PushesLast(env, s, after, commands)
                          && CommittedAt(env, after.sent, |after.sent| - 1, after.maxResponseBytes))
            && (r.Err? ==> Pushless(s, after)
                           || (PushesLast(env, s, after, commands) && Batches.OfThePush(r.error)))
  {
    hide PushBatch, Sessions.Accepted, Sessions.Sends, Client.Send, ValidateListing, Batches.Planned;
    var middle, listing, plan, pack := Batches.PushBatchTrace(env.world, env.git, env.remote.repository, s, commands);
    Batches.PushBatchNeverSilent(env.world, env.git, env.remote.repository, s, commands);
    BatchKeepsLimit(env, s, commands);
    var (after, r) := PushBatch(env.world, env.git, env.remote.repository, s, commands);
    if !(r.Err? && Batches.Queries(s, after)) {
      SendsLast(env, s, middle, after, listing.refs, commands, plan, pack);
      assert after.sent[..|after.sent|] == after.sent;
    }
  }

  /// One command

  /** A turn that goes on pushes and reports it, or does neither. */
  predicate Continues(env: Env, s: Client.Session, turn: Turn) {
    && |turn.events| == 1 && !turn.events[0].PushFailed?
    && if turn.events[0].Pushed? then PushesLast(env, s, turn.session, turn.events[0].commands) else Pushless(s, turn.session)
  }

  /** A turn that stops pushes only if it says so, and then the error is that push's. */
  predicate Stops(env: Env, s: Client.Session, turn: Turn)
    requires turn.stop.Some?
  {
    || (Pushless(s, turn.session) && (turn.events == [] || (|turn.events| == 1 && turn.events[0].PushFailed?)))
    || (&& |turn.events| == 1 && turn.events[0].PushFailed? && PushesLast(env, s, turn.session, turn.events[0].commands)
        && turn.stop.value.Err? && turn.stop.value.error.HelperFailed?
        && Batches.OfThePush(turn.stop.value.error.helperError))
  }

  lemma TurnPushes(env: Env, s: Client.Session, text: string, rest: string, advertised: bool)
    ensures var turn := Serve(env, s, text, rest, advertised);
            && (turn.stop.None? ==> Continues(env, s, turn))
            && (turn.stop.None? && turn.events[0].Pushed? ==>
                  CommittedAt(env, turn.session.sent, |turn.session.sent| - 1, turn.session.maxResponseBytes))
            && (turn.stop.Some? ==> Stops(env, s, turn))
  {
    hide ParsePush, ParseFetch, ReadPushes, ReadFetches, Listing, PushListing, FetchBatch, PushBatch;
    hide Pushless, PushesLast, CommittedAt, Batches.OfThePush;
    PushlessSelf(s);
    if advertised && text == "list" {
      ListingPushless(env.world, env.git, env.remote, s);
    } else if advertised && text == "list for-push" {
      PushListingPushless(env.world, env.git, env.remote.repository, s);
    } else if advertised && text != "capabilities" && StartsWith(text, FETCH) {
      FetchTurn(env, s, text, rest);
    } else if advertised && text != "capabilities" && StartsWith(text, PUSH) {
      PushTurn(env, s, text, rest);
    }
  }

  lemma FetchTurn(env: Env, s: Client.Session, text: string, rest: string)
    ensures Pushless(s, ServeFetch(env, s, text, rest).session)
  {
    hide ParseFetch, ReadFetches, FetchBatch, Pushless;
    PushlessSelf(s);
    if env.git.format.Ok? {
      var algorithm := env.git.format.value.Name();
      var first, more := ParseFetch(text, algorithm), ReadFetches(env.readable, algorithm, rest).1;
      if first.Ok? && more.Ok? {
        FetchPushless(env.world, env.git, env.remote, s, [first.value] + more.value);
      }
    }
  }

  lemma PushTurn(env: Env, s: Client.Session, text: string, rest: string)
    ensures var turn := ServePush(env, s, text, rest);
            && (turn.stop.None? ==> Continues(env, s, turn))
            && (turn.stop.None? && turn.events[0].Pushed? ==>
                  CommittedAt(env, turn.session.sent, |turn.session.sent| - 1, turn.session.maxResponseBytes))
            && (turn.stop.Some? ==> Stops(env, s, turn))
  {
    hide ParsePush, ReadPushes, PushBatch, Pushless, PushesLast, CommittedAt, Batches.OfThePush;
    PushlessSelf(s);
    var first, more := ParsePush(text), ReadPushes(env.readable, rest).1;
    if first.Ok? && more.Ok? {
      var commands := [first.value] + more.value;
      var (after, r) := PushBatch(env.world, env.git, env.remote.repository, s, commands);
      BatchPushes(env, s, commands);
      if r.Ok? {
        assert ServePush(env, s, text, rest) == Done(after, Pushed(commands), ReadPushes(env.readable, rest).0);
      }
    }
  }

  /// A run

  /** The commands of the pushes reported as successes, in order. */
  function CommandsPushed(events: seq<Event>): seq<seq<PushCommand>> {
    if events == [] then []
    else (if events[0].Pushed? then [events[0].commands] else []) + CommandsPushed(events[1..])
  }

  /** The last request is a push of the commands that the last block reports as failed, and the run fails with its error. */
  predicate FailsLast(env: Env, ending: Ending) {
    && ending.events != [] && ending.events[|ending.events| - 1].PushFailed? && ending.session.sent != []
    && PushesAt(env.remote.repository, ending.session.sent, |ending.session.sent| - 1,
                ending.events[|ending.events| - 1].commands)
    && ending.result.Err? && ending.result.error.HelperFailed? && Batches.OfThePush(ending.result.error.helperError)
  }

  /** The reported pushes are at these positions, in order, each committed; any other is the last and reported as failed. */
  ghost predicate Reported(env: Env, from: nat, ending: Ending, at: seq<nat>) {
    var sent, commands := ending.session.sent, CommandsPushed(ending.events);
    && |at| == |commands|
    && (forall j :: 0 <= j < |at| ==> from <= at[j] && PushesAt(env.remote.repository, sent, at[j], commands[j]))
    && (forall j :: 0 <= j < |at| ==> CommittedAt(env, sent, at[j], ending.session.maxResponseBytes))
    && (forall i, j :: 0 <= i < j < |at| ==> at[i] < at[j])
    && forall k :: from <= k < |sent| && sent[k].body.Push? ==> k in at || (k == |sent| - 1 && FailsLast(env, ending))
  }

  lemma NothingReported(env: Env, s: Client.Session, ending: Ending)
    requires CommandsPushed(ending.events) == [] && Pushless(s, ending.session)
    ensures Extends(s, ending.session) && Reported(env, |s.sent|, ending, [])
  {
  }

  lemma StopReported(env: Env, s: Client.Session, turn: Turn)
    requires turn.stop.Some? && Stops(env, s, turn)
    ensures var ending := Ending(turn.session, turn.events, turn.rest, turn.stop.value);
            Extends(s, ending.session) && Reported(env, |s.sent|, ending, [])
  {
    hide PushesAt, Batches.OfThePush;
    assert turn.events != [] ==> turn.events[1..] == [];
    assert CommandsPushed([]) == [];
  }

  lemma CommittedStays(env: Env, sent: seq<Request>, more: seq<Request>, k: nat, max: u64)
    requires sent <= more && CommittedAt(env, sent, k, max)
    ensures CommittedAt(env, more, k, max)
  {
    hide Sessions.Accepted;
    assert more[..k + 1] == sent[..k + 1];
  }

  lemma PushesStay(repository: RepositoryId, sent: seq<Request>, more: seq<Request>, k: nat, commands: seq<PushCommand>)
    requires sent <= more && PushesAt(repository, sent, k, commands)
    ensures PushesAt(repository, more, k, commands)
  {
  }

  lemma PushReported(env: Env, s: Client.Session, turn: Turn, ending: Ending, at: seq<nat>)
    requires Continues(env, s, turn) && Extends(turn.session, ending.session) && turn.events[0].Pushed?
    requires CommittedAt(env, turn.session.sent, |turn.session.sent| - 1, turn.session.maxResponseBytes)
    requires Reported(env, |turn.session.sent|, ending, at)
    ensures Extends(s, ending.session)
    ensures Reported(env, |s.sent|, Following(turn.events, ending), [|turn.session.sent| - 1] + at)
  {
    hide CommittedAt, PushesAt, Batches.OfThePush;
    var more, n := Following(turn.events, ending), |turn.session.sent|;
    var sent, at' := ending.session.sent, [n - 1] + at;
    assert more.events[1..] == ending.events;
    assert CommandsPushed(more.events) == [turn.events[0].commands] + CommandsPushed(ending.events);
    PushesStay(env.remote.repository, turn.session.sent, sent, n - 1, turn.events[0].commands);
    CommittedStays(env, turn.session.sent, sent, n - 1, ending.session.maxResponseBytes);
    forall k | |s.sent| <= k < |sent| && sent[k].body.Push?
      ensures k in at' || (k == |sent| - 1 && FailsLast(env, more))
    {
      if k < n {
        assert sent[k] == turn.session.sent[k];
        assert k == at'[0];
      } else if k in at {
        assert k in at';
      }
    }
  }

  lemma OtherReported(env: Env, s: Client.Session, turn: Turn, ending: Ending, at: seq<nat>)
    requires Continues(env, s, turn) && Extends(turn.session, ending.session) && !turn.events[0].Pushed?
    requires Reported(env, |turn.session.sent|, ending, at)
    ensures Extends(s, ending.session) && Reported(env, |s.sent|, Following(turn.events, ending), at)
  {
    hide CommittedAt, PushesAt, Batches.OfThePush;
    var more, n, sent := Following(turn.events, ending), |turn.session.sent|, ending.session.sent;
    assert more.events[1..] == ending.events;
    assert CommandsPushed(more.events) == CommandsPushed(ending.events);
    assert forall k :: |s.sent| <= k < n ==> sent[k] == turn.session.sent[k];
  }

  /**
   Over any run: the successes reported are, in order, of pushes sent in this run, each with the commands'
   references and answered as committed; and the only other push it can have sent is its last request, which
   the last block reports as failed.
   */
  lemma {:induction false} ReportsAreTrue(env: Env, s: Client.Session, input: string, advertised: bool) returns (at: seq<nat>)
    ensures var ending := Run(env, s, input, advertised);
            Extends(s, ending.session) && Reported(env, |s.sent|, ending, at)
    decreases |input|
  {
    hide Run, ReadLine, Serve, Reported, Stops, CommittedAt, Pushless, Batches.OfThePush;
    RunUnfolds(env, s, input, advertised);
    PushlessSelf(s);
    at := [];
    var (line, rest) := ReadLine(env.readable, input);
    if line.Text? && line.text != "" {
      var turn := Serve(env, s, line.text, rest, advertised);
      TurnPushes(env, s, line.text, rest, advertised);
      if turn.stop.Some? {
        StopReported(env, s, turn);
      } else {
        var tail := ReportsAreTrue(env, turn.session, turn.rest, true);
        var ending := Run(env, turn.session, turn.rest, true);
        if turn.events[0].Pushed? {
          at := [|turn.session.sent| - 1] + tail;
          PushReported(env, s, turn, ending, tail);
        } else {
          at := tail;
          OtherReported(env, s, turn, ending, tail);
        }
      }
    } else {
      NothingReported(env, s, Run(env, s, input, advertised));
    }
  }
}
