/** Which request of a run each block of output answers, and that the block is that answer. */
module Conversations {
  import opened Basics
  import opened CommandLoop
  import opened Core
  import opened Exchanges
  import opened Ipc
  import opened Outcomes
  import opened RemoteOperations
  import opened Reports
  import Batches
  import Client
  import Sessions

  /// One block

  /** The block tells of a request of its own. */
  predicate Telling(event: Event) {
    !event.Advertised? && !event.PushFailed?
  }

  /** The daemon answered the `k`th request with this, as the client accepts it. */
  predicate Told(env: Env, sent: seq<Request>, k: nat, maxResponseBytes: u64, answer: ResponseBody) {
    k < |sent| && Sessions.Accepted(env.world, sent[..k + 1], maxResponseBytes, answer)
  }

  /**
   The block is the answer to the `k`th request: the listing that was asked for, the fetch of just the objects
   that were asked for, all of them there now, or the push of the references that were to be pushed.
   */
  ghost predicate AnswersAt(env: Env, sent: seq<Request>, k: nat, maxResponseBytes: u64, event: Event) {
    var repository, view := env.remote.repository, env.remote.view;
    && k < |sent|
    && match event
       case Advertised => false
       case Listed(listing) =>
         && sent[k].body == RequestBody.ListRefs(repository, view) && Told(env, sent, k, maxResponseBytes, Refs(listing))
         && env.git.format.Ok? && GoodListing(env.git.format.value, listing.refs)
         && (listing.head.Some? ==> GoodReference(listing.head.value))
       case ListedForPush(listing) =>
         && sent[k].body == RequestBody.ListPushRefs(repository) && Told(env, sent, k, maxResponseBytes, PushRefs(listing))
         && env.git.format.Ok? && GoodListing(env.git.format.value, listing.refs)
       case Fetched(fetches) =>
         && (exists wants, haves, pack ::
               && Lists(wants, WantedBy(fetches)) && sent[k].body == RequestBody.Fetch(repository, view, wants, haves)
               && Told(env, sent, k, maxResponseBytes, FetchPack(pack)) && (pack != [] ==> env.git.indexPack(pack).Ok?))
         && forall i :: 0 <= i < |fetches| ==> env.git.has(fetches[i].wanted) == Ok(true)
       case Pushed(pushes) =>
         PushesAt(repository, sent, k, pushes) && CommittedAt(env, sent, k, maxResponseBytes)
       case PushFailed(_) => false
  }

  predicate Query(request: Request) {
    request.body.GetCapabilities? || request.body.ListPushRefs?
  }

  /** One command: only its last request is more than a query. */
  predicate AddsOne(s: Client.Session, t: Client.Session) {
    Extends(s, t) && forall i :: |s.sent| <= i < |t.sent| - 1 ==> Query(t.sent[i])
  }

  /** Its block is the answer to its last request. */
  ghost predicate Concludes(env: Env, s: Client.Session, t: Client.Session, event: Event) {
    && AddsOne(s, t) && |s.sent| < |t.sent|
    && AnswersAt(env, t.sent, |t.sent| - 1, t.maxResponseBytes, event)
  }

  lemma AsksOne(world: Client.World, s: Client.Session, s1: Client.Session, body: RequestBody)
    requires Batches.Queries(s, s1) && s1.maxResponseBytes == s.maxResponseBytes
    ensures AddsOne(s, Client.Ask(world, s1, body).0)
  {
    hide Client.Send, Sessions.MaySend, Sessions.SmallEnough;
    Sessions.SendCases(world, s1, body, body.Push?);
    var after := Client.Ask(world, s1, body).0;
    assert s1.sent[..|s.sent|] == s.sent;
    assert forall i :: |s.sent| <= i < |s1.sent| ==> after.sent[i] == s1.sent[i];
  }

  lemma QueriesAddOne(s: Client.Session, t: Client.Session)
    requires Batches.Queries(s, t) && t.maxResponseBytes == s.maxResponseBytes
    ensures AddsOne(s, t)
  {
  }

  /** An answered request is the last one, and its answer was accepted. */
  lemma AnsweredLast(env: Env, s: Client.Session, body: RequestBody, answer: ResponseBody)
    requires Answered(env.world, s, body, answer)
    ensures var after := Client.Ask(env.world, s, body).0;
            && after.sent != [] && after.sent[|after.sent| - 1].body == body && |s.sent| < |after.sent|
            && Told(env, after.sent, |after.sent| - 1, s.maxResponseBytes, answer)
            && after.maxResponseBytes == s.maxResponseBytes
  {
    hide Client.Send, Sessions.MaySend, Sessions.SmallEnough, Sessions.Relevant;
    AskExactly(env.world, s, body, answer);
    SendKeepsLimit(env.world, s, body, body.Push?);
    var after := Client.Ask(env.world, s, body).0;
    assert after.sent == Sent(s, body);
    assert after.sent[..|after.sent|] == after.sent;
  }

  lemma Negotiates(env: Env, s: Client.Session)
    ensures var s1 := Client.Negotiate(env.world, s).0;
            && Batches.Queries(s, s1) && s1.maxResponseBytes == s.maxResponseBytes && AddsOne(s, s1)
  {
    hide Client.Negotiate;
    Batches.NegotiateQueries(env.world, s);
    NegotiateKeepsLimit(env.world, s);
    QueriesAddOne(s, Client.Negotiate(env.world, s).0);
  }

  lemma ListingConcludes(env: Env, s: Client.Session)
    ensures var (after, r) := Listing(env.world, env.git, env.remote, s);
            && AddsOne(s, after) && (r.Ok? ==> Concludes(env, s, after, Listed(r.value)))
  {
    hide Client.Negotiate, Client.Send, Answered, Told, AddsOne, CheckedListing, GoodListing, GoodReference;
    var s1 := Client.Negotiate(env.world, s).0;
    var body := RequestBody.ListRefs(env.remote.repository, env.remote.view);
    Negotiates(env, s);
    AsksOne(env.world, s, s1, body);
    var r := Listing(env.world, env.git, env.remote, s).1;
    if r.Ok? {
      ListingExactly(env.world, env.git, env.remote, s, r.value);
      AnsweredLast(env, s1, body, Refs(r.value));
    }
  }

  lemma PushListingConcludes(env: Env, s: Client.Session)
    ensures var (after, r) := PushListing(env.world, env.git, env.remote.repository, s);
            && AddsOne(s, after) && (r.Ok? ==> Concludes(env, s, after, ListedForPush(r.value)))
  {
    hide Client.Negotiate, Client.Send, Answered, Told, AddsOne, CheckedPushListing, GoodListing;
    var s1 := Client.Negotiate(env.world, s).0;
    var body := RequestBody.ListPushRefs(env.remote.repository);
    Negotiates(env, s);
    AsksOne(env.world, s, s1, body);
    var r := PushListing(env.world, env.git, env.remote.repository, s).1;
    if r.Ok? {
      PushListingExactly(env.world, env.git, env.remote.repository, s, r.value);
      AnsweredLast(env, s1, body, PushRefs(r.value));
    }
  }

  lemma FetchConcludes(env: Env, s: Client.Session, commands: seq<FetchCommand>)
    ensures var (after, r) := FetchBatch(env.world, env.git, env.remote, s, commands);
            && AddsOne(s, after) && (r.Ok? ==> Concludes(env, s, after, Fetched(commands)))
  {
    hide Client.Negotiate, Client.Send, Answered, Told, AddsOne, PrepareFetch, FinishFetch, Prepared, Lists;
    QueriesAddOne(s, s);
    var (s1, negotiated) := Client.Negotiate(env.world, s);
    Negotiates(env, s);
    if commands != [] && negotiated.Ok? {
      var prepared := PrepareFetch(env.git, negotiated.value.limits, commands);
      if prepared.Ok? {
        var body := RequestBody.Fetch(env.remote.repository, env.remote.view, prepared.value.0, prepared.value.1);
        AsksOne(env.world, s, s1, body);
        FetchBatchExactly(env.world, env.git, env.remote, s, commands);
        if FetchBatch(env.world, env.git, env.remote, s, commands).1.Ok? {
          var wants, haves, pack :| Fetches(env.world, env.git, env.remote, s1, negotiated.value, commands, wants, haves, pack);
          PrepareFetchExactly(env.git, negotiated.value.limits, commands, wants, haves);
          PreparedLists(env.git, negotiated.value.limits, commands, wants, haves);
          AnsweredLast(env, s1, body, FetchPack(pack));
        }
      }
    }
  }

  lemma PushConcludes(env: Env, s: Client.Session, commands: seq<PushCommand>)
    ensures var (after, r) := PushBatch(env.world, env.git, env.remote.repository, s, commands);
            && AddsOne(s, after) && (r.Ok? ==> Concludes(env, s, after, Pushed(commands)))
  {
    hide PushBatch, Sessions.Accepted, Sessions.MaySend, Sessions.SmallEnough, Client.Send, ValidateListing, Batches.Planned;
    var middle, listing, plan, pack := Batches.PushBatchTrace(env.world, env.git, env.remote.repository, s, commands);
    BatchPushes(env, s, commands);
    BatchKeepsLimit(env, s, commands);
    var after := PushBatch(env.world, env.git, env.remote.repository, s, commands).0;
    if Batches.Queries(s, after) {
      QueriesAddOne(s, after);
    } else {
      assert forall i :: |s.sent| <= i < |middle.sent| ==> after.sent[i] == middle.sent[i];
    }
  }

  /// One turn

  /** A turn that goes on advertises and asks nothing, or concludes with its block. */
  ghost predicate TurnTells(env: Env, s: Client.Session, turn: Turn) {
    && AddsOne(s, turn.session)
    && (turn.stop.None? ==>
          && |turn.events| == 1 && !turn.events[0].PushFailed?
          && (turn.events[0].Advertised? ==> turn.session == s)
          && (Telling(turn.events[0]) ==> Concludes(env, s, turn.session, turn.events[0])))
    && (turn.stop.Some? ==> turn.stop.value.Err? && forall i :: 0 <= i < |turn.events| ==> turn.events[i].PushFailed?)
  }

  lemma TurnsTell(env: Env, s: Client.Session, text: string, rest: string, advertised: bool)
    ensures TurnTells(env, s, Serve(env, s, text, rest, advertised))
  {
    hide ServeList, ServePushList, ServeFetch, ServePush, AddsOne, Concludes;
    QueriesAddOne(s, s);
    ListTells(env, s, rest);
    PushListTells(env, s, rest);
    FetchTells(env, s, text, rest);
    PushTells(env, s, text, rest);
  }

  lemma ListTells(env: Env, s: Client.Session, rest: string)
    ensures TurnTells(env, s, ServeList(env, s, rest))
  {
    hide Listing, AddsOne, AnswersAt;
    ListingConcludes(env, s);
    var (after, r) := Listing(env.world, env.git, env.remote, s);
    assert ServeList(env, s, rest) ==
           if r.Err? then Fail(after, rest, HelperFailed(r.error)) else Done(after, Listed(r.value), rest);
  }

  lemma PushListTells(env: Env, s: Client.Session, rest: string)
    ensures TurnTells(env, s, ServePushList(env, s, rest))
  {
    hide PushListing, AddsOne, AnswersAt;
    PushListingConcludes(env, s);
    var (after, r) := PushListing(env.world, env.git, env.remote.repository, s);
    assert ServePushList(env, s, rest) ==
           if r.Err? then Fail(after, rest, HelperFailed(r.error)) else Done(after, ListedForPush(r.value), rest);
  }

  lemma FetchTells(env: Env, s: Client.Session, text: string, rest: string)
    ensures TurnTells(env, s, ServeFetch(env, s, text, rest))
  {
    hide ParseFetch, ReadFetches, FetchBatch, AddsOne, AnswersAt;
    QueriesAddOne(s, s);
    if env.git.format.Ok? {
      var algorithm := env.git.format.value.Name();
      var first, more := ParseFetch(text, algorithm), ReadFetches(env.readable, algorithm, rest);
      if first.Ok? && more.1.Ok? {
        var commands := [first.value] + more.1.value;
        var (after, r) := FetchBatch(env.world, env.git, env.remote, s, commands);
        FetchConcludes(env, s, commands);
        assert ServeFetch(env, s, text, rest) ==
               if r.Err? then Fail(after, more.0, HelperFailed(r.error)) else Done(after, Fetched(commands), more.0);
      }
    }
  }

  lemma PushTells(env: Env, s: Client.Session, text: string, rest: string)
    ensures TurnTells(env, s, ServePush(env, s, text, rest))
  {
    hide ParsePush, ReadPushes, PushBatch, AddsOne, AnswersAt;
    QueriesAddOne(s, s);
    var first, more := ParsePush(text), ReadPushes(env.readable, rest);
    if first.Ok? && more.1.Ok? {
      var commands := [first.value] + more.1.value;
      var (after, r) := PushBatch(env.world, env.git, env.remote.repository, s, commands);
      PushConcludes(env, s, commands);
      assert ServePush(env, s, text, rest) ==
             if r.Err? then Turn(after, [PushFailed(commands)], more.0, Some(Err(HelperFailed(r.error))))
             else Done(after, Pushed(commands), more.0);
    }
  }

  /// A run

  /**
   Each block that tells of a request has its place among the requests of the run, in order, and is the answer to
   the request there; and of the other requests only the last can be more than a query, and then the run failed.
   */
  ghost predicate AllTold(env: Env, from: nat, ending: Ending, at: seq<nat>) {
    var sent, events := ending.session.sent, ending.events;
    && |at| == |events|
    && (forall i :: 0 <= i < |at| && Telling(events[i]) ==>
          from <= at[i] < |sent| && AnswersAt(env, sent, at[i], ending.session.maxResponseBytes, events[i]))
    && (forall i, j :: 0 <= i < j < |at| && Telling(events[i]) && Telling(events[j]) ==> at[i] < at[j])
    && forall k :: from <= k < |sent| && !Query(sent[k]) ==>
         Taken(ending, at, k) || (k == |sent| - 1 && ending.result.Err?)
  }

  predicate Taken(ending: Ending, at: seq<nat>, k: int)
    requires |at| == |ending.events|
  {
    exists i :: 0 <= i < |at| && Telling(ending.events[i]) && at[i] == k
  }

  lemma AnswersStay(env: Env, sent: seq<Request>, more: seq<Request>, k: nat, max: u64, event: Event)
    requires sent <= more && AnswersAt(env, sent, k, max, event)
    ensures AnswersAt(env, more, k, max, event)
  {
    hide Sessions.Accepted, Lists, GoodListing, GoodReference;
    assert more[..k + 1] == sent[..k + 1];
  }

  lemma StopTold(env: Env, s: Client.Session, turn: Turn)
    requires TurnTells(env, s, turn) && turn.stop.Some?
    ensures var ending := Ending(turn.session, turn.events, turn.rest, turn.stop.value);
            Extends(s, ending.session) && AllTold(env, |s.sent|, ending, seq(|turn.events|, _ => 0))
  {
    hide AnswersAt;
  }

  lemma TurnTold(env: Env, s: Client.Session, turn: Turn, ending: Ending, at: seq<nat>)
    requires TurnTells(env, s, turn) && turn.stop.None? && Extends(turn.session, ending.session)
    requires AllTold(env, |turn.session.sent|, ending, at)
    ensures Extends(s, ending.session)
    ensures AllTold(env, |s.sent|, Following(turn.events, ending),
                    [if |turn.session.sent| > 0 then |turn.session.sent| - 1 else 0] + at)
  {
    hide AnswersAt, Query;
    var n, sent, max := |turn.session.sent|, ending.session.sent, ending.session.maxResponseBytes;
    var place := if n > 0 then n - 1 else 0;
    var more, at' := Following(turn.events, ending), [place] + at;
    assert |more.events| == |at'| && more.events[0] == turn.events[0];
    assert forall i :: 0 < i < |at'| ==> at'[i] == at[i - 1] && more.events[i] == ending.events[i - 1];
    if Telling(turn.events[0]) {
      AnswersStay(env, turn.session.sent, sent, n - 1, max, turn.events[0]);
    }
    forall k | |s.sent| <= k < |sent| && !Query(sent[k])
      ensures Taken(more, at', k) || (k == |sent| - 1 && more.result.Err?)
    {
      if k < n {
        assert sent[k] == turn.session.sent[k];
        assert at'[0] == k;
      } else if Taken(ending, at, k) {
        var i :| 0 <= i < |at| && Telling(ending.events[i]) && at[i] == k;
        assert at'[i + 1] == k && more.events[i + 1] == ending.events[i];
      }
    }
  }

  /**
   Over any run: every listing, fetch and push that is written answers a request of its own, in order; a listing
   is the daemon's to just that question, a fetch asked for just the objects of its commands, got a pack that was
   installed, and has them all, a push was committed; and whatever else was asked beyond queries was the last
   request of a run that failed.
   */
  lemma {:induction false} BlocksAreAnswers(env: Env, s: Client.Session, input: string, advertised: bool) returns (at: seq<nat>)
    ensures var ending := Run(env, s, input, advertised);
            Extends(s, ending.session) && AllTold(env, |s.sent|, ending, at)
    decreases |input|
  {
    hide Run, ReadLine, Serve, AllTold, AnswersAt;
    RunUnfolds(env, s, input, advertised);
    at := [];
    var (line, rest) := ReadLine(env.readable, input);
    if line.Text? && line.text != "" {
      var turn := Serve(env, s, line.text, rest, advertised);
      TurnsTell(env, s, line.text, rest, advertised);
      if turn.stop.Some? {
        at := seq(|turn.events|, _ => 0);
        StopTold(env, s, turn);
      } else {
        var tail := BlocksAreAnswers(env, turn.session, turn.rest, true);
        at := [if |turn.session.sent| > 0 then |turn.session.sent| - 1 else 0] + tail;
        TurnTold(env, s, turn, Run(env, turn.session, turn.rest, true), tail);
      }
    } else {
      NothingTold(env, s, Run(env, s, input, advertised));
    }
  }

  lemma NothingTold(env: Env, s: Client.Session, ending: Ending)
    requires ending.events == [] && ending.session == s
    ensures Extends(s, ending.session) && AllTold(env, |s.sent|, ending, [])
  {
  }
}
