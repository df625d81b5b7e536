/** What a whole run of the remote helper reads and writes. */
module Transcripts {
  import opened Basics
  import opened CommandLoop
  import opened Core
  import opened Framing
  import opened Ipc
  import opened RemoteOperations
  import opened Splitting
  import opened Text
  import Batches
  import Client
  import Refs
  import Rendering
  import Sessions
  import Urls

  /// Listings read back

  function DecodeEntry(algorithm: string, line: string): Option<RefTarget> {
    var cut := SplitOnce(line, ' ');
    if cut.None? then None
    else
      var o := ObjectFromHex(algorithm, cut.value.0);
      if o.None? then None else Some(RefTarget(cut.value.1, o.value))
  }

  function DecodeEntries(algorithm: string, lines: seq<string>): Option<seq<RefTarget>> {
    if lines == [] then Some([])
    else
      var first := DecodeEntry(algorithm, lines[0]);
      var rest := DecodeEntries(algorithm, lines[1..]);
      if first.None? || rest.None? then None else Some([first.value] + rest.value)
  }

  const HEAD_SUFFIX := " HEAD"

  /** A last line that starts with `@` names the head. */
  function DecodeListing(algorithm: string, lines: seq<string>): Option<(seq<RefTarget>, Option<string>)> {
    var last := |lines| - 1;
    if lines != [] && StartsWith(lines[last], "@") && EndsWith(lines[last], HEAD_SUFFIX) && |lines[last]| >= 6 then
      var refs := DecodeEntries(algorithm, lines[..last]);
      if refs.None? then None else Some((refs.value, Some(lines[last][1..|lines[last]| - 5])))
    else
      var refs := DecodeEntries(algorithm, lines);
      if refs.None? then None else Some((refs.value, None))
  }

  lemma EntryDecodes(format: GitObjectFormat, r: RefTarget)
    requires ValidateObject(format, r.target).Ok?
    ensures DecodeEntry(format.Name(), Rendering.Hex(r.target.bytes) + " " + r.name) == Some(r)
    ensures !StartsWith(Rendering.Hex(r.target.bytes) + " " + r.name, "@")
  {
    hide Rendering.Hex, Rendering.HexDecode;
    var hex := Rendering.Hex(r.target.bytes);
    var line := hex + " " + r.name;
    Urls.HexPlain(r.target.bytes);
    SplitOnceIs(line, ' ', hex, r.name);
    Rendering.HexReads(r.target.bytes);
    assert line[0] == hex[0] && hex[0] in hex;
  }

  lemma {:induction false} EntriesDecode(format: GitObjectFormat, refs: seq<RefTarget>)
    requires ValidateEntries(format, refs).Ok?
    ensures DecodeEntries(format.Name(), EntryLines(refs)) == Some(refs)
    ensures forall i :: 0 <= i < |refs| ==> !StartsWith(EntryLines(refs)[i], "@")
  {
    hide ValidReference, ValidateObject, DecodeEntry, StartsWith, Rendering.Hex;
    if refs != [] {
      EntriesDecode(format, refs[1..]);
      EntryDecodes(format, refs[0]);
      assert EntryLines(refs)[1..] == EntryLines(refs[1..]);
      assert refs == [refs[0]] + refs[1..];
      forall i | 0 <= i < |refs|
        ensures !StartsWith(EntryLines(refs)[i], "@")
      {
        if i > 0 {
          assert EntryLines(refs)[i] == EntryLines(refs[1..])[i - 1];
        }
      }
    }
  }

  /** A listing block is read back as the listing, head and all. */
  lemma ListingDecodes(format: GitObjectFormat, listing: RefListing)
    requires ValidateListing(format, listing.refs).Ok?
    ensures DecodeListing(format.Name(), BlockLines(Listed(listing))) == Some((listing.refs, listing.head))
  {
    hide ValidateEntries, EntryLines, DecodeEntries;
    EntriesDecode(format, listing.refs);
    var entries := EntryLines(listing.refs);
    if listing.head.Some? {
      var line := "@" + listing.head.value + " HEAD";
      assert BlockLines(Listed(listing)) == entries + [line];
      assert (entries + [line])[..|entries|] == entries;
      assert line[..1] == "@" && line[|line| - 5..] == HEAD_SUFFIX && line[1..|line| - 5] == listing.head.value;
    } else {
      assert entries + [] == entries;
    }
  }

  lemma PushListingDecodes(format: GitObjectFormat, listing: PushRefListing)
    requires ValidateListing(format, listing.refs).Ok?
    ensures DecodeListing(format.Name(), BlockLines(ListedForPush(listing))) == Some((listing.refs, None))
  {
    hide ValidateEntries, DecodeEntries;
    EntriesDecode(format, listing.refs);
  }

  /// Statuses read back

  /** Success or failure, and the reference concerned. */
  function DecodeStatus(line: string): Option<(bool, string)> {
    if StartsWith(line, "ok ") then Some((true, line[3..]))
    else if StartsWith(line, "error ") && EndsWith(line, " atomic push failed") && |line| >= 25 then
      Some((false, line[6..|line| - 19]))
    else None
  }

  /** One status for each command, in the commands' order, all successes or all failures. */
  lemma StatusesDecode(commands: seq<PushCommand>, ok: bool, i: nat)
    requires i < |commands|
    ensures |StatusLines(commands, ok)| == |commands|
    ensures DecodeStatus(StatusLines(commands, ok)[i]) == Some((ok, commands[i].destination))
  {
    var line := StatusLines(commands, ok)[i];
    var destination := commands[i].destination;
    if ok {
      assert line[..3] == "ok ";
    } else {
      assert line == "error " + destination + " atomic push failed";
      assert line[..6] == "error " && line[|line| - 19..] == " atomic push failed";
      assert line[0] == 'e';
    }
  }

  /// Clean output

  lemma NoNewlineInLines(readable: string -> bool, input: string)
    requires ReadLine(readable, input).0.Text?
    ensures '\n' !in ReadLine(readable, input).0.text
  {
    LinesAreWhole(readable, input);
  }

  lemma ParsedDestination(line: string)
    requires ParsePush(line).Ok? && '\n' !in line
    ensures '\n' !in ParsePush(line).value.destination && ParsePush(line).value.destination != ""
  {
    var command := ParsePush(line).value;
    ParsePushExact(line, command);
    assert forall c :: c in command.destination ==> c in line;
  }

  predicate CleanDestinations(commands: seq<PushCommand>) {
    forall i :: 0 <= i < |commands| ==> commands[i].destination != "" && '\n' !in commands[i].destination
  }

  lemma {:induction false} ReadPushesClean(readable: string -> bool, input: string)
    requires ReadPushes(readable, input).1.Ok?
    ensures CleanDestinations(ReadPushes(readable, input).1.value)
    decreases |input|
  {
    hide ReadLine, ParsePush;
    var (line, rest) := ReadLine(readable, input);
    if line.text != "" {
      NoNewlineInLines(readable, input);
      ParsedDestination(line.text);
      ReadPushesClean(readable, rest);
    }
  }

  lemma StatusesClean(commands: seq<PushCommand>, ok: bool)
    requires CleanDestinations(commands)
    ensures Clean(StatusLines(commands, ok))
  {
    forall i | 0 <= i < |commands|
      ensures CleanLine(StatusLines(commands, ok)[i])
    {
      var line := StatusLines(commands, ok)[i];
      assert line[0] == if ok then 'o' else 'e';
    }
  }

  lemma ReferenceClean(reference: string)
    requires ValidReference(reference)
    ensures '\n' !in reference
  {
    forall i | 0 <= i < |reference|
      ensures reference[i] != '\n'
    {
      assert !ControlChar(reference[i]);
    }
  }

  lemma {:induction false} EntriesClean(format: GitObjectFormat, refs: seq<RefTarget>)
    requires ValidateEntries(format, refs).Ok?
    ensures Clean(EntryLines(refs))
  {
    hide ValidReference, ValidateObject, Rendering.Hex;
    ValidateEntriesExact(format, refs);
    forall i | 0 <= i < |refs|
      ensures CleanLine(EntryLines(refs)[i])
    {
      assert refs[i] in refs;
      ReferenceClean(refs[i].name);
      Urls.HexPlain(refs[i].target.bytes);
      assert EntryLines(refs)[i][|Rendering.Hex(refs[i].target.bytes)|] == ' ';
    }
  }

  lemma HeadClean(head: Option<string>)
    requires head.Some? ==> ValidReference(head.value)
    ensures Clean(HeadLines(head))
  {
    hide ValidReference;
    if head.Some? {
      ReferenceClean(head.value);
      assert HeadLines(head)[0][0] == '@';
    }
  }

  lemma CleanConcat(a: seq<string>, b: seq<string>)
    requires Clean(a) && Clean(b)
    ensures Clean(a + b)
  {
  }

  /// The shape of a run

  /** A failed push is the last thing written, and the run then fails. */
  predicate Shaped(events: seq<Event>, advertised: bool, failed: bool) {
    && (forall i :: 0 <= i < |events| && events[i].PushFailed? ==> i == |events| - 1 && failed)
    && (forall i :: 0 <= i < |events| && events[i].Advertised? ==> i == 0 && !advertised)
    && (events != [] && !advertised ==> events[0].Advertised?)
  }

  /** What one command writes is clean, and is a failed push only if the loop stops with an error. */
  lemma ServeWrites(env: Env, s: Client.Session, text: string, rest: string, advertised: bool)
    requires '\n' !in text
    ensures var turn := Serve(env, s, text, rest, advertised);
            && CleanEvents(turn.events)
            && |turn.events| <= 1
            && (turn.stop.None? ==> |turn.events| == 1 && !turn.events[0].PushFailed?
                                    && (turn.events[0].Advertised? <==> !advertised))
            && (turn.stop.Some? ==> turn.stop.value.Err?)
            && (turn.stop.Some? && turn.events != [] ==> turn.events[0].PushFailed? && advertised)
  {
    hide ParsePush, ParseFetch, ReadPushes, ReadFetches, Listing, PushListing, FetchBatch, PushBatch, Clean, StatusLines;
    if advertised && text == "list" {
      ListWrites(env, s, rest);
    } else if advertised && text == "list for-push" {
      PushListWrites(env, s, rest);
    } else if text == "capabilities" {
      assert Clean(["fetch", "push"]) by { AdvertisementClean(); }
    } else if advertised && StartsWith(text, FETCH) {
      assert Clean([]) by { NothingClean(); }
    } else if advertised && StartsWith(text, PUSH) {
      PushWrites(env, s, text, rest);
    }
  }

  lemma AdvertisementClean()
    ensures Clean(["fetch", "push"])
  {
  }

  lemma NothingClean()
    ensures Clean([])
  {
  }

  lemma ListWrites(env: Env, s: Client.Session, rest: string)
    ensures CleanEvents(ServeList(env, s, rest).events)
  {
    hide Clean, ValidateEntries, EntryLines, HeadLines;
    var turn := ServeList(env, s, rest);
    if turn.stop.None? {
      var listing := turn.events[0].listing;
      EntriesClean(env.git.format.value, listing.refs);
      HeadClean(listing.head);
      CleanConcat(EntryLines(listing.refs), HeadLines(listing.head));
    }
  }

  lemma PushListWrites(env: Env, s: Client.Session, rest: string)
    ensures CleanEvents(ServePushList(env, s, rest).events)
  {
    hide Clean, ValidateEntries, EntryLines;
    var turn := ServePushList(env, s, rest);
    if turn.stop.None? {
      EntriesClean(env.git.format.value, turn.events[0].pushListing.refs);
    }
  }

  lemma PushWrites(env: Env, s: Client.Session, text: string, rest: string)
    requires '\n' !in text
    ensures CleanEvents(ServePush(env, s, text, rest).events)
  {
    hide ParsePush, ReadPushes, PushBatch, Clean, StatusLines;
    if ParsePush(text).Ok? && ReadPushes(env.readable, rest).1.Ok? {
      var commands := [ParsePush(text).value] + ReadPushes(env.readable, rest).1.value;
      ParsedDestination(text);
      ReadPushesClean(env.readable, rest);
      assert CleanDestinations(commands);
      StatusesClean(commands, true);
      StatusesClean(commands, false);
    }
  }

  /**
   Over any run: the first block is the advertisement and the only one, an error block comes last and only
   if the run fails, and no line of any block is blank or holds a newline.
   */
  lemma {:induction false} RunWrites(env: Env, s: Client.Session, input: string, advertised: bool)
    ensures var ending := Run(env, s, input, advertised);
            && CleanEvents(ending.events)
            && Shaped(ending.events, advertised, ending.result.Err?)
    decreases |input|
  {
    hide Run, ReadLine, Serve, Clean, BlockLines;
    RunUnfolds(env, s, input, advertised);
    var (line, rest) := ReadLine(env.readable, input);
    if line.Text? && line.text != "" {
      NoNewlineInLines(env.readable, input);
      ServeWrites(env, s, line.text, rest, advertised);
      var turn := Serve(env, s, line.text, rest, advertised);
      if turn.stop.None? {
        RunWrites(env, turn.session, turn.rest, true);
        FollowingShaped(turn.events, Run(env, turn.session, turn.rest, true), advertised);
      }
    }
  }

  lemma FollowingShaped(events: seq<Event>, ending: Ending, advertised: bool)
    requires |events| == 1 && !events[0].PushFailed? && (events[0].Advertised? <==> !advertised)
    requires CleanEvents(events) && CleanEvents(ending.events) && Shaped(ending.events, true, ending.result.Err?)
    ensures var more := Following(events, ending);
            CleanEvents(more.events) && Shaped(more.events, advertised, more.result.Err?)
  {
    hide Clean, BlockLines;
    var more := events + ending.events;
    assert forall i :: 1 <= i < |more| ==> more[i] == ending.events[i - 1];
  }

  /** The text a run writes is read back as its blocks. */
  lemma RunDecodes(env: Env, s: Client.Session, input: string)
    ensures var events := Run(env, s, input, false).events;
            Blocks(LinesOf(Render(events))) == AllBlocks(events)
  {
    hide Run, Render, Blocks, LinesOf;
    RunWrites(env, s, input, false);
    OutputDecodes(Run(env, s, input, false).events);
  }

  /// Meaning

  /**
   Successes are reported only for a push the daemon committed; a failure is reported for a push that was
   never sent, that the daemon refused, or whose outcome is unknown.
   */
  lemma StatusesMean(env: Env, s: Client.Session, text: string, rest: string)
    ensures var turn := ServePush(env, s, text, rest);
            && (turn.events != [] && turn.events[0].Pushed? ==>
                  exists result :: Sessions.Accepted(env.world, turn.session.sent, turn.session.maxResponseBytes, PushCommitted(result)))
            && (turn.events != [] && turn.events[0].PushFailed? ==>
                  turn.stop.Some? && turn.stop.value.Err? && turn.stop.value.error.HelperFailed?
                  && (Batches.OfThePush(turn.stop.value.error.helperError) || Batches.Queries(s, turn.session)))
  {
    hide ParsePush, ReadPushes, PushBatch, Sessions.Accepted, Batches.Queries;
    if ParsePush(text).Ok? && ReadPushes(env.readable, rest).1.Ok? {
      var commands := [ParsePush(text).value] + ReadPushes(env.readable, rest).1.value;
      Batches.PushBatchNeverSilent(env.world, env.git, env.remote.repository, s, commands);
      var (after, r) := PushBatch(env.world, env.git, env.remote.repository, s, commands);
      if r.Ok? {
        assert Sessions.Accepted(env.world, after.sent, after.maxResponseBytes, PushCommitted(r.value));
      }
    }
  }

  /** What is left of the input is its end: nothing is skipped and nothing comes back. */
  lemma {:induction false} RunKeepsRest(env: Env, s: Client.Session, input: string, advertised: bool)
    ensures IsEnd(Run(env, s, input, advertised).rest, input)
    decreases |input|
  {
    hide Run, Serve, EndsWith, ReadLine;
    RunUnfolds(env, s, input, advertised);
    LineLeavesEnd(env.readable, input);
    var (line, rest) := ReadLine(env.readable, input);
    if line.Text? && line.text != "" {
      ServeLeavesEnd(env, s, line.text, rest, advertised);
      var turn := Serve(env, s, line.text, rest, advertised);
      EndTransitive(turn.rest, rest, input);
      if turn.stop.None? {
        RunKeepsRest(env, turn.session, turn.rest, true);
        EndTransitive(Run(env, turn.session, turn.rest, true).rest, turn.rest, input);
      }
    }
  }

  predicate IsEnd(rest: string, input: string) {
    EndsWith(input, rest)
  }

  lemma EndTransitive(a: string, b: string, c: string)
    requires IsEnd(a, b) && IsEnd(b, c)
    ensures IsEnd(a, c)
  {
    assert c[|c| - |b|..][|b| - |a|..] == c[|c| - |a|..];
  }

  lemma LineLeavesEnd(readable: string -> bool, input: string)
    ensures IsEnd(ReadLine(readable, input).1, input)
  {
    hide ChunkLength, Strip;
  }

  lemma {:induction false} FetchesLeaveEnd(readable: string -> bool, algorithm: string, input: string)
    ensures IsEnd(ReadFetches(readable, algorithm, input).0, input)
    decreases |input|
  {
    hide ReadLine, ParseFetch, IsEnd;
    LineLeavesEnd(readable, input);
    var (line, rest) := ReadLine(readable, input);
    if line.Text? {
      FetchesLeaveEnd(readable, algorithm, rest);
      EndTransitive(ReadFetches(readable, algorithm, rest).0, rest, input);
    }
  }

  lemma {:induction false} PushesLeaveEnd(readable: string -> bool, input: string)
    ensures IsEnd(ReadPushes(readable, input).0, input)
    decreases |input|
  {
    hide ReadLine, ParsePush, IsEnd;
    LineLeavesEnd(readable, input);
    var (line, rest) := ReadLine(readable, input);
    if line.Text? {
      PushesLeaveEnd(readable, rest);
      EndTransitive(ReadPushes(readable, rest).0, rest, input);
    }
  }

  lemma ServeLeavesEnd(env: Env, s: Client.Session, text: string, rest: string, advertised: bool)
    ensures IsEnd(Serve(env, s, text, rest, advertised).rest, rest)
  {
    hide ParsePush, ParseFetch, ReadPushes, ReadFetches, Listing, PushListing, FetchBatch, PushBatch;
    PushesLeaveEnd(env.readable, rest);
    if env.git.format.Ok? {
      FetchesLeaveEnd(env.readable, env.git.format.value.Name(), rest);
    }
  }
}
