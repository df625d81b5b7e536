/** What the remote helper reads as its commands, and that it carries them out one after the other. */
module Scripts {
  import opened Basics
  import opened CommandLoop
  import opened Core
  import opened Framing
  import opened RemoteOperations
  import opened Text
  import Client
  import Rendering

  /// Lines

  /** The input starts with this line, which is within the limit and can be read; `rest` follows it. */
  predicate LineIs(readable: string -> bool, input: string, text: string, rest: string) {
    && input != "" && WholeLine(input) == (text, rest) && |text| <= MAX_COMMAND_LINE_BYTES
    && |rest| <= |input| && readable(input[..|input| - |rest|])
  }

  lemma WholeLineShorter(input: string)
    requires input != ""
    ensures |WholeLine(input).1| < |input|
    ensures |WholeLine(input).0| <= MAX_COMMAND_LINE_BYTES ==> ChunkLength(input) == |input| - |WholeLine(input).1|
  {
    ChunkIs(input);
  }

  lemma LineExactly(readable: string -> bool, input: string, text: string, rest: string)
    ensures ReadLine(readable, input) == (Text(text), rest) <==> LineIs(readable, input, text, rest)
    ensures ReadLine(readable, input).0.EndOfInput? <==> input == ""
  {
    hide ChunkLength, Strip, WholeLine;
    if input != "" {
      LinesAreWhole(readable, input);
      WholeLineShorter(input);
    }
  }

  /// Batches

  /** How a fetch is written: the hexadecimal digits in either case, and the reference. */
  ghost predicate FetchText(algorithm: string, text: string, command: FetchCommand) {
    && command.wanted.Valid() && command.wanted.algorithm == algorithm
    && command.reference != "" && ' ' !in command.reference
    && exists hex :: Rendering.ToLower(hex) == Rendering.Hex(command.wanted.bytes)
                     && text == FETCH + (hex + [' '] + command.reference)
  }

  predicate PushText(text: string, command: PushCommand) {
    Printable(command) && text == PrintPush(command)
  }

  /** These fetches, a line each, and a blank line. */
  ghost predicate FetchLines(readable: string -> bool, algorithm: string, input: string, commands: seq<FetchCommand>, rest: string)
    decreases |commands|
  {
    var (text, after) := WholeLine(input);
    && LineIs(readable, input, text, after)
    && if commands == [] then text == "" && rest == after
       else FetchText(algorithm, text, commands[0]) && FetchLines(readable, algorithm, after, commands[1..], rest)
  }

  ghost predicate PushLines(readable: string -> bool, input: string, commands: seq<PushCommand>, rest: string)
    decreases |commands|
  {
    var (text, after) := WholeLine(input);
    && LineIs(readable, input, text, after)
    && if commands == [] then text == "" && rest == after
       else PushText(text, commands[0]) && PushLines(readable, after, commands[1..], rest)
  }

  lemma FetchTextExactly(algorithm: string, text: string, command: FetchCommand)
    ensures ParseFetch(text, algorithm) == Ok(command) <==> FetchText(algorithm, text, command)
    ensures FetchText(algorithm, text, command) ==> text != ""
  {
    hide ParseFetch, Rendering.Hex, Rendering.ToLower;
    ParseFetchExact(text, algorithm, command);
  }

  lemma PushTextExactly(text: string, command: PushCommand)
    ensures ParsePush(text) == Ok(command) <==> PushText(text, command)
    ensures PushText(text, command) ==> text != ""
  {
    hide ParsePush, Printable;
    ParsePushExact(text, command);
  }

  /** The rest of a batch of fetches is read exactly as it is written. */
  lemma {:induction false} FetchLinesExactly(readable: string -> bool, algorithm: string, input: string,
                                             commands: seq<FetchCommand>, rest: string)
    ensures ReadFetches(readable, algorithm, input) == (rest, Ok(commands)) <==>
            FetchLines(readable, algorithm, input, commands, rest)
    decreases |input|
  {
    hide ReadLine, ParseFetch, FetchText, LineIs, WholeLine;
    var (text, after) := WholeLine(input);
    LineExactly(readable, input, text, after);
    var (line, left) := ReadLine(readable, input);
    if line.Text? {
      LineExactly(readable, input, line.text, left);
      LineFixed(readable, input, line.text, left);
      if line.text != "" {
        var first := ParseFetch(line.text, algorithm);
        if first.Ok? {
          FetchTextExactly(algorithm, line.text, first.value);
          if commands != [] {
            FetchLinesExactly(readable, algorithm, left, commands[1..], rest);
            assert commands == [commands[0]] + commands[1..];
          }
        }
        if commands != [] {
          FetchTextExactly(algorithm, line.text, commands[0]);
        }
      } else if commands != [] {
        FetchTextExactly(algorithm, line.text, commands[0]);
      }
    }
  }

  lemma LineFixed(readable: string -> bool, input: string, text: string, rest: string)
    requires LineIs(readable, input, text, rest)
    ensures WholeLine(input) == (text, rest)
  {
  }

  lemma {:induction false} PushLinesExactly(readable: string -> bool, input: string, commands: seq<PushCommand>, rest: string)
    ensures ReadPushes(readable, input) == (rest, Ok(commands)) <==> PushLines(readable, input, commands, rest)
    decreases |input|
  {
    hide ReadLine, ParsePush, PushText, LineIs, WholeLine;
    var (text, after) := WholeLine(input);
    LineExactly(readable, input, text, after);
    var (line, left) := ReadLine(readable, input);
    if line.Text? {
      LineExactly(readable, input, line.text, left);
      LineFixed(readable, input, line.text, left);
      if line.text != "" {
        var first := ParsePush(line.text);
        if first.Ok? {
          PushTextExactly(line.text, first.value);
          if commands != [] {
            PushLinesExactly(readable, left, commands[1..], rest);
            assert commands == [commands[0]] + commands[1..];
          }
        }
        if commands != [] {
          PushTextExactly(line.text, commands[0]);
        }
      } else if commands != [] {
        PushTextExactly(line.text, commands[0]);
      }
    }
  }

  /// Commands

  datatype Command =
    | Advertise
    | List
    | ListForPush
    | FetchAll(fetches: seq<FetchCommand>)
    | PushAll(pushes: seq<PushCommand>)

  /** The input starts with this command, and `rest` follows it. */
  ghost predicate Reads(env: Env, input: string, command: Command, rest: string) {
    var (text, after) := WholeLine(input);
    && LineIs(env.readable, input, text, after)
    && match command
       case Advertise => text == "capabilities" && rest == after
       case List => text == "list" && rest == after
       case ListForPush => text == "list for-push" && rest == after
       case FetchAll(fetches) =>
         && env.git.format.Ok? && fetches != [] && FetchText(env.git.format.value.Name(), text, fetches[0])
         && FetchLines(env.readable, env.git.format.value.Name(), after, fetches[1..], rest)
       case PushAll(pushes) =>
         && pushes != [] && PushText(text, pushes[0]) && PushLines(env.readable, after, pushes[1..], rest)
  }

  /** What carrying a command out does: the session, the block that is written, and the error that ends the run. */
  datatype Carried = Carried(session: Client.Session, event: Option<Event>, error: Option<HelperError>)

  function Failed<T>(r: Result<T, HelperError>): Option<HelperError> {
    if r.Ok? then None else Some(r.error)
  }

  function Execute(env: Env, s: Client.Session, command: Command): Carried {
    match command
    case Advertise => Carried(s, Some(Advertised), None)
    case List =>
      var (s', r) := Listing(env.world, env.git, env.remote, s);
      Carried(s', if r.Ok? then Some(Listed(r.value)) else None, Failed(r))
    case ListForPush =>
      var (s', r) := PushListing(env.world, env.git, env.remote.repository, s);
      Carried(s', if r.Ok? then Some(ListedForPush(r.value)) else None, Failed(r))
    case FetchAll(fetches) =>
      var (s', r) := FetchBatch(env.world, env.git, env.remote, s, fetches);
      Carried(s', if r.Ok? then Some(Fetched(fetches)) else None, Failed(r))
    case PushAll(pushes) =>
      var (s', r) := PushBatch(env.world, env.git, env.remote.repository, s, pushes);
      Carried(s', Some(if r.Ok? then Pushed(pushes) else PushFailed(pushes)), Failed(r))
  }

  function Written(event: Option<Event>): seq<Event> {
    if event.None? then [] else [event.value]
  }

  lemma FetchServed(env: Env, s: Client.Session, input: string, fetches: seq<FetchCommand>, rest: string)
    requires Reads(env, input, FetchAll(fetches), rest)
    ensures var (text, after) := WholeLine(input);
            var turn := Serve(env, s, text, after, true);
            var (s', r) := FetchBatch(env.world, env.git, env.remote, s, fetches);
            && turn.session == s' && turn.rest == rest
            && turn.events == (if r.Ok? then [Fetched(fetches)] else [])
            && turn.stop == (if r.Ok? then None else Some(Err(HelperFailed(r.error))))
  {
    hide ParseFetch, FetchText, FetchLines, ReadFetches, FetchBatch, WholeLine, LineIs;
    var (text, after) := WholeLine(input);
    var algorithm := env.git.format.value.Name();
    FetchTextExactly(algorithm, text, fetches[0]);
    FetchLinesExactly(env.readable, algorithm, after, fetches[1..], rest);
    FetchStarts(text, algorithm);
    assert fetches == [fetches[0]] + fetches[1..];
    assert Serve(env, s, text, after, true) == ServeFetch(env, s, text, after);
    var (s', r) := FetchBatch(env.world, env.git, env.remote, s, fetches);
    assert ServeFetch(env, s, text, after) ==
           if r.Err? then Fail(s', rest, HelperFailed(r.error)) else CommandLoop.Done(s', Fetched(fetches), rest);
  }

  lemma FetchStarts(text: string, algorithm: string)
    requires ParseFetch(text, algorithm).Ok?
    ensures StartsWith(text, FETCH) && text != "capabilities" && text != "list" && text != "list for-push"
  {
  }

  lemma PushStarts(text: string)
    requires ParsePush(text).Ok?
    ensures StartsWith(text, PUSH) && !StartsWith(text, FETCH)
    ensures text != "capabilities" && text != "list" && text != "list for-push"
  {
  }

  lemma PushServed(env: Env, s: Client.Session, input: string, pushes: seq<PushCommand>, rest: string)
    requires Reads(env, input, PushAll(pushes), rest)
    ensures var (text, after) := WholeLine(input);
            var turn := Serve(env, s, text, after, true);
            var (s', r) := PushBatch(env.world, env.git, env.remote.repository, s, pushes);
            && turn.session == s' && turn.rest == rest
            && turn.events == [if r.Ok? then Pushed(pushes) else PushFailed(pushes)]
            && turn.stop == (if r.Ok? then None else Some(Err(HelperFailed(r.error))))
  {
    hide ParsePush, PushText, PushLines, ReadPushes, PushBatch, WholeLine, LineIs;
    var (text, after) := WholeLine(input);
    PushTextExactly(text, pushes[0]);
    PushLinesExactly(env.readable, after, pushes[1..], rest);
    PushStarts(text);
    assert pushes == [pushes[0]] + pushes[1..];
    assert Serve(env, s, text, after, true) == ServePush(env, s, text, after);
    var (s', r) := PushBatch(env.world, env.git, env.remote.repository, s, pushes);
    assert ServePush(env, s, text, after) ==
           if r.Err? then Turn(s', [PushFailed(pushes)], rest, Some(Err(HelperFailed(r.error))))
           else CommandLoop.Done(s', Pushed(pushes), rest);
  }

  /** One command is served as it is carried out. */
  lemma ServeExecutes(env: Env, s: Client.Session, input: string, command: Command, rest: string)
    requires Reads(env, input, command, rest)
    ensures var (text, after) := WholeLine(input);
            var done := Execute(env, s, command);
            && text != ""
            && Serve(env, s, text, after, !command.Advertise?) ==
               Turn(done.session, Written(done.event), rest,
                    if done.error.None? then None else Some(Err(HelperFailed(done.error.value))))
  {
    hide FetchBatch, PushBatch, Listing, PushListing, FetchText, FetchLines, PushText, PushLines, WholeLine, LineIs;
    var (text, after) := WholeLine(input);
    match command
    case FetchAll(fetches) =>
      FetchTextExactly(env.git.format.value.Name(), text, fetches[0]);
      FetchServed(env, s, input, fetches, rest);
    case PushAll(pushes) =>
      PushTextExactly(text, pushes[0]);
      PushServed(env, s, input, pushes, rest);
    case Advertise =>
      assert Serve(env, s, text, after, false) == CommandLoop.Done(s, Advertised, after);
    case List =>
      assert |text| == 4;
      assert Serve(env, s, text, after, true) == ServeList(env, s, after);
      var (s', r) := Listing(env.world, env.git, env.remote, s);
      assert ServeList(env, s, after) ==
             if r.Err? then Fail(s', after, HelperFailed(r.error)) else CommandLoop.Done(s', Listed(r.value), after);
    case ListForPush =>
      assert text != "list" && text != "capabilities" by { assert |text| == 13; }
      assert Serve(env, s, text, after, true) == ServePushList(env, s, after);
      var (s', r) := PushListing(env.world, env.git, env.remote.repository, s);
      assert ServePushList(env, s, after) ==
             if r.Err? then Fail(s', after, HelperFailed(r.error)) else CommandLoop.Done(s', ListedForPush(r.value), after);
  }

  /** A command that is read in its place is carried out, its block written, and the run goes on or ends with its error. */
  lemma RunExecutes(env: Env, s: Client.Session, input: string, advertised: bool, command: Command, rest: string)
    requires Reads(env, input, command, rest) && (advertised <==> !command.Advertise?)
    ensures var ending, done := Run(env, s, input, advertised), Execute(env, s, command);
            if done.error.None? then
              && |rest| < |input|
              && ending == Following(Written(done.event), Run(env, done.session, rest, true))
            else
              ending == Ending(done.session, Written(done.event), rest, Err(HelperFailed(done.error.value)))
  {
    hide Run, ReadLine, Serve, Execute, FetchText, FetchLines, PushText, PushLines, WholeLine, Following;
    var (text, after) := WholeLine(input);
    RunUnfolds(env, s, input, advertised);
    LineExactly(env.readable, input, text, after);
    ServeExecutes(env, s, input, command, rest);
    RestShorter(env, s, input, command, rest);
  }

  lemma RestShorter(env: Env, s: Client.Session, input: string, command: Command, rest: string)
    requires Reads(env, input, command, rest)
    ensures |rest| < |input|
  {
    hide FetchText, PushText, ParseFetch, ParsePush, ReadLine, WholeLine;
    var (text, after) := WholeLine(input);
    WholeLineShorter(input);
    match command
    case FetchAll(fetches) => FetchLinesExactly(env.readable, env.git.format.value.Name(), after, fetches[1..], rest);
    case PushAll(pushes) => PushLinesExactly(env.readable, after, pushes[1..], rest);
    case _ =>
  }

  /// Where a run ends

  /** What is wrong with a line that is too long or cannot be read. */
  function LineFault(readable: string -> bool, input: string): LoopError {
    if readable(input[..ChunkLength(input)]) then LineTooLong else IoFailed
  }

  lemma FaultExactly(readable: string -> bool, input: string)
    requires input != "" && !LineIs(readable, input, WholeLine(input).0, WholeLine(input).1)
    ensures !ReadLine(readable, input).0.Text? && !ReadLine(readable, input).0.EndOfInput?
    ensures LineError(ReadLine(readable, input).0) == Err(LineFault(readable, input))
  {
    hide ChunkLength, Strip, WholeLine;
    LinesAreWhole(readable, input);
    WholeLineShorter(input);
  }

  /** Why these lines are no rest of a batch of fetches: the input ends, a line is at fault, or is no fetch. */
  ghost predicate FetchesBreak(readable: string -> bool, algorithm: string, input: string, error: LoopError)
    decreases |input|
  {
    if input == "" then error == UnexpectedEof
    else
      var (text, after) := WholeLine(input);
      if !LineIs(readable, input, text, after) then error == LineFault(readable, input)
      else
        && text != ""
        && if exists command :: FetchText(algorithm, text, command)
           then |after| < |input| && FetchesBreak(readable, algorithm, after, error)
           else error == MalformedFetch
  }

  ghost predicate PushesBreak(readable: string -> bool, input: string, error: LoopError)
    decreases |input|
  {
    if input == "" then error == UnexpectedEof
    else
      var (text, after) := WholeLine(input);
      if !LineIs(readable, input, text, after) then error == LineFault(readable, input)
      else
        && text != ""
        && if exists command :: PushText(text, command)
           then |after| < |input| && PushesBreak(readable, after, error)
           else error == MalformedPush
  }

  lemma MalformedExactly(algorithm: string, text: string)
    ensures ParseFetch(text, algorithm).Ok? <==> exists command :: FetchText(algorithm, text, command)
    ensures ParseFetch(text, algorithm).Err? ==> ParseFetch(text, algorithm) == Err(MalformedFetch)
    ensures ParsePush(text).Ok? <==> exists command :: PushText(text, command)
    ensures ParsePush(text).Err? ==> ParsePush(text) == Err(MalformedPush)
  {
    hide FetchText, PushText, ObjectFromHex;
    if ParseFetch(text, algorithm).Ok? {
      FetchTextExactly(algorithm, text, ParseFetch(text, algorithm).value);
    }
    if command :| FetchText(algorithm, text, command) {
      FetchTextExactly(algorithm, text, command);
    }
    if ParsePush(text).Ok? {
      PushTextExactly(text, ParsePush(text).value);
    }
    if command :| PushText(text, command) {
      PushTextExactly(text, command);
    }
  }

  lemma {:induction false} FetchesBreakExactly(readable: string -> bool, algorithm: string, input: string, error: LoopError)
    ensures ReadFetches(readable, algorithm, input).1 == Err(error) <==> FetchesBreak(readable, algorithm, input, error)
    decreases |input|
  {
    hide ReadLine, ParseFetch, ParsePush, FetchText, PushText, LineIs, WholeLine, LineFault;
    var (text, after) := WholeLine(input);
    LineExactly(readable, input, text, after);
    if input != "" {
      WholeLineShorter(input);
      if LineIs(readable, input, text, after) {
        MalformedExactly(algorithm, text);
        FetchesBreakExactly(readable, algorithm, after, error);
      } else {
        FaultExactly(readable, input);
      }
    }
  }

  lemma {:induction false} PushesBreakExactly(readable: string -> bool, input: string, error: LoopError)
    ensures ReadPushes(readable, input).1 == Err(error) <==> PushesBreak(readable, input, error)
    decreases |input|
  {
    hide ReadLine, ParseFetch, ParsePush, FetchText, PushText, LineIs, WholeLine, LineFault;
    var (text, after) := WholeLine(input);
    LineExactly(readable, input, text, after);
    if input != "" {
      WholeLineShorter(input);
      if LineIs(readable, input, text, after) {
        MalformedExactly("sha1", text);
        PushesBreakExactly(readable, after, error);
      } else {
        FaultExactly(readable, input);
      }
    }
  }

  /** What is wrong with a line that is no command in its place, or with the lines that follow it. */
  ghost predicate Breaks(env: Env, text: string, after: string, advertised: bool, error: LoopError) {
    if !advertised then error == CapabilitiesRequired
    else if text == "capabilities" then error == DuplicateCapabilities
    else if StartsWith(text, "fetch ") then
      if env.git.format.Err? then error == HelperFailed(GitFailed(env.git.format.error))
      else
        var algorithm := env.git.format.value.Name();
        if exists command :: FetchText(algorithm, text, command) then FetchesBreak(env.readable, algorithm, after, error)
        else error == MalformedFetch
    else if StartsWith(text, "push ") then
      if exists command :: PushText(text, command) then PushesBreak(env.readable, after, error) else error == MalformedPush
    else error == UnsupportedCommand
  }

  /**
   Where no command can be read in its place the run ends, having sent and written nothing more: well, at the end
   of the input or at a blank line, and otherwise with just the error of what stands there.
   */
  lemma RunStops(env: Env, s: Client.Session, input: string, advertised: bool)
    requires forall command, rest :: Reads(env, input, command, rest) ==> (advertised <==> command.Advertise?)
    ensures var ending := Run(env, s, input, advertised);
            var (text, after) := WholeLine(input);
            var line := LineIs(env.readable, input, text, after);
            && ending.session == s && ending.events == []
            && (ending.result.Ok? <==> input == "" || (line && text == ""))
            && (input != "" && !line ==> ending.result == Err(LineFault(env.readable, input)))
            && (line && text != "" ==> ending.result.Err? && Breaks(env, text, after, advertised, ending.result.error))
  {
    hide Run, ReadLine, Listing, PushListing, FetchBatch, PushBatch, ReadFetches, ReadPushes, ParseFetch, ParsePush, WholeLine,
         FetchText, FetchLines, PushText, PushLines, LineIs, LineFault, Breaks;
    RunUnfolds(env, s, input, advertised);
    var (text, after) := WholeLine(input);
    LineExactly(env.readable, input, text, after);
    if input != "" {
      if LineIs(env.readable, input, text, after) {
        if text != "" {
          NothingServed(env, s, input, text, after, advertised);
        }
      } else {
        FaultExactly(env.readable, input);
      }
    }
  }

  lemma NothingServed(env: Env, s: Client.Session, input: string, text: string, after: string, advertised: bool)
    requires forall command, rest :: Reads(env, input, command, rest) ==> (advertised <==> command.Advertise?)
    requires WholeLine(input) == (text, after) && LineIs(env.readable, input, text, after)
    ensures var turn := Serve(env, s, text, after, advertised);
            && turn.session == s && turn.events == [] && turn.stop.Some? && turn.stop.value.Err?
            && Breaks(env, text, after, advertised, turn.stop.value.error)
  {
    hide Listing, PushListing, FetchBatch, PushBatch, ReadFetches, ReadPushes, ParseFetch, ParsePush, WholeLine,
         FetchText, FetchLines, PushText, PushLines, LineIs, FetchesBreak, PushesBreak;
    if text == "capabilities" && !advertised {
      NotAdvertised(env, input, after);
    } else if advertised {
      assert !Reads(env, input, List, after) && !Reads(env, input, ListForPush, after);
      if StartsWith(text, FETCH) && env.git.format.Ok? {
        var algorithm := env.git.format.value.Name();
        var first, batch := ParseFetch(text, algorithm), ReadFetches(env.readable, algorithm, after);
        MalformedExactly(algorithm, text);
        if first.Ok? && batch.1.Ok? {
          FetchIsRead(env, input, first.value, batch.1.value, batch.0);
        } else if batch.1.Err? {
          FetchesBreakExactly(env.readable, algorithm, after, batch.1.error);
        }
      } else if StartsWith(text, PUSH) {
        var first, batch := ParsePush(text), ReadPushes(env.readable, after);
        MalformedExactly("sha1", text);
        if first.Ok? && batch.1.Ok? {
          PushIsRead(env, input, first.value, batch.1.value, batch.0);
        } else if batch.1.Err? {
          PushesBreakExactly(env.readable, after, batch.1.error);
        }
      }
    }
  }

  lemma NotAdvertised(env: Env, input: string, after: string)
    requires WholeLine(input) == ("capabilities", after) && LineIs(env.readable, input, "capabilities", after)
    ensures Reads(env, input, Advertise, after)
  {
    hide WholeLine, LineIs;
  }

  lemma FetchIsRead(env: Env, input: string, first: FetchCommand, more: seq<FetchCommand>, rest: string)
    requires var (text, after) := WholeLine(input);
             && LineIs(env.readable, input, text, after) && env.git.format.Ok?
             && ParseFetch(text, env.git.format.value.Name()) == Ok(first)
             && ReadFetches(env.readable, env.git.format.value.Name(), after) == (rest, Ok(more))
    ensures Reads(env, input, FetchAll([first] + more), rest)
  {
    hide ReadFetches, ParseFetch, WholeLine, FetchText, FetchLines, LineIs;
    var (text, after) := WholeLine(input);
    FetchTextExactly(env.git.format.value.Name(), text, first);
    FetchLinesExactly(env.readable, env.git.format.value.Name(), after, more, rest);
    assert ([first] + more)[1..] == more;
  }

  lemma PushIsRead(env: Env, input: string, first: PushCommand, more: seq<PushCommand>, rest: string)
    requires var (text, after) := WholeLine(input);
             && LineIs(env.readable, input, text, after)
             && ParsePush(text) == Ok(first) && ReadPushes(env.readable, after) == (rest, Ok(more))
    ensures Reads(env, input, PushAll([first] + more), rest)
  {
    hide ReadPushes, ParsePush, WholeLine, PushText, PushLines, LineIs;
    var (text, after) := WholeLine(input);
    PushTextExactly(text, first);
    PushLinesExactly(env.readable, after, more, rest);
    assert ([first] + more)[1..] == more;
  }
}
