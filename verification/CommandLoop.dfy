/** The line-oriented remote helper: crates/styrene-git-remote/src/command_loop.rs. */
module CommandLoop {
  import opened Basics
  import opened Client
  import opened Core
  import opened Ipc
  import opened RemoteOperations
  import opened Splitting
  import opened Text
  import Rendering

  const MAX_COMMAND_LINE_BYTES := 4096

  datatype LoopError =
    | CapabilitiesRequired
    | DuplicateCapabilities
    | UnsupportedCommand
    | MalformedFetch
    | MalformedPush
    | UnexpectedEof
    | LineTooLong
    | HelperFailed(helperError: HelperError)
    | IoFailed

  /// Lines

  datatype Line = EndOfInput | Text(text: string) | TooLong | Unreadable

  /** Up to and including the first newline, but no more than two bytes past the limit. */
  function ChunkLength(input: string): (n: nat)
    ensures n <= |input| && (input != "" ==> n > 0)
  {
    var limit := MAX_COMMAND_LINE_BYTES + 2;
    var available := if |input| <= limit then |input| else limit;
    var newline := Find(input[..available], '\n');
    if newline.Some? then newline.value + 1 else available
  }

  function Strip(chunk: string): string {
    if !EndsWith(chunk, "\n") then chunk
    else
      var line := chunk[..|chunk| - 1];
      if EndsWith(line, "\r") then line[..|line| - 1] else line
  }

  /** `readable` says which chunks are read without an I/O error and are UTF-8. */
  function ReadLine(readable: string -> bool, input: string): (r: (Line, string))
    ensures |r.1| <= |input| && (r.0.Text? ==> |r.1| < |input|)
  {
    var n := ChunkLength(input);
    if n == 0 then (EndOfInput, input)
    else
      var line := Strip(input[..n]);
      (if !readable(input[..n]) then Unreadable
       else if |line| > MAX_COMMAND_LINE_BYTES then TooLong
       else Text(line),
       input[n..])
  }

  /// Commands

  /** `GitObjectId::from_hex` */
  function ObjectFromHex(algorithm: string, value: string): Option<GitObjectId> {
    if |value| % 2 == 1 then None
    else
      var bytes := Rendering.HexDecode(value);
      if bytes.None? then None
      else
        var o := GitObjectId(algorithm, bytes.value);
        if o.Valid() then Some(o) else None
  }

  const FETCH := "fetch "
  const PUSH := "push "

  function ParseFetch(line: string, algorithm: string): Result<FetchCommand, LoopError> {
    if !StartsWith(line, FETCH) then Err(MalformedFetch)
    else
      var cut := SplitOnce(line[|FETCH|..], ' ');
      if cut.None? then Err(MalformedFetch)
      else
        var (hex, reference) := cut.value;
        if hex == "" || reference == "" || ' ' in reference then Err(MalformedFetch)
        else
          var o := ObjectFromHex(algorithm, hex);
          if o.None? then Err(MalformedFetch) else Ok(FetchCommand(o.value, reference))
  }

  /** A leading `+` asks for force. */
  function TakeForce(fields: string): (bool, string) {
    if fields != "" && fields[0] == '+' then (true, fields[1..]) else (false, fields)
  }

  function ParseRefspec(force: bool, pair: string): Result<PushCommand, LoopError> {
    var cut := SplitOnce(pair, ':');
    if cut.None? then Err(MalformedPush)
    else
      var (source, destination) := cut.value;
      if destination == "" || ':' in destination then Err(MalformedPush)
      else Ok(PushCommand(if source == "" then None else Some(source), destination, force))
  }

  function ParsePush(line: string): Result<PushCommand, LoopError> {
    if !StartsWith(line, PUSH) then Err(MalformedPush)
    else
      var fields := line[|PUSH|..];
      if fields == "" || ' ' in fields then Err(MalformedPush)
      else
        var (force, pair) := TakeForce(fields);
        ParseRefspec(force, pair)
  }

  /** `commands`, followed by what `rest` brings. */
  function Prepend<T>(commands: seq<T>, rest: Result<seq<T>, LoopError>): Result<seq<T>, LoopError> {
    if rest.Ok? then Ok(commands + rest.value) else rest
  }

  /** The rest of a batch, to its empty line. */
  function ReadFetches(readable: string -> bool, algorithm: string, input: string): (r: (string, Result<seq<FetchCommand>, LoopError>))
    ensures |r.0| <= |input|
    decreases |input|
  {
    var (line, rest) := ReadLine(readable, input);
    match line
    case EndOfInput => (rest, Err(UnexpectedEof))
    case TooLong => (rest, Err(LineTooLong))
    case Unreadable => (rest, Err(IoFailed))
    case Text(text) =>
      if text == "" then (rest, Ok([]))
      else
        var command := ParseFetch(text, algorithm);
        if command.Err? then (rest, Err(command.error))
        else
          var (end, more) := ReadFetches(readable, algorithm, rest);
          (end, Prepend([command.value], more))
  }

  function ReadPushes(readable: string -> bool, input: string): (r: (string, Result<seq<PushCommand>, LoopError>))
    ensures |r.0| <= |input|
    decreases |input|
  {
    var (line, rest) := ReadLine(readable, input);
    match line
    case EndOfInput => (rest, Err(UnexpectedEof))
    case TooLong => (rest, Err(LineTooLong))
    case Unreadable => (rest, Err(IoFailed))
    case Text(text) =>
      if text == "" then (rest, Ok([]))
      else
        var command := ParsePush(text);
        if command.Err? then (rest, Err(command.error))
        else
          var (end, more) := ReadPushes(readable, rest);
          (end, Prepend([command.value], more))
  }

  /// Output

  /** What a block of output reports. */
  datatype Event =
    | Advertised
    | Listed(listing: RefListing)
    | ListedForPush(pushListing: PushRefListing)
    | Fetched(fetches: seq<FetchCommand>)
    | Pushed(commands: seq<PushCommand>)
    | PushFailed(commands: seq<PushCommand>)

  function EntryLines(refs: seq<RefTarget>): (lines: seq<string>)
    ensures |lines| == |refs|
    ensures forall i :: 0 <= i < |refs| ==> lines[i] == Rendering.Hex(refs[i].target.bytes) + " " + refs[i].name
  {
    seq(|refs|, i requires 0 <= i < |refs| => Rendering.Hex(refs[i].target.bytes) + " " + refs[i].name)
  }

  function StatusLines(commands: seq<PushCommand>, ok: bool): (lines: seq<string>)
    ensures |lines| == |commands|
    ensures forall i :: 0 <= i < |commands| ==>
              lines[i] == if ok then "ok " + commands[i].destination
                          else "error " + commands[i].destination + " atomic push failed"
  {
    seq(|commands|, i requires 0 <= i < |commands| =>
      if ok then "ok " + commands[i].destination else "error " + commands[i].destination + " atomic push failed")
  }

  function HeadLines(head: Option<string>): seq<string> {
    if head.None? then [] else ["@" + head.value + " HEAD"]
  }

  function BlockLines(event: Event): seq<string> {
    match event
    case Advertised => ["fetch", "push"]
    case Listed(listing) => EntryLines(listing.refs) + HeadLines(listing.head)
    case ListedForPush(listing) => EntryLines(listing.refs)
    case Fetched(_) => []
    case Pushed(commands) => StatusLines(commands, true)
    case PushFailed(commands) => StatusLines(commands, false)
  }

  function Lines(lines: seq<string>): string {
    if lines == [] then "" else Lines(lines[..|lines| - 1]) + lines[|lines| - 1] + "\n"
  }

  /** Every block ends with a blank line. */
  function Block(event: Event): string {
    Lines(BlockLines(event)) + "\n"
  }

  function Render(events: seq<Event>): string {
    if events == [] then "" else Render(events[..|events| - 1]) + Block(events[|events| - 1])
  }

  /// The loop

  datatype Env = Env(world: World, git: Git, remote: Remote, readable: string -> bool)

  /** What one command does: the session, what is written, the input left, and whether the loop stops. */
  datatype Turn = Turn(session: Session, events: seq<Event>, rest: string, stop: Option<Result<(), LoopError>>)

  function Fail(s: Session, rest: string, error: LoopError): Turn {
    Turn(s, [], rest, Some(Err(error)))
  }

  function Done(s: Session, event: Event, rest: string): Turn {
    Turn(s, [event], rest, None)
  }

  function ServeList(env: Env, s: Session, rest: string): Turn {
    var (s', listing) := Listing(env.world, env.git, env.remote, s);
    if listing.Err? then Fail(s', rest, HelperFailed(listing.error)) else Done(s', Listed(listing.value), rest)
  }

  function ServePushList(env: Env, s: Session, rest: string): Turn {
    var (s', listing) := PushListing(env.world, env.git, env.remote.repository, s);
    if listing.Err? then Fail(s', rest, HelperFailed(listing.error)) else Done(s', ListedForPush(listing.value), rest)
  }

  function ServeFetch(env: Env, s: Session, text: string, rest: string): (turn: Turn)
    ensures |turn.rest| <= |rest|
  {
    if env.git.format.Err? then Fail(s, rest, HelperFailed(GitFailed(env.git.format.error)))
    else
      var algorithm := env.git.format.value.Name();
      var first := ParseFetch(text, algorithm);
      if first.Err? then Fail(s, rest, first.error)
      else
        var (end, more) := ReadFetches(env.readable, algorithm, rest);
        if more.Err? then Fail(s, end, more.error)
        else
          var commands := [first.value] + more.value;
          var (s', fetched) := FetchBatch(env.world, env.git, env.remote, s, commands);
          if fetched.Err? then Fail(s', end, HelperFailed(fetched.error)) else Done(s', Fetched(commands), end)
  }

  function ServePush(env: Env, s: Session, text: string, rest: string): (turn: Turn)
    ensures |turn.rest| <= |rest|
  {
    var first := ParsePush(text);
    if first.Err? then Fail(s, rest, first.error)
    else
      var (end, more) := ReadPushes(env.readable, rest);
      if more.Err? then Fail(s, end, more.error)
      else
        var commands := [first.value] + more.value;
        var (s', pushed) := PushBatch(env.world, env.git, env.remote.repository, s, commands);
        if pushed.Err? then Turn(s', [PushFailed(commands)], end, Some(Err(HelperFailed(pushed.error))))
        else Done(s', Pushed(commands), end)
  }

  function Serve(env: Env, s: Session, text: string, rest: string, advertised: bool): (turn: Turn)
    ensures |turn.rest| <= |rest|
  {
    if !advertised && text != "capabilities" then Fail(s, rest, CapabilitiesRequired)
    else if text == "capabilities" then
      if advertised then Fail(s, rest, DuplicateCapabilities) else Done(s, Advertised, rest)
    else if text == "list" then ServeList(env, s, rest)
    else if text == "list for-push" then ServePushList(env, s, rest)
    else if StartsWith(text, FETCH) then ServeFetch(env, s, text, rest)
    else if StartsWith(text, PUSH) then ServePush(env, s, text, rest)
    else Fail(s, rest, UnsupportedCommand)
  }

  /** How a loop ends: the session, what was written, the input left, and the result. */
  datatype Ending = Ending(session: Session, events: seq<Event>, rest: string, result: Result<(), LoopError>)

  function Run(env: Env, s: Session, input: string, advertised: bool): Ending
    decreases |input|
  {
    var (line, rest) := ReadLine(env.readable, input);
    match line
    case EndOfInput => Ending(s, [], rest, Ok(()))
    case TooLong => Ending(s, [], rest, Err(LineTooLong))
    case Unreadable => Ending(s, [], rest, Err(IoFailed))
    case Text(text) =>
      if text == "" then Ending(s, [], rest, Ok(()))
      else
        var turn := Serve(env, s, text, rest, advertised);
        if turn.stop.Some? then Ending(turn.session, turn.events, turn.rest, turn.stop.value)
        else
          Following(turn.events, Run(env, turn.session, turn.rest, true))
  }

  /** What was written before, and how it ended. */
  function Following(events: seq<Event>, ending: Ending): Ending {
    ending.(events := events + ending.events)
  }

  /// The program

  class Input {
    const readable: string -> bool
    var remaining: string

    constructor (text: string, readable: string -> bool)
      ensures remaining == text && this.readable == readable
    {
      remaining, this.readable := text, readable;
    }

    /** `read_line` */
    method NextLine() returns (line: Line)
      modifies this
      ensures (line, remaining) == ReadLine(readable, old(remaining))
    {
      var n := ChunkLength(remaining);
      if n == 0 {
        return EndOfInput;
      }
      var chunk := remaining[..n];
      remaining := remaining[n..];
      if !readable(chunk) {
        return Unreadable;
      }
      var text := chunk;
      if EndsWith(text, "\n") {
        text := text[..|text| - 1];
        if EndsWith(text, "\r") {
          text := text[..|text| - 1];
        }
      }
      if |text| > MAX_COMMAND_LINE_BYTES {
        return TooLong;
      }
      return Text(text);
    }
  }

  class Output {
    var text: string

    constructor ()
      ensures text == ""
    {
      text := "";
    }

    method Write(s: string)
      modifies this
      ensures text == old(text) + s
    {
      text := text + s;
    }

    /** One line each, and the blank line that ends a block. */
    method WriteBlock(lines: seq<string>)
      modifies this
      ensures text == old(text) + Lines(lines) + "\n"
    {
      for i := 0 to |lines|
        invariant text == old(text) + Lines(lines[..i])
      {
        assert lines[..i + 1][..i] == lines[..i];
        Write(lines[i] + "\n");
      }
      assert lines[..|lines|] == lines;
      Write("\n");
    }
  }

  lemma PrependNothing<T>(rest: Result<seq<T>, LoopError>)
    ensures Prepend([], rest) == rest
  {
    if rest.Ok? {
      assert [] + rest.value == rest.value;
    }
  }

  lemma PrependOne<T>(commands: seq<T>, command: T, rest: Result<seq<T>, LoopError>)
    ensures Prepend(commands, Prepend([command], rest)) == Prepend(commands + [command], rest)
  {
    if rest.Ok? {
      assert commands + ([command] + rest.value) == commands + [command] + rest.value;
    }
  }

  method CollectFetches(input: Input, algorithm: string) returns (r: Result<seq<FetchCommand>, LoopError>)
    modifies input
    ensures (input.remaining, r) == ReadFetches(input.readable, algorithm, old(input.remaining))
  {
    hide ReadLine, ParseFetch, Prepend;
    var commands: seq<FetchCommand> := [];
    ghost var start := ReadFetches(input.readable, algorithm, input.remaining);
    PrependNothing(start.1);
    while true
      invariant start.0 == ReadFetches(input.readable, algorithm, input.remaining).0
      invariant start.1 == Prepend(commands, ReadFetches(input.readable, algorithm, input.remaining).1)
      decreases |input.remaining|
    {
      var line := input.NextLine();
      if !line.Text? || line.text == "" {
        PrependEnds(commands);
        return match line case EndOfInput => Err(UnexpectedEof) case TooLong => Err(LineTooLong)
                          case Unreadable => Err(IoFailed) case Text(_) => Ok(commands);
      }
      var command := ParseFetch(line.text, algorithm);
      if command.Err? {
        PrependEnds(commands);
        return Err(command.error);
      }
      PrependOne(commands, command.value, ReadFetches(input.readable, algorithm, input.remaining).1);
      commands := commands + [command.value];
    }
  }

  lemma PrependEnds<T>(commands: seq<T>)
    ensures forall e :: Prepend<T>(commands, Err(e)) == Err(e)
    ensures Prepend(commands, Ok([])) == Ok(commands)
  {
    assert commands + [] == commands;
  }

  method CollectPushes(input: Input) returns (r: Result<seq<PushCommand>, LoopError>)
    modifies input
    ensures (input.remaining, r) == ReadPushes(input.readable, old(input.remaining))
  {
    hide ReadLine, ParsePush, Prepend;
    var commands: seq<PushCommand> := [];
    ghost var start := ReadPushes(input.readable, input.remaining);
    PrependNothing(start.1);
    while true
      invariant start.0 == ReadPushes(input.readable, input.remaining).0
      invariant start.1 == Prepend(commands, ReadPushes(input.readable, input.remaining).1)
      decreases |input.remaining|
    {
      var line := input.NextLine();
      if !line.Text? || line.text == "" {
        PrependEnds(commands);
        return match line case EndOfInput => Err(UnexpectedEof) case TooLong => Err(LineTooLong)
                          case Unreadable => Err(IoFailed) case Text(_) => Ok(commands);
      }
      var command := ParsePush(line.text);
      if command.Err? {
        PrependEnds(commands);
        return Err(command.error);
      }
      PrependOne(commands, command.value, ReadPushes(input.readable, input.remaining).1);
      commands := commands + [command.value];
    }
  }

  lemma RenderOne(event: Event)
    ensures Render([event]) == Block(event)
  {
    assert [event][..0] == [];
  }

  lemma RenderNone(before: string)
    ensures before + Render([]) == before
  {
  }

  lemma RenderLast(events: seq<Event>)
    requires events != []
    ensures Render(events) == Render(events[..|events| - 1]) + Block(events[|events| - 1])
  {
  }

  lemma {:induction false} RenderConcat(a: seq<Event>, b: seq<Event>)
    ensures Render(a + b) == Render(a) + Render(b)
  {
    hide Block, Render;
    if b == [] {
      assert a + b == a;
      RenderNone(Render(a));
    } else {
      var n := |b| - 1;
      assert (a + b)[..|a + b| - 1] == a + b[..n] && (a + b)[|a + b| - 1] == b[n];
      RenderConcat(a, b[..n]);
      RenderLast(a + b);
      RenderLast(b);
    }
  }

  function LineError(line: Line): Result<(), LoopError>
    requires !line.Text?
  {
    match line case TooLong => Err(LineTooLong) case Unreadable => Err(IoFailed) case EndOfInput => Ok(())
  }

  lemma RunUnfolds(env: Env, s: Session, input: string, advertised: bool)
    ensures var (line, rest) := ReadLine(env.readable, input);
            Run(env, s, input, advertised) ==
            if !line.Text? then Ending(s, [], rest, LineError(line))
            else if line.text == "" then Ending(s, [], rest, Ok(()))
            else
              var turn := Serve(env, s, line.text, rest, advertised);
              if turn.stop.Some? then Ending(turn.session, turn.events, turn.rest, turn.stop.value)
              else Following(turn.events, Run(env, turn.session, turn.rest, true))
  {
    hide ReadLine, Serve;
  }

  lemma FollowingMore(events: seq<Event>, more: seq<Event>, ending: Ending)
    ensures Following(events, Following(more, ending)) == Following(events + more, ending)
    ensures Following([], ending) == ending
  {
    assert events + (more + ending.events) == events + more + ending.events;
    assert [] + ending.events == ending.events;
  }

  lemma FollowingStop(events: seq<Event>, ending: Ending)
    ensures Following(events, ending) == Ending(ending.session, events + ending.events, ending.rest, ending.result)
    ensures events + [] == events
  {
  }

  class Helper {
    const input: Input
    const output: Output
    const session: RemoteSession

    constructor (input: Input, output: Output, session: RemoteSession)
      ensures this.input == input && this.output == output && this.session == session
    {
      this.input, this.output, this.session := input, output, session;
    }

    function TheEnv(): Env {
      Env(session.client.TheWorld(), session.git, session.remote, input.readable)
    }

    /** The state is the one `turn` describes, `before` having been written already. */
    predicate At(turn: Turn, before: string)
      reads input, output, session.client, session.client.transport
    {
      && session.client.Valid()
      && session.client.Contents() == turn.session
      && input.remaining == turn.rest
      && output.text == before + Render(turn.events)
    }

    method RunFetches(text: string) returns (stop: Option<Result<(), LoopError>>)
      requires session.client.Valid()
      modifies input, output, session.client, session.client.transport
      ensures var turn := ServeFetch(TheEnv(), old(session.client.Contents()), text, old(input.remaining));
              At(turn, old(output.text)) && stop == turn.stop
    {
      hide ReadFetches, ParseFetch, FetchBatch, Render, Lines;
      RenderNone(output.text);
      if session.git.format.Err? {
        return Some(Err(HelperFailed(GitFailed(session.git.format.error))));
      }
      var algorithm := session.git.format.value.Name();
      var first := ParseFetch(text, algorithm);
      if first.Err? {
        return Some(Err(first.error));
      }
      var more := CollectFetches(input, algorithm);
      if more.Err? {
        return Some(Err(more.error));
      }
      var commands := [first.value] + more.value;
      var fetched := session.RunFetch(commands);
      if fetched.Err? {
        return Some(Err(HelperFailed(fetched.error)));
      }
      output.WriteBlock([]);
      RenderOne(Fetched(commands));
      return None;
    }

    method RunPushes(text: string) returns (stop: Option<Result<(), LoopError>>)
      requires session.client.Valid()
      modifies input, output, session.client, session.client.transport
      ensures var turn := ServePush(TheEnv(), old(session.client.Contents()), text, old(input.remaining));
              At(turn, old(output.text)) && stop == turn.stop
    {
      hide ReadPushes, ParsePush, PushBatch, Render, Lines, StatusLines;
      RenderNone(output.text);
      var first := ParsePush(text);
      if first.Err? {
        return Some(Err(first.error));
      }
      var more := CollectPushes(input);
      if more.Err? {
        return Some(Err(more.error));
      }
      var commands := [first.value] + more.value;
      var pushed := session.RunPush(commands);
      if pushed.Err? {
        output.WriteBlock(StatusLines(commands, false));
        RenderOne(PushFailed(commands));
        return Some(Err(HelperFailed(pushed.error)));
      }
      output.WriteBlock(StatusLines(commands, true));
      RenderOne(Pushed(commands));
      return None;
    }

    method RunListing(forPush: bool) returns (stop: Option<Result<(), LoopError>>)
      requires session.client.Valid()
      modifies output, session.client, session.client.transport
      ensures var turn := if forPush then ServePushList(TheEnv(), old(session.client.Contents()), input.remaining)
                          else ServeList(TheEnv(), old(session.client.Contents()), input.remaining);
              At(turn, old(output.text)) && stop == turn.stop
    {
      hide Listing, PushListing, Render, Lines, EntryLines, HeadLines;
      RenderNone(output.text);
      if forPush {
        var listing := session.ListForPush();
        if listing.Err? {
          return Some(Err(HelperFailed(listing.error)));
        }
        output.WriteBlock(EntryLines(listing.value.refs));
        RenderOne(ListedForPush(listing.value));
      } else {
        var listing := session.List();
        if listing.Err? {
          return Some(Err(HelperFailed(listing.error)));
        }
        output.WriteBlock(EntryLines(listing.value.refs) + HeadLines(listing.value.head));
        RenderOne(Listed(listing.value));
      }
      return None;
    }

    method RunCommand(text: string, advertised: bool) returns (stop: Option<Result<(), LoopError>>)
      requires session.client.Valid()
      modifies input, output, session.client, session.client.transport
      ensures var turn := Serve(TheEnv(), old(session.client.Contents()), text, old(input.remaining), advertised);
              At(turn, old(output.text)) && stop == turn.stop
    {
      hide ServeFetch, ServePush, ServeList, ServePushList;
      if !advertised && text != "capabilities" {
        return Some(Err(CapabilitiesRequired));
      }
      if text == "capabilities" {
        if advertised {
          return Some(Err(DuplicateCapabilities));
        }
        output.WriteBlock(["fetch", "push"]);
        RenderOne(Advertised);
        return None;
      }
      if text == "list" || text == "list for-push" {
        stop := RunListing(text == "list for-push");
      } else if StartsWith(text, FETCH) {
        stop := RunFetches(text);
      } else if StartsWith(text, PUSH) {
        stop := RunPushes(text);
      } else {
        return Some(Err(UnsupportedCommand));
      }
    }

    /** `run_command_loop` */
    method RunCommandLoop() returns (r: Result<(), LoopError>)
      requires session.client.Valid()
      modifies input, output, session.client, session.client.transport
      ensures var ending := Run(TheEnv(), old(session.client.Contents()), old(input.remaining), false);
              && session.client.Contents() == ending.session
              && input.remaining == ending.rest
              && output.text == old(output.text) + Render(ending.events)
              && r == ending.result
    {
      hide ReadLine, Serve, Render, Run, Following;
      RenderNone(output.text);
      ghost var ending := Run(TheEnv(), session.client.Contents(), input.remaining, false);
      ghost var events: seq<Event> := [];
      FollowingMore([], [], ending);
      var advertised := false;
      while true
        invariant session.client.Valid()
        invariant ending == Following(events, Run(TheEnv(), session.client.Contents(), input.remaining, advertised))
        invariant output.text == old(output.text) + Render(events)
        decreases |input.remaining|
      {
        ghost var s, remaining := session.client.Contents(), input.remaining;
        RunUnfolds(TheEnv(), s, remaining, advertised);
        var line := input.NextLine();
        if !line.Text? {
          FollowingStop(events, Ending(s, [], input.remaining, LineError(line)));
          return LineError(line);
        }
        if line.text == "" {
          FollowingStop(events, Ending(s, [], input.remaining, Ok(())));
          return Ok(());
        }
        ghost var turn := Serve(TheEnv(), s, line.text, input.remaining, advertised);
        var stop := RunCommand(line.text, advertised);
        RenderConcat(events, turn.events);
        if stop.Some? {
          FollowingStop(events, Ending(turn.session, turn.events, turn.rest, turn.stop.value));
          return stop.value;
        }
        FollowingMore(events, turn.events, Run(TheEnv(), turn.session, turn.rest, true));
        events := events + turn.events;
        advertised := true;
      }
    }
  }
}
