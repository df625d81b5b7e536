/** Input is taken in whole lines, output is written in blocks that can be read back. */
module Framing {
  import opened Basics
  import opened CommandLoop
  import opened Core
  import opened Ipc
  import opened RemoteOperations
  import opened Splitting
  import opened Text
  import Batches
  import Client
  import Refs
  import Rendering
  import Sessions
  import Urls

  /// Input

  function StripReturn(line: string): string {
    if EndsWith(line, "\r") then line[..|line| - 1] else line
  }

  /** The first line, however long, and what follows it. */
  function WholeLine(input: string): (string, string) {
    var newline := Find(input, '\n');
    if newline.None? then (input, "") else (StripReturn(input[..newline.value]), input[newline.value + 1..])
  }

  lemma FindWithin(input: string, c: char, n: nat)
    requires n <= |input|
    ensures var all, some := Find(input, c), Find(input[..n], c);
            some == if all.Some? && all.value < n then all else None
  {
    var all, some := Find(input, c), Find(input[..n], c);
    assert forall i :: 0 <= i < n ==> input[..n][i] == input[i];
    if all.Some? {
      assert forall i :: 0 <= i < all.value ==> input[..all.value][i] == input[i];
    }
    if some.Some? {
      assert forall i :: 0 <= i < some.value ==> input[..n][..some.value][i] == input[i];
    }
  }

  lemma StripIs(line: string)
    requires '\n' !in line
    ensures Strip(line + "\n") == StripReturn(line) && Strip(line) == line
  {
    var chunk := line + "\n";
    assert chunk[..|chunk| - 1] == line && chunk[|chunk| - 1..] == "\n";
    assert line != "" ==> line[|line| - 1] in line;
  }

  lemma ChunkIs(input: string)
    ensures var limit := MAX_COMMAND_LINE_BYTES + 2;
            var newline := Find(input, '\n');
            ChunkLength(input) ==
            if newline.Some? && newline.value < limit then newline.value + 1
            else if |input| <= limit then |input|
            else limit
  {
    var limit := MAX_COMMAND_LINE_BYTES + 2;
    FindWithin(input, '\n', if |input| <= limit then |input| else limit);
  }

  /**
   A command is one whole input line: a line within the limit is read and nothing of the next one, and a
   longer one is an error and never cut in two.
   */
  lemma LinesAreWhole(readable: string -> bool, input: string)
    requires input != ""
    ensures var (line, rest) := ReadLine(readable, input);
            var (text, after) := WholeLine(input);
            && line == (if !readable(input[..ChunkLength(input)]) then Unreadable
                        else if |text| > MAX_COMMAND_LINE_BYTES then TooLong
                        else Text(text))
            && (|text| <= MAX_COMMAND_LINE_BYTES ==> rest == after)
            && '\n' !in text
  {
    hide ChunkLength, Strip, EndsWith;
    var newline := Find(input, '\n');
    var n := ChunkLength(input);
    ChunkIs(input);
    if newline.Some? && newline.value < MAX_COMMAND_LINE_BYTES + 2 {
      StripIs(input[..newline.value]);
      assert input[..n] == input[..newline.value] + "\n";
    } else {
      NoNewline(input, n);
      StripIs(input[..n]);
      assert |input| <= MAX_COMMAND_LINE_BYTES + 2 ==> input[..n] == input;
    }
  }

  lemma NoNewline(input: string, n: nat)
    requires n <= |input| && (Find(input, '\n').None? || n <= Find(input, '\n').value)
    ensures '\n' !in input[..n]
  {
    var newline := Find(input, '\n');
    if newline.Some? {
      assert input[..newline.value][..n] == input[..n];
    }
  }

  /// Commands

  /** The push commands a line can express. */
  predicate Printable(command: PushCommand) {
    && command.destination != "" && ':' !in command.destination && ' ' !in command.destination
    && (command.source.Some? ==>
          command.source.value != "" && ':' !in command.source.value && ' ' !in command.source.value)
    && (command.source.Some? && !command.force ==> command.source.value[0] != '+')
  }

  function SourceText(source: Option<string>): string {
    if source.None? then "" else source.value
  }

  function Refspec(command: PushCommand): string {
    SourceText(command.source) + [':'] + command.destination
  }

  function Fields(command: PushCommand): string {
    (if command.force then ['+'] else []) + Refspec(command)
  }

  function PrintPush(command: PushCommand): string {
    PUSH + Fields(command)
  }

  lemma RefspecExact(force: bool, pair: string, command: PushCommand)
    ensures ParseRefspec(force, pair) == Ok(command) <==>
            && command.force == force && pair == Refspec(command)
            && command.destination != "" && ':' !in command.destination
            && (command.source.Some? ==> command.source.value != "" && ':' !in command.source.value)
  {
    SplitOnceIs(pair, ':', SourceText(command.source), command.destination);
    var cut := SplitOnce(pair, ':');
    if cut.Some? {
      SplitOnceIs(pair, ':', cut.value.0, cut.value.1);
    }
  }

  lemma TakeForceExact(fields: string, force: bool, pair: string)
    ensures TakeForce(fields) == (force, pair) <==>
            fields == (if force then ['+'] else []) + pair && (force || pair == "" || pair[0] != '+')
  {
    if fields != "" {
      assert fields == [fields[0]] + fields[1..];
    }
    assert (['+'] + pair)[1..] == pair;
    assert [] + pair == pair;
  }

  lemma SpaceInFields(command: PushCommand)
    ensures ' ' in Fields(command) <==> ' ' in SourceText(command.source) || ' ' in command.destination
    ensures Fields(command) != ""
  {
  }

  /** A line is read as a command exactly when it is how the command is written. */
  lemma ParsePushExact(line: string, command: PushCommand)
    ensures ParsePush(line) == Ok(command) <==> Printable(command) && line == PrintPush(command)
  {
    hide ParseRefspec, TakeForce;
    SpaceInFields(command);
    if StartsWith(line, PUSH) {
      var fields := line[|PUSH|..];
      assert line == PUSH + fields;
      assert (PUSH + Fields(command))[|PUSH|..] == Fields(command);
      var (force, pair) := TakeForce(fields);
      TakeForceExact(fields, force, pair);
      TakeForceExact(fields, command.force, Refspec(command));
      RefspecExact(force, pair, command);
      RefspecExact(command.force, Refspec(command), command);
      RefspecStart(command);
    } else {
      assert PrintPush(command)[..|PUSH|] == PUSH;
    }
  }

  lemma RefspecStart(command: PushCommand)
    ensures Refspec(command)[0] == if SourceText(command.source) == "" then ':' else SourceText(command.source)[0]
  {
  }

  lemma LowerTwice(s: string)
    ensures Rendering.ToLower(Rendering.ToLower(s)) == Rendering.ToLower(s) && !Rendering.HasUpper(Rendering.ToLower(s))
  {
  }

  /** An object id is read from its printed form in either case, and from nothing else. */
  lemma ObjectFromHexExact(algorithm: string, value: string, o: GitObjectId)
    ensures ObjectFromHex(algorithm, value) == Some(o) <==>
            o.Valid() && o.algorithm == algorithm && Rendering.ToLower(value) == Rendering.Hex(o.bytes)
  {
    hide Rendering.Hex, Rendering.HasUpper;
    var lower := Rendering.ToLower(value);
    LowerTwice(value);
    Rendering.HexReads(o.bytes);
    assert Rendering.HexDecode(value) == Rendering.HexDecode(lower);
    if |lower| % 2 == 0 && Rendering.HexDecode(lower).Some? {
      Rendering.HexWrites(lower);
    }
  }

  /** A line is read as a fetch exactly when it is how the fetch is written, in either case of the digits. */
  lemma ParseFetchExact(line: string, algorithm: string, command: FetchCommand)
    ensures ParseFetch(line, algorithm) == Ok(command) <==>
            && command.wanted.Valid() && command.wanted.algorithm == algorithm
            && command.reference != "" && ' ' !in command.reference
            && exists hex :: Rendering.ToLower(hex) == Rendering.Hex(command.wanted.bytes)
                             && line == FETCH + (hex + [' '] + command.reference)
  {
    hide Rendering.Hex, Rendering.ToLower, ObjectFromHex;
    if StartsWith(line, FETCH) {
      var fields := line[|FETCH|..];
      assert line == FETCH + fields;
      var cut := SplitOnce(fields, ' ');
      if cut.Some? {
        SplitOnceIs(fields, ' ', cut.value.0, cut.value.1);
        ObjectFromHexExact(algorithm, cut.value.0, command.wanted);
      }
    }
    if command.wanted.Valid() && command.wanted.algorithm == algorithm && command.reference != "" && ' ' !in command.reference {
      forall hex | Rendering.ToLower(hex) == Rendering.Hex(command.wanted.bytes) && line == FETCH + (hex + [' '] + command.reference)
        ensures ParseFetch(line, algorithm) == Ok(command)
      {
        WrittenFetchParses(hex, command);
      }
    }
  }

  lemma WrittenFetchParses(hex: string, command: FetchCommand)
    requires command.wanted.Valid() && command.reference != "" && ' ' !in command.reference
    requires Rendering.ToLower(hex) == Rendering.Hex(command.wanted.bytes)
    ensures ParseFetch(FETCH + (hex + [' '] + command.reference), command.wanted.algorithm) == Ok(command)
  {
    var fields := hex + [' '] + command.reference;
    assert (FETCH + fields)[|FETCH|..] == fields && (FETCH + fields)[..|FETCH|] == FETCH;
    NoSpaceInHex(hex, command.wanted.bytes);
    hide Rendering.Hex, Rendering.ToLower, ObjectFromHex;
    SplitOnceIs(fields, ' ', hex, command.reference);
    ObjectFromHexExact(command.wanted.algorithm, hex, command.wanted);
  }

  lemma NoSpaceInHex(hex: string, bytes: Bytes)
    requires Rendering.ToLower(hex) == Rendering.Hex(bytes)
    ensures ' ' !in hex
  {
    hide Rendering.Hex;
    Urls.HexPlain(bytes);
    forall i | 0 <= i < |hex|
      ensures hex[i] != ' '
    {
      assert Rendering.ToLower(hex)[i] in Rendering.Hex(bytes);
    }
  }

  /// Output blocks

  /** A line of output: not blank, and one line only. */
  predicate CleanLine(line: string) {
    line != "" && '\n' !in line
  }

  predicate Clean(lines: seq<string>) {
    forall i :: 0 <= i < |lines| ==> CleanLine(lines[i])
  }

  /** Every line of every block, each block closed by a blank line. */
  function AllLines(events: seq<Event>): seq<string> {
    if events == [] then [] else AllLines(events[..|events| - 1]) + BlockLines(events[|events| - 1]) + [""]
  }

  /** The lines of a text, every one ended by a newline. */
  function LinesOf(text: string): seq<string> {
    var parts := Split(text, '\n');
    parts[..|parts| - 1]
  }

  /** The blocks that blank lines close. */
  function Blocks(lines: seq<string>): seq<seq<string>> {
    if lines == [] || lines[|lines| - 1] != "" then []
    else
      var start := BlockStart(lines[..|lines| - 1]);
      Blocks(lines[..start]) + [lines[start..|lines| - 1]]
  }

  /** Where the last run of non-blank lines starts. */
  function BlockStart(lines: seq<string>): (start: nat)
    ensures start <= |lines|
    ensures forall i :: start <= i < |lines| ==> lines[i] != ""
    ensures start > 0 ==> lines[start - 1] == ""
  {
    if lines == [] || lines[|lines| - 1] == "" then |lines| else BlockStart(lines[..|lines| - 1])
  }

  lemma {:induction false} BlockStartIs(before: seq<string>, block: seq<string>)
    requires Clean(block) && (before == [] || before[|before| - 1] == "")
    ensures BlockStart(before + block) == |before|
  {
    var start := BlockStart(before + block);
    assert forall i :: 0 <= i < |block| ==> (before + block)[|before| + i] == block[i] && CleanLine(block[i]);
    assert before != [] ==> (before + block)[|before| - 1] == "";
    assert forall i :: |before| <= i < |before + block| ==> (before + block)[i] == block[i - |before|];
  }

  predicate CleanEvents(events: seq<Event>) {
    forall i :: 0 <= i < |events| ==> Clean(BlockLines(events[i]))
  }

  function AllBlocks(events: seq<Event>): (blocks: seq<seq<string>>)
    ensures |blocks| == |events| && forall i :: 0 <= i < |events| ==> blocks[i] == BlockLines(events[i])
  {
    seq(|events|, i requires 0 <= i < |events| => BlockLines(events[i]))
  }

  lemma BlocksStep(before: seq<string>, block: seq<string>)
    requires Clean(block) && (before == [] || before[|before| - 1] == "")
    ensures Blocks(before + block + [""]) == Blocks(before) + [block]
  {
    hide Clean;
    var lines := before + block + [""];
    BlockStartIs(before, block);
    assert lines[..|lines| - 1] == before + block;
    assert lines[..|before|] == before && lines[|before|..|lines| - 1] == block;
  }

  lemma AllLinesEnds(events: seq<Event>)
    ensures events != [] ==> AllLines(events) != [] && AllLines(events)[|AllLines(events)| - 1] == ""
  {
  }

  lemma {:induction false} BlocksOfAll(events: seq<Event>)
    requires CleanEvents(events)
    ensures Blocks(AllLines(events)) == AllBlocks(events)
  {
    hide BlockLines, Clean;
    if events != [] {
      hide Blocks;
      var n := |events| - 1;
      BlocksOfAll(events[..n]);
      AllLinesEnds(events[..n]);
      BlocksStep(AllLines(events[..n]), BlockLines(events[n]));
      assert AllBlocks(events) == AllBlocks(events[..n]) + [BlockLines(events[n])];
    }
  }

  lemma {:induction false} LinesConcat(a: seq<string>, b: seq<string>)
    ensures Lines(a + b) == Lines(a) + Lines(b)
  {
    if b == [] {
      assert a + b == a;
    } else {
      var n := |b| - 1;
      assert (a + b)[..|a + b| - 1] == a + b[..n] && (a + b)[|a + b| - 1] == b[n];
      LinesConcat(a, b[..n]);
    }
  }

  lemma BlankLine()
    ensures Lines([""]) == "\n"
  {
    assert [""][..0] == [];
  }

  lemma {:induction false} RenderIsLines(events: seq<Event>)
    ensures Render(events) == Lines(AllLines(events))
  {
    hide Lines, BlockLines;
    if events == [] {
      NoLines();
    } else {
      var n := |events| - 1;
      RenderIsLines(events[..n]);
      LinesConcat(AllLines(events[..n]) + BlockLines(events[n]), [""]);
      LinesConcat(AllLines(events[..n]), BlockLines(events[n]));
      BlankLine();
    }
  }

  lemma NoLines()
    ensures Lines([]) == ""
  {
  }

  lemma {:induction false} LinesJoin(lines: seq<string>)
    ensures Lines(lines) == Join(lines + [""], '\n')
  {
    if lines == [] {
      assert lines + [""] == [""];
    } else {
      var n := |lines| - 1;
      LinesJoin(lines[..n]);
      assert lines + [""] == lines[..n] + [lines[n], ""];
      JoinTwo(lines[..n], lines[n]);
    }
  }

  lemma {:induction false} JoinTwo(lines: seq<string>, last: string)
    ensures Join(lines + [last, ""], '\n') == Join(lines + [""], '\n') + last + "\n"
  {
    if lines == [] {
      assert lines + [last, ""] == [last, ""] && lines + [""] == [""];
      assert [last, ""][1..] == [""];
    } else {
      JoinTwo(lines[1..], last);
      assert (lines + [last, ""])[1..] == lines[1..] + [last, ""];
      assert (lines + [""])[1..] == lines[1..] + [""];
    }
  }

  lemma LinesBack(lines: seq<string>)
    requires forall i :: 0 <= i < |lines| ==> '\n' !in lines[i]
    ensures LinesOf(Lines(lines)) == lines
  {
    LinesJoin(lines);
    SplitJoin(lines + [""], '\n');
  }

  lemma {:induction false} AllLinesClean(events: seq<Event>)
    requires CleanEvents(events)
    ensures forall i :: 0 <= i < |AllLines(events)| ==> '\n' !in AllLines(events)[i]
  {
    hide BlockLines;
    if events != [] {
      AllLinesClean(events[..|events| - 1]);
    }
  }

  /** A reader of the output gets back the blocks that were written, each whole. */
  lemma OutputDecodes(events: seq<Event>)
    requires CleanEvents(events)
    ensures Blocks(LinesOf(Render(events))) == AllBlocks(events)
  {
    RenderIsLines(events);
    AllLinesClean(events);
    LinesBack(AllLines(events));
    BlocksOfAll(events);
  }
}
