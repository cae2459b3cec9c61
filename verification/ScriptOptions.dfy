/** `parseOptions`: the script options of a whole script, line by line. */
module ScriptOptions {
  import opened Wrappers
  import opened Sequences
  import opened Text
  import opened StringSearch
  import opened ShiftReduce
  import opened OptionTable
  import opened OptionText
  import opened OptionDriver
  import opened OptionAcceptance

  datatype ScriptOption = ScriptOption(value: string, idxInSource: nat, size: nat)

  datatype KeyedOption = KeyedOption(key: string, option: ScriptOption)

  type OptionsMap = map<string, seq<ScriptOption>>

  // `end` is None for the last line, which no line break ends.
  datatype LinePositions = LinePositions(start: nat, end: Option<nat>)

  // "Error parsing script options at line <lineNumber>: <diagnostics>"
  datatype ParseError = ParseError(lineNumber: nat, diagnostics: seq<Diagnostic>)

  // size_t and the 32-bit columns wrap around.
  const SIZE_MODULUS: nat := 0x1_0000_0000_0000_0000

  function LineText(code: string, line: LinePositions): string
    requires line.start <= |code| && (line.end.Some? ==> line.start <= line.end.value <= |code|)
  {
    if line.end.Some? then code[line.start..line.end.value] else code[line.start..]
  }

  predicate IsPercent(c: char) {
    c == '%'
  }

  // The line of the first '%' from `currentPos` on.
  function GetNextLine(code: string, currentPos: nat): Option<LinePositions> {
    var option :- FindFirst(code, IsPercent, currentPos);
    var lineBreak := FindLast(code, IsLineBreak, option);
    var start := if lineBreak.None? then 0 else lineBreak.value + 1;
    Some(LinePositions(start, FindFirst(code, IsLineBreak, start)))
  }

  function ToEntry(lineStart: nat, o: ParsedOption): KeyedOption {
    KeyedOption(o.key, ScriptOption(o.value, (lineStart + o.start.column + SIZE_MODULUS - 1) % SIZE_MODULUS,
                              (o.end.column + COLUMN_MODULUS - o.start.column % COLUMN_MODULUS + 1) % COLUMN_MODULUS))
  }

  function ToEntries(lineStart: nat, options: seq<ParsedOption>): (r: seq<KeyedOption>)
    ensures |r| == |options|
  {
    seq(|options|, i requires 0 <= i < |options| => ToEntry(lineStart, options[i]))
  }

  function Lookup(result: OptionsMap, key: string): seq<ScriptOption> {
    if key in result then result[key] else []
  }

  function Add(result: OptionsMap, entry: KeyedOption): OptionsMap {
    result[entry.key := Lookup(result, entry.key) + [entry.option]]
  }

  function AddAll(result: OptionsMap, entries: seq<KeyedOption>): OptionsMap
    decreases |entries|
  {
    if entries == [] then result else Add(AddAll(result, entries[..|entries| - 1]), entries[|entries| - 1])
  }

  lemma AddAllNext(result: OptionsMap, entries: seq<KeyedOption>, i: nat)
    requires i < |entries|
    ensures AddAll(result, entries[..i + 1]) == Add(AddAll(result, entries[..i]), entries[i])
  {
    assert entries[..i + 1][..i] == entries[..i];
  }

  lemma {:induction false} AddAllAppend(result: OptionsMap, a: seq<KeyedOption>, b: seq<KeyedOption>)
    ensures AddAll(result, a + b) == AddAll(AddAll(result, a), b)
    decreases |b|
  {
    hide Add;
    if b == [] {
      assert a + b == a;
    } else {
      assert (a + b)[..|a + b| - 1] == a + b[..|b| - 1];
      AddAllAppend(result, a, b[..|b| - 1]);
    }
  }

  lemma AddNothing(result: OptionsMap)
    ensures AddAll(result, []) == result
  {
  }

  function CountNewlines(text: string): nat
    decreases |text|
  {
    if text == [] then 0 else CountNewlines(text[..|text| - 1]) + (if text[|text| - 1] == '\n' then 1 else 0)
  }

  lemma {:induction false} CountsNewlines(text: string)
    ensures CountNewlines(text) == |Newlines(text)|
    decreases |text|
  {
    hide Newlines;
    if text == [] {
      AdvanceNothing();
    } else {
      var init := text[..|text| - 1];
      CountsNewlines(init);
      NewlinesAppend(init, text[|text| - 1]);
      assert text == init + [text[|text| - 1]];
    }
  }

  // ---------------------------------------------------------------------------------------------
  // The lines of a script.

  // The lines of code[pos..] that contain a '%', where `pos` starts a line.
  function OptionLines(code: string, pos: nat): (lines: seq<LinePositions>)
    requires pos <= |code|
    ensures forall i :: 0 <= i < |lines| ==>
              pos <= lines[i].start <= |code| && (lines[i].end.Some? ==> lines[i].start <= lines[i].end.value < |code|)
    decreases |code| - pos
  {
    var line := LineAt(code, pos);
    var here := if '%' in LineText(code, line) then [line] else [];
    if line.end.None? then here else here + OptionLines(code, line.end.value + 1)
  }

  predicate StartsLine(code: string, pos: nat) {
    pos <= |code| && (pos > 0 ==> IsLineBreak(code[pos - 1]))
  }

  function LineAt(code: string, pos: nat): LinePositions {
    LinePositions(pos, FindFirst(code, IsLineBreak, pos))
  }

  lemma PercentInLine(code: string, pos: nat)
    requires pos <= |code|
    ensures var line := LineAt(code, pos);
            var option := FindFirst(code, IsPercent, pos);
            '%' in LineText(code, line) <==> option.Some? && (line.end.Some? ==> option.value < line.end.value)
  {
    var line := LineAt(code, pos);
    var option := FindFirst(code, IsPercent, pos);
    var stop := if line.end.None? then |code| else line.end.value;
    assert LineText(code, line) == code[pos..stop];
    if option.Some? && option.value < stop {
      assert code[pos..stop][option.value - pos] == '%';
    } else {
      assert forall i :: 0 <= i < stop - pos ==> code[pos..stop][i] == code[pos + i];
    }
  }

  // The first '%' lies on the line that starts at `pos`.
  lemma NextLineHere(code: string, pos: nat)
    requires StartsLine(code, pos) && '%' in LineText(code, LineAt(code, pos))
    ensures GetNextLine(code, pos) == Some(LineAt(code, pos))
  {
    hide FindFirst, FindLast, LineText;
    PercentInLine(code, pos);
  }

  // It does not: the search starts over after the line.
  lemma NextLineLater(code: string, pos: nat)
    requires StartsLine(code, pos) && '%' !in LineText(code, LineAt(code, pos))
    ensures GetNextLine(code, pos) ==
            if LineAt(code, pos).end.None? then None else GetNextLine(code, LineAt(code, pos).end.value + 1)
  {
    hide FindFirst, FindLast, LineText;
    PercentInLine(code, pos);
  }

  // Jumping from one '%' to the line around it visits these lines, in order, and no other.
  lemma {:induction false} NextLineIsNextOptionLine(code: string, pos: nat)
    requires StartsLine(code, pos)
    ensures match GetNextLine(code, pos)
            case None => OptionLines(code, pos) == []
            case Some(line) =>
              && pos <= line.start <= |code| && (line.end.Some? ==> line.start <= line.end.value < |code|)
              && (line.end.Some? ==> StartsLine(code, line.end.value + 1))
              && OptionLines(code, pos) == [line] + (if line.end.None? then [] else OptionLines(code, line.end.value + 1))
    decreases |code| - pos
  {
    hide FindFirst, GetNextLine, LineText;
    var line := LineAt(code, pos);
    if '%' in LineText(code, line) {
      NextLineHere(code, pos);
    } else {
      NextLineLater(code, pos);
      if line.end.Some? {
        NextLineIsNextOptionLine(code, line.end.value + 1);
      }
    }
  }

  predicate BreakChar(c: char) {
    c in "\U{000D}\U{000A}"
  }

  lemma BreakClass(c: char)
    ensures IsLineBreak(c) <==> BreakChar(c)
  {
  }

  // One whole line of the script: behind a line break or at the start, up to the next one or the end.
  ghost predicate IsLine(code: string, line: LinePositions) {
    && InCode(code, line)
    && (line.start > 0 ==> BreakChar(code[line.start - 1]))
    && (line.end.Some? ==> BreakChar(code[line.end.value]))
    && (forall i :: line.start <= i < LineStop(code, line) ==> !BreakChar(code[i]))
  }

  function LineStop(code: string, line: LinePositions): nat {
    if line.end.Some? then line.end.value else |code|
  }

  ghost predicate HasPercent(code: string, line: LinePositions) {
    exists i :: line.start <= i < LineStop(code, line) <= |code| && code[i] == '%'
  }

  lemma LineAtIsLine(code: string, pos: nat)
    requires StartsLine(code, pos)
    ensures var line := LineAt(code, pos);
            && IsLine(code, line) && line.start == pos
            && ('%' in LineText(code, line) <==> HasPercent(code, line))
            && (line.end.Some? ==> StartsLine(code, line.end.value + 1))
  {
    hide BreakChar;
    var line := LineAt(code, pos);
    forall c: char
      ensures IsLineBreak(c) <==> BreakChar(c)
    {
      BreakClass(c);
    }
    var stop := LineStop(code, line);
    assert LineText(code, line) == code[pos..stop];
    if HasPercent(code, line) {
      var i :| pos <= i < stop <= |code| && code[i] == '%';
      assert code[pos..stop][i - pos] == '%';
    }
    if '%' in LineText(code, line) {
      var i :| 0 <= i < stop - pos && code[pos..stop][i] == '%';
      assert code[pos + i] == '%';
    }
  }

  // Two lines that do not lie one behind the other are the same line.
  lemma LinesApart(code: string, a: LinePositions, b: LinePositions)
    requires IsLine(code, a) && IsLine(code, b) && a.start <= b.start
    ensures a == b || LineStop(code, a) < b.start
  {
    hide BreakChar;
  }

  // The lines found are exactly the lines of the script with a '%', from the first to the last.
  lemma {:induction false} OptionLinesExact(code: string, pos: nat, line: LinePositions)
    requires StartsLine(code, pos)
    ensures line in OptionLines(code, pos) <==> IsLine(code, line) && HasPercent(code, line) && pos <= line.start
    decreases |code| - pos
  {
    hide LineAt, LineText, IsLineBreak, BreakChar, HasPercent;
    var here := LineAt(code, pos);
    LineAtIsLine(code, pos);
    if IsLine(code, line) && pos <= line.start {
      LinesApart(code, here, line);
    }
    if here.end.Some? {
      OptionLinesExact(code, here.end.value + 1, line);
    }
  }

  lemma {:induction false} OptionLinesOrdered(code: string, pos: nat, i: nat, j: nat)
    requires StartsLine(code, pos) && i < j < |OptionLines(code, pos)|
    ensures LineStop(code, OptionLines(code, pos)[i]) < OptionLines(code, pos)[j].start
    decreases |code| - pos
  {
    hide LineAt, LineText, IsLineBreak, BreakChar, HasPercent;
    var here := LineAt(code, pos);
    LineAtIsLine(code, pos);
    if here.end.Some? {
      var skipped := if '%' in LineText(code, here) then 1 else 0;
      if i >= skipped {
        OptionLinesOrdered(code, here.end.value + 1, i - skipped, j - skipped);
      }
    }
  }

  predicate InCode(code: string, line: LinePositions) {
    line.start <= |code| && (line.end.Some? ==> line.start <= line.end.value < |code|)
  }

  ghost predicate AllInCode(code: string, lines: seq<LinePositions>) {
    forall i :: 0 <= i < |lines| ==> InCode(code, lines[i])
  }

  // The options of one line, or the parser's complaint about it.
  function LineResult(code: string, line: LinePositions): Result<seq<KeyedOption>, ParseError>
    requires InCode(code, line)
  {
    var text := LineText(code, line);
    match ParseText(text, 0, false)
    case Ok(options) => Ok(ToEntries(line.start, ParsedAll(text, options)))
    case Err(at) => Err(ParseError(CountNewlines(code[..line.start]), [SyntaxError(PointAt(text, at), TermAt(text, at))]))
  }

  // The options of the lines added to `result`, up to the first line that is not accepted.
  function Collect(code: string, lines: seq<LinePositions>, result: OptionsMap): (OptionsMap, Option<ParseError>)
    requires AllInCode(code, lines)
    decreases |lines|
  {
    if lines == [] then (result, None)
    else
      match LineResult(code, lines[0])
      case Err(error) => (result, Some(error))
      case Ok(entries) => Collect(code, lines[1..], AddAll(result, entries))
  }

  // ---------------------------------------------------------------------------------------------
  // How a scan ends.

  predicate LineAccepted(code: string, line: LinePositions)
    requires InCode(code, line)
  {
    ParseText(LineText(code, line), 0, false).Ok?
  }

  function EntriesOf(code: string, line: LinePositions): seq<KeyedOption>
    requires InCode(code, line) && LineAccepted(code, line)
  {
    var text := LineText(code, line);
    ToEntries(line.start, ParsedAll(text, ParseText(text, 0, false).value))
  }

  // The options of the first `n` lines.
  function LineEntries(code: string, lines: seq<LinePositions>, n: nat): (entries: seq<seq<KeyedOption>>)
    requires AllInCode(code, lines) && n <= |lines| && forall i :: 0 <= i < n ==> LineAccepted(code, lines[i])
    ensures |entries| == n
  {
    seq(n, i requires 0 <= i < n => EntriesOf(code, lines[i]))
  }

  // The first `n` lines are accepted, and their options are what has been added to the map.
  ghost predicate AddedFirst(code: string, lines: seq<LinePositions>, n: nat, before: OptionsMap, after: OptionsMap) {
    && AllInCode(code, lines) && n <= |lines|
    && (forall i :: 0 <= i < n ==> LineAccepted(code, lines[i]))
    && after == AddAll(before, Flatten(LineEntries(code, lines, n)))
  }

  // The complaint about line `k`: the diagnostic at the offset at which its text is rejected, and as line
  // number the newlines before it.
  ghost predicate ErrorOf(code: string, line: LinePositions, error: ParseError) {
    && InCode(code, line)
    && var text := LineText(code, line);
       && ParseText(text, 0, false).Err?
       && var at := ParseText(text, 0, false).error;
          error == ParseError(|Newlines(code[..line.start])|, [SyntaxError(PointAt(text, at), TermAt(text, at))])
  }

  // A scan ends without an error exactly when every line is accepted, and has then added all their
  // options; otherwise it ends with the error of the first rejected line, and has added those before it.
  ghost predicate ScanEnds(code: string, lines: seq<LinePositions>, before: OptionsMap, after: OptionsMap, error: Option<ParseError>) {
    && AllInCode(code, lines)
    && (error == None <==> forall i :: 0 <= i < |lines| ==> LineAccepted(code, lines[i]))
    && (error == None ==> AddedFirst(code, lines, |lines|, before, after))
    && (error.Some? ==> exists k :: 0 <= k < |lines| && AddedFirst(code, lines, k, before, after) && ErrorOf(code, lines[k], error.value))
  }

  lemma AddedCons(code: string, lines: seq<LinePositions>, n: nat, before: OptionsMap, next: OptionsMap, after: OptionsMap)
    requires AllInCode(code, lines) && lines != [] && LineResult(code, lines[0]).Ok?
    requires next == AddAll(before, LineResult(code, lines[0]).value) && AddedFirst(code, lines[1..], n, next, after)
    ensures AddedFirst(code, lines, n + 1, before, after)
  {
    hide ParseText, AddAll, ToEntries, ParsedAll, LineText;
    var entries, rest := LineEntries(code, lines, n + 1), LineEntries(code, lines[1..], n);
    assert entries[0] == LineResult(code, lines[0]).value && entries[1..] == rest;
    AddAllAppend(before, entries[0], Flatten(rest));
  }

  lemma {:induction false} CollectEnds(code: string, lines: seq<LinePositions>, before: OptionsMap)
    requires AllInCode(code, lines)
    ensures ScanEnds(code, lines, before, Collect(code, lines, before).0, Collect(code, lines, before).1)
    decreases |lines|
  {
    hide AddedFirst, ErrorOf, AddAll, LineResult, LineAccepted;
    var (after, error) := Collect(code, lines, before);
    if lines == [] {
      NothingAdded(code, before);
    } else {
      FirstLine(code, lines, before);
      if LineResult(code, lines[0]).Ok? {
        var rest, next := lines[1..], AddAll(before, LineResult(code, lines[0]).value);
        CollectEnds(code, rest, next);
        if error == None {
          AddedCons(code, lines, |rest|, before, next, after);
          forall i | 0 <= i < |lines|
            ensures LineAccepted(code, lines[i])
          {
            if i > 0 {
              assert lines[i] == rest[i - 1];
            }
          }
        } else {
          var k :| 0 <= k < |rest| && AddedFirst(code, rest, k, next, after) && ErrorOf(code, rest[k], error.value);
          AddedCons(code, lines, k, before, next, after);
          assert lines[k + 1] == rest[k];
          ErrorRejected(code, lines[k + 1], error.value);
        }
      } else {
        assert ErrorOf(code, lines[0], error.value) && AddedFirst(code, lines, 0, before, after);
      }
    }
  }

  lemma NothingAdded(code: string, before: OptionsMap)
    ensures AddedFirst(code, [], 0, before, before)
  {
    AddNothing(before);
  }

  lemma ErrorRejected(code: string, line: LinePositions, error: ParseError)
    requires ErrorOf(code, line, error)
    ensures !LineAccepted(code, line)
  {
  }

  lemma FirstLine(code: string, lines: seq<LinePositions>, before: OptionsMap)
    requires AllInCode(code, lines) && lines != []
    ensures LineResult(code, lines[0]).Ok? <==> LineAccepted(code, lines[0])
    ensures LineResult(code, lines[0]).Err? ==>
              ErrorOf(code, lines[0], LineResult(code, lines[0]).error) && AddedFirst(code, lines, 0, before, before)
  {
    hide ParseText, AddAll, ToEntries, ParsedAll, LineText, PointAt, TermAt, Newlines, CountNewlines;
    CountsNewlines(code[..lines[0].start]);
    AddNothing(before);
    assert Flatten(LineEntries(code, lines, 0)) == [];
  }

  // The loop that adds the parsed options of one line to the result.
  method AddOptions(result: OptionsMap, lineStart: nat, options: seq<ParsedOption>) returns (r: OptionsMap)
    ensures r == AddAll(result, ToEntries(lineStart, options))
  {
    r := result;
    var i := 0;
    var entries := ToEntries(lineStart, options);
    while i < |options|
      invariant i <= |options|
      invariant r == AddAll(result, entries[..i])
    {
      var option := options[i];
      var entry := ToEntry(lineStart, option);
      AddAllNext(result, entries, i);
      assert [] + [entry.option] == [entry.option];
      if option.key !in r {
        r := r[option.key := [entry.option]];
      } else {
        r := r[option.key := r[option.key] + [entry.option]];
      }
      i := i + 1;
    }
    assert entries[..|options|] == entries;
  }

  method LineNumber(code: string, start: nat) returns (n: nat)
    requires start <= |code|
    ensures n == CountNewlines(code[..start]) == |Newlines(code[..start])|
  {
    n := 0;
    var i := 0;
    while i < start
      invariant i <= start && n == CountNewlines(code[..i])
    {
      assert code[..i + 1][..i] == code[..i];
      if code[i] == '\n' {
        n := n + 1;
      }
      i := i + 1;
    }
    CountsNewlines(code[..start]);
  }

  // Parses one line into the result; an error leaves the result as it was.
  method ParseOneLine(code: string, line: LinePositions, result: OptionsMap) returns (result': OptionsMap, error: Option<ParseError>)
    requires InCode(code, line)
    ensures LineResult(code, line).Ok? ==> result' == AddAll(result, LineResult(code, line).value) && error == None
    ensures LineResult(code, line).Err? ==> result' == result && error == Some(LineResult(code, line).error)
  {
    hide ParseText, AddAll, ToEntries, ParsedAll, LineText, CountNewlines, PointAt, TermAt;
    result' := result;
    var outcome, diagnostics := ParseLine(LineText(code, line));
    if outcome.Value? {
      result' := AddOptions(result, line.start, outcome.value.options);
      error := None;
    } else {
      var lineNumber := LineNumber(code, line.start);
      error := Some(ParseError(lineNumber, diagnostics));
    }
  }

  // `parseOptions`. Lines before an erroneous one have already been added to the result.
  method ParseOptions(code: string, result: OptionsMap) returns (result': OptionsMap, error: Option<ParseError>)
    ensures AllInCode(code, OptionLines(code, 0))
    ensures (result', error) == Collect(code, OptionLines(code, 0), result)
    ensures ScanEnds(code, OptionLines(code, 0), result, result', error)
  {
    hide GetNextLine, OptionLines, LineResult, AddAll, ScanEnds;
    result', error := result, None;
    var currentPos := 0;
    NextLineIsNextOptionLine(code, 0);
    CollectEnds(code, OptionLines(code, 0), result);
    var current := GetNextLine(code, currentPos);
    while current.Some?
      invariant StartsLine(code, currentPos) && current == GetNextLine(code, currentPos)
      invariant AllInCode(code, OptionLines(code, 0)) && AllInCode(code, OptionLines(code, currentPos))
      invariant Collect(code, OptionLines(code, 0), result) == Collect(code, OptionLines(code, currentPos), result')
      invariant error == None
      decreases |code| - currentPos
    {
      var line := current.value;
      NextLineIsNextOptionLine(code, currentPos);
      var rest := if line.end.None? then [] else OptionLines(code, line.end.value + 1);
      assert ([line] + rest)[1..] == rest;
      assert InCode(code, line);
      result', error := ParseOneLine(code, line, result');
      if error.Some? {
        return;
      }
      if line.end.None? {
        return;
      }
      currentPos := line.end.value + 1;
      current := GetNextLine(code, currentPos);
    }
    NextLineIsNextOptionLine(code, currentPos);
  }
}
