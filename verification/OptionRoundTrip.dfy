/** Printing options and parsing them back. */
module OptionRoundTrip {
  import opened Wrappers
  import opened Sequences
  import opened StringSearch
  import opened OptionLexer
  import opened OptionTable
  import opened OptionText
  import opened OptionForm
  import opened OptionDriver
  import opened OptionAcceptance
  import opened ScriptOptions
  import opened OptionExtents

  datatype Setting = Setting(key: string, value: string)

  // Keys are words; a value is nonempty and does not start with '%'.
  predicate Printable(s: Setting) {
    s.key != [] && AllWord(s.key) && s.value != [] && s.value[0] != '%'
  }

  ghost predicate AllPrintable(settings: seq<Setting>) {
    forall i :: 0 <= i < |settings| ==> Printable(settings[i])
  }

  function EscapeChar(c: char): string {
    match c
    case ';' => "\\;"
    case '\U{000A}' => "\\n"
    case '\U{000D}' => "\\r"
    case '\\' => "\\\\"
    case _ => [c]
  }

  function EscapeFirst(c: char): string {
    if c == ' ' then "\\ "
    else if c == '\U{0009}' then "\\t"
    else if c == '\U{000C}' then "\\f"
    else if c == '\U{000B}' then "\\v"
    else EscapeChar(c)
  }

  function EncodeRest(value: string): string {
    if value == [] then [] else EscapeChar(value[0]) + EncodeRest(value[1..])
  }

  function Encode(value: string): string
    requires value != []
  {
    EscapeFirst(value[0]) + EncodeRest(value[1..])
  }

  // ---------------------------------------------------------------------------------------------
  // One value.

  lemma {:induction false} DecodeEncodeRest(value: string)
    ensures DecodeRest(EncodeRest(value)) == value
    decreases |value|
  {
    if value != [] {
      DecodeEncodeRest(value[1..]);
      DecodeEscaped(value[0], EncodeRest(value[1..]));
      assert value == [value[0]] + value[1..];
    }
  }

  lemma DecodeEscaped(c: char, rest: string)
    ensures DecodeRest(EscapeChar(c) + rest) == [c] + DecodeRest(rest)
  {
    var text := EscapeChar(c) + rest;
    if |EscapeChar(c)| == 2 {
      assert text[2..] == rest;
    } else {
      assert text[1..] == rest;
    }
  }

  // Decoding an encoded value gives the value back.
  lemma DecodeEncode(value: string)
    requires value != []
    ensures Decode(Encode(value)) == value
  {
    var c, rest := value[0], EncodeRest(value[1..]);
    DecodeEncodeRest(value[1..]);
    assert value == [c] + value[1..];
    if IsBlank(c) {
      assert Encode(value)[2..] == rest;
    } else {
      DecodeEscaped(c, rest);
      assert c == '\\' ==> EscapedBlank(Encode(value)[1]).None?;
      assert |Encode(value)| > 1 && Encode(value)[0] == '\\' ==> EscapedBlank(Encode(value)[1]).None?;
    }
  }

  // The text after `pos` is one character as it is printed inside a value.
  lemma TerminatorSkips(text: string, pos: nat, printed: string, rest: string)
    requires pos <= |text| && text[pos..] == printed + rest
    requires printed != [] && (printed == EscapeChar(printed[0]) || (|printed| == 2 && printed[0] == '\\' &&
                               (EscapedChar(printed[1]).Some? || EscapedBlank(printed[1]).Some?)))
    requires printed[0] != ';'
    ensures Terminator(text, pos) == Terminator(text, pos + |printed|)
  {
    assert text[pos] == text[pos..][0];
    if |printed| == 2 {
      assert text[pos + 1] == text[pos..][1];
    }
  }

  lemma TerminatorHere(text: string, pos: nat)
    requires pos <= |text| && text[pos..] == ";"
    ensures Terminator(text, pos) == |text| - 1
  {
    assert text[pos] == text[pos..][0];
  }

  lemma Skip(text: string, pos: nat, a: string, b: string)
    requires pos <= |text| && text[pos..] == a + b
    ensures pos + |a| <= |text| && text[pos + |a|..] == b
  {
    assert text[pos..][|a|..] == text[pos + |a|..];
  }

  lemma EscapeCharShape(c: char)
    ensures var printed := EscapeChar(c);
            && printed != [] && printed[0] != ';'
            && (|printed| == 1 ==> printed == EscapeChar(printed[0]))
            && (|printed| != 1 ==> |printed| == 2 && printed[0] == '\\' && EscapedChar(printed[1]).Some?)
  {
  }

  lemma {:induction false} EncodedRestEnds(text: string, pos: nat, value: string)
    requires pos <= |text| && text[pos..] == EncodeRest(value) + ";"
    ensures Terminator(text, pos) == |text| - 1
    decreases |value|
  {
    hide Terminator, EscapeChar;
    if value == [] {
      assert [] + ";" == ";";
      TerminatorHere(text, pos);
    } else {
      var printed, rest := EscapeChar(value[0]), EncodeRest(value[1..]) + ";";
      assert text[pos..] == printed + rest;
      EscapeCharShape(value[0]);
      TerminatorSkips(text, pos, printed, rest);
      Skip(text, pos, printed, rest);
      EncodedRestEnds(text, pos + |printed|, value[1..]);
    }
  }

  // An encoded value ends at the ';' that is printed after it and nowhere before.
  lemma EncodedEnds(value: string)
    requires value != []
    ensures FirstTerminating(Encode(value) + ";", 0, |Encode(value)|)
  {
    var text := Encode(value) + ";";
    var printed, rest := EscapeFirst(value[0]), EncodeRest(value[1..]) + ";";
    assert text[0..] == text == printed + rest;
    TerminatorSkips(text, 0, printed, rest);
    assert text[|printed|..] == rest;
    EncodedRestEnds(text, |printed|, value[1..]);
    TerminatorParity(text, 0);
  }

  // ---------------------------------------------------------------------------------------------
  // One line.

  // "%key value;"
  function Print(s: Setting): Written
    requires Printable(s)
  {
    Written("", s.key, " ", Encode(s.value))
  }

  function PrintAll(settings: seq<Setting>): (ws: seq<Written>)
    requires AllPrintable(settings)
    ensures |ws| == |settings|
  {
    seq(|settings|, i requires 0 <= i < |settings| => Print(settings[i]))
  }

  function PrintLine(settings: seq<Setting>): string
    requires AllPrintable(settings)
  {
    WriteAll(PrintAll(settings))
  }

  lemma PrintWellFormed(s: Setting)
    requires Printable(s)
    ensures WellFormed(Print(s))
  {
    hide FirstTerminating, Encode, AllWord, BlankChar;
    EncodedEnds(s.value);
    EncodedStart(s.value);
    OneBlank();
    BlankClass(Encode(s.value)[0]);
  }

  lemma OneBlank()
    ensures AllBlank("") && AllBlank(" ")
  {
    AllBlankIs("");
    AllBlankIs(" ");
  }

  lemma EncodedStart(value: string)
    requires value != [] && value[0] != '%'
    ensures Encode(value) != [] && !IsBlank(Encode(value)[0]) && Encode(value)[0] != '%' && Encode(value)[0] != ';'
  {
  }

  ghost predicate SameSettings(options: seq<LineOption>, settings: seq<Setting>) {
    |options| == |settings| && forall i :: 0 <= i < |options| ==> options[i].key == settings[i].key && options[i].value == settings[i].value
  }

  lemma {:induction false} PrintedMeanings(settings: seq<Setting>, pos: nat)
    requires AllPrintable(settings)
    ensures SameSettings(Meanings(PrintAll(settings), pos), settings)
    decreases |settings|
  {
    hide Encode, Decode, Write;
    if settings != [] {
      var ws := PrintAll(settings);
      assert ws[1..] == PrintAll(settings[1..]);
      PrintedMeanings(settings[1..], pos + |Write(ws[0])|);
      DecodeEncode(settings[0].value);
    }
  }

  // A printed line is parsed back to its keys and values, in order.
  lemma LineRoundTrip(settings: seq<Setting>)
    requires AllPrintable(settings) && settings != []
    ensures ParseText(PrintLine(settings), 0, false).Ok?
    ensures SameSettings(ParseText(PrintLine(settings), 0, false).value, settings)
  {
    hide ParseText, WellFormed, SameSettings, Meanings, WriteAll, Print;
    var ws, line := PrintAll(settings), PrintLine(settings);
    forall i | 0 <= i < |ws|
      ensures WellFormed(ws[i])
    {
      PrintWellFormed(settings[i]);
    }
    assert line[0..] == WriteAll(ws) + [];
    WrittenAccepted(line, 0, ws, [], false);
    PrintedMeanings(settings, 0);
  }

  // ---------------------------------------------------------------------------------------------
  // A whole script.

  ghost predicate AllLinesPrintable(lines: seq<seq<Setting>>) {
    forall i :: 0 <= i < |lines| ==> AllPrintable(lines[i])
  }

  // The lines joined by newlines.
  function PrintScript(lines: seq<seq<Setting>>): string
    requires AllLinesPrintable(lines)
  {
    if lines == [] then []
    else if |lines| == 1 then PrintLine(lines[0])
    else PrintLine(lines[0]) + ("\n" + PrintScript(lines[1..]))
  }

  lemma {:induction false} EncodedHasNoBreak(value: string)
    ensures NoBreak(EncodeRest(value))
    decreases |value|
  {
    if value != [] {
      EncodedHasNoBreak(value[1..]);
      assert NoBreak(EscapeChar(value[0]));
    }
  }

  lemma KeyHasNoBreak(key: string)
    requires AllWord(key)
    ensures NoBreak(key)
  {
    hide AllWord;
    AllWordIs(key);
  }

  lemma NoBreakConcat(a: string, b: string)
    requires NoBreak(a) && NoBreak(b)
    ensures NoBreak(a + b)
  {
    hide IsLineBreak;
  }

  lemma PlainCharacters()
    ensures NoBreak("") && NoBreak(" ") && NoBreak("%") && NoBreak(";")
  {
  }

  lemma FirstHasNoBreak(c: char)
    ensures NoBreak(EscapeFirst(c))
  {
  }

  lemma PrintedHasNoBreak(s: Setting)
    requires Printable(s)
    ensures NoBreak(Write(Print(s))) && |Write(Print(s))| > 0 && Write(Print(s))[0] == '%'
  {
    hide NoBreak, AllWord, EscapeFirst, EncodeRest;
    EncodedHasNoBreak(s.value[1..]);
    FirstHasNoBreak(s.value[0]);
    KeyHasNoBreak(s.key);
    PlainCharacters();
    var w := Print(s);
    NoBreakConcat(EscapeFirst(s.value[0]), EncodeRest(s.value[1..]));
    NoBreakConcat(w.body, ";");
    NoBreakConcat(w.gap, WriteBody(w));
    NoBreakConcat(w.key, WriteGap(w));
    NoBreakConcat("%", WriteKey(w));
    NoBreakConcat(w.blanks, WritePercent(w));
  }

  lemma {:induction false} PrintedLineShape(settings: seq<Setting>)
    requires AllPrintable(settings)
    ensures NoBreak(PrintLine(settings)) && ('%' in PrintLine(settings) <==> settings != [])
    decreases |settings|
  {
    hide Write, Print;
    if settings != [] {
      var ws := PrintAll(settings);
      assert ws[1..] == PrintAll(settings[1..]);
      PrintedLineShape(settings[1..]);
      PrintedHasNoBreak(settings[0]);
      assert PrintLine(settings) == Write(ws[0]) + PrintLine(settings[1..]);
      assert PrintLine(settings)[0] == '%';
    }
  }

  ghost predicate SameEntries(entries: seq<KeyedOption>, settings: seq<Setting>) {
    && |entries| == |settings|
    && forall i :: 0 <= i < |entries| ==>
         entries[i].key == settings[i].key && entries[i].option.value == settings[i].value
  }

  // The first line of a printed script.
  lemma OnlyLine(code: string, pos: nat, lines: seq<seq<Setting>>)
    requires pos <= |code| && AllLinesPrintable(lines) && |lines| == 1 && code[pos..] == PrintScript(lines)
    ensures InCode(code, LineAt(code, pos)) && LineText(code, LineAt(code, pos)) == PrintLine(lines[0]) && LineAt(code, pos).end == None
  {
    hide PrintLine, LineAt, LineText;
    PrintedLineShape(lines[0]);
    assert PrintLine(lines[0]) + [] == PrintLine(lines[0]);
    BreakAt(code, pos, PrintLine(lines[0]), []);
  }

  lemma SplitScript(lines: seq<seq<Setting>>)
    requires AllLinesPrintable(lines) && |lines| > 1
    ensures PrintScript(lines) == PrintLine(lines[0]) + ("\n" + PrintScript(lines[1..]))
  {
    hide PrintLine;
  }

  lemma NewlineBreaks()
    ensures IsLineBreak('\n')
  {
  }

  lemma LineAndRest(code: string, pos: nat, lines: seq<seq<Setting>>)
    requires pos <= |code| && AllLinesPrintable(lines) && |lines| > 1 && code[pos..] == PrintScript(lines)
    ensures var line := LineAt(code, pos);
            && InCode(code, line) && LineText(code, line) == PrintLine(lines[0])
            && line.end.Some? && code[line.end.value + 1..] == PrintScript(lines[1..])
  {
    hide PrintLine, LineAt, LineText, PrintScript, Printable, IsLineBreak, NoBreak;
    NewlineBreaks();
    var text, rest := PrintLine(lines[0]), PrintScript(lines[1..]);
    SplitScript(lines);
    PrintedLineShape(lines[0]);
    BreakAt(code, pos, text, "\n" + rest);
    Skip(code, pos, text, "\n" + rest);
    Skip(code, pos + |text|, "\n", rest);
  }

  lemma BreakAt(code: string, pos: nat, text: string, rest: string)
    requires pos <= |code| && code[pos..] == text + rest && NoBreak(text) && (rest != [] ==> IsLineBreak(rest[0]))
    ensures var line := LineAt(code, pos);
            && line.end == (if rest == [] then None else Some(pos + |text|))
            && InCode(code, line) && LineText(code, line) == text
  {
    assert forall i :: pos <= i < pos + |text| ==> code[i] == code[pos..][i - pos] == text[i - pos];
    if rest != [] {
      assert code[pos + |text|] == code[pos..][|text|] == rest[0];
      assert code[pos..pos + |text|] == code[pos..][..|text|] == text;
    } else {
      assert text + rest == text;
    }
    hide FindFirst;
    BreakIs(code, pos, |text|, rest != []);
  }

  lemma BreakIs(code: string, pos: nat, n: nat, found: bool)
    requires pos + n <= |code| && forall i :: pos <= i < pos + n ==> !IsLineBreak(code[i])
    requires if found then pos + n < |code| && IsLineBreak(code[pos + n]) else pos + n == |code|
    ensures FindFirst(code, IsLineBreak, pos) == if found then Some(pos + n) else None
  {
    var r := FindFirst(code, IsLineBreak, pos);
    if found {
      assert code[pos + n] == code[pos + n];
    }
  }

  lemma PrintedLineResult(code: string, line: LinePositions, settings: seq<Setting>)
    requires InCode(code, line) && AllPrintable(settings) && settings != [] && LineText(code, line) == PrintLine(settings)
    ensures LineResult(code, line).Ok? && SameEntries(LineResult(code, line).value, settings)
  {
    hide ParseText, PrintLine;
    LineRoundTrip(settings);
  }

  // Everything in the script is recorded, in order.
  ghost predicate Recovers(code: string, lines: seq<LinePositions>, settings: seq<Setting>) {
    && AllInCode(code, lines)
    && SameEntries(Recorded(code, lines), settings)
    && forall i :: 0 <= i < |lines| ==> LineResult(code, lines[i]).Ok?
  }

  lemma {:induction false} AcceptedLinesCollect(code: string, lines: seq<LinePositions>, result: OptionsMap)
    requires AllInCode(code, lines) && forall i :: 0 <= i < |lines| ==> LineResult(code, lines[i]).Ok?
    ensures Collect(code, lines, result).1 == None
    decreases |lines|
  {
    hide LineResult, AddAll;
    if lines != [] {
      AcceptedLinesCollect(code, lines[1..], AddAll(result, LineResult(code, lines[0]).value));
    }
  }

  lemma RecoversCons(code: string, line: LinePositions, rest: seq<LinePositions>, first: seq<Setting>, others: seq<Setting>)
    requires InCode(code, line) && Recovers(code, rest, others)
    requires LineResult(code, line).Ok? && SameEntries(LineResult(code, line).value, first)
    ensures Recovers(code, [line] + rest, first + others)
  {
    hide LineResult, AddAll;
    assert ([line] + rest)[1..] == rest;
  }

  lemma RecoversNothing(code: string)
    ensures Recovers(code, [], [])
  {
  }

  lemma {:induction false} ScriptRecovered(code: string, pos: nat, lines: seq<seq<Setting>>)
    requires pos <= |code| && AllLinesPrintable(lines) && code[pos..] == PrintScript(lines)
    ensures Recovers(code, OptionLines(code, pos), Flatten(lines))
    decreases |lines|
  {
    hide Recovers, LineResult, LineAt, PrintLine, PrintScript, LineText, OptionLines;
    if lines == [] {
      NoLines(code, pos);
    } else {
      var line := LineAt(code, pos);
      PrintedLineShape(lines[0]);
      var here, rest := LinesStep(code, pos);
      if |lines| > 1 {
        LineAndRest(code, pos, lines);
        ScriptRecovered(code, line.end.value + 1, lines[1..]);
      } else {
        OnlyLine(code, pos, lines);
        RecoversNothing(code);
      }
      assert Recovers(code, rest, Flatten(lines[1..]));
      assert [] + Flatten(lines[1..]) == Flatten(lines[1..]) && [] + rest == rest;
      if lines[0] != [] {
        PrintedLineResult(code, line, lines[0]);
        RecoversCons(code, line, rest, lines[0], Flatten(lines[1..]));
      }
    }
  }

  lemma NoLines(code: string, pos: nat)
    requires pos <= |code| && code[pos..] == PrintScript([])
    ensures Recovers(code, OptionLines(code, pos), [])
  {
    hide LineText;
    assert pos == |code|;
    PercentInLine(code, pos);
    assert OptionLines(code, pos) == [];
  }

  // The values set for a key, in order.
  function ValuesOf(settings: seq<Setting>, key: string): seq<string>
    decreases |settings|
  {
    if settings == [] then []
    else ValuesOf(settings[..|settings| - 1], key) + if settings[|settings| - 1].key == key then [settings[|settings| - 1].value] else []
  }

  function Values(options: seq<ScriptOption>): (r: seq<string>)
    ensures |r| == |options|
  {
    seq(|options|, i requires 0 <= i < |options| => options[i].value)
  }

  lemma {:induction false} SelectedValues(entries: seq<KeyedOption>, settings: seq<Setting>, key: string)
    requires SameEntries(entries, settings)
    ensures Values(Select(entries, key)) == ValuesOf(settings, key)
    decreases |entries|
  {
    if entries != [] {
      SelectedValues(entries[..|entries| - 1], settings[..|settings| - 1], key);
    }
  }

  // Printing any settings, spread over lines in any way, and parsing the script gives back for every key
  // exactly its values, in order, without an error.
  lemma RoundTrip(lines: seq<seq<Setting>>, key: string)
    requires AllLinesPrintable(lines)
    ensures var code := PrintScript(lines);
            && AllInCode(code, OptionLines(code, 0))
            && var (result, error) := Collect(code, OptionLines(code, 0), map[]);
               error == None && Values(Lookup(result, key)) == ValuesOf(Flatten(lines), key)
  {
    hide OptionLines, PrintScript, Recorded, Select, Collect;
    var code := PrintScript(lines);
    assert code[0..] == code;
    ScriptRecovered(code, 0, lines);
    var found := OptionLines(code, 0);
    AcceptedLinesCollect(code, found, map[]);
    CollectAddsRecorded(code, found, map[]);
    LookupAddAll(map[], Recorded(code, found), key);
    assert [] + Select(Recorded(code, found), key) == Select(Recorded(code, found), key);
    SelectedValues(Recorded(code, found), Flatten(lines), key);
  }
}
