/** Where the recorded options lie in the script. */
module OptionExtents {
  import opened Wrappers
  import opened Text
  import opened StringSearch
  import opened ShiftReduce
  import opened OptionLexer
  import opened OptionTable
  import opened OptionText
  import opened OptionDriver
  import opened OptionAcceptance
  import opened ScriptOptions

  // ---------------------------------------------------------------------------------------------
  // What ends up in the result map.

  // The options of the lines, in order, up to the first line that is not accepted.
  function Recorded(code: string, lines: seq<LinePositions>): seq<KeyedOption>
    requires AllInCode(code, lines)
    decreases |lines|
  {
    if lines == [] then []
    else
      match LineResult(code, lines[0])
      case Err(_) => []
      case Ok(entries) => entries + Recorded(code, lines[1..])
  }

  lemma {:induction false} CollectAddsRecorded(code: string, lines: seq<LinePositions>, result: OptionsMap)
    requires AllInCode(code, lines)
    ensures Collect(code, lines, result).0 == AddAll(result, Recorded(code, lines))
    decreases |lines|
  {
    hide LineResult, AddAll;
    AddNothing(result);
    if lines != [] && LineResult(code, lines[0]).Ok? {
      var entries := LineResult(code, lines[0]).value;
      CollectAddsRecorded(code, lines[1..], AddAll(result, entries));
      AddAllAppend(result, entries, Recorded(code, lines[1..]));
    }
  }

  // The options recorded for one key, in order.
  function Select(entries: seq<KeyedOption>, key: string): seq<ScriptOption>
    decreases |entries|
  {
    if entries == [] then []
    else
      var init, last := entries[..|entries| - 1], entries[|entries| - 1];
      Select(init, key) + if last.key == key then [last.option] else []
  }

  lemma {:induction false} LookupAddAll(result: OptionsMap, entries: seq<KeyedOption>, key: string)
    ensures Lookup(AddAll(result, entries), key) == Lookup(result, key) + Select(entries, key)
    decreases |entries|
  {
    if entries == [] {
      assert Lookup(result, key) + [] == Lookup(result, key);
    } else {
      var init, last := entries[..|entries| - 1], entries[|entries| - 1];
      LookupAddAll(result, init, key);
      var before := Lookup(result, key) + Select(init, key);
      assert before + [] == before;
      assert before + [last.option] == Lookup(result, key) + (Select(init, key) + [last.option]);
    }
  }

  // The position in `entries` of the i-th option selected for `key`.
  function Origin(entries: seq<KeyedOption>, key: string, i: nat): (at: nat)
    requires i < |Select(entries, key)|
    ensures at < |entries| && entries[at] == KeyedOption(key, Select(entries, key)[i])
    decreases |entries|
  {
    var init, last := entries[..|entries| - 1], entries[|entries| - 1];
    if last.key == key && i == |Select(entries, key)| - 1 then |entries| - 1 else Origin(init, key, i)
  }

  lemma {:induction false} OriginIncreases(entries: seq<KeyedOption>, key: string, i: nat, j: nat)
    requires i < j < |Select(entries, key)|
    ensures Origin(entries, key, i) < Origin(entries, key, j)
    decreases |entries|
  {
    var init, last := entries[..|entries| - 1], entries[|entries| - 1];
    if !(last.key == key && j == |Select(entries, key)| - 1) {
      OriginIncreases(init, key, i, j);
    }
  }

  // ---------------------------------------------------------------------------------------------
  // Offsets.

  ghost predicate Ordered(options: seq<LineOption>) {
    forall i, j :: 0 <= i < j < |options| ==> options[i].end < options[j].start
  }

  ghost predicate Delimited(line: string, options: seq<LineOption>) {
    forall i :: 0 <= i < |options| ==>
      options[i].start < options[i].end < |line| && line[options[i].start] == '%' && line[options[i].end] == ';'
  }

  lemma {:induction false} OptionsOrdered(line: string, pos: nat, any: bool)
    requires pos <= |line| && ParseText(line, pos, any).Ok?
    ensures Ordered(ParseText(line, pos, any).value) && Delimited(line, ParseText(line, pos, any).value)
    decreases |line| - pos
  {
    hide OptionAt;
    var start := BlanksEnd(line, pos);
    if pos < |line| && start < |line| && line[start] == '%' {
      var option := OptionAt(line, start).value;
      OptionsOrdered(line, option.end + 1, true);
    }
  }

  predicate NoBreak(text: string) {
    forall i :: 0 <= i < |text| ==> !IsLineBreak(text[i])
  }

  lemma LineHasNoBreak(code: string, pos: nat)
    requires pos <= |code|
    ensures NoBreak(LineText(code, LineAt(code, pos)))
  {
  }

  lemma ColumnAt(line: string, pos: nat)
    requires pos <= |line| && NoBreak(line)
    ensures PointAt(line, pos).column == (1 + pos) % COLUMN_MODULUS
  {
    assert forall i :: 0 <= i < pos ==> line[..pos][i] == line[i];
    AdvanceInLine(START, line[..pos]);
  }

  // The extent recorded for an option is right exactly when its columns fit the 32-bit counters.
  lemma ExtentExact(line: string, lineStart: nat, o: LineOption)
    requires NoBreak(line) && o.start < o.end < |line| && lineStart + |line| < SIZE_MODULUS
    ensures var e := ToEntry(lineStart, Parsed(line, o));
            && (e.option.idxInSource == lineStart + o.start <==> o.start + 1 < COLUMN_MODULUS)
            && (e.option.size == o.end - o.start + 1 <==> o.end - o.start + 1 < COLUMN_MODULUS)
  {
    ColumnAt(line, o.start);
    ColumnAt(line, o.end);
    hide PointAt;
    WrappedStart(lineStart, o.start);
    WrappedSize(o.start, o.end);
  }

  lemma WrappedStart(lineStart: nat, start: nat)
    requires lineStart + start + 1 < SIZE_MODULUS
    ensures (lineStart + (1 + start) % COLUMN_MODULUS + SIZE_MODULUS - 1) % SIZE_MODULUS == lineStart + start <==> start + 1 < COLUMN_MODULUS
  {
    var column := (1 + start) % COLUMN_MODULUS;
    if start + 1 < COLUMN_MODULUS {
      assert column == 1 + start;
    } else {
      assert column < 1 + start;
    }
  }

  lemma WrappedSize(start: nat, end: nat)
    requires start < end
    ensures ((1 + end) % COLUMN_MODULUS + COLUMN_MODULUS - (1 + start) % COLUMN_MODULUS % COLUMN_MODULUS + 1) % COLUMN_MODULUS == end - start + 1
            <==> end - start + 1 < COLUMN_MODULUS
  {
    var m := COLUMN_MODULUS;
    var a, b := (1 + start) / m, (1 + end) / m;
    assert (1 + end) % m + m - (1 + start) % m + 1 == end - start + 1 + m * (a - b + 1);
    SameRemainder(end - start + 1, a - b + 1);
  }

  lemma SameRemainder(x: nat, k: int)
    ensures (x + COLUMN_MODULUS * k) % COLUMN_MODULUS == x % COLUMN_MODULUS
  {
  }

  // ---------------------------------------------------------------------------------------------
  // The recorded extents.

  predicate Extent(code: string, o: ScriptOption) {
    o.size > 0 && o.idxInSource + o.size <= |code| && code[o.idxInSource] == '%' && code[o.idxInSource + o.size - 1] == ';'
  }

  predicate Before(a: ScriptOption, b: ScriptOption) {
    a.idxInSource + a.size <= b.idxInSource
  }

  // Extents of options inside code[from..to], one after the other.
  ghost predicate Placed(code: string, entries: seq<KeyedOption>, from: nat, to: nat) {
    && (forall i :: 0 <= i < |entries| ==>
          Extent(code, entries[i].option) && from <= entries[i].option.idxInSource && entries[i].option.idxInSource + entries[i].option.size <= to)
    && forall i, j :: 0 <= i < j < |entries| ==> Before(entries[i].option, entries[j].option)
  }

  lemma PlacedAppend(code: string, a: seq<KeyedOption>, b: seq<KeyedOption>, from: nat, mid: nat, to: nat)
    requires Placed(code, a, from, mid) && Placed(code, b, mid, to) && from <= mid <= to
    ensures Placed(code, a + b, from, to)
  {
    hide Extent;
  }

  lemma EntryPlaced(code: string, line: LinePositions, o: LineOption)
    requires InCode(code, line) && |code| < SIZE_MODULUS
    requires var text := LineText(code, line);
             && NoBreak(text) && |text| + 1 < COLUMN_MODULUS
             && o.start < o.end < |text| && text[o.start] == '%' && text[o.end] == ';'
    ensures var e := ToEntry(line.start, OptionAcceptance.Parsed(LineText(code, line), o)).option;
            e.idxInSource == line.start + o.start && e.size == o.end - o.start + 1 && Extent(code, e)
  {
    hide ToEntry, Parsed;
    ExtentExact(LineText(code, line), line.start, o);
  }

  function Stop(code: string, line: LinePositions): nat {
    if line.end.Some? then line.end.value else |code|
  }

  lemma LinePlaced(code: string, line: LinePositions)
    requires InCode(code, line) && |code| < SIZE_MODULUS
    requires NoBreak(LineText(code, line)) && |LineText(code, line)| + 1 < COLUMN_MODULUS
    requires LineResult(code, line).Ok?
    ensures Placed(code, LineResult(code, line).value, line.start, Stop(code, line))
  {
    hide ToEntry, Parsed, ParseText;
    var text := LineText(code, line);
    var options := ParseText(text, 0, false).value;
    OptionsOrdered(text, 0, false);
    forall i | 0 <= i < |options|
      ensures var e := ToEntry(line.start, OptionAcceptance.Parsed(text, options[i])).option;
              e.idxInSource == line.start + options[i].start && e.size == options[i].end - options[i].start + 1 && Extent(code, e)
    {
      EntryPlaced(code, line, options[i]);
    }
  }

  // Every line with a '%' is short enough for the column counters.
  ghost predicate ShortLines(code: string, pos: nat)
    requires pos <= |code|
  {
    forall i :: 0 <= i < |OptionLines(code, pos)| ==> |LineText(code, OptionLines(code, pos)[i])| + 1 < COLUMN_MODULUS
  }

  // OptionLines, one line at a time.
  lemma LinesStep(code: string, pos: nat) returns (here: seq<LinePositions>, rest: seq<LinePositions>)
    requires pos <= |code|
    ensures InCode(code, LineAt(code, pos)) && pos <= Stop(code, LineAt(code, pos)) <= |code|
    ensures here == if '%' in LineText(code, LineAt(code, pos)) then [LineAt(code, pos)] else []
    ensures rest == if LineAt(code, pos).end.None? then [] else OptionLines(code, LineAt(code, pos).end.value + 1)
    ensures OptionLines(code, pos) == here + rest && AllInCode(code, here + rest) && AllInCode(code, rest)
  {
    hide LineText, FindFirst;
    var line := LineAt(code, pos);
    here := if '%' in LineText(code, line) then [line] else [];
    rest := if line.end.None? then [] else OptionLines(code, line.end.value + 1);
    assert here + [] == here;
  }

  lemma ShortLinesStep(code: string, pos: nat)
    requires pos <= |code| && ShortLines(code, pos)
    ensures InCode(code, LineAt(code, pos))
    ensures '%' in LineText(code, LineAt(code, pos)) ==> |LineText(code, LineAt(code, pos))| + 1 < COLUMN_MODULUS
    ensures LineAt(code, pos).end.Some? ==> ShortLines(code, LineAt(code, pos).end.value + 1)
  {
    hide LineText, LineAt, OptionLines;
    var here, rest := LinesStep(code, pos);
    if here != [] {
      assert (here + rest)[0] == here[0];
    }
    assert forall i :: 0 <= i < |rest| ==> rest[i] == (here + rest)[i + |here|];
  }

  lemma RecordedStep(code: string, line: LinePositions, rest: seq<LinePositions>)
    requires AllInCode(code, [line] + rest) && AllInCode(code, rest) && InCode(code, line)
    ensures Recorded(code, [line] + rest) ==
            if LineResult(code, line).Err? then [] else LineResult(code, line).value + Recorded(code, rest)
  {
    hide LineResult;
    assert ([line] + rest)[1..] == rest;
  }

  lemma NothingPlaced(code: string, from: nat, to: nat)
    ensures Placed(code, [], from, to)
  {
  }

  lemma {:induction false} RecordedPlaced(code: string, pos: nat)
    requires pos <= |code| < SIZE_MODULUS && ShortLines(code, pos)
    ensures AllInCode(code, OptionLines(code, pos))
    ensures Placed(code, Recorded(code, OptionLines(code, pos)), pos, |code|)
    decreases |code| - pos
  {
    hide Placed, LineResult, LineText, ShortLines, NoBreak, Recorded, OptionLines, AllInCode, Stop, FindFirst;
    var line := LineAt(code, pos);
    ShortLinesStep(code, pos);
    LineHasNoBreak(code, pos);
    var here, rest := LinesStep(code, pos);
    if line.end.Some? {
      RecordedPlaced(code, line.end.value + 1);
    }
    RestPlaced(code, line, rest);
    if '%' in LineText(code, line) {
      RecordedStep(code, line, rest);
      NothingPlaced(code, pos, |code|);
      if LineResult(code, line).Ok? {
        LinePlaced(code, line);
        PlacedAppend(code, LineResult(code, line).value, Recorded(code, rest), pos, Stop(code, line), |code|);
      }
    } else {
      assert [] + rest == rest;
      PlacedFrom(code, Recorded(code, rest), pos, Stop(code, line), |code|);
    }
  }

  lemma RestPlaced(code: string, line: LinePositions, rest: seq<LinePositions>)
    requires AllInCode(code, rest) && InCode(code, line)
    requires if line.end.None? then rest == [] else Placed(code, Recorded(code, rest), line.end.value + 1, |code|)
    ensures Placed(code, Recorded(code, rest), Stop(code, line), |code|)
  {
    if line.end.Some? {
      PlacedFrom(code, Recorded(code, rest), line.end.value, line.end.value + 1, |code|);
    }
  }

  lemma PlacedFrom(code: string, entries: seq<KeyedOption>, a: nat, b: nat, to: nat)
    requires a <= b && Placed(code, entries, b, to)
    ensures Placed(code, entries, a, to)
  {
  }

  // The extents in a result map are those of distinct, disjoint options of the script.
  ghost predicate Extents(code: string, result: OptionsMap) {
    && (forall key, i :: key in result && 0 <= i < |result[key]| ==> Extent(code, result[key][i]))
    && (forall key, i, j :: key in result && 0 <= i < j < |result[key]| ==> Before(result[key][i], result[key][j]))
    && (forall key, key', i, j :: key in result && key' in result && key != key' && 0 <= i < |result[key]| && 0 <= j < |result[key']| ==>
          Before(result[key][i], result[key'][j]) || Before(result[key'][j], result[key][i]))
  }

  // Starting from an empty map, whether or not a line fails: the recorded extents start at '%', end at
  // ';', are pairwise disjoint, and increase strictly in each key's list.
  lemma ExtentsRecorded(code: string)
    requires |code| < SIZE_MODULUS && ShortLines(code, 0)
    ensures AllInCode(code, OptionLines(code, 0))
    ensures Extents(code, Collect(code, OptionLines(code, 0), map[]).0)
  {
    hide Collect, Recorded, ShortLines, AddAll, OptionLines;
    RecordedPlaced(code, 0);
    CollectAddsRecorded(code, OptionLines(code, 0), map[]);
    PlacedExtents(code, Recorded(code, OptionLines(code, 0)), AddAll(map[], Recorded(code, OptionLines(code, 0))));
  }

  lemma PlacedExtents(code: string, entries: seq<KeyedOption>, result: OptionsMap)
    requires Placed(code, entries, 0, |code|) && result == AddAll(map[], entries)
    ensures Extents(code, result)
  {
    hide AddAll, Select, Extent, Before;
    forall key | key in result
      ensures result[key] == Select(entries, key)
    {
      LookupAddAll(map[], entries, key);
      assert [] + Select(entries, key) == Select(entries, key);
    }
    forall key, i, j | key in result && 0 <= i < j < |result[key]|
      ensures Before(result[key][i], result[key][j])
    {
      OriginIncreases(entries, key, i, j);
    }
    forall key, i | key in result && 0 <= i < |result[key]|
      ensures Extent(code, result[key][i])
    {
      var at := Origin(entries, key, i);
    }
    forall key, key', i, j | key in result && key' in result && key != key' && 0 <= i < |result[key]| && 0 <= j < |result[key']|
      ensures Before(result[key][i], result[key'][j]) || Before(result[key'][j], result[key][i])
    {
      var a, b := Origin(entries, key, i), Origin(entries, key', j);
    }
  }
}
