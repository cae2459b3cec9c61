/** Where the old option extractor and the new option parser agree. */
module ParserAgreement {
  import opened Wrappers
  import opened StringSearch
  import opened OptionLexer
  import opened OptionText
  import opened OptionForm
  import opened ScriptOptions
  import opened OptionExtents
  import opened LegacyOptions

  // The blanks " \t\f\v" and the terminator that the old extractor is called with.

  const TERMINATOR := ";"

  function TrimRight(text: string): string {
    if text != [] && IsBlank(text[|text| - 1]) then TrimRight(text[..|text| - 1]) else text
  }

  predicate NoBackslash(text: string) {
    forall i :: 0 <= i < |text| ==> text[i] != '\\'
  }

  lemma {:induction false} PlainDecode(text: string)
    requires NoBackslash(text)
    ensures DecodeRest(text) == text
    decreases |text|
  {
    if text != [] {
      PlainDecode(text[1..]);
      assert text == [text[0]] + text[1..];
    }
  }

  lemma {:induction false} NoBackslashes(line: string, from: nat, i: nat)
    requires from <= i <= |line| && NoBackslash(line[from..i])
    ensures Backslashes(line, from, i) == 0
  {
    if i > from {
      assert line[from..i][i - 1 - from] == line[i - 1];
    }
  }

  // Without backslashes the terminator is the first ';'.
  lemma PlainTerminator(line: string, body: nat, i: nat)
    requires body <= |line| && body <= i < Terminator(line, body) && NoBackslash(line[body..Terminator(line, body)])
    ensures line[i] != ';'
  {
    TerminatorParity(line, body);
    assert !Terminates(line, body, i);
    assert forall k :: 0 <= k < i - body ==> line[body..i][k] == line[body..Terminator(line, body)][k];
    NoBackslashes(line, body, i);
  }

  lemma {:induction false} TrimmedAt(text: string, last: nat)
    requires last < |text| && !IsBlank(text[last]) && forall i :: last < i < |text| ==> IsBlank(text[i])
    ensures TrimRight(text) == text[..last + 1]
    decreases |text|
  {
    if last == |text| - 1 {
      assert text[..last + 1] == text;
    } else {
      TrimmedAt(text[..|text| - 1], last);
      assert text[..|text| - 1][..last + 1] == text[..last + 1];
    }
  }

  // An option of the script, by its absolute positions: '%' at `p`, key up to `k`, value text from `b`,
  // terminator at `e`, on a line that starts at `lineStart`.
  ghost predicate OptionInCode(code: string, key: string, lineStart: nat, p: nat, k: nat, b: nat, e: nat) {
    && lineStart <= p < p + 1 < k < b < e < |code|
    && OnLine(code, lineStart, p, e)
    && KeyAndGap(code, key, p, k, b)
    && ValueAt(code, b, e)
  }

  // Only blanks stand before the '%' on its line, and no '%' before it in the script.
  ghost predicate OnLine(code: string, lineStart: nat, p: nat, e: nat)
    requires lineStart <= p < e < |code|
  {
    && (lineStart > 0 ==> IsLineBreak(code[lineStart - 1]))
    && (forall i :: lineStart <= i <= e ==> !IsLineBreak(code[i]))
    && (forall i :: 0 <= i < p ==> code[i] != '%') && code[p] == '%'
    && (forall i :: lineStart <= i < p ==> IsBlank(code[i]))
  }

  ghost predicate KeyAndGap(code: string, key: string, p: nat, k: nat, b: nat)
    requires p < k < b < |code|
  {
    code[p + 1..k] == key && forall i :: k <= i < b ==> IsBlank(code[i])
  }

  ghost predicate ValueAt(code: string, b: nat, e: nat)
    requires b < e < |code|
  {
    !IsBlank(code[b]) && (forall i :: b <= i < e ==> code[i] != ';') && code[e] == ';'
  }

  lemma StandsNot(s: string, part: string, at: nat)
    requires part != [] && at < |s| && s[at] != part[0]
    ensures !StandsAt(s, part, at)
  {
    if at + |part| <= |s| {
      assert s[at..at + |part|][0] == s[at];
    }
  }

  lemma FindOption(code: string, key: string, lineStart: nat, p: nat, k: nat, b: nat, e: nat)
    requires OptionInCode(code, key, lineStart, p, k, b, e)
    ensures Find(code, "%" + key, 0) == Some(p) && |"%" + key| == k - p
  {
    assert code[p..k] == [code[p]] + code[p + 1..k];
    assert StandsAt(code, "%" + key, p);
    forall i | 0 <= i < p
      ensures !StandsAt(code, "%" + key, i)
    {
      StandsNot(code, "%" + key, i);
    }
  }

  // The old extractor's searches land on these positions.
  lemma SearchesOnLine(code: string, lineStart: nat, p: nat, e: nat)
    requires lineStart <= p < e < |code| && OnLine(code, lineStart, p, e)
    ensures LineStart(code, p) == lineStart && FindFirst(code, NotIn(BLANK_CHARS), lineStart) == Some(p)
  {
    assert !IsBlank('%');
    assert lineStart > 0 ==> In(LINE_BREAKS)(code[lineStart - 1]);
  }

  lemma SearchesInOption(code: string, key: string, p: nat, k: nat, b: nat, e: nat)
    requires p < k < b < e < |code| && KeyAndGap(code, key, p, k, b) && ValueAt(code, b, e)
    requires forall i :: b <= i <= e ==> !IsLineBreak(code[i])
    ensures FindFirst(code, NotIn(BLANK_CHARS), k) == Some(b)
    ensures FindFirst(code, In(TERMINATOR + LINE_BREAKS), b) == Some(e)
  {
  }

  lemma LastNonBlank(code: string, b: nat, e: nat)
    requires b < e <= |code| && !IsBlank(code[b])
    ensures var last := FindLast(code, NotIn(BLANK_CHARS), e - 1);
            last.Some? && b <= last.value < e && code[b..last.value + 1] == TrimRight(code[b..e])
  {
    var last := FindLast(code, NotIn(BLANK_CHARS), e - 1).value;
    assert code[b..e][last - b] == code[last];
    assert forall i :: last - b < i < e - b ==> code[b..e][i] == code[b + i];
    TrimmedAt(code[b..e], last - b);
    assert code[b..e][..last - b + 1] == code[b..last + 1];
  }

  lemma Searches(code: string, key: string, lineStart: nat, p: nat, k: nat, b: nat, e: nat)
    requires OptionInCode(code, key, lineStart, p, k, b, e)
    ensures p < k < b < e < |code| && !IsBlank(code[b])
    ensures LineStart(code, p) == lineStart && FindFirst(code, NotIn(BLANK_CHARS), lineStart) == Some(p)
    ensures FindFirst(code, NotIn(BLANK_CHARS), k) == Some(b) && FindFirst(code, In(TERMINATOR + LINE_BREAKS), b) == Some(e)
    ensures StandsAt(code, TERMINATOR, e)
  {
    hide FindFirst, LineStart;
    SearchesOnLine(code, lineStart, p, e);
    SearchesInOption(code, key, p, k, b, e);
    assert code[e..e + 1] == TERMINATOR;
  }

  lemma ExtractsOption(code: string, key: string, lineStart: nat, p: nat, k: nat, b: nat, e: nat)
    requires OptionInCode(code, key, lineStart, p, k, b, e)
    ensures Extract(code, "%" + key, BLANK_CHARS, TERMINATOR) == Extracted(TrimRight(code[b..e]), code[..p] + code[e + 1..], p)
  {
    hide Find, FindFirst, FindLast, LineStart, TrimRight, OptionInCode, StandsAt;
    FindOption(code, key, lineStart, p, k, b, e);
    Searches(code, key, lineStart, p, k, b, e);
    LastNonBlank(code, b, e);
  }

  // The first option of the first line with a '%', seen in the whole script.
  lemma OptionPositions(code: string, line: LinePositions, option: LineOption, k: nat, b: nat)
    requires GetNextLine(code, 0) == Some(line) && InCode(code, line)
    requires var text := LineText(code, line);
             && NoBreak(text) && option.start < |text| && BlanksEnd(text, 0) == option.start && text[option.start] == '%'
             && OptionAt(text, option.start) == Ok(option)
             && NoBackslash(text[option.start..option.end])
             && k == WordEnd(text, option.start + 1) && b == BlanksEnd(text, k)
    ensures OptionInCode(code, option.key, line.start, line.start + option.start, line.start + k, line.start + b, line.start + option.end)
    ensures option.value == code[line.start + b..line.start + option.end]
  {
    hide LineText, WordEnd, BlanksEnd, Terminator, Decode, OptionAt, OnLine, KeyAndGap, ValueAt, GetNextLine;
    var text, start := LineText(code, line), option.start;
    OptionParts(text, start, option);
    TextInCode(code, line);
    LineFacts(code, line, start, option.end);
    KeyFacts(code, line, option.key, start, k, b);
    ValueFacts(code, line, start, b, option.end);
  }

  lemma LineFacts(code: string, line: LinePositions, start: nat, end: nat)
    requires GetNextLine(code, 0) == Some(line) && InCode(code, line) && start < end < |LineText(code, line)|
    requires NoBreak(LineText(code, line)) && BlanksEnd(LineText(code, line), 0) == start && LineText(code, line)[start] == '%'
    ensures line.start + end < |code| && OnLine(code, line.start, line.start + start, line.start + end)
  {
    hide LineText, BlanksEnd, GetNextLine;
    TextInCode(code, line);
    PercentFirst(code, line, start);
  }

  lemma KeyFacts(code: string, line: LinePositions, key: string, start: nat, k: nat, b: nat)
    requires InCode(code, line) && start + 1 < k < b < |LineText(code, line)|
    requires key == LineText(code, line)[start + 1..k] && b == BlanksEnd(LineText(code, line), k)
    ensures line.start + b < |code| && KeyAndGap(code, key, line.start + start, line.start + k, line.start + b)
  {
    hide LineText, BlanksEnd;
    TextInCode(code, line);
  }

  lemma ValueFacts(code: string, line: LinePositions, start: nat, b: nat, end: nat)
    requires InCode(code, line) && start < b < end < |LineText(code, line)|
    requires var text := LineText(code, line);
             Terminator(text, b) == end && text[end] == ';' && !IsBlank(text[b]) && NoBackslash(text[start..end])
    ensures line.start + end < |code| && ValueAt(code, line.start + b, line.start + end)
    ensures Decode(LineText(code, line)[b..end]) == code[line.start + b..line.start + end]
  {
    hide LineText, Terminator, Decode;
    TextInCode(code, line);
    ValueText(LineText(code, line), b, end, start);
    assert LineText(code, line)[b..end] == code[line.start + b..line.start + end];
  }

  lemma TextInCode(code: string, line: LinePositions)
    requires InCode(code, line)
    ensures line.start + |LineText(code, line)| <= |code|
    ensures LineText(code, line) == code[line.start..line.start + |LineText(code, line)|]
    ensures forall i :: line.start <= i < line.start + |LineText(code, line)| ==> code[i] == LineText(code, line)[i - line.start]
  {
  }

  // A value text without backslashes denotes itself and contains no ';'.
  lemma ValueText(text: string, b: nat, end: nat, start: nat)
    requires start <= b < end < |text| && Terminator(text, b) == end && NoBackslash(text[start..end])
    ensures Decode(text[b..end]) == text[b..end]
    ensures forall i :: b <= i < end ==> text[i] != ';'
  {
    hide Terminator, DecodeRest;
    assert forall i :: 0 <= i < end - b ==> text[b..end][i] == text[start..end][b - start + i];
    PlainDecode(text[b..end]);
    forall i | b <= i < end
      ensures text[i] != ';'
    {
      PlainTerminator(text, b, i);
    }
  }

  lemma PercentFirst(code: string, line: LinePositions, start: nat)
    requires GetNextLine(code, 0) == Some(line) && InCode(code, line)
    requires start < |LineText(code, line)| && BlanksEnd(LineText(code, line), 0) == start && LineText(code, line)[start] == '%'
    ensures forall i :: 0 <= i < line.start + start ==> code[i] != '%'
    ensures line.start > 0 ==> IsLineBreak(code[line.start - 1])
  {
    hide LineText, BlanksEnd;
    TextInCode(code, line);
    var p := FindFirst(code, IsPercent, 0).value;
    assert line.start <= p;
    forall i | line.start <= i < line.start + start
      ensures code[i] != '%'
    {
      assert IsBlank(LineText(code, line)[i - line.start]);
    }
  }

  // When the first line with a '%' opens with an option that the new parser accepts and whose value text
  // has no backslash, the old extractor, asked for that key, reports the same start, erases exactly the
  // recorded extent, and returns the value without its trailing blanks.
  lemma Agreement(code: string, line: LinePositions)
    requires GetNextLine(code, 0) == Some(line) && InCode(code, line)
    requires var parsed := ParseText(LineText(code, line), 0, false);
             parsed.Ok? && parsed.value != [] && NoBackslash(LineText(code, line)[parsed.value[0].start..parsed.value[0].end])
    ensures var option := ParseText(LineText(code, line), 0, false).value[0];
            var at, size := line.start + option.start, option.end - option.start + 1;
            && at + size <= |code|
            && Extract(code, "%" + option.key, BLANK_CHARS, TERMINATOR) == Extracted(TrimRight(option.value), code[..at] + code[at + size..], at)
  {
    hide GetNextLine, OptionAt, BlanksEnd, WordEnd, LineText, OptionInCode, Extract, TrimRight;
    var text := LineText(code, line);
    var start := BlanksEnd(text, 0);
    var option := ParseText(text, 0, false).value[0];
    var k := WordEnd(text, start + 1);
    NextLineHasNoBreak(code, line);
    OptionParts(text, start, option);
    OptionPositions(code, line, option, k, BlanksEnd(text, k));
    InsideCode(code, option.key, line.start, line.start + start, line.start + k, line.start + BlanksEnd(text, k), line.start + option.end);
    ExtractsOption(code, option.key, line.start, line.start + start, line.start + k, line.start + BlanksEnd(text, k), line.start + option.end);
  }

  lemma InsideCode(code: string, key: string, lineStart: nat, p: nat, k: nat, b: nat, e: nat)
    requires OptionInCode(code, key, lineStart, p, k, b, e)
    ensures e < |code|
  {
  }

  lemma NextLineHasNoBreak(code: string, line: LinePositions)
    requires GetNextLine(code, 0) == Some(line) && InCode(code, line)
    ensures NoBreak(LineText(code, line))
  {
    hide FindLast;
  }
}
