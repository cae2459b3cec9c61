/** The older option extractor (`extractOptionLine`), and its agreement with the new parser. */
module LegacyOptions {
  import opened Wrappers
  import opened StringSearch
  import opened OptionLexer
  import opened OptionText
  import opened ScriptOptions
  import opened OptionExtents

  // NoValues and NoEnd are the exceptions it throws; LateNoValues is the last of its three checks for a
  // missing value. Without an option, or with anything but blanks before it, the code is left alone.
  datatype Extraction =
    | NotFound
    | Ignored
    | NoValues
    | NoEnd
    | LateNoValues
    | Extracted(result: string, rest: string, pos: nat)

  function In(chars: string): char -> bool {
    c => c in chars
  }

  function NotIn(chars: string): char -> bool {
    c => c !in chars
  }

  const LINE_BREAKS := "\r\n"

  // The start of the line that contains `at`.
  function LineStart(code: string, at: nat): nat {
    match FindLast(code, In(LINE_BREAKS), at)
    case None => 0
    case Some(b) => b + 1
  }

  // The option's value and the code without the option, for an option that starts at `startPos`.
  function ExtractAt(code: string, option: string, whitespace: string, lineEnd: string, startPos: nat): Extraction
    requires StandsAt(code, option, startPos)
  {
    match FindFirst(code, NotIn(whitespace), startPos + |option|)
    case None => NoValues
    case Some(firstPos) =>
      match FindFirst(code, In(lineEnd + LINE_BREAKS), firstPos)
      case None => NoEnd
      case Some(lastPos) =>
        if !StandsAt(code, lineEnd, lastPos) then NoEnd
        else if firstPos >= lastPos then NoValues
        else
          match FindLast(code, NotIn(whitespace), lastPos - 1)
          case None => LateNoValues
          case Some(optionsEnd) =>
            if optionsEnd < firstPos then LateNoValues
            else Extracted(code[firstPos..optionsEnd + 1], code[..startPos] + code[lastPos + 1..], startPos)
  }

  function Extract(code: string, option: string, whitespace: string, lineEnd: string): Extraction {
    match Find(code, option, 0)
    case None => NotFound
    case Some(startPos) =>
      if FindFirst(code, NotIn(whitespace), LineStart(code, startPos)) != Some(startPos) then Ignored
      else ExtractAt(code, option, whitespace, lineEnd, startPos)
  }

  // ---------------------------------------------------------------------------------------------
  // Which options are processed, and with what outcome, by the characters of the code.

  // The first place where the option stands.
  ghost predicate FirstPlace(code: string, option: string, p: nat) {
    StandsAt(code, option, p) && forall i :: 0 <= i < p ==> !StandsAt(code, option, i)
  }

  // Between the start of its line and `p` there is nothing but whitespace, and none at `p`.
  ghost predicate StartsItsLine(code: string, whitespace: string, p: nat) {
    && p < |code| && code[p] !in whitespace && code[p] != '\U{000D}' && code[p] != '\U{000A}'
    && exists lineStart: nat :: WhitespaceFrom(code, whitespace, lineStart, p)
  }

  ghost predicate WhitespaceFrom(code: string, whitespace: string, lineStart: nat, p: nat)
    requires p < |code|
  {
    && lineStart <= p
    && (lineStart > 0 ==> code[lineStart - 1] == '\U{000D}' || code[lineStart - 1] == '\U{000A}')
    && forall i :: lineStart <= i < p ==> code[i] in whitespace && code[i] != '\U{000D}' && code[i] != '\U{000A}'
  }

  // The option is processed, for a value or an exception: its first place is the start of its line.
  ghost predicate Processed(code: string, option: string, whitespace: string) {
    exists p :: FirstPlace(code, option, p) && StartsItsLine(code, whitespace, p)
  }

  lemma BreakLiterals(c: char)
    ensures c in LINE_BREAKS <==> c == '\U{000D}' || c == '\U{000A}'
  {
  }

  lemma PlaceIsFound(code: string, option: string, p: nat)
    ensures FirstPlace(code, option, p) <==> Find(code, option, 0) == Some(p)
  {
    hide StandsAt;
    var found := Find(code, option, 0);
  }

  lemma LineStartIs(code: string, p: nat, lineStart: nat)
    requires lineStart <= p < |code| && code[p] !in LINE_BREAKS
    requires lineStart > 0 ==> code[lineStart - 1] in LINE_BREAKS
    requires forall i :: lineStart <= i < p ==> code[i] !in LINE_BREAKS
    ensures LineStart(code, p) == lineStart
  {
    hide FindLast;
    var breaks := In(LINE_BREAKS);
    forall i | 0 <= i < |code|
      ensures breaks(code[i]) <==> code[i] in LINE_BREAKS
    {
    }
    var found := FindLast(code, breaks, p);
    assert lineStart > 0 ==> breaks(code[lineStart - 1]);
  }

  lemma LineStartIsStart(code: string, p: nat)
    requires p < |code|
    ensures var lineStart := LineStart(code, p);
            && lineStart <= p + 1
            && (lineStart == p + 1 <==> code[p] in LINE_BREAKS)
            && (lineStart > 0 ==> code[lineStart - 1] in LINE_BREAKS)
            && (forall i :: lineStart <= i <= p ==> code[i] !in LINE_BREAKS)
  {
    hide FindLast;
    var found := FindLast(code, In(LINE_BREAKS), p);
    forall i | 0 <= i <= p
      ensures In(LINE_BREAKS)(code[i]) <==> code[i] in LINE_BREAKS
    {
    }
  }

  lemma StartsItsLineIs(code: string, whitespace: string, p: nat)
    requires p <= |code|
    ensures StartsItsLine(code, whitespace, p) <==> FindFirst(code, NotIn(whitespace), LineStart(code, p)) == Some(p)
  {
    hide FindFirst, LineStart;
    forall c: char
      ensures c in LINE_BREAKS <==> c == '\U{000D}' || c == '\U{000A}'
    {
      BreakLiterals(c);
    }
    if StartsItsLine(code, whitespace, p) {
      var lineStart: nat :| WhitespaceFrom(code, whitespace, lineStart, p);
      LineStartIs(code, p, lineStart);
      FirstIs(code, NotIn(whitespace), lineStart, p);
    }
    if FindFirst(code, NotIn(whitespace), LineStart(code, p)) == Some(p) {
      assert NotIn(whitespace)(code[p]);
      LineStartIsStart(code, p);
      var lineStart := LineStart(code, p);
      forall i | lineStart <= i < p
        ensures code[i] in whitespace && code[i] != '\U{000D}' && code[i] != '\U{000A}'
      {
        assert !NotIn(whitespace)(code[i]);
      }
      assert WhitespaceFrom(code, whitespace, lineStart, p);
    }
  }

  lemma FirstIs(s: string, p: char -> bool, from: nat, at: nat)
    requires from <= at < |s| && p(s[at]) && forall i :: from <= i < at ==> !p(s[i])
    ensures FindFirst(s, p, from) == Some(at)
  {
    var found := FindFirst(s, p, from);
  }

  lemma NoneIs(s: string, p: char -> bool, from: nat)
    requires forall i :: from <= i < |s| ==> !p(s[i])
    ensures FindFirst(s, p, from) == None
  {
    var found := FindFirst(s, p, from);
  }

  // An option is processed exactly when its first place starts its line; otherwise it is not found, or
  // ignored for the text before it.
  lemma ProcessedExactly(code: string, option: string, whitespace: string, lineEnd: string)
    ensures var e := Extract(code, option, whitespace, lineEnd);
            && (e.NotFound? <==> forall p :: !FirstPlace(code, option, p))
            && (!e.NotFound? && !e.Ignored? <==> Processed(code, option, whitespace))
  {
    hide Find, FindFirst, LineStart, ExtractAt, StartsItsLine, FirstPlace, StandsAt;
    ShapeOfExtractAt(code, option, whitespace, lineEnd);
    forall p: nat
      ensures FirstPlace(code, option, p) <==> Find(code, option, 0) == Some(p)
    {
      PlaceIsFound(code, option, p);
    }
    var at := Find(code, option, 0);
    if at.Some? {
      PlaceInCode(code, option, at.value);
      StartsItsLineIs(code, whitespace, at.value);
    }
  }

  lemma PlaceInCode(code: string, option: string, p: nat)
    requires FirstPlace(code, option, p)
    ensures p <= |code|
  {
  }

  // The characters `f` and `l` at which the value starts and at which it would have to end.
  ghost predicate ValueStart(code: string, whitespace: string, b: nat, f: nat) {
    b <= f < |code| && code[f] !in whitespace && forall i :: b <= i < f ==> code[i] in whitespace
  }

  predicate Ends(c: char, lineEnd: string) {
    c in lineEnd || c == '\U{000D}' || c == '\U{000A}'
  }

  ghost predicate ValueStop(code: string, lineEnd: string, f: nat, l: nat) {
    f <= l < |code| && Ends(code[l], lineEnd) && forall i :: f <= i < l ==> !Ends(code[i], lineEnd)
  }

  // A processed option has no value when only whitespace follows it in the code, or a terminator follows
  // at once; it has no end when no terminator or line break follows its value, or no terminator stands at
  // the first of them; in all other cases its value is found.
  lemma OutcomeExactly(code: string, option: string, whitespace: string, lineEnd: string, p: nat)
    requires FirstPlace(code, option, p) && StartsItsLine(code, whitespace, p)
    ensures var e, b := Extract(code, option, whitespace, lineEnd), p + |option|;
            && ((forall i :: b <= i < |code| ==> code[i] in whitespace) ==> e == NoValues)
            && (forall f: nat :: ValueStart(code, whitespace, b, f) ==>
                  && ((forall i :: f <= i < |code| ==> !Ends(code[i], lineEnd)) ==> e == NoEnd)
                  && (forall l: nat :: ValueStop(code, lineEnd, f, l) ==> OutcomeAt(code, lineEnd, p, f, l, e)))
  {
    hide Find, FindFirst, FindLast, LineStart, StartsItsLine, FirstPlace, Ends, ExtractAt, OutcomeAt, ValueStart, ValueStop;
    PlaceIsFound(code, option, p);
    PlaceInCode(code, option, p);
    StartsItsLineIs(code, whitespace, p);
    var e, b := ExtractAt(code, option, whitespace, lineEnd, p), p + |option|;
    assert Extract(code, option, whitespace, lineEnd) == e;
    NothingFollows(code, option, whitespace, lineEnd, p);
    forall f: nat | ValueStart(code, whitespace, b, f)
      ensures (forall i :: f <= i < |code| ==> !Ends(code[i], lineEnd)) ==> e == NoEnd
      ensures forall l: nat :: ValueStop(code, lineEnd, f, l) ==> OutcomeAt(code, lineEnd, p, f, l, e)
    {
      NoEndFollows(code, option, whitespace, lineEnd, p, f);
      forall l: nat | ValueStop(code, lineEnd, f, l)
        ensures OutcomeAt(code, lineEnd, p, f, l, e)
      {
        OutcomeStops(code, option, whitespace, lineEnd, p, f, l);
      }
    }
  }

  lemma NothingFollows(code: string, option: string, whitespace: string, lineEnd: string, p: nat)
    requires StandsAt(code, option, p)
    ensures (forall i :: p + |option| <= i < |code| ==> code[i] in whitespace) ==> ExtractAt(code, option, whitespace, lineEnd, p) == NoValues
  {
    hide FindFirst, FindLast, StandsAt;
    if forall i :: p + |option| <= i < |code| ==> code[i] in whitespace {
      NoneIs(code, NotIn(whitespace), p + |option|);
    }
  }

  lemma NoEndFollows(code: string, option: string, whitespace: string, lineEnd: string, p: nat, f: nat)
    requires StandsAt(code, option, p) && ValueStart(code, whitespace, p + |option|, f)
    ensures (forall i :: f <= i < |code| ==> !Ends(code[i], lineEnd)) ==> ExtractAt(code, option, whitespace, lineEnd, p) == NoEnd
  {
    hide FindFirst, FindLast, StandsAt, Ends;
    FirstIs(code, NotIn(whitespace), p + |option|, f);
    if forall i :: f <= i < |code| ==> !Ends(code[i], lineEnd) {
      EndsIs(code, lineEnd);
      NoneIs(code, In(lineEnd + LINE_BREAKS), f);
    }
  }

  // What becomes of a value that starts at `f` and would have to end at `l`.
  ghost predicate OutcomeAt(code: string, lineEnd: string, p: nat, f: nat, l: nat, e: Extraction) {
    && p <= f <= l < |code|
    && if !StandsAt(code, lineEnd, l) then e == NoEnd
       else if l == f then e == NoValues
       else e.Extracted? && e.pos == p && e.rest == code[..p] + code[l + 1..] && e.result <= code[f..l]
  }

  lemma EndsIs(code: string, lineEnd: string)
    ensures forall i :: 0 <= i < |code| ==> (In(lineEnd + LINE_BREAKS)(code[i]) <==> Ends(code[i], lineEnd))
  {
    forall i | 0 <= i < |code|
      ensures In(lineEnd + LINE_BREAKS)(code[i]) <==> Ends(code[i], lineEnd)
    {
      BreakLiterals(code[i]);
    }
  }

  lemma OutcomeStops(code: string, option: string, whitespace: string, lineEnd: string, p: nat, f: nat, l: nat)
    requires StandsAt(code, option, p) && ValueStart(code, whitespace, p + |option|, f) && ValueStop(code, lineEnd, f, l)
    ensures OutcomeAt(code, lineEnd, p, f, l, ExtractAt(code, option, whitespace, lineEnd, p))
  {
    hide FindFirst, FindLast, Ends, StandsAt;
    FirstIs(code, NotIn(whitespace), p + |option|, f);
    EndsIs(code, lineEnd);
    FirstIs(code, In(lineEnd + LINE_BREAKS), f, l);
    if f < l {
      LastFound(code, whitespace, f, l);
      var last := FindLast(code, NotIn(whitespace), l - 1).value;
      assert code[f..last + 1] == code[f..l][..last + 1 - f];
    }
  }

  lemma LastFound(code: string, whitespace: string, f: nat, l: nat)
    requires f < l < |code| && code[f] !in whitespace
    ensures FindLast(code, NotIn(whitespace), l - 1).Some? && f <= FindLast(code, NotIn(whitespace), l - 1).value < l
  {
    assert NotIn(whitespace)(code[f]);
  }

  datatype Thrown = NoValuesFound | EndNotFound

  // The part of the extraction that processes an option found at `startPos`.
  method ProcessOption(code: string, option: string, whitespace: string, lineEnd: string, startPos: nat)
    returns (result: string, code': string, thrown: Option<Thrown>)
    requires StandsAt(code, option, startPos)
    ensures match ExtractAt(code, option, whitespace, lineEnd, startPos)
            case Extracted(value, rest, _) => result == value && code' == rest && thrown == None
            case NoEnd => code' == code && thrown == Some(EndNotFound)
            case _ => code' == code && thrown == Some(NoValuesFound)
  {
    hide FindFirst, FindLast;
    result, code', thrown := "", code, None;
    var firstPos := FindFirst(code, NotIn(whitespace), startPos + |option|);
    if firstPos.None? {
      thrown := Some(NoValuesFound);
      return;
    }
    var lastPos := FindFirst(code, In(lineEnd + LINE_BREAKS), firstPos.value);
    if lastPos.None? || !StandsAt(code, lineEnd, lastPos.value) {
      thrown := Some(EndNotFound);
      return;
    }
    if firstPos.value >= lastPos.value {
      thrown := Some(NoValuesFound);
      return;
    }
    var optionsEnd := FindLast(code, NotIn(whitespace), lastPos.value - 1);
    if optionsEnd.None? || optionsEnd.value < firstPos.value {
      thrown := Some(NoValuesFound);
      return;
    }
    result := code[firstPos.value..optionsEnd.value + 1];
    code' := code[..startPos] + code[lastPos.value + 1..];
  }

  // `code` and `pos` are passed by reference in the source: here the new code and position are returned.
  method ExtractOptionLine(code: string, option: string, whitespace: string, lineEnd: string)
    returns (result: string, code': string, pos: Option<nat>, thrown: Option<Thrown>)
    ensures match Extract(code, option, whitespace, lineEnd)
            case Extracted(value, rest, at) => result == value && code' == rest && pos == Some(at) && thrown == None
            case NoValues => code' == code && thrown == Some(NoValuesFound)
            case LateNoValues => code' == code && thrown == Some(NoValuesFound)
            case NoEnd => code' == code && thrown == Some(EndNotFound)
            case _ => result == "" && code' == code && pos == None && thrown == None
    ensures pos.Some? || thrown.Some? <==> Processed(code, option, whitespace)
    ensures pos.Some? ==> FirstPlace(code, option, pos.value) && thrown == None
    ensures pos.None? ==> code' == code
  {
    hide Find, FindFirst, FindLast, ExtractAt, FirstPlace, Processed;
    ShapeOfExtractAt(code, option, whitespace, lineEnd);
    ProcessedExactly(code, option, whitespace, lineEnd);
    result, code', pos, thrown := "", code, None, None;
    var startPos := Find(code, option, 0);
    if startPos.None? {
      return;
    }
    PlaceIsFound(code, option, startPos.value);
    var lineBreak := FindLast(code, In(LINE_BREAKS), startPos.value);
    var column0 := if lineBreak.None? then 0 else lineBreak.value + 1;
    var firstNonWhiteSpace := FindFirst(code, NotIn(whitespace), column0);
    if firstNonWhiteSpace == startPos {
      result, code', thrown := ProcessOption(code, option, whitespace, lineEnd, startPos.value);
      pos := if thrown.None? then startPos else None;
    }
  }

  // A processed option is neither ignored nor missing, and is reported where it was found.
  lemma ShapeOfExtractAt(code: string, option: string, whitespace: string, lineEnd: string)
    ensures var at := Find(code, option, 0);
            at.Some? ==>
              var e := ExtractAt(code, option, whitespace, lineEnd, at.value);
              e != NotFound && e != Ignored && (e.Extracted? ==> e.pos == at.value)
  {
    hide Find, FindFirst, FindLast;
  }

  // The last of the three checks for a missing value never fires.
  lemma LateCheckNeverFires(code: string, option: string, whitespace: string, lineEnd: string)
    ensures Extract(code, option, whitespace, lineEnd) != LateNoValues
  {
  }

  // How a successful extraction splits the code.
  datatype Split = Split(prefix: string, blanks: string, trailing: string, suffix: string)

  ghost predicate AllIn(text: string, chars: string) {
    forall i :: 0 <= i < |text| ==> text[i] in chars
  }

  ghost predicate NoneIn(text: string, chars: string) {
    forall i :: 0 <= i < |text| ==> text[i] !in chars
  }

  function Joined(a: string, b: string, c: string, d: string, e: string, f: string, g: string): string {
    a + (b + (c + (d + (e + (f + g)))))
  }

  ghost predicate SplitsCode(code: string, option: string, whitespace: string, lineEnd: string, e: Extraction, s: Split)
    requires e.Extracted?
  {
    && Joined(s.prefix, option, s.blanks, e.result, s.trailing, lineEnd, s.suffix) == code
    && e.rest == s.prefix + s.suffix
    && e.pos == |s.prefix|
    && AllIn(s.blanks, whitespace) && AllIn(s.trailing, whitespace)
    && e.result != [] && e.result[0] !in whitespace && e.result[|e.result| - 1] !in whitespace
    && NoneIn(e.result, lineEnd + LINE_BREAKS)
  }

  lemma Cut(code: string, a: nat, b: nat, c: nat)
    requires a <= b <= c <= |code|
    ensures code[a..c] == code[a..b] + code[b..c]
  {
  }

  lemma CutAll(code: string, a: nat, b: nat, c: nat, d: nat, e: nat)
    requires a <= b <= c <= d <= e < |code|
    ensures Joined(code[..a], code[a..b], code[b..c], code[c..d], code[d..e], code[e..e + 1], code[e + 1..]) == code
  {
    Cut(code, 0, a, |code|);
    Cut(code, a, b, |code|);
    Cut(code, b, c, |code|);
    Cut(code, c, d, |code|);
    Cut(code, d, e, |code|);
    Cut(code, e, e + 1, |code|);
  }

  lemma ExtractedWhereFound(code: string, option: string, whitespace: string, lineEnd: string)
    requires Extract(code, option, whitespace, lineEnd).Extracted?
    ensures var e := Extract(code, option, whitespace, lineEnd);
            StandsAt(code, option, e.pos) && ExtractAt(code, option, whitespace, lineEnd, e.pos) == e
  {
    hide Find, FindFirst, FindLast, StandsAt, ExtractAt;
    ShapeOfExtractAt(code, option, whitespace, lineEnd);
  }

  // What the positions of a successful extraction say about the code.
  lemma ExtractionPositions(code: string, option: string, whitespace: string, lineEnd: string, startPos: nat)
    returns (firstPos: nat, optionsEnd: nat, lastPos: nat)
    requires |lineEnd| == 1 && StandsAt(code, option, startPos)
    requires ExtractAt(code, option, whitespace, lineEnd, startPos).Extracted?
    ensures var e, b := ExtractAt(code, option, whitespace, lineEnd, startPos), startPos + |option|;
            && b <= firstPos <= optionsEnd < lastPos < |code|
            && StandsAt(code, lineEnd, lastPos)
            && (forall i :: b <= i < firstPos ==> code[i] in whitespace) && code[firstPos] !in whitespace
            && (forall i :: optionsEnd < i < lastPos ==> code[i] in whitespace) && code[optionsEnd] !in whitespace
            && (forall i :: firstPos <= i < lastPos ==> code[i] !in lineEnd + LINE_BREAKS)
            && e.result == code[firstPos..optionsEnd + 1] && e.rest == code[..startPos] + code[lastPos + 1..]
  {
    hide FindFirst, FindLast, StandsAt;
    firstPos := FindFirst(code, NotIn(whitespace), startPos + |option|).value;
    lastPos := FindFirst(code, In(lineEnd + LINE_BREAKS), firstPos).value;
    optionsEnd := FindLast(code, NotIn(whitespace), lastPos - 1).value;
  }

  // With a one-character terminator a successful extraction only moves text: kept prefix, option,
  // blanks, result, blanks, terminator and kept suffix make up the old code, and the result is trimmed,
  // nonempty and free of terminators and line breaks.
  lemma ExtractionConservesText(code: string, option: string, whitespace: string, lineEnd: string) returns (s: Split)
    requires |lineEnd| == 1 && Extract(code, option, whitespace, lineEnd).Extracted?
    ensures SplitsCode(code, option, whitespace, lineEnd, Extract(code, option, whitespace, lineEnd), s)
    ensures |Extract(code, option, whitespace, lineEnd).rest| < |code|
  {
    hide Extract, ExtractAt, Joined;
    var startPos := Extract(code, option, whitespace, lineEnd).pos;
    var b := startPos + |option|;
    ExtractedWhereFound(code, option, whitespace, lineEnd);
    var firstPos, optionsEnd, lastPos := ExtractionPositions(code, option, whitespace, lineEnd, startPos);
    s := Split(code[..startPos], code[b..firstPos], code[optionsEnd + 1..lastPos], code[lastPos + 1..]);
    CutAll(code, startPos, b, firstPos, optionsEnd + 1, lastPos);
  }
}
