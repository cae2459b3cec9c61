/** The lines that the option parser accepts, described by how they are written. */
module OptionForm {
  import opened Wrappers
  import opened OptionLexer
  import opened OptionText

  // An option as written: blanks, '%', key, blanks, value text, ';'.
  datatype Written = Written(blanks: string, key: string, gap: string, body: string)

  ghost predicate WellFormed(w: Written) {
    && AllBlank(w.blanks)
    && w.key != [] && AllWord(w.key)
    && w.gap != [] && AllBlank(w.gap)
    && w.body != [] && !BlankChar(w.body[0]) && w.body[0] != '%' && w.body[0] != ';'
    && FirstTerminating(w.body + ";", 0, |w.body|)
  }

  ghost predicate AllWellFormed(ws: seq<Written>) {
    forall i :: 0 <= i < |ws| ==> WellFormed(ws[i])
  }

  function WriteBody(w: Written): string { w.body + ";" }

  function WriteGap(w: Written): string { w.gap + WriteBody(w) }

  function WriteKey(w: Written): string { w.key + WriteGap(w) }

  function WritePercent(w: Written): string { "%" + WriteKey(w) }

  // blanks, '%', key, blanks, value text, ';'
  function Write(w: Written): string { w.blanks + WritePercent(w) }

  function WriteAll(ws: seq<Written>): string {
    if ws == [] then [] else Write(ws[0]) + WriteAll(ws[1..])
  }

  // Text after the options: it may be missing after an option, and no '%' follows nothing but blanks.
  ghost predicate IsTail(tail: string, any: bool) {
    && (tail == [] ==> any)
    && forall i :: 0 <= i < |tail| && tail[i] == '%' ==> !AllBlank(tail[..i])
  }

  function Meaning(w: Written, pos: nat): LineOption {
    LineOption(w.key, Decode(w.body), pos + |w.blanks|, pos + |Write(w)| - 1)
  }

  // The options of consecutively written options that start at `pos`.
  function Meanings(ws: seq<Written>, pos: nat): (r: seq<LineOption>)
    ensures |r| == |ws|
  {
    if ws == [] then [] else [Meaning(ws[0], pos)] + Meanings(ws[1..], pos + |Write(ws[0])|)
  }

  // ---------------------------------------------------------------------------------------------

  lemma PercentIsNoBlank()
    ensures !IsBlank('%')
  {
  }

  lemma BlanksEndIs(line: string, pos: nat, end: nat)
    requires pos <= end <= |line| && AllBlank(line[pos..end]) && (end < |line| ==> !IsBlank(line[end]))
    ensures BlanksEnd(line, pos) == end
  {
    hide IsBlank, AllBlank;
    AllBlankIs(line[pos..end]);
    assert forall i :: pos <= i < end ==> line[i] == line[pos..end][i - pos];
  }

  lemma WordEndIs(line: string, pos: nat, end: nat)
    requires pos <= end <= |line| && AllWord(line[pos..end]) && (end < |line| ==> !IsWord(line[end]))
    ensures WordEnd(line, pos) == end
  {
    hide IsWord, AllWord;
    AllWordIs(line[pos..end]);
    assert forall i :: pos <= i < end ==> line[i] == line[pos..end][i - pos];
  }

  // Reading a value text inside a line is reading it alone.
  lemma {:induction false} TerminatorInside(line: string, base: nat, text: string, pos: nat)
    requires base + |text| <= |line| && line[base..base + |text|] == text
    requires text != [] && text[|text| - 1] == ';' && pos < |text|
    requires Terminator(text, pos) == |text| - 1
    ensures Terminator(line, base + pos) == base + |text| - 1
    decreases |text| - pos
  {
    assert line[base + pos] == text[pos];
    if text[pos] != ';' {
      assert pos + 1 < |text| && line[base + pos + 1] == text[pos + 1];
      if text[pos] == '\\' && (EscapedChar(text[pos + 1]).Some? || EscapedBlank(text[pos + 1]).Some?) {
        TerminatorInside(line, base, text, pos + 2);
      } else {
        TerminatorInside(line, base, text, pos + 1);
      }
    }
  }

  lemma FirstTerminatingUnique(line: string, pos: nat, a: nat, b: nat)
    requires pos <= a <= |line| && pos <= b <= |line|
    requires FirstTerminating(line, pos, a) && FirstTerminating(line, pos, b)
    ensures a == b
  {
  }

  lemma BodyEnds(line: string, base: nat, body: string)
    requires Holds(line, base, body + ";")
    requires FirstTerminating(body + ";", 0, |body|)
    ensures Terminator(line, base) == base + |body|
  {
    TerminatorParity(body + ";", 0);
    FirstTerminatingUnique(body + ";", 0, |body|, Terminator(body + ";", 0));
    TerminatorInside(line, base, body + ";", 0);
  }

  // `text` stands in the line at `pos`.
  predicate Holds(line: string, pos: nat, text: string) {
    pos + |text| <= |line| && line[pos..pos + |text|] == text
  }

  lemma Part(line: string, pos: nat, a: string, b: string)
    requires Holds(line, pos, a + b)
    ensures Holds(line, pos, a) && Holds(line, pos + |a|, b)
  {
    var text := line[pos..pos + |a + b|];
    assert text[..|a|] == a && text[|a|..] == b;
    assert text[..|a|] == line[pos..pos + |a|] && text[|a|..] == line[pos + |a|..pos + |a + b|];
  }

  // Where the parts of a written option stand.
  lemma PartsInPlace(line: string, pos: nat, w: Written)
    requires Holds(line, pos, Write(w))
    ensures var start := pos + |w.blanks|;
            var keyEnd := start + 1 + |w.key|;
            var body := keyEnd + |w.gap|;
            && Holds(line, pos, w.blanks) && Holds(line, start, "%") && Holds(line, start + 1, w.key) && Holds(line, keyEnd, w.gap)
            && Holds(line, body, WriteBody(w)) && Holds(line, body, w.body) && body + |w.body| < |line|
  {
    hide WriteBody, WriteGap, WriteKey, WritePercent, Write, Holds;
    WrittenParts(w);
    Part(line, pos, w.blanks, WritePercent(w));
    Part(line, pos + |w.blanks|, "%", WriteKey(w));
    Part(line, pos + |w.blanks| + 1, w.key, WriteGap(w));
    Part(line, pos + |w.blanks| + 1 + |w.key|, w.gap, WriteBody(w));
    Part(line, pos + |w.blanks| + 1 + |w.key| + |w.gap|, w.body, ";");
    HoldsInside(line, pos + |w.blanks| + 1 + |w.key| + |w.gap| + |w.body|, ";");
  }

  lemma HoldsInside(line: string, pos: nat, text: string)
    requires Holds(line, pos, text)
    ensures pos + |text| <= |line|
  {
  }

  lemma BlanksThenPercent(line: string, pos: nat, w: Written)
    requires WellFormed(w) && Holds(line, pos, w.blanks) && Holds(line, pos + |w.blanks|, "%")
    ensures BlanksEnd(line, pos) == pos + |w.blanks| && line[pos + |w.blanks|] == '%'
  {
    var start := pos + |w.blanks|;
    assert line[start..start + 1][0] == line[start];
    hide FirstTerminating;
    BlanksEndIs(line, pos, start);
  }

  // A well-formed option at `pos` is read as written.
  lemma WrittenOption(line: string, pos: nat, w: Written)
    requires WellFormed(w) && Holds(line, pos, Write(w))
    ensures pos + |Write(w)| <= |line|
    ensures BlanksEnd(line, pos) == pos + |w.blanks| && line[pos + |w.blanks|] == '%'
    ensures OptionAt(line, pos + |w.blanks|) == Ok(Meaning(w, pos))
  {
    hide WriteBody, WriteGap, WriteKey, WritePercent, Write, Holds, WellFormed, OptionAt, BlanksEnd, Decode, AllBlank;
    PartsInPlace(line, pos, w);
    WrittenLength(w);
    BlanksThenPercent(line, pos, w);
    ReadParts(line, pos + |w.blanks|, pos + |w.blanks| + 1 + |w.key|, pos + |w.blanks| + 1 + |w.key| + |w.gap|, w);
  }

  lemma WrittenParts(w: Written)
    ensures Write(w) == w.blanks + WritePercent(w) && WritePercent(w) == "%" + WriteKey(w)
    ensures WriteKey(w) == w.key + WriteGap(w) && WriteGap(w) == w.gap + WriteBody(w) && WriteBody(w) == w.body + ";"
  {
  }

  lemma WrittenLength(w: Written)
    ensures |Write(w)| == |w.blanks| + 1 + |w.key| + |w.gap| + |w.body| + 1
  {
  }

  lemma ReadParts(line: string, start: nat, keyEnd: nat, body: nat, w: Written)
    requires WellFormed(w) && keyEnd == start + 1 + |w.key| && body == keyEnd + |w.gap|
    requires Holds(line, start + 1, w.key) && Holds(line, keyEnd, w.gap) && Holds(line, body, WriteBody(w)) && Holds(line, body, w.body)
    ensures OptionAt(line, start) == Ok(LineOption(w.key, Decode(w.body), start, body + |w.body|))
  {
    hide FirstTerminating, Terminator, Decode, WordEnd, BlanksEnd;
    BodyInPlace(line, body, w);
    KeyInPlace(line, start, keyEnd, w);
    GapInPlace(line, keyEnd, body, w);
  }

  lemma BodyInPlace(line: string, body: nat, w: Written)
    requires WellFormed(w) && Holds(line, body, WriteBody(w)) && Holds(line, body, w.body)
    ensures body + |w.body| < |line| && Terminator(line, body) == body + |w.body| && line[body] == w.body[0]
  {
    hide FirstTerminating, Terminator;
    assert line[body] == line[body..body + |w.body|][0];
    BodyEnds(line, body, w.body);
  }

  lemma KeyInPlace(line: string, start: nat, keyEnd: nat, w: Written)
    requires WellFormed(w) && keyEnd == start + 1 + |w.key| && Holds(line, start + 1, w.key) && Holds(line, keyEnd, w.gap)
    ensures WordEnd(line, start + 1) == keyEnd
  {
    hide FirstTerminating, AllBlank, AllWord, BlankChar;
    AllBlankIs(w.gap);
    assert line[keyEnd] == line[keyEnd..keyEnd + |w.gap|][0] && IsBlank(w.gap[0]);
    WordEndIs(line, start + 1, keyEnd);
  }

  lemma GapInPlace(line: string, keyEnd: nat, body: nat, w: Written)
    requires WellFormed(w) && body == keyEnd + |w.gap| && Holds(line, keyEnd, w.gap) && Holds(line, body, w.body)
    ensures BlanksEnd(line, keyEnd) == body
  {
    hide FirstTerminating, AllBlank, AllWord, BlankChar, IsBlank;
    BlankClass(w.body[0]);
    assert line[body] == line[body..body + |w.body|][0];
    BlanksEndIs(line, keyEnd, body);
  }

  lemma TailInside(line: string, pos: nat, any: bool)
    requires pos <= |line| && IsTail(line[pos..], any)
    ensures ParseText(line, pos, any) == Ok([])
  {
    hide IsBlank, AllBlank, OptionAt;
    if pos < |line| {
      var start := BlanksEnd(line, pos);
      if start < |line| && line[start] == '%' {
        assert line[pos..][start - pos] == line[start] && line[pos..][..start - pos] == line[pos..start];
        AllBlankIs(line[pos..start]);
      }
    }
  }

  // Why a text is accepted: how its options and its tail are written.
  ghost predicate Reads(line: string, pos: nat, any: bool, ws: seq<Written>, tail: string)
    requires pos <= |line|
  {
    && line[pos..] == WriteAll(ws) + tail
    && AllWellFormed(ws)
    && IsTail(tail, any || ws != [])
  }

  // Every line written as well-formed options and a tail is accepted, with the meaning of its options.
  lemma {:induction false} WrittenAccepted(line: string, pos: nat, ws: seq<Written>, tail: string, any: bool)
    requires pos <= |line| && Reads(line, pos, any, ws, tail)
    ensures ParseText(line, pos, any) == Ok(Meanings(ws, pos))
    decreases |ws|
  {
    hide OptionAt, BlanksEnd, Meaning, Write, WellFormed, ParseText, Holds, Reads;
    if ws == [] {
      NoOption(line, pos, any, tail);
    } else {
      var w := ws[0];
      FrontOption(line, pos, any, ws, tail);
      WrittenOption(line, pos, w);
      MeaningEnds(w, pos);
      WrittenAccepted(line, pos + |Write(w)|, ws[1..], tail, true);
      OptionThenRest(line, pos, any, Meaning(w, pos));
    }
  }

  lemma NoOption(line: string, pos: nat, any: bool, tail: string)
    requires pos <= |line| && Reads(line, pos, any, [], tail)
    ensures ParseText(line, pos, any) == Ok([])
  {
    assert line[pos..] == tail;
    TailInside(line, pos, any);
  }

  lemma MeaningEnds(w: Written, pos: nat)
    ensures Meaning(w, pos).start == pos + |w.blanks| && Meaning(w, pos).end + 1 == pos + |Write(w)|
  {
  }

  lemma FrontOption(line: string, pos: nat, any: bool, ws: seq<Written>, tail: string)
    requires pos <= |line| && ws != [] && Reads(line, pos, any, ws, tail)
    ensures WellFormed(ws[0]) && Holds(line, pos, Write(ws[0])) && pos < pos + |Write(ws[0])| <= |line|
    ensures Reads(line, pos + |Write(ws[0])|, true, ws[1..], tail)
  {
    hide Write, WellFormed, IsTail;
    var w, rest := ws[0], WriteAll(ws[1..]) + tail;
    WrittenLength(w);
    assert line[pos..] == Write(w) + rest;
    assert line[pos..][|Write(w)|..] == line[pos + |Write(w)|..];
    assert line[pos..][..|Write(w)|] == line[pos..pos + |Write(w)|];
    TailMonotone(tail, any || ws != []);
  }

  lemma TailMonotone(tail: string, any: bool)
    requires IsTail(tail, any)
    ensures IsTail(tail, true)
  {
  }

  lemma OptionThenRest(line: string, pos: nat, any: bool, option: LineOption)
    requires pos < |line|
    requires var start := BlanksEnd(line, pos); start < |line| && line[start] == '%' && OptionAt(line, start) == Ok(option)
    ensures ParseText(line, pos, any) ==
            match ParseText(line, option.end + 1, true) case Err(at) => Err(at) case Ok(options) => Ok([option] + options)
  {
    hide OptionAt, BlanksEnd;
  }

  // ---------------------------------------------------------------------------------------------
  // The converse: every accepted line is written like that.

  lemma {:induction false} TerminatorOutside(line: string, base: nat, text: string, pos: nat)
    requires Holds(line, base, text) && pos < |text|
    requires Terminator(line, base + pos) == base + |text| - 1 && text[|text| - 1] == ';'
    ensures Terminator(text, pos) == |text| - 1
    decreases |text| - pos
  {
    assert line[base..base + |text|][pos] == line[base + pos];
    if text[pos] != ';' {
      assert pos + 1 < |text| && line[base..base + |text|][pos + 1] == line[base + pos + 1];
      if text[pos] == '\\' && (EscapedChar(text[pos + 1]).Some? || EscapedBlank(text[pos + 1]).Some?) {
        TerminatorOutside(line, base, text, pos + 2);
      } else {
        TerminatorOutside(line, base, text, pos + 1);
      }
    }
  }

  lemma BodyTerminates(line: string, body: nat, end: nat)
    requires body < end < |line| && Terminator(line, body) == end
    ensures var text := line[body..end];
            line[body..end + 1] == text + ";" && FirstTerminating(text + ";", 0, |text|)
  {
    var text := line[body..end];
    assert line[body..end + 1] == text + ";";
    TerminatorOutside(line, body, text + ";", 0);
    TerminatorParity(text + ";", 0);
  }

  lemma WrittenFromParts(line: string, pos: nat, start: nat, keyEnd: nat, body: nat, end: nat) returns (w: Written)
    requires pos <= start < start + 1 < keyEnd < body < end < |line|
    requires line[start] == '%' && line[end] == ';'
    ensures w == Written(line[pos..start], line[start + 1..keyEnd], line[keyEnd..body], line[body..end])
    ensures Write(w) == line[pos..end + 1]
  {
    w := Written(line[pos..start], line[start + 1..keyEnd], line[keyEnd..body], line[body..end]);
    assert WriteBody(w) == line[body..end + 1];
    assert WriteGap(w) == line[keyEnd..end + 1];
    assert WriteKey(w) == line[start + 1..end + 1];
    assert WritePercent(w) == line[start..end + 1];
  }

  lemma OptionParts(line: string, start: nat, option: LineOption)
    requires start < |line| && OptionAt(line, start) == Ok(option)
    ensures var keyEnd := WordEnd(line, start + 1);
            var body := BlanksEnd(line, keyEnd);
            && start + 1 < keyEnd < body < option.end < |line|
            && line[body] != '%' && line[body] != ';' && Terminator(line, body) == option.end && line[option.end] == ';'
            && option == LineOption(line[start + 1..keyEnd], Decode(line[body..option.end]), start, option.end)
  {
    hide Decode;
  }

  lemma OptionWritten(line: string, pos: nat, option: LineOption) returns (w: Written)
    requires pos < |line|
    requires var start := BlanksEnd(line, pos); start < |line| && line[start] == '%' && OptionAt(line, start) == Ok(option)
    ensures WellFormed(w) && Meaning(w, pos) == option && option.end < |line| && Write(w) == line[pos..option.end + 1]
  {
    hide FirstTerminating, Terminator, Decode, OptionAt, WriteKey, WriteGap, WriteBody, WritePercent, Write, IsBlank, IsWord, AllBlank, AllWord, BlankChar;
    var start := BlanksEnd(line, pos);
    var keyEnd := WordEnd(line, start + 1);
    var body := BlanksEnd(line, keyEnd);
    OptionParts(line, start, option);
    BodyTerminates(line, body, option.end);
    w := WrittenFromParts(line, pos, start, keyEnd, body, option.end);
    AllBlankIs(w.blanks);
    AllWordIs(w.key);
    AllBlankIs(w.gap);
    BlankClass(line[body]);
  }

  lemma TailOutside(line: string, pos: nat, any: bool)
    requires pos <= |line| && (pos == |line| ==> any)
    requires pos < |line| ==> var start := BlanksEnd(line, pos); start < |line| ==> line[start] != '%'
    ensures IsTail(line[pos..], any)
  {
    hide IsBlank, AllBlank;
    var tail := line[pos..];
    forall i | 0 <= i < |tail| && tail[i] == '%'
      ensures !AllBlank(tail[..i])
    {
      if AllBlank(tail[..i]) {
        assert tail[..i] == line[pos..pos + i] && tail[i] == line[pos + i];
        PercentIsNoBlank();
        BlanksEndIs(line, pos, pos + i);
      }
    }
  }

  lemma NothingWritten()
    ensures WriteAll([]) == []
  {
  }

  lemma ReadsCons(line: string, pos: nat, any: bool, w: Written, end: nat, rest: seq<Written>, tail: string)
    requires pos <= end <= |line| && WellFormed(w) && Write(w) == line[pos..end] && Reads(line, end, true, rest, tail)
    ensures Reads(line, pos, any, [w] + rest, tail)
  {
    hide WellFormed, IsTail, Write;
    var ws := [w] + rest;
    assert ws[1..] == rest;
    assert line[pos..] == line[pos..end] + line[end..];
  }

  lemma {:induction false} AcceptedWritten(line: string, pos: nat, any: bool) returns (ws: seq<Written>, tail: string)
    requires pos <= |line| && ParseText(line, pos, any).Ok?
    ensures Reads(line, pos, any, ws, tail)
    decreases |line| - pos
  {
    hide OptionAt, WellFormed, IsTail, Meaning, Write, IsBlank, WriteAll;
    var start := BlanksEnd(line, pos);
    if pos < |line| && start < |line| && line[start] == '%' {
      var option := OptionAt(line, start).value;
      var w := OptionWritten(line, pos, option);
      var rest;
      rest, tail := AcceptedWritten(line, option.end + 1, true);
      ReadsCons(line, pos, any, w, option.end + 1, rest, tail);
      ws := [w] + rest;
    } else {
      TailOutside(line, pos, any);
      ws, tail := [], line[pos..];
      assert WriteAll([]) + tail == tail by { NothingWritten(); }
    }
  }

  // A line is accepted exactly when it is written as well-formed options followed by a tail that starts
  // no option, where a line without options has a nonempty tail; and then its options are those written.
  lemma ExactAcceptance(line: string)
    ensures ParseText(line, 0, false).Ok? <==> exists ws, tail :: Reads(line, 0, false, ws, tail)
    ensures forall ws, tail :: Reads(line, 0, false, ws, tail) ==> ParseText(line, 0, false) == Ok(Meanings(ws, 0))
  {
    hide ParseText, Reads, Meanings;
    if ParseText(line, 0, false).Ok? {
      var ws, tail := AcceptedWritten(line, 0, false);
    }
    forall ws, tail | Reads(line, 0, false, ws, tail)
      ensures ParseText(line, 0, false) == Ok(Meanings(ws, 0))
    {
      ReadsAccepted(line, ws, tail);
    }
  }

  lemma ReadsAccepted(line: string, ws: seq<Written>, tail: string)
    requires Reads(line, 0, false, ws, tail)
    ensures ParseText(line, 0, false) == Ok(Meanings(ws, 0))
  {
    WrittenAccepted(line, 0, ws, tail, false);
  }
}
