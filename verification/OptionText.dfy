/** What a line with script options means, stated on its characters. */
module OptionText {
  import opened Wrappers
  import opened OptionLexer

  // `%key value;` with the offsets of '%' and of the terminating ';' in the line.
  datatype LineOption = LineOption(key: string, value: string, start: nat, end: nat)

  // Where the value that is being read at `pos` ends: at the first ';' that no escape consumes.
  function Terminator(line: string, pos: nat): (end: nat)
    requires pos <= |line|
    ensures pos <= end <= |line|
    ensures end < |line| ==> line[end] == ';'
    decreases |line| - pos
  {
    if pos == |line| || line[pos] == ';' then pos
    else if line[pos] == '\\' && pos + 1 < |line| && (EscapedChar(line[pos + 1]).Some? || EscapedBlank(line[pos + 1]).Some?) then
      Terminator(line, pos + 2)
    else Terminator(line, pos + 1)
  }

  // The value that a value text denotes after its first token: escapes are replaced, all else is literal.
  function DecodeRest(text: string): string
    decreases |text|
  {
    if text == [] then []
    else if text[0] == '\\' && |text| > 1 then
      match EscapedChar(text[1])
      case Some(c) => [c] + DecodeRest(text[2..])
      case None => [text[0]] + DecodeRest(text[1..])
    else [text[0]] + DecodeRest(text[1..])
  }

  // The value that a whole value text denotes: an escaped blank is replaced only at its start.
  function Decode(text: string): string {
    if |text| > 1 && text[0] == '\\' && EscapedBlank(text[1]).Some? then [EscapedBlank(text[1]).value] + DecodeRest(text[2..])
    else DecodeRest(text)
  }

  // The option that starts with the '%' at `start`, or the offset of the token that is not allowed there.
  function OptionAt(line: string, start: nat): (r: Result<LineOption, nat>)
    requires start < |line|
    ensures r.Ok? ==> r.value.start == start < r.value.end < |line| && line[r.value.end] == ';'
    ensures r.Err? ==> start < r.error <= |line|
  {
    var keyEnd := WordEnd(line, start + 1);
    var body := BlanksEnd(line, keyEnd);
    if keyEnd == start + 1 || body == keyEnd then Err(keyEnd)
    else if body == |line| || line[body] == '%' || line[body] == ';' then Err(body)
    else
      var end := Terminator(line, body);
      if end == |line| then Err(end)
      else Ok(LineOption(line[start + 1..keyEnd], Decode(line[body..end]), start, end))
  }

  // The options of line[pos..]. A '%' after nothing but blanks must open an option; anything else starts
  // the tail, which is skipped. A line without an option needs a tail.
  function ParseText(line: string, pos: nat, any: bool): (r: Result<seq<LineOption>, nat>)
    requires pos <= |line|
    ensures r.Ok? ==> forall i :: 0 <= i < |r.value| ==> pos <= r.value[i].start < r.value[i].end < |line|
    ensures r.Err? ==> pos <= r.error <= |line|
    decreases |line| - pos
  {
    if pos == |line| then if any then Ok([]) else Err(pos)
    else
      var start := BlanksEnd(line, pos);
      if start < |line| && line[start] == '%' then
        match OptionAt(line, start)
        case Err(at) => Err(at)
        case Ok(option) =>
          match ParseText(line, option.end + 1, true)
          case Err(at) => Err(at)
          case Ok(options) => Ok([option] + options)
      else Ok([])
  }

  // ---------------------------------------------------------------------------------------------
  // Exact acceptance.

  // The number of backslashes that directly precede `i`, counted back no further than `from`.
  function Backslashes(line: string, from: nat, i: nat): nat
    requires from <= i <= |line|
    decreases i
  {
    if i > from && line[i - 1] == '\\' then 1 + Backslashes(line, from, i - 1) else 0
  }

  // A terminator is a ';' after an even run of backslashes of the value text.
  predicate Terminates(line: string, from: nat, i: nat)
    requires from <= i < |line|
  {
    line[i] == ';' && Backslashes(line, from, i) % 2 == 0
  }

  lemma {:induction false} BackslashesFrom(line: string, from: nat, mid: nat, i: nat)
    requires from <= mid <= i <= |line|
    requires Backslashes(line, from, mid) % 2 == 0
    ensures Backslashes(line, from, i) % 2 == Backslashes(line, mid, i) % 2
    decreases i
  {
    if i > mid {
      BackslashesFrom(line, from, mid, i - 1);
    }
  }

  // `end` is the first terminating ';' of line[pos..], or the end of the line if there is none.
  ghost predicate FirstTerminating(line: string, pos: nat, end: nat)
    requires pos <= end <= |line|
  {
    && (end < |line| ==> Terminates(line, pos, end))
    && forall i :: pos <= i < end ==> !Terminates(line, pos, i)
  }

  lemma FirstTerminatingFrom(line: string, pos: nat, next: nat, end: nat)
    requires pos <= next <= end <= |line| && FirstTerminating(line, next, end)
    requires Backslashes(line, pos, next) % 2 == 0
    requires forall i :: pos <= i < next ==> !Terminates(line, pos, i)
    ensures FirstTerminating(line, pos, end)
  {
    forall i | next <= i <= end && i < |line|
      ensures Terminates(line, pos, i) == Terminates(line, next, i)
    {
      BackslashesFrom(line, pos, next, i);
    }
  }

  // The terminator of an option is the first ';' of the value text after an even run of backslashes.
  lemma {:induction false} TerminatorParity(line: string, pos: nat)
    requires pos <= |line|
    ensures FirstTerminating(line, pos, Terminator(line, pos))
    decreases |line| - pos
  {
    var end := Terminator(line, pos);
    if pos < |line| && line[pos] != ';' {
      assert Backslashes(line, pos, pos) == 0;
      if line[pos] != '\\' || pos + 1 == |line| {
        TerminatorParity(line, pos + 1);
        if line[pos] != '\\' {
          FirstTerminatingFrom(line, pos, pos + 1, end);
        }
      } else {
        assert Backslashes(line, pos, pos + 1) == 1;
        assert EscapedChar(line[pos + 1]).None? && EscapedBlank(line[pos + 1]).None? ==> end == Terminator(line, pos + 1);
        TerminatorParity(line, pos + 2);
        FirstTerminatingFrom(line, pos, pos + 2, end);
      }
    }
  }

  // ---------------------------------------------------------------------------------------------
  // What a value text denotes.

  lemma DecodePlain(c: char, rest: string)
    requires c != '\\'
    ensures DecodeRest([c] + rest) == [c] + DecodeRest(rest)
  {
    assert ([c] + rest)[1..] == rest;
  }

  lemma DecodeBackslash(c: char, rest: string)
    ensures DecodeRest(['\\', c] + rest) == DecodeRest(['\\', c]) + DecodeRest(rest)
  {
    var text, pair := ['\\', c] + rest, ['\\', c];
    assert text[2..] == rest && text[1..] == [c] + rest && pair[2..] == [] && pair[1..] == [c];
    if EscapedChar(c).None? {
      BackslashEscapes();
      DecodePlain(c, rest);
      DecodePlain(c, []);
      assert [c] + [] == [c];
    }
  }

  lemma BackslashEscapes()
    ensures EscapedChar('\\').Some?
  {
  }

  lemma {:induction false} DecodeSplitsFrom(a: string, b: string, pos: nat)
    requires pos <= |a| && Backslashes(a, pos, |a|) % 2 == 0
    ensures DecodeRest(a[pos..] + b) == DecodeRest(a[pos..]) + DecodeRest(b)
    decreases |a| - pos
  {
    hide DecodeRest;
    var text := a[pos..];
    assert Backslashes(a, pos, pos) == 0;
    if pos == |a| {
      assert text + b == b;
      assert DecodeRest(text) == "" by { DecodeNothing(); }
    } else if a[pos] != '\\' {
      var rest := a[pos + 1..];
      BackslashesFrom(a, pos, pos + 1, |a|);
      DecodeSplitsFrom(a, b, pos + 1);
      DecodePlain(a[pos], rest);
      DecodePlain(a[pos], rest + b);
      assert text == [a[pos]] + rest && text + b == [a[pos]] + (rest + b);
    } else {
      assert Backslashes(a, pos, pos + 1) == 1;
      var rest := a[pos + 2..];
      BackslashesFrom(a, pos, pos + 2, |a|);
      DecodeSplitsFrom(a, b, pos + 2);
      DecodeBackslash(a[pos + 1], rest);
      DecodeBackslash(a[pos + 1], rest + b);
      assert text == ['\\', a[pos + 1]] + rest && text + b == ['\\', a[pos + 1]] + (rest + b);
    }
  }

  lemma DecodeNothing()
    ensures DecodeRest("") == ""
  {
  }

  // Decoding goes piece by piece, where a piece does not end inside an escape.
  lemma DecodeSplits(a: string, b: string)
    requires Backslashes(a, 0, |a|) % 2 == 0
    ensures DecodeRest(a + b) == DecodeRest(a) + DecodeRest(b)
  {
    assert a[0..] == a;
    DecodeSplitsFrom(a, b, 0);
  }

  // The pieces: a character other than a backslash stands for itself, a backslash with one of the four
  // escape characters for what it escapes, and with any other character for both. (That includes the
  // escaped blanks, which are replaced only at the start of a value.)
  lemma DecodePieces(c: char)
    ensures DecodeRest([]) == [] && DecodeRest([c]) == [c]
    ensures DecodeRest(['\\', c]) == if c == ';' then "\U{003B}" else if c == 'n' then "\U{000A}"
                                     else if c == 'r' then "\U{000D}" else if c == '\\' then "\U{005C}" else ['\\', c]
  {
    var text := ['\\', c];
    assert text[1..] == [c] && text[2..] == [] && [c][1..] == [];
    assert DecodeRest([c]) == [c] + DecodeRest([]);
  }

  // The start of a value: the four escaped blanks are replaced there, and only there.
  lemma DecodeStart(c: char, rest: string)
    ensures Decode(['\\', c] + rest) ==
            if c == ' ' then "\U{0020}" + DecodeRest(rest)
            else if c == 't' then "\U{0009}" + DecodeRest(rest)
            else if c == 'f' then "\U{000C}" + DecodeRest(rest)
            else if c == 'v' then "\U{000B}" + DecodeRest(rest)
            else DecodeRest(['\\', c] + rest)
  {
    hide DecodeRest;
    assert (['\\', c] + rest)[2..] == rest;
  }

  lemma DecodeNoEscape(text: string)
    requires |text| < 2 || text[0] != '\\'
    ensures Decode(text) == DecodeRest(text)
  {
  }
}
