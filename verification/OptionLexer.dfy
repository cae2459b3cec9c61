/** The seven terms of the script-option grammar and the automaton that recognises them. */
module OptionLexer {
  import opened Wrappers
  import opened Lexer

  const PERCENT: nat := 0
  const ESCAPE: nat := 1
  const BLANK_ESCAPE: nat := 2
  const BLANKS: nat := 3
  const SEMICOLON: nat := 4
  const WORD: nat := 5
  const OTHER: nat := 6
  const TERM_COUNT: nat := 7

  const VT := '\U{000B}'
  const FF := '\U{000C}'

  // The character classes of the patterns, written out.
  const BLANK_CHARS: string := " \U{0009}\U{000C}\U{000B}"
  const DIGITS: string := "0123456789"
  const LOWER: string := "abcdefghijklmnopqrstuvwxyz"
  const UPPER: string := "ABCDEFGHIJKLMNOPQRSTUVWXYZ"

  predicate BlankChar(c: char) {
    c in BLANK_CHARS
  }

  predicate WordChar(c: char) {
    c in DIGITS || c in LOWER || c in UPPER || c == '_'
  }

  // The classes as the automaton and the scans below test them.
  predicate IsBlank(c: char) {
    c == ' ' || c == '\t' || c == FF || c == VT
  }

  predicate IsWord(c: char) {
    '0' <= c <= '9' || 'a' <= c <= 'z' || 'A' <= c <= 'Z' || c == '_'
  }

  // The tests decide exactly the classes.
  lemma CharClasses()
    ensures forall c: char :: IsBlank(c) <==> BlankChar(c)
    ensures forall c: char :: IsWord(c) <==> WordChar(c)
  {
    hide IsBlank, IsWord, BlankChar, WordChar;
    forall c: char
      ensures IsBlank(c) <==> BlankChar(c)
      ensures IsWord(c) <==> WordChar(c)
    {
      BlankClass(c);
      WordClass(c);
    }
  }

  lemma BlankClass(c: char)
    ensures IsBlank(c) <==> BlankChar(c)
  {
  }

  lemma DigitAt(k: nat)
    requires k < 10
    ensures |DIGITS| == 10 && DIGITS[k] as int == 48 + k
  {
  }

  lemma LowerAt(k: nat)
    requires k < 26
    ensures |LOWER| == 26 && LOWER[k] as int == 97 + k
  {
  }

  lemma UpperAt(k: nat)
    requires k < 26
    ensures |UPPER| == 26 && UPPER[k] as int == 65 + k
  {
  }

  // A list of consecutive characters holds exactly a range.
  lemma Consecutive(list: string, first: char, c: char)
    requires forall k :: 0 <= k < |list| ==> list[k] as int == first as int + k
    ensures c in list <==> first as int <= c as int < first as int + |list|
  {
    if first as int <= c as int < first as int + |list| {
      assert list[c as int - first as int] == c;
    }
  }

  lemma WordClass(c: char)
    ensures IsWord(c) <==> WordChar(c)
  {
    DigitAt(0);
    LowerAt(0);
    UpperAt(0);
    forall k | 0 <= k < |DIGITS| ensures DIGITS[k] as int == '0' as int + k { DigitAt(k); }
    forall k | 0 <= k < |LOWER| ensures LOWER[k] as int == 'a' as int + k { LowerAt(k); }
    forall k | 0 <= k < |UPPER| ensures UPPER[k] as int == 'A' as int + k { UpperAt(k); }
    Consecutive(DIGITS, '0', c);
    Consecutive(LOWER, 'a', c);
    Consecutive(UPPER, 'A', c);
  }

  // The characters that a backslash turns into an escape, and what the escape stands for.
  function EscapedChar(c: char): Option<char> {
    if c == ';' then Some(';')
    else if c == 'n' then Some('\n')
    else if c == 'r' then Some('\r')
    else if c == '\\' then Some('\\')
    else None
  }

  function EscapedBlank(c: char): Option<char> {
    if c == ' ' then Some(' ')
    else if c == 't' then Some('\t')
    else if c == 'f' then Some(FF)
    else if c == 'v' then Some(VT)
    else None
  }

  predicate AllBlank(text: string) {
    forall c :: c in text ==> BlankChar(c)
  }

  predicate AllWord(text: string) {
    forall c :: c in text ==> WordChar(c)
  }

  lemma AllBlankIs(text: string)
    ensures AllBlank(text) <==> forall i :: 0 <= i < |text| ==> IsBlank(text[i])
  {
    hide IsBlank, BlankChar, WordChar;
    CharClasses();
  }

  lemma AllWordIs(text: string)
    ensures AllWord(text) <==> forall i :: 0 <= i < |text| ==> IsWord(text[i])
  {
    hide IsWord, BlankChar, WordChar;
    CharClasses();
  }

  // Which characters form an escape, and the code points that the escapes stand for.
  lemma EscapeMeanings(c: char)
    ensures EscapedChar(c) == if c == ';' then Some('\U{003B}') else if c == 'n' then Some('\U{000A}')
                              else if c == 'r' then Some('\U{000D}') else if c == '\\' then Some('\U{005C}') else None
    ensures EscapedBlank(c) == if c == ' ' then Some('\U{0020}') else if c == 't' then Some('\U{0009}')
                               else if c == 'f' then Some('\U{000C}') else if c == 'v' then Some('\U{000B}') else None
  {
  }

  // The patterns as the grammar writes them.
  predicate Matches(term: nat, text: string) {
    if term == PERCENT then text == "%"
    else if term == ESCAPE then text == "\\;" || text == "\\n" || text == "\\r" || text == "\\\\"
    else if term == BLANK_ESCAPE then text == "\\ " || text == "\\t" || text == "\\f" || text == "\\v"
    else if term == BLANKS then text != [] && AllBlank(text)
    else if term == SEMICOLON then text == ";"
    else if term == WORD then text != [] && AllWord(text)
    else term == OTHER && |text| == 1 && text[0] != ';'
  }

  function NextState(state: nat, c: char): Option<nat> {
    match state
    case 0 =>
      Some(if c == '%' then 1
           else if c == ';' then 2
           else if IsBlank(c) then 3
           else if IsWord(c) then 4
           else if c == '\\' then 5
           else 8)
    case 3 => if IsBlank(c) then Some(3) else None
    case 4 => if IsWord(c) then Some(4) else None
    case 5 => if EscapedChar(c).Some? then Some(6) else if EscapedBlank(c).Some? then Some(7) else None
    case _ => None
  }

  function TermOfState(state: nat): Option<nat> {
    match state
    case 1 => Some(PERCENT)
    case 2 => Some(SEMICOLON)
    case 3 => Some(BLANKS)
    case 4 => Some(WORD)
    case 5 => Some(OTHER)
    case 6 => Some(ESCAPE)
    case 7 => Some(BLANK_ESCAPE)
    case 8 => Some(OTHER)
    case _ => None
  }

  function OptionDfa(): Dfa {
    Dfa((state, c) => NextState(state, c), state => TermOfState(state))
  }

  lemma {:induction false} RunLoop(state: nat, text: string)
    requires state == 3 || state == 4
    ensures RunDfa(OptionDfa(), state, text) ==
            if (state == 3 && AllBlank(text)) || (state == 4 && AllWord(text)) then Some(state) else None
    decreases |text|
  {
    hide BlankChar, WordChar;
    CharClasses();
    if text != [] {
      assert text == [text[0]] + text[1..];
      RunLoop(state, text[1..]);
    }
  }

  lemma RunLeaf(state: nat, text: string)
    requires state in {1, 2, 6, 7, 8}
    ensures RunDfa(OptionDfa(), state, text) == if text == [] then Some(state) else None
  {
  }

  lemma RunBackslash(text: string)
    ensures RunDfa(OptionDfa(), 5, text) ==
            if text == [] then Some(5)
            else if |text| == 1 && EscapedChar(text[0]).Some? then Some(6)
            else if |text| == 1 && EscapedBlank(text[0]).Some? then Some(7)
            else None
  {
    if text != [] {
      RunLeaf(6, text[1..]);
      RunLeaf(7, text[1..]);
    }
  }

  // Which patterns a text that starts with neither blank nor word character can match.
  lemma SymbolPatterns(text: string)
    requires text != [] && !IsBlank(text[0]) && !IsWord(text[0])
    ensures !Matches(BLANKS, text) && !Matches(WORD, text)
    ensures Matches(PERCENT, text) <==> text == ['%']
    ensures Matches(SEMICOLON, text) <==> text == [';']
    ensures text[0] != '\\' ==> !Matches(ESCAPE, text) && !Matches(BLANK_ESCAPE, text)
  {
    hide BlankChar, WordChar;
    CharClasses();
    assert text[0] in text;
  }

  function RecognisedTerm(text: string): Option<nat> {
    var state :- RunDfa(OptionDfa(), 0, text);
    TermOfState(state)
  }

  lemma BackslashPatterns(text: string)
    requires text != [] && text[0] == '\\'
    ensures RecognisedTerm(text) == if Matches(ESCAPE, text) then Some(ESCAPE)
                                    else if Matches(BLANK_ESCAPE, text) then Some(BLANK_ESCAPE)
                                    else if Matches(OTHER, text) then Some(OTHER)
                                    else None
  {
    RunBackslash(text[1..]);
    assert |text| == 2 ==> text[1..][0] == text[1] && text == [text[0], text[1]];
  }

  // The automaton recognises a text as the lowest-numbered term whose pattern matches all of it.
  lemma RecognisesPatterns(text: string, term: nat)
    ensures RecognisedTerm(text) == Some(term) <==> Matches(term, text) && forall lower: nat :: lower < term ==> !Matches(lower, text)
  {
    hide BlankChar, WordChar;
    CharClasses();
    if text != [] {
      var first, rest := text[0], text[1..];
      assert text == [first] + rest;
      if IsBlank(first) {
        RunLoop(3, rest);
        assert Matches(BLANKS, text) <==> AllBlank(rest);
        assert first in text;
      } else if IsWord(first) {
        RunLoop(4, rest);
        assert Matches(WORD, text) <==> AllWord(rest);
        assert first in text;
      } else {
        SymbolPatterns(text);
        if first == '\\' {
          BackslashPatterns(text);
        } else {
          var state := NextState(0, first).value;
          RunLeaf(state, rest);
          assert Matches(OTHER, text) <==> rest == [] && first != ';';
          assert text == [first] <==> rest == [];
        }
      }
    }
  }

  // ---------------------------------------------------------------------------------------------
  // The same lexer in one look at the text.

  function BlanksEnd(line: string, pos: nat): (end: nat)
    requires pos <= |line|
    ensures pos <= end <= |line|
    ensures forall i :: pos <= i < end ==> IsBlank(line[i])
    ensures end < |line| ==> !IsBlank(line[end])
    decreases |line| - pos
  {
    if pos < |line| && IsBlank(line[pos]) then BlanksEnd(line, pos + 1) else pos
  }

  function WordEnd(line: string, pos: nat): (end: nat)
    requires pos <= |line|
    ensures pos <= end <= |line|
    ensures forall i :: pos <= i < end ==> IsWord(line[i])
    ensures end < |line| ==> !IsWord(line[end])
    decreases |line| - pos
  {
    if pos < |line| && IsWord(line[pos]) then WordEnd(line, pos + 1) else pos
  }

  function TokenTerm(line: string, pos: nat): (term: nat)
    requires pos < |line|
    ensures term < TERM_COUNT
  {
    var c := line[pos];
    if c == '%' then PERCENT
    else if c == ';' then SEMICOLON
    else if IsBlank(c) then BLANKS
    else if IsWord(c) then WORD
    else if c == '\\' && pos + 1 < |line| && EscapedChar(line[pos + 1]).Some? then ESCAPE
    else if c == '\\' && pos + 1 < |line| && EscapedBlank(line[pos + 1]).Some? then BLANK_ESCAPE
    else OTHER
  }

  function TokenEnd(line: string, pos: nat): (end: nat)
    requires pos < |line|
    ensures pos < end <= |line|
  {
    var term := TokenTerm(line, pos);
    if term == BLANKS then BlanksEnd(line, pos)
    else if term == WORD then WordEnd(line, pos)
    else if term == ESCAPE || term == BLANK_ESCAPE then pos + 2
    else pos + 1
  }

  lemma {:induction false} MatchLoop(line: string, state: nat, pos: nat, best: Recognised)
    requires pos <= |line| && (state == 3 || state == 4)
    ensures MatchFrom(OptionDfa(), line, state, pos, best) ==
            if state == 3 then Recognised(BlanksEnd(line, pos), Some(BLANKS)) else Recognised(WordEnd(line, pos), Some(WORD))
    decreases |line| - pos
  {
    if pos < |line| && NextState(state, line[pos]).Some? {
      MatchLoop(line, state, pos + 1, Recognised(pos, TermOfState(state)));
    }
  }

  lemma MatchLeaf(line: string, state: nat, pos: nat, best: Recognised)
    requires pos <= |line| && state in {1, 2, 6, 7, 8}
    ensures MatchFrom(OptionDfa(), line, state, pos, best) == Recognised(pos, TermOfState(state))
  {
  }

  // Every nonempty text tokenises: the matcher always finds a token, and it is the one above.
  lemma NextToken(line: string, pos: nat)
    requires pos < |line|
    ensures DfaMatch(OptionDfa(), line, pos) == Recognised(TokenEnd(line, pos), Some(TokenTerm(line, pos)))
  {
    var start := Recognised(pos, None);
    var next := NextState(0, line[pos]).value;
    assert DfaMatch(OptionDfa(), line, pos) == MatchFrom(OptionDfa(), line, next, pos + 1, start);
    if next == 3 || next == 4 {
      MatchLoop(line, next, pos + 1, start);
    } else if next == 5 {
      var best := Recognised(pos + 1, Some(OTHER));
      if pos + 1 < |line| && NextState(5, line[pos + 1]).Some? {
        MatchLeaf(line, NextState(5, line[pos + 1]).value, pos + 2, best);
      }
    } else {
      MatchLeaf(line, next, pos + 1, start);
    }
  }

  datatype Token = Token(term: nat, text: string)

  function Tokens(line: string, pos: nat): seq<Token>
    requires pos <= |line|
    decreases |line| - pos
  {
    if pos == |line| then []
    else [Token(TokenTerm(line, pos), line[pos..TokenEnd(line, pos)])] + Tokens(line, TokenEnd(line, pos))
  }

  function Texts(tokens: seq<Token>): string {
    if tokens == [] then [] else tokens[0].text + Texts(tokens[1..])
  }

  // The term of a token is the lowest-numbered one whose pattern matches its text.
  ghost predicate OwnPattern(t: Token) {
    Matches(t.term, t.text) && forall lower: nat :: lower < t.term ==> !Matches(lower, t.text)
  }

  // Each token is what its own pattern says, and no earlier pattern matches its text.
  lemma TokenMatchesPattern(line: string, pos: nat)
    requires pos < |line|
    ensures OwnPattern(Token(TokenTerm(line, pos), line[pos..TokenEnd(line, pos)]))
  {
    var text, term := line[pos..TokenEnd(line, pos)], TokenTerm(line, pos);
    NextToken(line, pos);
    LongestMatch(OptionDfa(), line, pos);
    assert TermOf(OptionDfa(), line, pos, TokenEnd(line, pos)) == RecognisedTerm(text);
    RecognisesPatterns(text, term);
  }

  // The tokens of a line concatenate back to the line, and each is of its own pattern.
  lemma {:induction false} TokensCoverLine(line: string, pos: nat)
    requires pos <= |line|
    ensures Texts(Tokens(line, pos)) == line[pos..]
    ensures forall i :: 0 <= i < |Tokens(line, pos)| ==> OwnPattern(Tokens(line, pos)[i])
    decreases |line| - pos
  {
    if pos < |line| {
      var end := TokenEnd(line, pos);
      var head, rest := Token(TokenTerm(line, pos), line[pos..end]), Tokens(line, end);
      assert OwnPattern(head) by { TokenMatchesPattern(line, pos); }
      hide OwnPattern, TokenEnd, TokenTerm;
      TokensCoverLine(line, end);
      assert Tokens(line, pos) == [head] + rest;
      hide Tokens;
      assert ([head] + rest)[1..] == rest;
      assert line[pos..] == line[pos..end] + line[end..];
    }
  }
}
