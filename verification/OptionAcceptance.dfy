/** The option parser accepts exactly the lines that the character-level reading accepts, with the same options. */
module OptionAcceptance {
  import opened Wrappers
  import opened Text
  import opened Grammar
  import opened ShiftReduce
  import opened OptionLexer
  import opened OptionTable
  import opened OptionText
  import opened OptionDriver

  function TokenAt(line: string, pos: nat): Val
    requires pos < |line|
  {
    TokenVal(line[pos..TokenEnd(line, pos)], PointAt(line, pos))
  }

  lemma ShiftMove(line: string, cs: seq<nat>, s: nat, vs: seq<Val>, pos: nat, to: nat)
    requires pos < |line| && Action(s, TokenTerm(line, pos)) == ShiftTo(to)
    ensures MoveOn(line, Stacks(cs + [s], vs, pos)) == Proceed(Stacks(cs + [s] + [to], vs + [TokenAt(line, pos)], TokenEnd(line, pos)))
  {
    hide Action, TokenEnd, TokenTerm;
  }

  lemma ReduceMove(line: string, cs: seq<nat>, s: nat, read: seq<nat>, vs: seq<Val>, args: seq<Val>, pos: nat, rule: nat, v: Val)
    requires pos <= |line| && read != [] && rule < RULE_COUNT
    requires |read| == |args| == |RuleAt(rule).rhs|
    requires Action(read[|read| - 1], TermAt(line, pos)) == ReduceWith(rule)
    requires Reductor(rule, args) == Some(v)
    ensures MoveOn(line, Stacks(cs + [s] + read, vs + args, pos)) ==
            Proceed(Stacks(cs + [s] + [Goto(s, RuleAt(rule).lhs)], vs + [v], pos))
  {
    hide Action, Reductor, RuleAt, TermAt;
    var a := Stacks(cs + [s] + read, vs + args, pos);
    assert a.cursors[..|a.cursors| - |read|] == cs + [s];
    assert a.values[..|a.values| - |args|] == vs && a.values[|a.values| - |args|..] == args;
  }

  lemma Then(line: string, a: Stacks, n: nat, b: Stacks, m: nat)
    requires a.pos <= |line| && Moves(line, a, n) == Proceed(b)
    ensures Moves(line, a, n + m) == Moves(line, b, m)
  {
    MovesCompose(line, a, n, m);
  }

  // A move and then `m` more.
  lemma First(line: string, a: Stacks, b: Stacks, m: nat)
    requires a.pos <= |line| && MoveOn(line, a) == Proceed(b)
    ensures Moves(line, a, m + 1) == Moves(line, b, m)
  {
    hide MoveOn;
  }

  // ---------------------------------------------------------------------------------------------
  // Token by token, the value text is read as Terminator and Decode say.

  lemma {:induction false} PlainRun(line: string, pos: nat, next: nat)
    requires pos <= next <= |line| && forall i :: pos <= i < next ==> line[i] != ';' && line[i] != '\\'
    ensures Terminator(line, pos) == Terminator(line, next)
    ensures DecodeRest(line[pos..Terminator(line, next)]) == line[pos..next] + DecodeRest(line[next..Terminator(line, next)])
    decreases next - pos
  {
    var end := Terminator(line, next);
    if pos < next {
      PlainRun(line, pos + 1, next);
      assert line[pos..end][1..] == line[pos + 1..end];
      assert line[pos..next] == [line[pos]] + line[pos + 1..next];
    } else {
      assert line[pos..next] == [];
    }
  }

  // A token that neither ends a value nor starts an escape adds itself.
  lemma TokenDecoded(line: string, pos: nat)
    requires pos < |line| && TokenTerm(line, pos) != SEMICOLON
    ensures var next, text := TokenEnd(line, pos), line[pos..TokenEnd(line, pos)];
            var end := Terminator(line, next);
            && Terminator(line, pos) == end
            && AppendedText(TokenTerm(line, pos), text).Some?
            && DecodeRest(line[pos..end]) == AppendedText(TokenTerm(line, pos), text).value + DecodeRest(line[next..end])
  {
    var term, next := TokenTerm(line, pos), TokenEnd(line, pos);
    var end := Terminator(line, next);
    var text := line[pos..end];
    if term == ESCAPE || term == BLANK_ESCAPE {
      assert text[2..] == line[next..end] && text[..2] == line[pos..next];
      assert text[1..][1..] == text[2..];
    } else if line[pos] == '\\' {
      assert text[1..] == line[next..end];
      assert line[pos..next] == ['\\'];
    } else {
      PlainRun(line, pos, next);
      assert term == PERCENT ==> line[pos..next] == "%";
    }
  }

  lemma FirstDecoded(line: string, pos: nat)
    requires pos < |line| && TokenTerm(line, pos) in {WORD, OTHER, BLANK_ESCAPE, ESCAPE}
    ensures var next, text := TokenEnd(line, pos), line[pos..TokenEnd(line, pos)];
            var end := Terminator(line, next);
            && Terminator(line, pos) == end
            && FirstText(TokenTerm(line, pos), text).Some?
            && Decode(line[pos..end]) == FirstText(TokenTerm(line, pos), text).value + DecodeRest(line[next..end])
  {
    TokenDecoded(line, pos);
    var term, next := TokenTerm(line, pos), TokenEnd(line, pos);
    var end := Terminator(line, next);
    if term == BLANK_ESCAPE {
      assert line[pos..end][2..] == line[next..end];
    }
  }

  // ---------------------------------------------------------------------------------------------
  // The moves of the table.

  lemma OneMove(line: string, a: Stacks)
    requires a.pos <= |line|
    ensures Moves(line, a, 1) == MoveOn(line, a)
  {
    hide MoveOn;
    assert MoveOn(line, a).Proceed? ==> Moves(line, MoveOn(line, a).stacks, 0) == MoveOn(line, a);
  }

  lemma TwoMoves(line: string, a: Stacks, b: Stacks)
    requires a.pos <= |line| && MoveOn(line, a) == Proceed(b)
    ensures Moves(line, a, 2) == MoveOn(line, b)
  {
    hide MoveOn;
    OneMove(line, b);
    First(line, a, b, 1);
  }

  // The stack while a value is read: state 25 or 32 above the state that has read the key.
  function InValueStacks(cs: seq<nat>, s: nat, vs: seq<Val>, acc: string, pos: nat): Stacks {
    Stacks(cs + [s] + [Goto(s, OPTION_VALUE)], vs + [StringVal(acc)], pos)
  }

  lemma LaterReduce(line: string, cs: seq<nat>, s: nat, vs: seq<Val>, acc: string, term: nat, token: Val, next: nat, text: string)
    requires next < |line| && (s == 23 || s == 26) && term < TERM_COUNT && term != SEMICOLON
    requires token.TokenVal? && AppendedText(term, token.text) == Some(text)
    ensures MoveOn(line, Stacks(cs + [s] + [Goto(s, OPTION_VALUE)] + [ValueNextState(term)], vs + [StringVal(acc)] + [token], next)) ==
            Proceed(InValueStacks(cs, s, vs, acc + text, next))
  {
    var v, to := Goto(s, OPTION_VALUE), ValueNextState(term);
    var read, args := [v] + [to], [StringVal(acc)] + [token];
    assert cs + [s] + [v] + [to] == cs + [s] + read && vs + [StringVal(acc)] + [token] == vs + args;
    var rule := CompleteRule(to).value;
    assert ValueNext(rule - 11) == term;
    assert Reductor(rule, args) == Some(StringVal(acc + text));
    assert Action(to, TermAt(line, next)) == ReduceWith(rule);
    hide MoveOn, Action, Reductor, TermAt;
    ReduceMove(line, cs, s, read, vs, args, next, rule, StringVal(acc + text));
  }

  lemma FirstReduce(line: string, cs: seq<nat>, s: nat, vs: seq<Val>, term: nat, token: Val, next: nat, text: string)
    requires next < |line| && (s == 23 || s == 26) && term in {WORD, OTHER, BLANK_ESCAPE, ESCAPE}
    requires token.TokenVal? && FirstText(term, token.text) == Some(text)
    ensures MoveOn(line, Stacks(cs + [s] + [ValueStart(term).shift], vs + [token], next)) == Proceed(InValueStacks(cs, s, vs, text, next))
  {
    var to := ValueStart(term).shift;
    var rule := CompleteRule(to).value;
    assert ValueFirst(rule - 7) == term;
    assert Reductor(rule, [token]) == Some(StringVal(text));
    assert Action(to, TermAt(line, next)) == ReduceWith(rule);
    hide MoveOn, Action, Reductor, TermAt;
    ReduceMove(line, cs, s, [to], vs, [token], next, rule, StringVal(text));
  }

  // At the end of the line no value may end.
  lemma InValueAtEnd(line: string, cs: seq<nat>, to: nat, vs: seq<Val>)
    requires InValue(to)
    ensures MoveOn(line, Stacks(cs + [to], vs, |line|)) == Reject(|line|)
  {
  }

  // A token of the value is shifted and appended, unless the line ends after it.
  lemma LaterToken(line: string, cs: seq<nat>, s: nat, vs: seq<Val>, acc: string, pos: nat)
    requires pos < |line| && (s == 23 || s == 26) && TokenTerm(line, pos) != SEMICOLON
    requires AppendedText(TokenTerm(line, pos), line[pos..TokenEnd(line, pos)]).Some?
    ensures var next := TokenEnd(line, pos);
            Moves(line, InValueStacks(cs, s, vs, acc, pos), 2) ==
            if next == |line| then Reject(next)
            else Proceed(InValueStacks(cs, s, vs, acc + AppendedText(TokenTerm(line, pos), line[pos..next]).value, next))
  {
    hide Moves, MoveOn, Action, AppendedText, TokenEnd, TokenTerm, ValueNextState, InValue;
    var term, next, v := TokenTerm(line, pos), TokenEnd(line, pos), Goto(s, OPTION_VALUE);
    var to := ValueNextState(term);
    LaterState(term);
    ShiftMove(line, cs + [s], v, vs + [StringVal(acc)], pos, to);
    var b := Stacks(cs + [s] + [v] + [to], vs + [StringVal(acc)] + [TokenAt(line, pos)], next);
    if next < |line| {
      LaterReduce(line, cs, s, vs, acc, term, TokenAt(line, pos), next, AppendedText(term, line[pos..next]).value);
    } else {
      InValueAtEnd(line, cs + [s] + [v], to, b.values);
    }
    TwoMoves(line, InValueStacks(cs, s, vs, acc, pos), b);
  }

  lemma LaterState(term: nat)
    requires term < TERM_COUNT && term != SEMICOLON
    ensures InValue(ValueNextState(term))
    ensures Action(25, term) == Action(32, term) == ShiftTo(ValueNextState(term))
  {
  }

  lemma FirstState(term: nat)
    requires term in {WORD, OTHER, BLANK_ESCAPE, ESCAPE}
    ensures ValueStart(term) == ShiftTo(ValueStart(term).shift) && InValue(ValueStart(term).shift)
    ensures Action(23, term) == Action(26, term) == ValueStart(term)
  {
  }

  lemma FirstToken(line: string, cs: seq<nat>, s: nat, vs: seq<Val>, pos: nat)
    requires pos < |line| && (s == 23 || s == 26) && TokenTerm(line, pos) in {WORD, OTHER, BLANK_ESCAPE, ESCAPE}
    requires FirstText(TokenTerm(line, pos), line[pos..TokenEnd(line, pos)]).Some?
    ensures var next := TokenEnd(line, pos);
            Moves(line, Stacks(cs + [s], vs, pos), 2) ==
            if next == |line| then Reject(next)
            else Proceed(InValueStacks(cs, s, vs, FirstText(TokenTerm(line, pos), line[pos..next]).value, next))
  {
    hide Moves, MoveOn, Action, FirstText, TokenEnd, TokenTerm, ValueStart, InValueStacks, InValue;
    var term, next := TokenTerm(line, pos), TokenEnd(line, pos);
    var to := ValueStart(term).shift;
    FirstState(term);
    ShiftMove(line, cs, s, vs, pos, to);
    var b := Stacks(cs + [s] + [to], vs + [TokenAt(line, pos)], next);
    if next < |line| {
      FirstReduce(line, cs, s, vs, term, TokenAt(line, pos), next, FirstText(term, line[pos..next]).value);
    } else {
      InValueAtEnd(line, cs + [s], to, b.values);
    }
    TwoMoves(line, Stacks(cs + [s], vs, pos), b);
  }

  lemma ValueEnds(line: string, cs: seq<nat>, s: nat, vs: seq<Val>, acc: string)
    requires s == 23 || s == 26
    ensures MoveOn(line, InValueStacks(cs, s, vs, acc, |line|)) == Reject(|line|)
  {
  }

  // What a token that does not end the value contributes to it.
  lemma TokenAppended(line: string, acc: string, pos: nat) returns (text: string)
    requires pos < |line| && line[pos] != ';'
    ensures var term, next := TokenTerm(line, pos), TokenEnd(line, pos);
            var end := Terminator(line, next);
            && term != SEMICOLON
            && AppendedText(term, line[pos..next]) == Some(text)
            && Terminator(line, pos) == end
            && (next == |line| ==> end == next)
            && acc + DecodeRest(line[pos..end]) == acc + text + DecodeRest(line[next..end])
  {
    TokenDecoded(line, pos);
    var next := TokenEnd(line, pos);
    text := AppendedText(TokenTerm(line, pos), line[pos..next]).value;
    hide TokenTerm, TokenEnd, AppendedText, DecodeRest;
    var rest := DecodeRest(line[next..Terminator(line, next)]);
    assert acc + (text + rest) == acc + text + rest;
  }

  lemma ValueComplete(line: string, cs: seq<nat>, s: nat, vs: seq<Val>, acc: string, pos: nat)
    requires pos <= |line| && (pos == |line| || line[pos] == ';')
    ensures Terminator(line, pos) == pos && acc + DecodeRest(line[pos..pos]) == acc
    ensures Moves(line, InValueStacks(cs, s, vs, acc, pos), 0) == Proceed(InValueStacks(cs, s, vs, acc, pos))
  {
  }

  // Inside a value: the table collects tokens up to the terminator, or rejects at the end of the line.
  lemma {:induction false} ValueMoves(line: string, cs: seq<nat>, s: nat, vs: seq<Val>, acc: string, pos: nat) returns (n: nat)
    requires pos <= |line| && (s == 23 || s == 26)
    ensures var end := Terminator(line, pos);
            Moves(line, InValueStacks(cs, s, vs, acc, pos), n) ==
            if end == |line| then Reject(end) else Proceed(InValueStacks(cs, s, vs, acc + DecodeRest(line[pos..end]), end))
    decreases |line| - pos
  {
    hide Moves, MoveOn, AppendedText, Goto, TokenEnd, TokenTerm, DecodeRest, Terminator;
    var a := InValueStacks(cs, s, vs, acc, pos);
    if pos == |line| || line[pos] == ';' {
      ValueComplete(line, cs, s, vs, acc, pos);
      n := if pos == |line| then 1 else 0;
      ValueEnds(line, cs, s, vs, acc);
      OneMove(line, a);
    } else {
      var next := TokenEnd(line, pos);
      var text := TokenAppended(line, acc, pos);
      LaterToken(line, cs, s, vs, acc, pos);
      n := 2;
      if next < |line| {
        var m := ValueMoves(line, cs, s, vs, acc + text, next);
        Then(line, a, 2, InValueStacks(cs, s, vs, acc + text, next), m);
        n := 2 + m;
      }
    }
  }

  lemma ValueNotStarted(line: string, cs: seq<nat>, s: nat, vs: seq<Val>, pos: nat)
    requires pos <= |line| && (s == 23 || s == 26)
    requires pos == |line| || line[pos] == '%' || line[pos] == ';'
    ensures MoveOn(line, Stacks(cs + [s], vs, pos)) == Reject(pos)
  {
  }

  predicate StartsValue(line: string, pos: nat)
    requires pos <= |line|
  {
    pos < |line| && line[pos] != '%' && line[pos] != ';'
  }

  lemma TokenStarts(line: string, pos: nat) returns (text: string)
    requires pos < |line| && StartsValue(line, pos) && !IsBlank(line[pos])
    ensures var term, next := TokenTerm(line, pos), TokenEnd(line, pos);
            var end := Terminator(line, next);
            && term in {WORD, OTHER, BLANK_ESCAPE, ESCAPE}
            && FirstText(term, line[pos..next]) == Some(text)
            && Terminator(line, pos) == end
            && (next == |line| ==> end == next)
            && Decode(line[pos..end]) == text + DecodeRest(line[next..end])
  {
    FirstDecoded(line, pos);
    text := FirstText(TokenTerm(line, pos), line[pos..TokenEnd(line, pos)]).value;
  }

  // From the first token of the value text, which must not be '%', ';' or the end of the line.
  lemma ValueTextMoves(line: string, cs: seq<nat>, s: nat, vs: seq<Val>, pos: nat) returns (n: nat)
    requires pos <= |line| && (s == 23 || s == 26) && (pos < |line| ==> !IsBlank(line[pos]))
    ensures Moves(line, Stacks(cs + [s], vs, pos), n) ==
            if !StartsValue(line, pos) then Reject(pos)
            else
              var end := Terminator(line, pos);
              if end == |line| then Reject(end) else Proceed(InValueStacks(cs, s, vs, Decode(line[pos..end]), end))
  {
    hide Moves, MoveOn, FirstText, TokenEnd, TokenTerm, InValueStacks, Decode, DecodeRest, Terminator;
    var a := Stacks(cs + [s], vs, pos);
    if !StartsValue(line, pos) {
      n := 1;
      ValueNotStarted(line, cs, s, vs, pos);
      OneMove(line, a);
    } else {
      var next := TokenEnd(line, pos);
      var text := TokenStarts(line, pos);
      FirstToken(line, cs, s, vs, pos);
      n := 2;
      if next < |line| {
        var m := ValueMoves(line, cs, s, vs, text, next);
        Then(line, a, 2, InValueStacks(cs, s, vs, text, next), m);
        n := 2 + m;
      }
    }
  }

  // The stack after '%' (state 19, or 22 after blanks), key, blanks, value and ';'.
  function AfterOption(line: string, cs: seq<nat>, s: nat, vs: seq<Val>, keyAt: nat, keyEnd: nat, value: string, end: nat): Stacks
    requires keyAt < |line| && keyEnd < |line| && end < |line|
  {
    Stacks(cs + [s] + [s + 2] + [s + 4] + [Goto(s + 4, OPTION_VALUE)] + [if s == 19 then 31 else 39],
           vs + [TokenAt(line, keyAt)] + [TokenAt(line, keyEnd)] + [StringVal(value)] + [TokenAt(line, end)],
           end + 1)
  }

  lemma TerminatorMove(line: string, cs: seq<nat>, s: nat, vs: seq<Val>, value: string, end: nat)
    requires end < |line| && line[end] == ';' && (s == 19 || s == 22)
    ensures MoveOn(line, InValueStacks(cs, s + 4, vs, value, end)) ==
            Proceed(Stacks(cs + [s + 4] + [Goto(s + 4, OPTION_VALUE)] + [if s == 19 then 31 else 39],
                           vs + [StringVal(value)] + [TokenAt(line, end)], end + 1))
  {
    ShiftMove(line, cs + [s + 4], Goto(s + 4, OPTION_VALUE), vs + [StringVal(value)], end, if s == 19 then 31 else 39);
  }

  lemma BlanksMove(line: string, cs: seq<nat>, s: nat, vs: seq<Val>, keyEnd: nat)
    requires keyEnd <= |line| && (s == 19 || s == 22) && (keyEnd < |line| ==> !IsWord(line[keyEnd]))
    ensures var body := BlanksEnd(line, keyEnd);
            MoveOn(line, Stacks(cs + [s + 2], vs, keyEnd)) ==
            if body == keyEnd then Reject(keyEnd) else Proceed(Stacks(cs + [s + 2] + [s + 4], vs + [TokenAt(line, keyEnd)], body))
  {
    if BlanksEnd(line, keyEnd) > keyEnd {
      ShiftMove(line, cs, s + 2, vs, keyEnd, s + 4);
    }
  }

  lemma KeyMove(line: string, cs: seq<nat>, s: nat, vs: seq<Val>, keyAt: nat)
    requires keyAt <= |line| && (s == 19 || s == 22)
    ensures var keyEnd := WordEnd(line, keyAt);
            MoveOn(line, Stacks(cs + [s], vs, keyAt)) ==
            if keyEnd == keyAt then Reject(keyAt) else Proceed(Stacks(cs + [s] + [s + 2], vs + [TokenAt(line, keyAt)], keyEnd))
  {
    if WordEnd(line, keyAt) > keyAt {
      ShiftMove(line, cs, s, vs, keyAt, s + 2);
    }
  }

  // After '%': key, blanks, value and terminator, exactly as OptionAt reads them.
  lemma OptionMoves(line: string, cs: seq<nat>, s: nat, vs: seq<Val>, start: nat) returns (n: nat)
    requires start < |line| && (s == 19 || s == 22)
    ensures Moves(line, Stacks(cs + [s], vs, start + 1), n) ==
            match OptionAt(line, start)
            case Err(at) => Reject(at)
            case Ok(option) => Proceed(AfterOption(line, cs, s, vs, start + 1, WordEnd(line, start + 1), option.value, option.end))
  {
    hide Moves, MoveOn, TokenEnd, TokenTerm, Goto, Decode, Terminator, InValueStacks, WordEnd, BlanksEnd;
    var a := Stacks(cs + [s], vs, start + 1);
    var keyEnd := WordEnd(line, start + 1);
    KeyMove(line, cs, s, vs, start + 1);
    OneMove(line, a);
    n := 1;
    if keyEnd > start + 1 {
      var vs1 := vs + [TokenAt(line, start + 1)];
      BlanksMove(line, cs + [s], s, vs1, keyEnd);
      TwoMoves(line, a, Stacks(cs + [s] + [s + 2], vs1, keyEnd));
      n := 2;
      var body := BlanksEnd(line, keyEnd);
      if body > keyEnd {
        var m := BodyMoves(line, cs + [s] + [s + 2], s, vs1 + [TokenAt(line, keyEnd)], body);
        Then(line, a, 2, Stacks(cs + [s] + [s + 2] + [s + 4], vs1 + [TokenAt(line, keyEnd)], body), m);
        n := 2 + m;
      }
    }
  }

  lemma BodyMoves(line: string, cs: seq<nat>, s: nat, vs: seq<Val>, body: nat) returns (n: nat)
    requires body <= |line| && (s == 19 || s == 22) && (body < |line| ==> !IsBlank(line[body]))
    ensures Moves(line, Stacks(cs + [s + 4], vs, body), n) ==
            if !StartsValue(line, body) then Reject(body)
            else
              var end := Terminator(line, body);
              if end == |line| then Reject(end)
              else Proceed(Stacks(cs + [s + 4] + [Goto(s + 4, OPTION_VALUE)] + [if s == 19 then 31 else 39],
                                  vs + [StringVal(Decode(line[body..end]))] + [TokenAt(line, end)], end + 1))
  {
    hide Moves, MoveOn, Goto, Decode, Terminator, InValueStacks, StartsValue, TokenEnd;
    n := ValueTextMoves(line, cs, s + 4, vs, body);
    var end := Terminator(line, body);
    if StartsValue(line, body) && end < |line| {
      var d := InValueStacks(cs, s + 4, vs, Decode(line[body..end]), end);
      TerminatorMove(line, cs, s, vs, Decode(line[body..end]), end);
      OneMove(line, d);
      Then(line, Stacks(cs + [s + 4], vs, body), n, d, 1);
      n := n + 1;
    }
  }

  // ---------------------------------------------------------------------------------------------
  // Whole options, tails and lines.

  function Parsed(line: string, option: LineOption): ParsedOption
    requires option.start <= |line| && option.end <= |line|
  {
    ParsedOption(option.key, option.value, PointAt(line, option.start), PointAt(line, option.end))
  }

  // The stacks between options: before the first one, or holding those read so far.
  function Between(any: bool, options: seq<ParsedOption>, pos: nat): Stacks {
    if any then Stacks([0, 3], [OptionsVal(options)], pos) else Stacks([0], [], pos)
  }

  // The four moves around an option: its opening, and the two reductions after it.
  lemma OpenOption(line: string, cs: seq<nat>, s: nat, vs: seq<Val>, pos: nat) returns (n: nat)
    requires pos < |line| && (s == 0 || s == 3)
    requires var start := BlanksEnd(line, pos); start < |line| && line[start] == '%'
    ensures var start := BlanksEnd(line, pos);
            Moves(line, Stacks(cs + [s], vs, pos), n) ==
            if start == pos then Proceed(Stacks(cs + [s] + [19], vs + [TokenAt(line, start)], start + 1))
            else Proceed(Stacks(cs + [s] + [5] + [22], vs + [TokenAt(line, pos)] + [TokenAt(line, start)], start + 1))
  {
    var start := BlanksEnd(line, pos);
    if start == pos {
      ShiftMove(line, cs, s, vs, pos, 19);
      n := 1;
    } else {
      ShiftMove(line, cs, s, vs, pos, 5);
      ShiftMove(line, cs + [s], 5, vs + [TokenAt(line, pos)], start, 22);
      n := 2;
    }
    hide Moves, MoveOn, Action, TokenTerm;
    OneMove(line, Stacks(cs + [s], vs, pos));
    if start > pos {
      TwoMoves(line, Stacks(cs + [s], vs, pos), Stacks(cs + [s] + [5], vs + [TokenAt(line, pos)], start));
    }
  }

  // The two reductions of a complete option; any lookahead allows them.
  lemma ElementReduce(line: string, cs: seq<nat>, s: nat, vs: seq<Val>, percent: Val, key: Val, blanks: Val,
      value: Val, end: Val, option: Val, pos: nat)
    requires pos <= |line| && (s == 0 || s == 3) && ToOption(percent, key, value, end) == Some(option)
    ensures MoveOn(line, Stacks(cs + [s] + [19] + [21] + [23] + [25] + [31], vs + [percent] + [key] + [blanks] + [value] + [end], pos)) ==
            Proceed(Stacks(cs + [s] + [Goto(s, OPTION_ELEMENT)], vs + [option], pos))
  {
    var read, args := [19, 21, 23, 25, 31], [percent, key, blanks, value, end];
    assert cs + [s] + [19] + [21] + [23] + [25] + [31] == cs + [s] + read;
    assert vs + [percent] + [key] + [blanks] + [value] + [end] == vs + args;
    assert Action(31, TermAt(line, pos)) == ReduceWith(5);
    hide MoveOn, Action, TermAt, ToOption;
    ReduceMove(line, cs, s, read, vs, args, pos, 5, option);
  }

  lemma ElementReduceAfterBlanks(line: string, cs: seq<nat>, s: nat, vs: seq<Val>, before: Val, percent: Val,
      key: Val, blanks: Val, value: Val, end: Val, option: Val, pos: nat)
    requires pos <= |line| && (s == 0 || s == 3) && ToOption(percent, key, value, end) == Some(option)
    ensures MoveOn(line, Stacks(cs + [s] + [5] + [22] + [24] + [26] + [32] + [39],
                                vs + [before] + [percent] + [key] + [blanks] + [value] + [end], pos)) ==
            Proceed(Stacks(cs + [s] + [Goto(s, OPTION_ELEMENT)], vs + [option], pos))
  {
    var read, args := [5, 22, 24, 26, 32, 39], [before, percent, key, blanks, value, end];
    assert cs + [s] + [5] + [22] + [24] + [26] + [32] + [39] == cs + [s] + read;
    assert vs + [before] + [percent] + [key] + [blanks] + [value] + [end] == vs + args;
    assert Action(39, TermAt(line, pos)) == ReduceWith(6);
    hide MoveOn, Action, TermAt, ToOption;
    ReduceMove(line, cs, s, read, vs, args, pos, 6, option);
  }

  lemma OptionVals(line: string, start: nat, option: LineOption)
    requires start < |line| && OptionAt(line, start) == Ok(option)
    ensures var keyEnd := WordEnd(line, start + 1);
            && start + 1 < keyEnd < |line|
            && ToOption(TokenAt(line, start), TokenAt(line, start + 1), StringVal(option.value), TokenAt(line, option.end)) ==
               Some(OptionVal(Parsed(line, option)))
  {
    assert TokenEnd(line, start + 1) == WordEnd(line, start + 1);
  }

  // The reduction that adds an option to the list.
  lemma ListReduce(line: string, any: bool, options: seq<ParsedOption>, option: ParsedOption, pos: nat)
    requires pos <= |line| && (!any ==> options == [])
    ensures var a := Between(any, options, pos);
            var s := if any then 3 else 0;
            MoveOn(line, Stacks(a.cursors + [Goto(s, OPTION_ELEMENT)], a.values + [OptionVal(option)], pos)) ==
            Proceed(Between(true, options + [option], pos))
  {
    var a := Between(any, options, pos);
    assert Action(10, TermAt(line, pos)) == ReduceWith(3) && Action(20, TermAt(line, pos)) == ReduceWith(4);
    hide MoveOn, Action, TermAt;
    if any {
      var read, args := [3, 20], [OptionsVal(options), OptionVal(option)];
      assert a.cursors + [20] == [] + [0] + read && a.values + [OptionVal(option)] == [] + args;
      ReduceMove(line, [], 0, read, [], args, pos, 4, OptionsVal(options + [option]));
      assert [] + [0] + [3] == [0, 3] && [] + [OptionsVal(options + [option])] == [OptionsVal(options + [option])];
    } else {
      var args := [OptionVal(option)];
      assert a.cursors + [10] == [] + [0] + [10] && a.values + [OptionVal(option)] == [] + args;
      ReduceMove(line, [], 0, [10], [], args, pos, 3, OptionsVal([option]));
      assert [] + [0] + [3] == [0, 3] && options + [option] == [option] && [] + [OptionsVal([option])] == [OptionsVal([option])];
    }
  }

  // One option between others: read, or rejected where OptionAt says.
  lemma OptionStep(line: string, any: bool, options: seq<ParsedOption>, pos: nat) returns (n: nat)
    requires pos < |line| && (!any ==> options == [])
    requires var start := BlanksEnd(line, pos); start < |line| && line[start] == '%'
    ensures Moves(line, Between(any, options, pos), n) ==
            match OptionAt(line, BlanksEnd(line, pos))
            case Err(at) => Reject(at)
            case Ok(option) => Proceed(Between(true, options + [Parsed(line, option)], option.end + 1))
  {
    hide Moves, MoveOn, TokenEnd, TokenTerm, OptionAt, BlanksEnd, WordEnd, ToOption, TokenAt, Parsed;
    var start := BlanksEnd(line, pos);
    var a := Between(any, options, pos);
    var cs, s, vs := if any then [0] else [], if any then 3 else 0, a.values;
    assert a == Stacks(cs + [s], vs, pos);
    n := OpenOption(line, cs, s, vs, pos);
    var b, m;
    if start == pos {
      b := Stacks(cs + [s] + [19], vs + [TokenAt(line, start)], start + 1);
      m := OptionMoves(line, cs + [s], 19, vs + [TokenAt(line, start)], start);
    } else {
      b := Stacks(cs + [s] + [5] + [22], vs + [TokenAt(line, pos)] + [TokenAt(line, start)], start + 1);
      m := OptionMoves(line, cs + [s] + [5], 22, vs + [TokenAt(line, pos)] + [TokenAt(line, start)], start);
    }
    Then(line, a, n, b, m);
    n := n + m;
    match OptionAt(line, start)
    case Err(_) =>
    case Ok(option) =>
      var keyEnd, result := WordEnd(line, start + 1), OptionVal(Parsed(line, option));
      OptionVals(line, start, option);
      if start == pos {
        ElementReduce(line, cs, s, vs, TokenAt(line, start), TokenAt(line, start + 1), TokenAt(line, keyEnd), StringVal(option.value),
                      TokenAt(line, option.end), result, option.end + 1);
      } else {
        ElementReduceAfterBlanks(line, cs, s, vs, TokenAt(line, pos), TokenAt(line, start), TokenAt(line, start + 1), TokenAt(line, keyEnd),
                                 StringVal(option.value), TokenAt(line, option.end), result, option.end + 1);
      }
      ListReduce(line, any, options, Parsed(line, option), option.end + 1);
      n := CloseOption(line, a, n, Stacks(cs + [s] + [Goto(s, OPTION_ELEMENT)], vs + [result], option.end + 1),
                       Between(true, options + [Parsed(line, option)], option.end + 1));
  }

  lemma CloseOption(line: string, a: Stacks, n: nat, b: Stacks, c: Stacks) returns (m: nat)
    requires a.pos <= |line| && Moves(line, a, n).Proceed?
    requires MoveOn(line, Moves(line, a, n).stacks) == Proceed(b) && MoveOn(line, b) == Proceed(c)
    ensures Moves(line, a, m) == Proceed(c)
  {
    hide Moves, MoveOn;
    var d := Moves(line, a, n).stacks;
    TwoMoves(line, d, b);
    Then(line, a, n, d, 2);
    m := n + 2;
  }

  // ---------------------------------------------------------------------------------------------
  // The tail.

  // The stacks while the tail is skipped: state 2, or 11 above the options.
  function InTail(any: bool, options: seq<ParsedOption>, pos: nat): Stacks {
    var b := Between(any, options, pos);
    Stacks(b.cursors + [if any then 11 else 2], b.values + [IntVal(0)], pos)
  }

  lemma TailFirstReduce(line: string, any: bool, options: seq<ParsedOption>, term: nat, token: Val, next: nat)
    requires next <= |line| && term < TERM_COUNT && term != PERCENT
    requires term == BLANKS ==> TermAt(line, next) != PERCENT
    ensures var b := Between(any, options, next);
            MoveOn(line, Stacks(b.cursors + [TailFirstState(term)], b.values + [token], next)) == Proceed(InTail(any, options, next))
  {
    var b := Between(any, options, next);
    var to := TailFirstState(term);
    var rule := CompleteRule(to).value;
    assert Action(to, TermAt(line, next)) == ReduceWith(rule);
    assert Reductor(rule, [token]) == Some(IntVal(0)) && RuleAt(rule).lhs == REST && |RuleAt(rule).rhs| == 1;
    hide MoveOn, Action, Reductor, TermAt, CompleteRule, TailFirstState, RuleAt;
    var cs, s := if any then [0] else [], if any then 3 else 0;
    assert b.cursors == cs + [s];
    ReduceMove(line, cs, s, [to], b.values, [token], next, rule, IntVal(0));
  }

  lemma TailNextReduce(line: string, any: bool, options: seq<ParsedOption>, term: nat, token: Val, next: nat)
    requires next <= |line| && term < TERM_COUNT
    ensures var a := InTail(any, options, next);
            MoveOn(line, Stacks(a.cursors + [TailNextState(term)], a.values + [token], next)) == Proceed(a)
  {
    var a, b := InTail(any, options, next), Between(any, options, next);
    var to := TailNextState(term);
    var rule := CompleteRule(to).value;
    assert Action(to, TermAt(line, next)) == ReduceWith(rule);
    var args := [IntVal(0), token];
    assert Reductor(rule, args) == Some(IntVal(0)) && RuleAt(rule).lhs == REST && |RuleAt(rule).rhs| == 2;
    hide MoveOn, Action, Reductor, TermAt, CompleteRule, TailNextState, RuleAt;
    var cs, s := if any then [0] else [], if any then 3 else 0;
    var read := [if any then 11 else 2, to];
    assert a.cursors + [to] == cs + [s] + read && a.values + [token] == b.values + args;
    ReduceMove(line, cs, s, read, b.values, args, next, rule, IntVal(0));
  }

  lemma TailShift(line: string, any: bool, options: seq<ParsedOption>, pos: nat)
    requires pos < |line|
    ensures var a := InTail(any, options, pos);
            MoveOn(line, a) == Proceed(Stacks(a.cursors + [TailNextState(TokenTerm(line, pos))], a.values + [TokenAt(line, pos)], TokenEnd(line, pos)))
  {
    var b := Between(any, options, pos);
    ShiftMove(line, b.cursors, if any then 11 else 2, b.values + [IntVal(0)], pos, TailNextState(TokenTerm(line, pos)));
  }

  lemma TextReduce(line: string, any: bool, options: seq<ParsedOption>)
    requires !any ==> options == []
    ensures MoveOn(line, InTail(any, options, |line|)) == Proceed(Stacks([] + [0] + [1], [] + [OptionsVal(options)], |line|))
  {
    hide MoveOn;
    var a := InTail(any, options, |line|);
    if any {
      var read, args := [3, 11], [OptionsVal(options), IntVal(0)];
      assert a.cursors == [] + [0] + read && a.values == [] + args;
      ReduceMove(line, [], 0, read, [], args, |line|, 1, OptionsVal(options));
    } else {
      assert a.cursors == [] + [0] + [2] && a.values == [] + [IntVal(0)];
      ReduceMove(line, [], 0, [2], [], [IntVal(0)], |line|, 0, OptionsVal([]));
    }
  }

  // At the end of the line the text is reduced and accepted.
  lemma TailEnds(line: string, any: bool, options: seq<ParsedOption>)
    requires !any ==> options == []
    ensures Moves(line, InTail(any, options, |line|), 2) == Accept(OptionsVal(options))
  {
    assert InTail(any, options, |line|).pos == |line|;
    hide Moves, MoveOn, InTail;
    TextReduce(line, any, options);
    AcceptMove(line, options);
    TwoMoves(line, InTail(any, options, |line|), Stacks([] + [0] + [1], [] + [OptionsVal(options)], |line|));
  }

  lemma AcceptMove(line: string, options: seq<ParsedOption>)
    ensures MoveOn(line, Stacks([] + [0] + [1], [] + [OptionsVal(options)], |line|)) == Accept(OptionsVal(options))
  {
  }

  lemma {:induction false} TailMoves(line: string, any: bool, options: seq<ParsedOption>, pos: nat) returns (n: nat)
    requires pos <= |line| && (!any ==> options == [])
    ensures Moves(line, InTail(any, options, pos), n) == Accept(OptionsVal(options))
    decreases |line| - pos
  {
    hide Moves, MoveOn, TailNextState, TokenTerm, TokenEnd;
    if pos == |line| {
      TailEnds(line, any, options);
      n := 2;
    } else {
      var next := TokenEnd(line, pos);
      var a := InTail(any, options, pos);
      TailShift(line, any, options, pos);
      TailNextReduce(line, any, options, TokenTerm(line, pos), TokenAt(line, pos), next);
      TwoMoves(line, a, Stacks(a.cursors + [TailNextState(TokenTerm(line, pos))], a.values + [TokenAt(line, pos)], next));
      n := TailMoves(line, any, options, next);
      Then(line, a, 2, InTail(any, options, next), n);
      n := 2 + n;
    }
  }

  // The first token of the tail is neither '%' nor blanks before a '%'.
  lemma TailStart(line: string, any: bool, options: seq<ParsedOption>, pos: nat)
    requires pos < |line|
    requires var start := BlanksEnd(line, pos); start < |line| ==> line[start] != '%'
    ensures Moves(line, Between(any, options, pos), 2) == Proceed(InTail(any, options, TokenEnd(line, pos)))
  {
    var term, next := TokenTerm(line, pos), TokenEnd(line, pos);
    var b := Between(any, options, pos);
    var cs, s := if any then [0] else [], if any then 3 else 0;
    assert b == Stacks(cs + [s], b.values, pos);
    ShiftMove(line, cs, s, b.values, pos, TailFirstState(term));
    assert term == BLANKS ==> TermAt(line, next) != PERCENT;
    hide Moves, MoveOn, Action, TokenTerm, TokenEnd, TailFirstState, TermAt;
    TailFirstReduce(line, any, options, term, TokenAt(line, pos), next);
    TwoMoves(line, b, Stacks(b.cursors + [TailFirstState(term)], b.values + [TokenAt(line, pos)], next));
  }

  // ---------------------------------------------------------------------------------------------
  // Whole lines.

  predicate InLine(line: string, options: seq<LineOption>) {
    forall i :: 0 <= i < |options| ==> options[i].start < options[i].end < |line|
  }

  function ParsedAll(line: string, options: seq<LineOption>): (r: seq<ParsedOption>)
    requires InLine(line, options)
    ensures |r| == |options|
  {
    seq(|options|, i requires 0 <= i < |options| => Parsed(line, options[i]))
  }

  lemma EmptyTail(line: string, any: bool, options: seq<ParsedOption>)
    ensures any ==> Moves(line, Between(any, options, |line|), 2) == Accept(OptionsVal(options))
    ensures !any ==> Moves(line, Between(any, options, |line|), 1) == Reject(|line|)
  {
    var a := Between(any, options, |line|);
    if any {
      assert a.cursors == [] + [0] + [3] && a.values == [] + [OptionsVal(options)];
      ReduceMove(line, [], 0, [3], [], [OptionsVal(options)], |line|, 2, OptionsVal(options));
      AcceptMove(line, options);
      TwoMoves(line, a, Stacks([] + [0] + [1], [] + [OptionsVal(options)], |line|));
    } else {
      OneMove(line, a);
    }
  }

  lemma ParsedAllCons(line: string, before: seq<ParsedOption>, option: LineOption, rest: seq<LineOption>)
    requires option.start < option.end < |line| && InLine(line, rest)
    ensures before + [Parsed(line, option)] + ParsedAll(line, rest) == before + ParsedAll(line, [option] + rest)
  {
    hide Parsed;
  }

  lemma TailText(line: string, any: bool, options: seq<ParsedOption>, pos: nat) returns (n: nat)
    requires pos < |line| && (!any ==> options == [])
    requires var start := BlanksEnd(line, pos); start < |line| ==> line[start] != '%'
    ensures Moves(line, Between(any, options, pos), n) == Accept(OptionsVal(options))
  {
    hide Moves, MoveOn, InTail, TokenEnd;
    TailStart(line, any, options, pos);
    var m := TailMoves(line, any, options, TokenEnd(line, pos));
    Then(line, Between(any, options, pos), 2, InTail(any, options, TokenEnd(line, pos)), m);
    n := 2 + m;
  }

  // What the moves of a line must end in.
  function TextEnd(line: string, any: bool, options: seq<ParsedOption>, pos: nat): Move
    requires pos <= |line|
  {
    match ParseText(line, pos, any)
    case Err(at) => Reject(at)
    case Ok(more) => Accept(OptionsVal(options + ParsedAll(line, more)))
  }

  lemma TextEndTail(line: string, any: bool, options: seq<ParsedOption>, pos: nat)
    requires pos <= |line|
    ensures pos == |line| ==> TextEnd(line, any, options, pos) == if any then Accept(OptionsVal(options)) else Reject(pos)
    ensures pos < |line| && (BlanksEnd(line, pos) < |line| ==> line[BlanksEnd(line, pos)] != '%') ==>
              TextEnd(line, any, options, pos) == Accept(OptionsVal(options))
  {
    assert options + ParsedAll(line, []) == options;
  }

  lemma TextEndOption(line: string, any: bool, options: seq<ParsedOption>, pos: nat)
    requires pos < |line|
    requires var start := BlanksEnd(line, pos); start < |line| && line[start] == '%'
    ensures TextEnd(line, any, options, pos) ==
            match OptionAt(line, BlanksEnd(line, pos))
            case Err(at) => Reject(at)
            case Ok(option) => TextEnd(line, true, options + [Parsed(line, option)], option.end + 1)
  {
    hide OptionAt, BlanksEnd, Parsed, ParsedAll;
    match OptionAt(line, BlanksEnd(line, pos))
    case Err(_) =>
    case Ok(option) =>
      match ParseText(line, option.end + 1, true)
      case Err(_) =>
      case Ok(rest) => ParsedAllCons(line, options, option, rest);
  }

  lemma {:induction false} TextMoves(line: string, any: bool, options: seq<ParsedOption>, pos: nat) returns (n: nat)
    requires pos <= |line| && (!any ==> options == [])
    ensures Moves(line, Between(any, options, pos), n) == TextEnd(line, any, options, pos)
    decreases |line| - pos
  {
    hide Moves, MoveOn, OptionAt, BlanksEnd, Parsed, TextEnd;
    var start := BlanksEnd(line, pos);
    TextEndTail(line, any, options, pos);
    if pos == |line| {
      EmptyTail(line, any, options);
      n := if any then 2 else 1;
    } else if start < |line| && line[start] == '%' {
      TextEndOption(line, any, options, pos);
      n := OptionStep(line, any, options, pos);
      match OptionAt(line, start)
      case Err(_) =>
      case Ok(option) =>
        var m := TextMoves(line, true, options + [Parsed(line, option)], option.end + 1);
        Then(line, Between(any, options, pos), n, Between(true, options + [Parsed(line, option)], option.end + 1), m);
        n := n + m;
    } else {
      n := TailText(line, any, options, pos);
    }
  }

  // How the parser answers a line: the options as the text reading gives them, or one syntax error at
  // the offending token.
  ghost predicate Answers(line: string, outcome: Outcome<Val>, errors: seq<Diagnostic>) {
    match ParseText(line, 0, false)
    case Ok(options) => outcome == Value(OptionsVal(ParsedAll(line, options))) && errors == []
    case Err(at) => outcome == NoValue && errors == [SyntaxError(PointAt(line, at), TermAt(line, at))]
  }

  // On every line the table-driven loop stops, and answers as the text reading does.
  lemma LineOutcome(line: string) returns (n: nat)
    ensures Halts(OptionParser(), line, Initial<Val>(), n)
    ensures Answers(line, Run(OptionParser(), line, Initial<Val>(), n).outcome, Run(OptionParser(), line, Initial<Val>(), n).last.errors)
  {
    hide Moves, MoveOn, ParseText, Step;
    var m := TextMoves(line, false, [], 0);
    assert line[..0] == [];
    n := MovesSimulated(line, Initial<Val>(), Between(false, [], 0), m);
    if ParseText(line, 0, false).Ok? {
      assert [] + ParsedAll(line, ParseText(line, 0, false).value) == ParsedAll(line, ParseText(line, 0, false).value);
    }
  }

  // `ParserInternals::parse`: the parser run on one line.
  method ParseLine(line: string) returns (outcome: Outcome<Val>, errors: seq<Diagnostic>)
    ensures Answers(line, outcome, errors)
  {
    ghost var n := LineOutcome(line);
    TableConsistent();
    hide Answers, Step, Consistent;
    outcome, errors := ContextParse(OptionParser(), ItemSets(), line);
    ghost var k: nat :| Halts(OptionParser(), line, Initial<Val>(), k)
                     && Run(OptionParser(), line, Initial<Val>(), k).outcome == outcome
                     && Run(OptionParser(), line, Initial<Val>(), k).last.errors == errors;
    if k <= n {
      RunStable(OptionParser(), line, Initial<Val>(), k, n);
    } else {
      RunStable(OptionParser(), line, Initial<Val>(), n, k);
    }
  }
}
