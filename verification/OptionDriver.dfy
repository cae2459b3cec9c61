/** What the shift-reduce loop does with the option table on every line. */
module OptionDriver {
  import opened Wrappers
  import opened Text
  import opened Lexer
  import opened Grammar
  import opened ShiftReduce
  import opened OptionLexer
  import opened OptionTable
  import opened OptionText

  function PointAt(line: string, pos: nat): SourcePoint
    requires pos <= |line|
  {
    Advance(START, line[..pos])
  }

  function TermAt(line: string, pos: nat): nat
    requires pos <= |line|
  {
    if pos == |line| then EOF else TokenTerm(line, pos)
  }

  // The parser state while no error has occurred: the stacks and the next token boundary.
  datatype Stacks = Stacks(cursors: seq<nat>, values: seq<Val>, pos: nat)

  datatype Move = Proceed(stacks: Stacks) | Accept(value: Val) | Reject(at: nat) | Fail

  function Apply(line: string, a: Stacks, rule: nat): (m: Move)
    requires a.pos <= |line|
    ensures m.Proceed? ==> m.stacks.pos == a.pos
  {
    var n := |RuleAt(rule).rhs|;
    if rule >= RULE_COUNT || n >= |a.cursors| || n > |a.values| then Fail
    else
      var cursors := a.cursors[..|a.cursors| - n];
      match Reductor(rule, a.values[|a.values| - n..])
      case None => Fail
      case Some(v) =>
        Proceed(Stacks(cursors + [Goto(cursors[|cursors| - 1], RuleAt(rule).lhs)], a.values[..|a.values| - n] + [v], a.pos))
  }

  function MoveOn(line: string, a: Stacks): (m: Move)
    requires a.pos <= |line|
    ensures m.Proceed? ==> m.stacks.pos <= |line|
    ensures m.Reject? ==> m.at == a.pos
  {
    if a.cursors == [] then Fail
    else
      var entry := Action(a.cursors[|a.cursors| - 1], TermAt(line, a.pos));
      match entry.kind
      case ErrorEntry => Reject(a.pos)
      case ShiftEntry =>
        if a.pos == |line| then Fail
        else
          var end := TokenEnd(line, a.pos);
          Proceed(Stacks(a.cursors + [entry.shift], a.values + [TokenVal(line[a.pos..end], PointAt(line, a.pos))], end))
      case SuccessEntry => if a.values == [] then Fail else Accept(a.values[0])
      case _ => Apply(line, a, entry.reduce)
  }

  function Moves(line: string, a: Stacks, n: nat): (m: Move)
    requires a.pos <= |line|
    ensures m.Proceed? ==> m.stacks.pos <= |line|
    ensures m.Reject? ==> m.at <= |line|
    decreases n
  {
    if n == 0 then Proceed(a)
    else
      match MoveOn(line, a)
      case Proceed(a') => Moves(line, a', n - 1)
      case other => other
  }

  lemma {:induction false} MovesCompose(line: string, a: Stacks, n: nat, m: nat)
    requires a.pos <= |line| && Moves(line, a, n).Proceed?
    ensures Moves(line, a, n + m) == Moves(line, Moves(line, a, n).stacks, m)
    decreases n
  {
    hide MoveOn;
    if n > 0 {
      MovesCompose(line, MoveOn(line, a).stacks, n - 1, m);
    }
  }

  // ---------------------------------------------------------------------------------------------
  // The loop of the parser makes these moves.

  // `c` is the parser state for `a`, whether or not the lexer has already looked at the next token.
  ghost predicate At(line: string, c: Config<Val>, a: Stacks) {
    && a.pos <= |line|
    && c.cursors == a.cursors && c.values == a.values
    && c.it == a.pos && c.sp == PointAt(line, a.pos)
    && (c.termEnd == c.it || (a.pos < |line| && c.termEnd == TokenEnd(line, a.pos) && c.term == Some(TokenTerm(line, a.pos))))
    && !c.recovery && !c.consume && c.errors == []
  }

  lemma LookAt(line: string, c: Config<Val>, a: Stacks) returns (c': Config<Val>)
    requires At(line, c, a)
    ensures At(line, c', a) && c'.InBuffer(line) && c.InBuffer(line)
    ensures Step(OptionParser(), line, c) == Act(OptionParser(), line, c', TermAt(line, a.pos))
    ensures a.pos < |line| ==> c'.termEnd == TokenEnd(line, a.pos)
  {
    c' := CurrentTerm(OptionParser(), line, c).0;
    if a.pos < |line| {
      NextToken(line, a.pos);
    }
  }

  lemma ShiftAt(line: string, c: Config<Val>, a: Stacks, to: nat)
    requires At(line, c, a) && a.pos < |line| && c.termEnd == TokenEnd(line, a.pos)
    ensures var end := TokenEnd(line, a.pos);
            At(line, Shift(OptionParser(), line, c, TermAt(line, a.pos), to),
               Stacks(a.cursors + [to], a.values + [TokenVal(line[a.pos..end], PointAt(line, a.pos))], end))
  {
    var end := TokenEnd(line, a.pos);
    AdvanceAppend(START, line[..a.pos], line[a.pos..end]);
    assert line[..a.pos] + line[a.pos..end] == line[..end];
  }

  lemma ReduceAt(line: string, c: Config<Val>, a: Stacks, rule: nat)
    requires At(line, c, a) && Apply(line, a, rule).Proceed?
    ensures Reduce(OptionParser(), c.(consume := false), rule).Go?
    ensures At(line, Reduce(OptionParser(), c.(consume := false), rule).config, Apply(line, a, rule).stacks)
  {
    hide Reductor, Goto, RuleAt;
  }

  ghost predicate Simulates(line: string, next: ShiftReduce.Next<Val>, m: Move) {
    match m
    case Proceed(a) => next.Go? && At(line, next.config, a)
    case Accept(v) => next.Stop? && next.outcome == Value(v) && next.last.errors == []
    case _ => true
  }

  lemma ActShift(line: string, c: Config<Val>, a: Stacks, entry: Entry)
    requires At(line, c, a) && c.InBuffer(line) && a.pos < |line| && c.termEnd == TokenEnd(line, a.pos) && a.cursors != []
    requires entry == Action(a.cursors[|a.cursors| - 1], TermAt(line, a.pos)) && entry.kind == ShiftEntry
    ensures Simulates(line, Act(OptionParser(), line, c, TermAt(line, a.pos)), MoveOn(line, a)) == true
  {
    var next := Act(OptionParser(), line, c, TermAt(line, a.pos));
    assert OptionParser().action(a.cursors[|a.cursors| - 1], TermAt(line, a.pos)) == entry;
    ShiftAt(line, c, a, entry.shift);
    hide Action, TokenEnd, At;
    assert next == Go(Shift(OptionParser(), line, c, TermAt(line, a.pos), entry.shift));
  }

  lemma ActReduce(line: string, c: Config<Val>, a: Stacks, entry: Entry)
    requires At(line, c, a) && c.InBuffer(line) && a.cursors != []
    requires entry == Action(a.cursors[|a.cursors| - 1], TermAt(line, a.pos)) && entry.kind == ReduceEntry
    requires Apply(line, a, entry.reduce).Proceed?
    ensures Simulates(line, Act(OptionParser(), line, c, TermAt(line, a.pos)), MoveOn(line, a)) == true
  {
    var next := Act(OptionParser(), line, c, TermAt(line, a.pos));
    assert OptionParser().action(a.cursors[|a.cursors| - 1], TermAt(line, a.pos)) == entry;
    ReduceAt(line, c, a, entry.reduce);
    hide Action, Reduce, Apply, At;
    assert next == Reduce(OptionParser(), c.(consume := false), entry.reduce);
  }

  lemma ActSimulated(line: string, c: Config<Val>, a: Stacks)
    requires At(line, c, a) && c.InBuffer(line) && (a.pos < |line| ==> c.termEnd == TokenEnd(line, a.pos))
    ensures Simulates(line, Act(OptionParser(), line, c, TermAt(line, a.pos)), MoveOn(line, a)) == true
  {
    if a.cursors != [] {
      var t := TermAt(line, a.pos);
      var entry := Action(a.cursors[|a.cursors| - 1], t);
      ActionKinds(a.cursors[|a.cursors| - 1], t);
      if entry.kind == ShiftEntry {
        if a.pos < |line| {
          ActShift(line, c, a, entry);
        }
      } else if entry.kind == ReduceEntry {
        if Apply(line, a, entry.reduce).Proceed? {
          ActReduce(line, c, a, entry);
        }
      } else {
        assert OptionParser().action(a.cursors[|a.cursors| - 1], t) == entry;
      }
      hide Action, Apply, Reduce, Shift, OnError, TokenEnd;
    }
  }

  lemma MoveSimulated(line: string, c: Config<Val>, a: Stacks)
    requires At(line, c, a) && c.InBuffer(line)
    ensures Simulates(line, Step(OptionParser(), line, c), MoveOn(line, a))
  {
    hide Step, Act, MoveOn;
    var c1 := LookAt(line, c, a);
    ActSimulated(line, c1, a);
  }

  // Without a rule for the recovery token the error recovery pops every state.
  lemma {:induction false} RecoveryFails(line: string, c: Config<Val>)
    requires c.InBuffer(line) && c.recovery && !c.consume && c.cursors != []
    ensures Run(OptionParser(), line, c, |c.cursors|).Stop?
    ensures Run(OptionParser(), line, c, |c.cursors|).outcome == NoValue
    ensures Run(OptionParser(), line, c, |c.cursors|).last.errors == c.errors
    decreases |c.cursors|
  {
    var p := OptionParser();
    assert Step(p, line, c) == OnError(p, line, c, p.Recovery());
    if |c.cursors| > 1 {
      var c' := Step(p, line, c).config;
      assert |c'.cursors| == |c.cursors| - 1;
      RecoveryFails(line, c');
    }
  }

  lemma RejectSimulated(line: string, c: Config<Val>, a: Stacks)
    requires At(line, c, a) && MoveOn(line, a) == Reject(a.pos)
    ensures var n, diagnostic := |a.cursors|, SyntaxError(PointAt(line, a.pos), TermAt(line, a.pos));
            var r := Run(OptionParser(), line, c, n);
            r.Stop? && r.outcome == NoValue && r.last.errors == [diagnostic]
  {
    var p := OptionParser();
    var c1 := LookAt(line, c, a);
    var t := TermAt(line, a.pos);
    var diagnostic := SyntaxError(PointAt(line, a.pos), t);
    assert p.action(a.cursors[|a.cursors| - 1], t) == Action(a.cursors[|a.cursors| - 1], t);
    hide Action;
    assert Step(p, line, c) == OnError(p, line, c1, t);
    var c2 := PopStacks(c1.(errors := [diagnostic], recovery := true));
    if |a.cursors| > 1 {
      assert Step(p, line, c) == Go(c2);
      RecoveryFails(line, c2);
    }
  }

  // The outcome of the loop, as a function of where the moves end.
  ghost predicate Ends(line: string, c: Config<Val>, n: nat, m: Move)
    requires c.InBuffer(line)
  {
    var r := Run(OptionParser(), line, c, n);
    match m
    case Accept(v) => r.Stop? && r.outcome == Value(v) && r.last.errors == []
    case Reject(at) =>
      && at <= |line|
      && r.Stop? && r.outcome == NoValue
      && r.last.errors == [SyntaxError(PointAt(line, at), TermAt(line, at))]
    case _ => true
  }

  lemma {:induction false} MovesSimulated(line: string, c: Config<Val>, a: Stacks, n: nat) returns (m: nat)
    requires At(line, c, a) && c.InBuffer(line)
    ensures Ends(line, c, m, Moves(line, a, n))
    decreases n
  {
    m := 0;
    if n > 0 {
      MoveSimulated(line, c, a);
      match MoveOn(line, a)
      case Proceed(a') =>
        var c' := Step(OptionParser(), line, c).config;
        hide Step, MoveOn, At;
        m := MovesSimulated(line, c', a', n - 1);
        m := m + 1;
      case Accept(_) => m := 1;
      case Reject(_) =>
        RejectSimulated(line, c, a);
        m := |a.cursors|;
      case Fail =>
    }
  }
}
