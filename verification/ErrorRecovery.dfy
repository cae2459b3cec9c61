/** How the shift-reduce driver recovers from a syntax error, for every table. */
module ErrorRecovery {
  import opened Wrappers
  import opened Text
  import opened Lexer
  import opened ShiftReduce

  // The state has no entry for the term.
  predicate NoEntry<V>(p: Parser<V>, state: nat, t: nat) {
    p.action(state, t).kind == ErrorEntry
  }

  // The first error: one diagnostic at the position of the term, and the topmost state is given up.
  lemma ErrorReported<V>(p: Parser<V>, buffer: string, c: Config<V>)
    requires c.InBuffer(buffer) && !c.recovery && !c.consume && |c.cursors| > 1 && |c.values| == |c.cursors| - 1
    requires CurrentTerm(p, buffer, c).1.Some?
    requires NoEntry(p, c.cursors[|c.cursors| - 1], CurrentTerm(p, buffer, c).1.value)
    ensures var (c1, t) := CurrentTerm(p, buffer, c);
            Step(p, buffer, c) ==
            Go(c1.(cursors := c.cursors[..|c.cursors| - 1], values := c.values[..|c.values| - 1], recovery := true,
                   errors := c1.errors + [SyntaxError(c.sp, t.value)]))
  {
  }

  // Then states are given up until one has an entry for the recovery token: `k` is the last that has one.
  // Values go with them, nothing is read, and nothing more is reported.
  lemma {:induction false} RecoveryFinds<V>(p: Parser<V>, buffer: string, c: Config<V>, k: nat)
    requires c.InBuffer(buffer) && c.recovery && !c.consume && k < |c.cursors| && |c.values| == |c.cursors| - 1
    requires forall i :: k < i < |c.cursors| ==> NoEntry(p, c.cursors[i], p.Recovery())
    ensures Run(p, buffer, c, |c.cursors| - 1 - k) == Go(c.(cursors := c.cursors[..k + 1], values := c.values[..k]))
    decreases |c.cursors|
  {
    hide Step;
    if k == |c.cursors| - 1 {
      assert c.cursors[..k + 1] == c.cursors && c.values[..k] == c.values;
    } else {
      var n := |c.cursors| - 1;
      GivesUpState(p, buffer, c);
      var c' := c.(cursors := c.cursors[..n], values := c.values[..n - 1]);
      RecoveryFinds(p, buffer, c', k);
      assert c'.cursors[..k + 1] == c.cursors[..k + 1] && c'.values[..k] == c.values[..k];
    }
  }

  lemma GivesUpState<V>(p: Parser<V>, buffer: string, c: Config<V>)
    requires c.InBuffer(buffer) && c.recovery && !c.consume && |c.cursors| > 1 && |c.values| == |c.cursors| - 1
    requires NoEntry(p, c.cursors[|c.cursors| - 1], p.Recovery())
    ensures Step(p, buffer, c) == Go(c.(cursors := c.cursors[..|c.cursors| - 1], values := c.values[..|c.values| - 1]))
  {
  }

  // When no state has such an entry, the parse ends without a value.
  lemma RecoveryExhausted<V>(p: Parser<V>, buffer: string, c: Config<V>)
    requires c.InBuffer(buffer) && c.recovery && !c.consume && c.cursors != [] && |c.values| == |c.cursors| - 1
    requires forall i :: 0 <= i < |c.cursors| ==> NoEntry(p, c.cursors[i], p.Recovery())
    ensures Run(p, buffer, c, |c.cursors|).Stop?
    ensures Run(p, buffer, c, |c.cursors|).outcome == NoValue && Run(p, buffer, c, |c.cursors|).last.errors == c.errors
  {
    RecoveryFinds(p, buffer, c, 0);
    var bottom := c.(cursors := c.cursors[..1], values := c.values[..0]);
    assert Step(p, buffer, bottom).Stop? && Step(p, buffer, bottom).outcome == NoValue && Step(p, buffer, bottom).last.errors == c.errors;
    assert Run(p, buffer, bottom, 1) == Step(p, buffer, bottom);
    RunCompose(p, buffer, c, |c.cursors| - 1, 1);
  }

  // The state found shifts the recovery token, with its value; terms are read again, and skipped for now.
  lemma RecoveryShifts<V>(p: Parser<V>, buffer: string, c: Config<V>)
    requires c.InBuffer(buffer) && c.recovery && c.cursors != []
    requires p.action(c.cursors[|c.cursors| - 1], p.Recovery()).kind == ShiftRecoveryEntry
    ensures Step(p, buffer, c) ==
            Go(c.(cursors := c.cursors + [p.action(c.cursors[|c.cursors| - 1], p.Recovery()).shift],
                  values := c.values + [p.termValue(p.Recovery(), "", c.sp)], recovery := false, consume := true))
  {
  }

  // While skipping, a term without an entry is read over and not reported; at the end of the input the
  // parse ends without a value. The first entry of any other kind ends the skipping.
  lemma SkipsTerm<V>(p: Parser<V>, buffer: string, c: Config<V>)
    requires c.InBuffer(buffer) && !c.recovery && c.consume && c.cursors != []
    requires CurrentTerm(p, buffer, c).1.Some?
    ensures var (c1, t) := CurrentTerm(p, buffer, c);
            var step := Step(p, buffer, c);
            if !NoEntry(p, c.cursors[|c.cursors| - 1], t.value) then step.Go? ==> step.config.consume == (p.action(c.cursors[|c.cursors| - 1], t.value).kind == ShiftRecoveryEntry)
            else if c1.term == Some(p.Eof()) then step == Stop(NoValue, c1)
            else step == Go(c1.(sp := Advance(c1.sp, buffer[c1.it..c1.termEnd]), it := c1.termEnd))
  {
  }
}
