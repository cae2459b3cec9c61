/** The table-driven longest-match lexer of the parser generator (`regex::dfa_match`). */
module Lexer {
  import opened Wrappers

  // A deterministic automaton: state 0 is the start state, `next` is None where the transition is
  // uninitialised, and `recognised` is the first term recorded for a state, if there is one.
  datatype Dfa = Dfa(next: (nat, char) -> Option<nat>, recognised: nat -> Option<nat>)

  // `it` is the end of the recognised text; without a term it is where the automaton got stuck.
  datatype Recognised = Recognised(it: nat, term: Option<nat>)

  // The state reached from `state` by reading all of `text`.
  function RunDfa(dfa: Dfa, state: nat, text: string): Option<nat>
    decreases |text|
  {
    if text == [] then Some(state)
    else
      var next :- dfa.next(state, text[0]);
      RunDfa(dfa, next, text[1..])
  }

  lemma {:induction false} RunAppend(dfa: Dfa, state: nat, a: string, b: string)
    ensures RunDfa(dfa, state, a + b) ==
            match RunDfa(dfa, state, a) case None => None case Some(mid) => RunDfa(dfa, mid, b)
    decreases |a|
  {
    if a == [] {
      assert a + b == b;
    } else {
      assert (a + b)[0] == a[0] && (a + b)[1..] == a[1..] + b;
      match dfa.next(state, a[0])
      case None =>
      case Some(next) => RunAppend(dfa, next, a[1..], b);
    }
  }

  // The term, if any, that the automaton recognises in the whole of buffer[from..to].
  function TermOf(dfa: Dfa, buffer: string, from: nat, to: nat): Option<nat>
    requires from <= to <= |buffer|
  {
    var state :- RunDfa(dfa, 0, buffer[from..to]);
    dfa.recognised(state)
  }

  // The loop of the matcher from `pos` in `state`, with `best` the last recognised prefix.
  function MatchFrom(dfa: Dfa, buffer: string, state: nat, pos: nat, best: Recognised): Recognised
    requires pos <= |buffer|
    decreases |buffer| - pos
  {
    var best := if dfa.recognised(state).Some? then Recognised(pos, dfa.recognised(state)) else best;
    if pos == |buffer| then best
    else
      match dfa.next(state, buffer[pos])
      case None => if best.term.None? then Recognised(pos, None) else best
      case Some(next) => MatchFrom(dfa, buffer, next, pos + 1, best)
  }

  function DfaMatch(dfa: Dfa, buffer: string, start: nat): Recognised
    requires start <= |buffer|
  {
    MatchFrom(dfa, buffer, 0, start, Recognised(start, None))
  }

  // `r` is the longest recognised prefix of buffer[start..] among those ending before `bound`.
  ghost predicate IsLongest(dfa: Dfa, buffer: string, start: nat, bound: nat, r: Recognised)
    requires start <= |buffer| && bound <= |buffer| + 1
  {
    && (r.term.Some? ==> start <= r.it < bound && TermOf(dfa, buffer, start, r.it) == r.term)
    && forall to :: start <= to < bound && (r.term.Some? ==> r.it < to) ==> TermOf(dfa, buffer, start, to) == None
  }

  // Reading on past `pos` continues from the state reached there.
  lemma TermOfStep(dfa: Dfa, buffer: string, start: nat, pos: nat, to: nat, state: nat)
    requires start <= pos < to <= |buffer| && RunDfa(dfa, 0, buffer[start..pos]) == Some(state)
    ensures RunDfa(dfa, 0, buffer[start..to]) ==
            match dfa.next(state, buffer[pos]) case None => None case Some(next) => RunDfa(dfa, next, buffer[pos + 1..to])
  {
    assert buffer[start..to] == buffer[start..pos] + buffer[pos..to];
    RunAppend(dfa, 0, buffer[start..pos], buffer[pos..to]);
    assert buffer[pos..to][1..] == buffer[pos + 1..to];
  }

  // One more state visited: the recorded prefix stays the longest.
  lemma BestSoFar(dfa: Dfa, buffer: string, start: nat, state: nat, pos: nat, best: Recognised) returns (best': Recognised)
    requires start <= pos <= |buffer| && RunDfa(dfa, 0, buffer[start..pos]) == Some(state)
    requires IsLongest(dfa, buffer, start, pos, best)
    ensures best' == if dfa.recognised(state).Some? then Recognised(pos, dfa.recognised(state)) else best
    ensures IsLongest(dfa, buffer, start, pos + 1, best')
  {
    best' := if dfa.recognised(state).Some? then Recognised(pos, dfa.recognised(state)) else best;
    assert TermOf(dfa, buffer, start, pos) == dfa.recognised(state);
  }

  lemma {:induction false} MatchFromLongest(dfa: Dfa, buffer: string, start: nat, state: nat, pos: nat, best: Recognised)
    requires start <= pos <= |buffer|
    requires RunDfa(dfa, 0, buffer[start..pos]) == Some(state)
    requires IsLongest(dfa, buffer, start, pos, best)
    requires best.term.None? ==> best.it == start
    ensures var r := MatchFrom(dfa, buffer, state, pos, best);
            start <= r.it <= |buffer| && IsLongest(dfa, buffer, start, |buffer| + 1, r)
    decreases |buffer| - pos
  {
    var best' := BestSoFar(dfa, buffer, start, state, pos, best);
    hide TermOf;
    if pos < |buffer| {
      match dfa.next(state, buffer[pos])
      case None =>
        forall to | pos < to <= |buffer|
          ensures TermOf(dfa, buffer, start, to) == None
        {
          StuckTermOf(dfa, buffer, start, pos, to, state);
        }
      case Some(next) =>
        TermOfStep(dfa, buffer, start, pos, pos + 1, state);
        MatchFromLongest(dfa, buffer, start, next, pos + 1, best');
    }
  }

  lemma StuckTermOf(dfa: Dfa, buffer: string, start: nat, pos: nat, to: nat, state: nat)
    requires start <= pos < to <= |buffer| && RunDfa(dfa, 0, buffer[start..pos]) == Some(state)
    requires dfa.next(state, buffer[pos]) == None
    ensures TermOf(dfa, buffer, start, to) == None
  {
    TermOfStep(dfa, buffer, start, pos, to, state);
  }

  // The matcher returns the longest prefix that ends in a recognising state, with that state's first
  // recorded term, or no term when no prefix does.
  lemma LongestMatch(dfa: Dfa, buffer: string, start: nat)
    requires start <= |buffer|
    ensures var r := DfaMatch(dfa, buffer, start);
            && start <= r.it <= |buffer|
            && (r.term.Some? ==> TermOf(dfa, buffer, start, r.it) == r.term)
            && (forall to :: start <= to <= |buffer| && (r.term.Some? ==> r.it < to) ==> TermOf(dfa, buffer, start, to) == None)
  {
    assert buffer[start..start] == [];
    MatchFromLongest(dfa, buffer, start, 0, start, Recognised(start, None));
  }

  // The matching loop itself, over its state index and iterator.
  method Match(dfa: Dfa, buffer: string, start: nat) returns (rt: Recognised)
    requires start <= |buffer|
    ensures rt == DfaMatch(dfa, buffer, start)
  {
    var state := 0;
    var it := start;
    rt := Recognised(start, None);
    while true
      invariant start <= it <= |buffer|
      invariant MatchFrom(dfa, buffer, state, it, rt) == DfaMatch(dfa, buffer, start)
      decreases |buffer| - it
    {
      var rec := dfa.recognised(state);
      if rec.Some? {
        rt := Recognised(it, rec);
      }
      if it == |buffer| {
        break;
      }
      var tr := dfa.next(state, buffer[it]);
      if tr.None? {
        if rt.term.None? {
          rt := Recognised(it, None);
        }
        break;
      }
      state := tr.value;
      it := it + 1;
    }
  }
}
