/** The table-driven shift-reduce loop (`parser::context_parse`), for any grammar, table and lexer. */
module ShiftReduce {
  import opened Wrappers
  import opened Text
  import opened Lexer
  import opened Grammar

  datatype EntryKind = ErrorEntry | SuccessEntry | ShiftEntry | ShiftRecoveryEntry | ReduceEntry | RrConflictEntry

  datatype Entry = Entry(kind: EntryKind, shift: nat, reduce: nat)

  // Terms 0..termCount come from the lexer, `Eof` and `Recovery` follow them. A reductor that throws
  // returns None.
  datatype Parser<!V> = Parser(
    dfa: Dfa,
    rules: seq<Rule>,
    rootRule: nat,
    termCount: nat,
    action: (nat, nat) -> Entry,
    goto: (nat, nat) -> nat,
    termValue: (nat, string, SourcePoint) -> V,
    reductor: (nat, seq<V>) -> Option<V>)
  {
    function Eof(): nat { termCount }

    function Recovery(): nat { termCount + 1 }
  }

  datatype Diagnostic = SyntaxError(sp: SourcePoint, term: nat) | UnexpectedChar(sp: SourcePoint, at: nat)

  // The fields of `parse_state` that change while parsing.
  datatype Config<V> = Config(
    cursors: seq<nat>,
    values: seq<V>,
    sp: SourcePoint,
    it: nat,
    termEnd: nat,
    term: Option<nat>,
    recovery: bool,
    consume: bool,
    errors: seq<Diagnostic>)
  {
    ghost predicate InBuffer(buffer: string) {
      it <= termEnd <= |buffer|
    }
  }

  // How a parse ends. Undefined stands for indexing an empty stack, which C++ leaves undefined.
  datatype Outcome<+V> = Value(value: V) | NoValue | Threw | Undefined

  datatype Next<V> = Go(config: Config<V>) | Stop(outcome: Outcome<V>, last: Config<V>)

  function Initial<V>(): Config<V> {
    Config([0], [], START, 0, 0, None, false, false, [])
  }

  function CurrentTerm<V>(p: Parser<V>, buffer: string, c: Config<V>): (r: (Config<V>, Option<nat>))
    requires c.InBuffer(buffer)
    ensures r.0.InBuffer(buffer)
  {
    if c.recovery then (c, Some(p.Recovery()))
    else if c.it != c.termEnd then (c, c.term)
    else if c.it == |buffer| then (c.(term := Some(p.Eof())), Some(p.Eof()))
    else
      LongestMatch(p.dfa, buffer, c.it);
      var res := DfaMatch(p.dfa, buffer, c.it);
      var errors := if res.term.None? then c.errors + [UnexpectedChar(c.sp, c.it)] else c.errors;
      (c.(termEnd := res.it, term := res.term, errors := errors), res.term)
  }

  function ConsumeTerm<V>(buffer: string, c: Config<V>): (r: Config<V>)
    requires c.InBuffer(buffer)
    ensures r.InBuffer(buffer)
  {
    c.(sp := Advance(c.sp, buffer[c.it..c.termEnd]), it := c.termEnd)
  }

  function PopStacks<V>(c: Config<V>): Config<V>
    requires c.cursors != []
  {
    c.(cursors := c.cursors[..|c.cursors| - 1], values := if c.values == [] then [] else c.values[..|c.values| - 1])
  }

  function Reduce<V>(p: Parser<V>, c: Config<V>, rule: nat): Next<V> {
    if rule >= |p.rules| || |p.rules[rule].rhs| >= |c.cursors| || |p.rules[rule].rhs| > |c.values| then Stop(Undefined, c)
    else
      var n := |p.rules[rule].rhs|;
      var cursors := c.cursors[..|c.cursors| - n];
      match p.reductor(rule, c.values[|c.values| - n..])
      case None => Stop(Threw, c)
      case Some(v) =>
        Go(c.(cursors := cursors + [p.goto(cursors[|cursors| - 1], p.rules[rule].lhs)],
              values := c.values[..|c.values| - n] + [v]))
  }

  // An error entry: skip the term while consuming, otherwise report once and pop a state.
  function OnError<V>(p: Parser<V>, buffer: string, c: Config<V>, t: nat): (r: Next<V>)
    requires c.InBuffer(buffer) && c.cursors != []
    ensures r.Go? ==> r.config.InBuffer(buffer)
  {
    if c.consume then
      if c.term == Some(p.Eof()) then Stop(NoValue, c) else Go(ConsumeTerm(buffer, c))
    else
      var errors := if c.recovery then c.errors else c.errors + [SyntaxError(c.sp, t)];
      var c := PopStacks(c.(errors := errors, recovery := true));
      if c.cursors == [] then Stop(NoValue, c) else Go(c)
  }

  function Shift<V>(p: Parser<V>, buffer: string, c: Config<V>, t: nat, to: nat): (r: Config<V>)
    requires c.InBuffer(buffer)
    ensures r.InBuffer(buffer)
  {
    var value := p.termValue(t, buffer[c.it..c.termEnd], c.sp);
    ConsumeTerm(buffer, c.(cursors := c.cursors + [to], values := c.values + [value], consume := false))
  }

  function ShiftRecovery<V>(p: Parser<V>, c: Config<V>, to: nat): Config<V> {
    var value := p.termValue(p.Recovery(), "", c.sp);
    c.(cursors := c.cursors + [to], values := c.values + [value], recovery := false, consume := true)
  }

  // What the table entry for the current state and term `t` does.
  function Act<V>(p: Parser<V>, buffer: string, c: Config<V>, t: nat): (r: Next<V>)
    requires c.InBuffer(buffer)
    ensures r.Go? ==> r.config.InBuffer(buffer)
  {
    if c.cursors == [] then Stop(Undefined, c)
    else
      var entry := p.action(c.cursors[|c.cursors| - 1], t);
      match entry.kind
      case ErrorEntry => OnError(p, buffer, c, t)
      case ShiftEntry => Go(Shift(p, buffer, c, t, entry.shift))
      case ShiftRecoveryEntry => Go(ShiftRecovery(p, c, entry.shift))
      case SuccessEntry => if c.values == [] then Stop(Undefined, c) else Stop(Value(c.values[0]), c.(consume := false))
      case _ => Reduce(p, c.(consume := false), entry.reduce)
  }

  // One iteration of the parser loop.
  function Step<V>(p: Parser<V>, buffer: string, c: Config<V>): (r: Next<V>)
    requires c.InBuffer(buffer)
    ensures r.Go? ==> r.config.InBuffer(buffer)
  {
    var (c, t) := CurrentTerm(p, buffer, c);
    if t.None? then Stop(NoValue, c) else Act(p, buffer, c, t.value)
  }

  // At most `n` iterations.
  function Run<V>(p: Parser<V>, buffer: string, c: Config<V>, n: nat): (r: Next<V>)
    requires c.InBuffer(buffer)
    ensures r.Go? ==> r.config.InBuffer(buffer)
    decreases n
  {
    if n == 0 then Go(c)
    else
      match Step(p, buffer, c)
      case Stop(outcome, last) => Stop(outcome, last)
      case Go(c') => Run(p, buffer, c', n - 1)
  }

  // The rules reduced in these iterations, in order.
  function Reductions<V>(p: Parser<V>, buffer: string, c: Config<V>, n: nat): seq<nat>
    requires c.InBuffer(buffer)
    decreases n
  {
    if n == 0 then []
    else
      match Step(p, buffer, c)
      case Stop(_, _) => []
      case Go(c') => ReducedBy(p, buffer, c) + Reductions(p, buffer, c', n - 1)
  }

  function ReducedBy<V>(p: Parser<V>, buffer: string, c: Config<V>): seq<nat>
    requires c.InBuffer(buffer)
  {
    var (c, t) := CurrentTerm(p, buffer, c);
    if t.None? then [] else ReducedOn(p, c, t.value)
  }

  function ReducedOn<V>(p: Parser<V>, c: Config<V>, t: nat): seq<nat> {
    if c.cursors == [] then []
    else
      var entry := p.action(c.cursors[|c.cursors| - 1], t);
      if entry.kind == ReduceEntry || entry.kind == RrConflictEntry then [entry.reduce] else []
  }

  ghost predicate Halts<V>(p: Parser<V>, buffer: string, c: Config<V>, n: nat)
    requires c.InBuffer(buffer)
  {
    Run(p, buffer, c, n).Stop?
  }

  // ---------------------------------------------------------------------------------------------
  // What a table built from item sets guarantees.

  // Rule `rule` recognised up to its first `dot` symbols.
  datatype Item = Item(rule: nat, dot: nat)

  // Every item of `to` that has read a symbol has read `sym`, and comes from an item of `from`.
  ghost predicate BackwardOk(rules: seq<Rule>, items: nat -> iset<Item>, from: nat, sym: Symbol, to: nat) {
    && to != 0
    && forall i: Item :: i in items(to) && i.dot > 0 ==>
         i.rule < |rules| && i.dot <= |rules[i.rule].rhs| && rules[i.rule].rhs[i.dot - 1] == sym && Item(i.rule, i.dot - 1) in items(from)
  }

  ghost predicate EntryOk<V>(p: Parser<V>, items: nat -> iset<Item>, s: nat, t: nat) {
    var e := p.action(s, t);
    match e.kind
    case ErrorEntry => true
    case ShiftEntry => t < p.termCount && BackwardOk(p.rules, items, s, Term(t), e.shift)
    case ShiftRecoveryEntry => t == p.Recovery() && BackwardOk(p.rules, items, s, Term(t), e.shift)
    case SuccessEntry => t == p.Eof() && Item(p.rootRule, 1) in items(s)
    case _ => e.reduce < |p.rules| && e.reduce != p.rootRule && Item(e.reduce, |p.rules[e.reduce].rhs|) in items(s)
  }

  ghost predicate Consistent<V(!new)>(p: Parser<V>, items: nat -> iset<Item>) {
    && p.rootRule < |p.rules| && |p.rules[p.rootRule].rhs| == 1
    && (forall i: Item :: i in items(0) ==> i.dot == 0)
    && (forall s: nat :: Item(p.rootRule, 0) in items(s) ==> s == 0)
    && (forall s: nat, t: nat :: EntryOk(p, items, s, t))
    && (forall s: nat, r: nat :: Item(r, 0) in items(s) && r < |p.rules| && r != p.rootRule ==>
          BackwardOk(p.rules, items, s, NTerm(p.rules[r].lhs), p.goto(s, p.rules[r].lhs)))
    && (forall s: nat :: p.dfa.recognised(s).Some? ==> p.dfa.recognised(s).value < p.termCount)
  }

  // ---------------------------------------------------------------------------------------------
  // The loop invariant.

  // `tokens` are consecutive matches of the lexer that cover buffer[..end].
  ghost predicate Lexed(dfa: Dfa, buffer: string, tokens: seq<Tree>, end: nat)
    decreases |tokens|
  {
    if tokens == [] then end == 0
    else
      var init, last := tokens[..|tokens| - 1], tokens[|tokens| - 1];
      && last.Leaf?
      && exists start: nat ::
           && start <= end <= |buffer|
           && Lexed(dfa, buffer, init, start)
           && DfaMatch(dfa, buffer, start) == Recognised(end, Some(last.t))
           && last.text == buffer[start..end]
           && last.sp == Advance(START, buffer[..start])
  }

  // `leaves` are the tokens with some stretches, possibly empty, replaced by one recovery token each.
  ghost predicate Patched(recovery: nat, tokens: seq<Tree>, leaves: seq<Tree>)
    decreases |leaves|
  {
    if leaves == [] then tokens == []
    else
      var init, last := leaves[..|leaves| - 1], leaves[|leaves| - 1];
      if last.Leaf? && last.t == recovery then
        exists k: nat :: k <= |tokens| && Patched(recovery, tokens[..k], init)
      else
        tokens != [] && tokens[|tokens| - 1] == last && Patched(recovery, tokens[..|tokens| - 1], init)
  }

  function EvalTree<V>(p: Parser<V>, tree: Tree): Option<V>
    decreases tree
  {
    match tree
    case Leaf(t, text, sp) => Some(p.termValue(t, text, sp))
    case Node(rule, children) =>
      var vs :- EvalAll(p, children);
      p.reductor(rule, vs)
  }

  // The values of a forest: the rule functions folded bottom up.
  function EvalAll<V>(p: Parser<V>, trees: seq<Tree>): (r: Option<seq<V>>)
    ensures r.Some? ==> |r.value| == |trees|
    decreases trees
  {
    if trees == [] then Some([])
    else
      var vs :- EvalAll(p, trees[..|trees| - 1]);
      var v :- EvalTree(p, trees[|trees| - 1]);
      Some(vs + [v])
  }

  lemma {:induction false} EvalAllSplit<V>(p: Parser<V>, trees: seq<Tree>, k: nat)
    requires k <= |trees| && EvalAll(p, trees).Some?
    ensures EvalAll(p, trees[..k]) == Some(EvalAll(p, trees).value[..k])
    ensures EvalAll(p, trees[k..]) == Some(EvalAll(p, trees).value[k..])
    decreases |trees|
  {
    var vs := EvalAll(p, trees).value;
    if k == |trees| {
      assert trees[..k] == trees && trees[k..] == [];
      assert vs[..k] == vs && vs[k..] == [];
    } else {
      var init, last := trees[..|trees| - 1], trees[|trees| - 1];
      EvalAllSplit(p, init, k);
      assert init[..k] == trees[..k];
      assert trees[k..][..|trees[k..]| - 1] == init[k..] && trees[k..][|trees[k..]| - 1] == last;
      assert vs[..|vs| - 1][..k] == vs[..k];
      assert vs[k..] == vs[..|vs| - 1][k..] + [vs[|vs| - 1]];
    }
  }

  // History that the proof tracks beside the stacks: one tree per value, and the tokens consumed.
  datatype History = History(trees: seq<Tree>, tokens: seq<Tree>)

  ghost predicate Chain<V>(p: Parser<V>, items: nat -> iset<Item>, c: Config<V>, trees: seq<Tree>) {
    && |trees| == |c.values| == |c.cursors| - 1
    && c.cursors[0] == 0
    && forall i :: 0 <= i < |trees| ==> BackwardOk(p.rules, items, c.cursors[i], Root(p.rules, trees[i]), c.cursors[i + 1])
  }

  ghost predicate Lexing<V>(p: Parser<V>, buffer: string, c: Config<V>, tokens: seq<Tree>) {
    && c.InBuffer(buffer)
    && c.sp == Advance(START, buffer[..c.it])
    && Lexed(p.dfa, buffer, tokens, c.it)
    && (c.it != c.termEnd ==> c.term.Some? && DfaMatch(p.dfa, buffer, c.it) == Recognised(c.termEnd, c.term))
  }

  ghost predicate YieldOk<V>(p: Parser<V>, c: Config<V>, h: History) {
    var leaves := YieldAll(h.trees);
    && (c.errors == [] ==> leaves == h.tokens && !c.recovery && !c.consume)
    && (!c.recovery ==> Patched(p.Recovery(), h.tokens, leaves))
    && (c.recovery ==> exists k: nat :: k <= |h.tokens| && Patched(p.Recovery(), h.tokens[..k], leaves))
    && (c.consume ==> !c.recovery && leaves != [] && leaves[|leaves| - 1].Leaf? && leaves[|leaves| - 1].t == p.Recovery())
  }

  ghost predicate Inv<V>(p: Parser<V>, items: nat -> iset<Item>, buffer: string, c: Config<V>, h: History) {
    && Chain(p, items, c, h.trees)
    && ValidAll(p.rules, h.trees)
    && EvalAll(p, h.trees) == Some(c.values)
    && Lexing(p, buffer, c, h.tokens)
    && YieldOk(p, c, h)
  }

  lemma LookKeepsInv<V(!new)>(p: Parser<V>, items: nat -> iset<Item>, buffer: string, c: Config<V>, h: History)
    requires Consistent(p, items) && Inv(p, items, buffer, c, h)
    ensures var (c', t) := CurrentTerm(p, buffer, c);
            && c'.cursors == c.cursors && c'.values == c.values && c'.recovery == c.recovery && c'.consume == c.consume
            && (t.Some? ==> Inv(p, items, buffer, c', h) && c'.errors == c.errors)
            && (t.Some? && c.recovery ==> t.value == p.Recovery())
            && (t.Some? && !c.recovery ==> c'.term == t && t.value <= p.termCount)
            && (t == Some(p.Eof()) ==> c'.it == |buffer|)
            && (t.Some? && t.value < p.termCount ==> DfaMatch(p.dfa, buffer, c'.it) == Recognised(c'.termEnd, t))
  {
    var (c', t) := CurrentTerm(p, buffer, c);
    if !c.recovery && c'.it < |buffer| {
      LongestMatch(p.dfa, buffer, c'.it);
    }
    assert t.Some? && c'.errors == c.errors ==> YieldOk(p, c', h);
  }

  lemma LexedExtend(dfa: Dfa, buffer: string, tokens: seq<Tree>, it: nat, end: nat, t: nat, sp: SourcePoint) returns (leaf: Tree)
    requires it <= end <= |buffer|
    requires Lexed(dfa, buffer, tokens, it) && sp == Advance(START, buffer[..it])
    requires DfaMatch(dfa, buffer, it) == Recognised(end, Some(t))
    ensures leaf == Leaf(t, buffer[it..end], sp)
    ensures Lexed(dfa, buffer, tokens + [leaf], end)
    ensures Advance(sp, buffer[it..end]) == Advance(START, buffer[..end])
  {
    leaf := Leaf(t, buffer[it..end], sp);
    assert (tokens + [leaf])[..|tokens|] == tokens;
    assert buffer[..end] == buffer[..it] + buffer[it..end];
    AdvanceAppend(START, buffer[..it], buffer[it..end]);
  }

  lemma {:induction false} PatchedPrefix(recovery: nat, tokens: seq<Tree>, a: seq<Tree>, b: seq<Tree>) returns (k: nat)
    requires Patched(recovery, tokens, a + b)
    ensures k <= |tokens| && Patched(recovery, tokens[..k], a)
    decreases |b|
  {
    if b == [] {
      assert a + b == a && tokens[..|tokens|] == tokens;
      k := |tokens|;
    } else {
      var last := b[|b| - 1];
      assert (a + b)[..|a + b| - 1] == a + b[..|b| - 1] && (a + b)[|a + b| - 1] == last;
      var n: nat;
      if last.Leaf? && last.t == recovery {
        n :| n <= |tokens| && Patched(recovery, tokens[..n], a + b[..|b| - 1]);
      } else {
        n := |tokens| - 1;
      }
      k := PatchedPrefix(recovery, tokens[..n], a, b[..|b| - 1]);
      assert tokens[..n][..k] == tokens[..k];
    }
  }

  // Pushing a leaf extends every part of the invariant that speaks of the trees.
  lemma PushTree<V>(p: Parser<V>, items: nat -> iset<Item>, c: Config<V>, trees: seq<Tree>, tree: Tree, v: V,
      to: nat, c': Config<V>)
    requires Chain(p, items, c, trees) && ValidAll(p.rules, trees) && EvalAll(p, trees) == Some(c.values)
    requires Valid(p.rules, tree) && EvalTree(p, tree) == Some(v)
    requires BackwardOk(p.rules, items, c.cursors[|c.cursors| - 1], Root(p.rules, tree), to)
    requires c'.cursors == c.cursors + [to] && c'.values == c.values + [v]
    ensures Chain(p, items, c', trees + [tree]) && ValidAll(p.rules, trees + [tree])
    ensures EvalAll(p, trees + [tree]) == Some(c'.values)
    ensures YieldAll(trees + [tree]) == YieldAll(trees) + Yield(tree)
    ensures PostOrderAll(trees + [tree]) == PostOrderAll(trees) + PostOrder(tree)
  {
    var trees' := trees + [tree];
    assert trees'[..|trees'| - 1] == trees && trees'[|trees'| - 1] == tree;
  }

  // Dropping the last `n` trees.
  lemma DropTrees<V>(p: Parser<V>, items: nat -> iset<Item>, c: Config<V>, trees: seq<Tree>, n: nat, c': Config<V>)
    requires Chain(p, items, c, trees) && ValidAll(p.rules, trees) && EvalAll(p, trees) == Some(c.values)
    requires n <= |trees|
    requires c'.cursors == c.cursors[..|c.cursors| - n] && c'.values == c.values[..|c.values| - n]
    ensures var kept, dropped := trees[..|trees| - n], trees[|trees| - n..];
            && Chain(p, items, c', kept) && ValidAll(p.rules, kept) && ValidAll(p.rules, dropped)
            && EvalAll(p, kept) == Some(c'.values) && EvalAll(p, dropped) == Some(c.values[|c.values| - n..])
            && YieldAll(trees) == YieldAll(kept) + YieldAll(dropped)
            && PostOrderAll(trees) == PostOrderAll(kept) + PostOrderAll(dropped)
  {
    var kept, dropped := trees[..|trees| - n], trees[|trees| - n..];
    assert trees == kept + dropped;
    EvalAllSplit(p, trees, |trees| - n);
    YieldAllAppend(kept, dropped);
    PostOrderAllAppend(kept, dropped);
  }

  lemma ShiftKeepsInv<V(!new)>(p: Parser<V>, items: nat -> iset<Item>, buffer: string, c: Config<V>, h: History, to: nat)
    returns (h': History)
    requires Inv(p, items, buffer, c, h) && !c.recovery && c.term.Some? && c.term.value < p.termCount
    requires DfaMatch(p.dfa, buffer, c.it) == Recognised(c.termEnd, c.term)
    requires BackwardOk(p.rules, items, c.cursors[|c.cursors| - 1], Term(c.term.value), to)
    ensures Inv(p, items, buffer, Shift(p, buffer, c, c.term.value, to), h')
    ensures PostOrderAll(h'.trees) == PostOrderAll(h.trees)
  {
    var leaf := LexedExtend(p.dfa, buffer, h.tokens, c.it, c.termEnd, c.term.value, c.sp);
    var v := p.termValue(c.term.value, buffer[c.it..c.termEnd], c.sp);
    var c' := Shift(p, buffer, c, c.term.value, to);
    h' := History(h.trees + [leaf], h.tokens + [leaf]);
    PushTree(p, items, c, h.trees, leaf, v, to, c');
    var leaves := YieldAll(h.trees);
    assert (leaves + [leaf])[..|leaves|] == leaves && (h.tokens + [leaf])[..|h.tokens|] == h.tokens;
    assert YieldOk(p, c', h');
  }

  lemma ShiftRecoveryKeepsInv<V(!new)>(p: Parser<V>, items: nat -> iset<Item>, buffer: string, c: Config<V>, h: History, to: nat)
    returns (h': History)
    requires Inv(p, items, buffer, c, h) && c.recovery
    requires BackwardOk(p.rules, items, c.cursors[|c.cursors| - 1], Term(p.Recovery()), to)
    ensures Inv(p, items, buffer, ShiftRecovery(p, c, to), h')
  {
    var v := p.termValue(p.Recovery(), "", c.sp);
    var c' := ShiftRecovery(p, c, to);
    var leaf := Leaf(p.Recovery(), "", c.sp);
    h' := History(h.trees + [leaf], h.tokens);
    PushTree(p, items, c, h.trees, leaf, v, to, c');
    var leaves := YieldAll(h.trees);
    assert (leaves + [leaf])[..|leaves|] == leaves;
    assert YieldOk(p, c', h');
  }

  lemma PatchedAbsorbs(recovery: nat, tokens: seq<Tree>, token: Tree, leaves: seq<Tree>)
    requires Patched(recovery, tokens, leaves)
    requires leaves != [] && leaves[|leaves| - 1].Leaf? && leaves[|leaves| - 1].t == recovery
    ensures Patched(recovery, tokens + [token], leaves)
  {
    var k: nat :| k <= |tokens| && Patched(recovery, tokens[..k], leaves[..|leaves| - 1]);
    assert (tokens + [token])[..k] == tokens[..k];
  }

  lemma ConsumeKeepsInv<V(!new)>(p: Parser<V>, items: nat -> iset<Item>, buffer: string, c: Config<V>, h: History)
    returns (h': History)
    requires Inv(p, items, buffer, c, h) && c.consume && c.term.Some?
    requires DfaMatch(p.dfa, buffer, c.it) == Recognised(c.termEnd, c.term)
    ensures Inv(p, items, buffer, ConsumeTerm(buffer, c), h')
  {
    var leaf := LexedExtend(p.dfa, buffer, h.tokens, c.it, c.termEnd, c.term.value, c.sp);
    h' := History(h.trees, h.tokens + [leaf]);
    var c' := ConsumeTerm(buffer, c);
    assert Lexing(p, buffer, c', h'.tokens);
    assert YieldOk(p, c', h') by {
      PatchedAbsorbs(p.Recovery(), h.tokens, leaf, YieldAll(h.trees));
    }
    assert Chain(p, items, c', h'.trees);
  }

  lemma PopKeepsInv<V(!new)>(p: Parser<V>, items: nat -> iset<Item>, buffer: string, c: Config<V>, h: History, errors: seq<Diagnostic>)
    returns (h': History)
    requires Inv(p, items, buffer, c, h) && !c.consume && |c.cursors| > 1 && errors != []
    ensures Inv(p, items, buffer, PopStacks(c.(errors := errors, recovery := true)), h')
  {
    var c' := PopStacks(c.(errors := errors, recovery := true));
    var n := |h.trees|;
    h' := h.(trees := h.trees[..n - 1]);
    DropTrees(p, items, c, h.trees, 1, c');
    var k: nat := |h.tokens|;
    assert h.tokens[..k] == h.tokens;
    if c.recovery {
      k :| k <= |h.tokens| && Patched(p.Recovery(), h.tokens[..k], YieldAll(h.trees));
    }
    var k' := PatchedPrefix(p.Recovery(), h.tokens[..k], YieldAll(h'.trees), YieldAll(h.trees[n - 1..]));
    assert h.tokens[..k][..k'] == h.tokens[..k'];
    assert YieldOk(p, c', h');
  }

  // An item that has read a symbol is not in the first state, and has read the root of the last tree.
  lemma HandleBack<V(!new)>(p: Parser<V>, items: nat -> iset<Item>, c: Config<V>, trees: seq<Tree>, top: nat, rule: nat, dot: nat)
    requires Consistent(p, items) && Chain(p, items, c, trees)
    requires top <= |trees| && rule < |p.rules| && 0 < dot <= |p.rules[rule].rhs| && Item(rule, dot) in items(c.cursors[top])
    ensures top > 0 && Item(rule, dot - 1) in items(c.cursors[top - 1]) && Root(p.rules, trees[top - 1]) == p.rules[rule].rhs[dot - 1]
  {
    hide Root, EntryOk;
    var i := Item(rule, dot);
    assert top != 0;
    assert BackwardOk(p.rules, items, c.cursors[top - 1], Root(p.rules, trees[top - 1]), c.cursors[top - 1 + 1]);
    assert i in items(c.cursors[top]) && i.dot > 0;
  }

  // An item that has read `dot` symbols at the top of the stack has read the roots of the last `dot` trees.
  lemma {:induction false} HandleOnStack<V(!new)>(p: Parser<V>, items: nat -> iset<Item>, c: Config<V>,
      trees: seq<Tree>, top: nat, rule: nat, dot: nat)
    requires Consistent(p, items) && Chain(p, items, c, trees)
    requires top <= |trees| && rule < |p.rules| && dot <= |p.rules[rule].rhs| && Item(rule, dot) in items(c.cursors[top])
    ensures dot <= top && Item(rule, 0) in items(c.cursors[top - dot])
    ensures forall i :: 0 <= i < dot ==> Root(p.rules, trees[top - dot + i]) == p.rules[rule].rhs[i]
    decreases dot
  {
    hide Consistent, BackwardOk, Root;
    if dot > 0 {
      HandleBack(p, items, c, trees, top, rule, dot);
      HandleOnStack(p, items, c, trees, top - 1, rule, dot - 1);
    }
  }

  // The handle of a complete item is on the stack, so that reducing it stays inside both stacks.
  lemma ReduceDefined<V(!new)>(p: Parser<V>, items: nat -> iset<Item>, buffer: string, c: Config<V>, h: History, rule: nat)
    requires Consistent(p, items) && Inv(p, items, buffer, c, h)
    requires rule < |p.rules| && rule != p.rootRule && Item(rule, |p.rules[rule].rhs|) in items(c.cursors[|c.cursors| - 1])
    ensures |p.rules[rule].rhs| <= |h.trees| == |c.cursors| - 1
    ensures var base := |h.trees| - |p.rules[rule].rhs|;
            && (forall i :: 0 <= i < |p.rules[rule].rhs| ==> Root(p.rules, h.trees[base + i]) == p.rules[rule].rhs[i])
            && BackwardOk(p.rules, items, c.cursors[base], NTerm(p.rules[rule].lhs), p.goto(c.cursors[base], p.rules[rule].lhs))
    ensures match Reduce(p, c.(consume := false), rule)
            case Stop(outcome, _) => outcome == Threw
            case Go(c') => c'.errors == c.errors
  {
    hide BackwardOk, Lexing, YieldOk, ValidAll, EvalAll;
    HandleOnStack(p, items, c, h.trees, |h.trees|, rule, |p.rules[rule].rhs|);
  }

  lemma ReduceKeepsInv<V(!new)>(p: Parser<V>, items: nat -> iset<Item>, buffer: string, c: Config<V>, h: History, rule: nat)
    returns (h': History)
    requires Consistent(p, items) && Inv(p, items, buffer, c, h)
    requires rule < |p.rules| && rule != p.rootRule && Item(rule, |p.rules[rule].rhs|) in items(c.cursors[|c.cursors| - 1])
    ensures match Reduce(p, c.(consume := false), rule)
            case Stop(outcome, _) => outcome == Threw
            case Go(c') => Inv(p, items, buffer, c', h') && c'.errors == c.errors && PostOrderAll(h'.trees) == PostOrderAll(h.trees) + [rule]
  {
    hide Reduce, Inv, PostOrderAll, Consistent, BackwardOk, Roots;
    h' := h;
    ReduceDefined(p, items, buffer, c, h, rule);
    if Reduce(p, c.(consume := false), rule).Go? {
      h' := ReducePushes(p, items, buffer, c, h, rule);
    }
  }

  // What a reduction leaves.
  lemma Reduced<V>(p: Parser<V>, c: Config<V>, rule: nat) returns (v: V)
    requires rule < |p.rules| && |p.rules[rule].rhs| <= |c.values| == |c.cursors| - 1
    requires Reduce(p, c.(consume := false), rule).Go?
    ensures var n := |p.rules[rule].rhs|;
            var kept := c.cursors[..|c.cursors| - n];
            && p.reductor(rule, c.values[|c.values| - n..]) == Some(v)
            && Reduce(p, c.(consume := false), rule).config ==
               c.(cursors := kept + [p.goto(kept[|kept| - 1], p.rules[rule].lhs)], values := c.values[..|c.values| - n] + [v], consume := false)
  {
    v := p.reductor(rule, c.values[|c.values| - |p.rules[rule].rhs|..]).value;
  }

  lemma NodeOk<V>(p: Parser<V>, rule: nat, children: seq<Tree>, args: seq<V>, v: V)
    requires rule < |p.rules| && ValidAll(p.rules, children) && Roots(p.rules, children) == p.rules[rule].rhs
    requires EvalAll(p, children) == Some(args) && p.reductor(rule, args) == Some(v)
    ensures var tree := Node(rule, children);
            && Valid(p.rules, tree) && EvalTree(p, tree) == Some(v) && Root(p.rules, tree) == NTerm(p.rules[rule].lhs)
            && Yield(tree) == YieldAll(children) && PostOrder(tree) == PostOrderAll(children) + [rule]
  {
  }

  lemma YieldKept<V>(p: Parser<V>, c: Config<V>, h: History, c': Config<V>, h': History)
    requires YieldOk(p, c, h) && YieldAll(h'.trees) == YieldAll(h.trees) && h'.tokens == h.tokens
    requires c'.errors == c.errors && c'.recovery == c.recovery && !c'.consume
    ensures YieldOk(p, c', h')
  {
    hide YieldAll, Patched;
  }

  lemma RootsAre(rules: seq<Rule>, trees: seq<Tree>, base: nat, rhs: seq<Symbol>)
    requires base + |rhs| == |trees| && forall i :: 0 <= i < |rhs| ==> Root(rules, trees[base + i]) == rhs[i]
    ensures Roots(rules, trees[base..]) == rhs
  {
    hide Root;
  }

  lemma ReducePushes<V(!new)>(p: Parser<V>, items: nat -> iset<Item>, buffer: string, c: Config<V>, h: History, rule: nat)
    returns (h': History)
    requires Inv(p, items, buffer, c, h)
    requires rule < |p.rules| && |p.rules[rule].rhs| <= |h.trees|
    requires var base := |h.trees| - |p.rules[rule].rhs|;
             && (forall i :: 0 <= i < |p.rules[rule].rhs| ==> Root(p.rules, h.trees[base + i]) == p.rules[rule].rhs[i])
             && BackwardOk(p.rules, items, c.cursors[base], NTerm(p.rules[rule].lhs), p.goto(c.cursors[base], p.rules[rule].lhs))
    requires Reduce(p, c.(consume := false), rule).Go?
    ensures Inv(p, items, buffer, Reduce(p, c.(consume := false), rule).config, h')
    ensures PostOrderAll(h'.trees) == PostOrderAll(h.trees) + [rule]
  {
    hide Reduce, BackwardOk, YieldOk, Lexed, DfaMatch, PostOrderAll, PostOrder, YieldAll, Yield, EvalAll, EvalTree, ValidAll, Valid, Roots, Root, Advance;
    var n, base := |p.rules[rule].rhs|, |h.trees| - |p.rules[rule].rhs|;
    var c' := Reduce(p, c.(consume := false), rule).config;
    var v := Reduced(p, c, rule);
    var kept, children := h.trees[..base], h.trees[base..];
    var tree := Node(rule, children);
    h' := h.(trees := kept + [tree]);
    var mid := c.(cursors := c.cursors[..|c.cursors| - n], values := c.values[..|c.values| - n]);
    DropTrees(p, items, c, h.trees, n, mid);
    RootsAre(p.rules, h.trees, base, p.rules[rule].rhs);
    NodeOk(p, rule, children, c.values[|c.values| - n..], v);
    PushTree(p, items, mid, kept, tree, v, c'.cursors[|c'.cursors| - 1], c');
    assert PostOrderAll(h'.trees) == PostOrderAll(kept) + (PostOrderAll(children) + [rule]);
    YieldKept(p, c, h, c', h');
  }

  // What a returned value means: it is the fold of a parse tree whose leaves are the input's tokens,
  // up to stretches replaced by error recovery.
  ghost predicate IsParseOf<V>(p: Parser<V>, buffer: string, value: V, tree: Tree, tokens: seq<Tree>) {
    && Valid(p.rules, tree)
    && p.rootRule < |p.rules|
    && [Root(p.rules, tree)] == p.rules[p.rootRule].rhs
    && EvalTree(p, tree) == Some(value)
    && Lexed(p.dfa, buffer, tokens, |buffer|)
    && Patched(p.Recovery(), tokens, Yield(tree))
  }

  lemma SuccessIsParsed<V(!new)>(p: Parser<V>, items: nat -> iset<Item>, buffer: string, c: Config<V>, h: History)
    requires Consistent(p, items) && Inv(p, items, buffer, c, h)
    requires !c.recovery && c.it == |buffer| && Item(p.rootRule, 1) in items(c.cursors[|c.cursors| - 1])
    ensures |c.values| == 1 && |h.trees| == 1 && IsParseOf(p, buffer, c.values[0], h.trees[0], h.tokens)
    ensures c.errors == [] ==> Yield(h.trees[0]) == h.tokens
  {
    var size := |h.trees|;
    HandleOnStack(p, items, c, h.trees, size, p.rootRule, 1);
    assert size > 1 ==> BackwardOk(p.rules, items, c.cursors[size - 2], Root(p.rules, h.trees[size - 2]), c.cursors[size - 2 + 1]);
    var tree := h.trees[0];
    assert h.trees[..0] == [] && YieldAll(h.trees) == [] + Yield(tree) == Yield(tree);
    assert p.rules[p.rootRule].rhs == [Root(p.rules, tree)];
    var vs := EvalAll(p, h.trees).value;
    assert EvalAll(p, h.trees[..0]) == Some([]);
    assert vs == [] + [EvalTree(p, tree).value];
  }

  lemma OnErrorKeepsInv<V(!new)>(p: Parser<V>, items: nat -> iset<Item>, buffer: string, c: Config<V>, h: History, t: nat)
    returns (h': History)
    requires Inv(p, items, buffer, c, h)
    requires c.consume && c.term != Some(p.Eof()) ==> c.term.Some? && DfaMatch(p.dfa, buffer, c.it) == Recognised(c.termEnd, c.term)
    ensures match OnError(p, buffer, c, t)
            case Go(c') => Inv(p, items, buffer, c', h') && c'.errors != []
            case Stop(outcome, _) => outcome == NoValue
  {
    h' := h;
    if c.consume {
      if c.term != Some(p.Eof()) {
        h' := ConsumeKeepsInv(p, items, buffer, c, h);
      }
    } else {
      var errors := if c.recovery then c.errors else c.errors + [SyntaxError(c.sp, t)];
      if |c.cursors| > 1 {
        h' := PopKeepsInv(p, items, buffer, c, h, errors);
      }
    }
  }

  ghost predicate StepOk<V>(p: Parser<V>, items: nat -> iset<Item>, buffer: string, c: Config<V>, h: History,
      next: Next<V>, reduced: seq<nat>, h': History) {
    match next
    case Go(c') =>
      && Inv(p, items, buffer, c', h')
      && (c'.errors == [] ==> c.errors == [] && PostOrderAll(h'.trees) == PostOrderAll(h.trees) + reduced)
    case Stop(outcome, last) =>
      && outcome != Undefined
      && (outcome.Value? ==>
            && |h.trees| == 1 && last.errors == c.errors && IsParseOf(p, buffer, outcome.value, h.trees[0], h.tokens)
            && (last.errors == [] ==> Yield(h.trees[0]) == h.tokens))
  }

  // The three kinds of entry that push a state.
  lemma PushKeepsInv<V(!new)>(p: Parser<V>, items: nat -> iset<Item>, buffer: string, c: Config<V>, h: History, t: nat)
    returns (h': History)
    requires Consistent(p, items) && Inv(p, items, buffer, c, h)
    requires if c.recovery then t == p.Recovery() else c.term == Some(t) && t <= p.termCount
    requires t < p.termCount ==> DfaMatch(p.dfa, buffer, c.it) == Recognised(c.termEnd, Some(t))
    requires p.action(c.cursors[|c.cursors| - 1], t).kind in {ShiftEntry, ShiftRecoveryEntry}
    ensures StepOk(p, items, buffer, c, h, Act(p, buffer, c, t), [], h')
  {
    var s := c.cursors[|c.cursors| - 1];
    assert EntryOk(p, items, s, t);
    var entry := p.action(s, t);
    if entry.kind == ShiftEntry {
      h' := ShiftKeepsInv(p, items, buffer, c, h, entry.shift);
    } else {
      h' := ShiftRecoveryKeepsInv(p, items, buffer, c, h, entry.shift);
    }
  }

  lemma InvShape<V>(p: Parser<V>, items: nat -> iset<Item>, buffer: string, c: Config<V>, h: History)
    requires Inv(p, items, buffer, c, h)
    ensures c.InBuffer(buffer) && |c.cursors| == |c.values| + 1 && (c.consume ==> !c.recovery)
  {
  }

  // What a consistent table's entry promises.
  lemma EntryMeans<V(!new)>(p: Parser<V>, items: nat -> iset<Item>, s: nat, t: nat)
    requires Consistent(p, items)
    ensures var e := p.action(s, t);
            && (e.kind == SuccessEntry ==> t == p.Eof() && t != p.Recovery() && Item(p.rootRule, 1) in items(s))
            && (e.kind in {ReduceEntry, RrConflictEntry} ==>
                  e.reduce < |p.rules| && e.reduce != p.rootRule && Item(e.reduce, |p.rules[e.reduce].rhs|) in items(s))
  {
    assert EntryOk(p, items, s, t);
  }

  // (The conclusion is an equation so that the verifier treats it as one fact.)
  lemma ActKeepsInv<V(!new)>(p: Parser<V>, items: nat -> iset<Item>, buffer: string, c: Config<V>, h: History, t: nat)
    returns (h': History)
    requires Consistent(p, items) && Inv(p, items, buffer, c, h)
    requires if c.recovery then t == p.Recovery() else c.term == Some(t) && t <= p.termCount
    requires t == p.Eof() ==> c.it == |buffer|
    requires t < p.termCount ==> DfaMatch(p.dfa, buffer, c.it) == Recognised(c.termEnd, Some(t))
    ensures StepOk(p, items, buffer, c, h, Act(p, buffer, c, t), ReducedOn(p, c, t), h') == true
  {
    hide Inv, IsParseOf, Reduce, OnError, Shift, ShiftRecovery, PostOrderAll, Consistent, EntryOk, BackwardOk, DfaMatch;
    h' := h;
    InvShape(p, items, buffer, c, h);
    var s := c.cursors[|c.cursors| - 1];
    EntryMeans(p, items, s, t);
    var entry := p.action(s, t);
    if entry.kind == ErrorEntry {
      h' := OnErrorKeepsInv(p, items, buffer, c, h, t);
    } else if entry.kind == SuccessEntry {
      SuccessIsParsed(p, items, buffer, c, h);
    } else if entry.kind == ShiftEntry || entry.kind == ShiftRecoveryEntry {
      h' := PushKeepsInv(p, items, buffer, c, h, t);
    } else {
      h' := ReduceKeepsInv(p, items, buffer, c, h, entry.reduce);
    }
  }

  // One iteration keeps the invariant, never indexes an empty stack, and ends only as it should.
  lemma StepKeepsInv<V(!new)>(p: Parser<V>, items: nat -> iset<Item>, buffer: string, c: Config<V>, h: History)
    returns (h': History)
    requires Consistent(p, items) && Inv(p, items, buffer, c, h)
    ensures StepOk(p, items, buffer, c, h, Step(p, buffer, c), ReducedBy(p, buffer, c), h')
  {
    h' := h;
    LookKeepsInv(p, items, buffer, c, h);
    var (c1, t) := CurrentTerm(p, buffer, c);
    if t.Some? {
      h' := ActKeepsInv(p, items, buffer, c1, h, t.value);
    }
  }

  // ---------------------------------------------------------------------------------------------
  // Whole runs.

  lemma InitialInv<V(!new)>(p: Parser<V>, items: nat -> iset<Item>, buffer: string)
    ensures Inv(p, items, buffer, Initial<V>(), History([], []))
  {
    assert buffer[..0] == [];
  }

  // `tree` accounts for a stopped run: the value is its fold and, without errors, the reductions of the
  // run are exactly its nodes, bottom up.
  ghost predicate Explains<V>(p: Parser<V>, buffer: string, outcome: Outcome<V>, last: Config<V>,
      reductions: seq<nat>, tree: Tree, tokens: seq<Tree>) {
    outcome.Value? ==>
      && IsParseOf(p, buffer, outcome.value, tree, tokens)
      && (last.errors == [] ==> Yield(tree) == tokens && PostOrder(tree) == reductions)
  }

  lemma OnePostOrder(trees: seq<Tree>)
    requires |trees| == 1
    ensures PostOrderAll(trees) == PostOrder(trees[0])
  {
    assert trees[..0] == [] && PostOrderAll(trees) == [] + PostOrder(trees[0]);
  }

  lemma {:induction false} RunSound<V(!new)>(p: Parser<V>, items: nat -> iset<Item>, buffer: string,
      c: Config<V>, h: History, n: nat)
    returns (h': History)
    requires Consistent(p, items) && Inv(p, items, buffer, c, h)
    ensures match Run(p, buffer, c, n)
            case Go(c') => Inv(p, items, buffer, c', h')
            case Stop(outcome, last) =>
              && outcome != Undefined
              && (outcome.Value? ==> |h'.trees| == 1)
              && (outcome.Value? ==> Explains(p, buffer, outcome, last, PostOrderAll(h.trees) + Reductions(p, buffer, c, n), h'.trees[0], h'.tokens))
              && (outcome.Value? && last.errors == [] ==> c.errors == [])
    decreases n
  {
    hide Step, ReducedBy, Inv, IsParseOf, PostOrderAll, PostOrder, Yield, Consistent;
    InvShape(p, items, buffer, c, h);
    h' := h;
    if n > 0 {
      var h1 := StepKeepsInv(p, items, buffer, c, h);
      match Step(p, buffer, c)
      case Stop(outcome, last) =>
        if outcome.Value? {
          OnePostOrder(h.trees);
          assert PostOrderAll(h.trees) + [] == PostOrderAll(h.trees);
        }
      case Go(c') =>
        h' := RunSound(p, items, buffer, c', h1, n - 1);
        assert PostOrderAll(h.trees) + (ReducedBy(p, buffer, c) + Reductions(p, buffer, c', n - 1)) ==
               PostOrderAll(h.trees) + ReducedBy(p, buffer, c) + Reductions(p, buffer, c', n - 1);
    }
  }

  // For every table consistent with its item sets and every input: the cursor stack stays one longer
  // than the value stack, no empty stack is indexed, and a returned value is the bottom-up fold of a
  // parse tree over the tokens of the whole input, up to stretches replaced by error recovery. Without
  // a diagnostic the reversed reductions are a rightmost derivation of exactly those tokens.
  lemma Soundness<V(!new)>(p: Parser<V>, items: nat -> iset<Item>, buffer: string, n: nat)
    requires Consistent(p, items)
    ensures match Run(p, buffer, Initial<V>(), n)
            case Go(c) => |c.cursors| == |c.values| + 1
            case Stop(outcome, last) =>
              && outcome != Undefined
              && (outcome.Value? ==>
                    exists tree, tokens ::
                      && IsParseOf(p, buffer, outcome.value, tree, tokens)
                      && (last.errors == [] ==>
                            && Yield(tree) == tokens
                            && RightmostDerivation(p.rules, p.rules[p.rootRule].rhs, Reverse(Reductions(p, buffer, Initial<V>(), n))) ==
                               Some(LeafSymbols(tokens))))
  {
    InitialInv(p, items, buffer);
    var h' := RunSound(p, items, buffer, Initial<V>(), History([], []), n);
    match Run(p, buffer, Initial<V>(), n)
    case Go(_) =>
    case Stop(outcome, last) =>
      if outcome.Value? {
        var tree := h'.trees[0];
        var reductions := Reductions(p, buffer, Initial<V>(), n);
        assert [] + reductions == reductions;
        assert IsParseOf(p, buffer, outcome.value, tree, h'.tokens);
        TreeIsRightmostDerivation(p.rules, tree);
      }
  }

  // A stopped run stays stopped.
  lemma {:induction false} RunStable<V>(p: Parser<V>, buffer: string, c: Config<V>, n: nat, m: nat)
    requires c.InBuffer(buffer) && Run(p, buffer, c, n).Stop? && n <= m
    ensures Run(p, buffer, c, m) == Run(p, buffer, c, n)
    decreases n
  {
    hide Step;
    if n > 0 && Step(p, buffer, c).Go? {
      RunStable(p, buffer, Step(p, buffer, c).config, n - 1, m - 1);
    }
  }

  lemma {:induction false} RunCompose<V>(p: Parser<V>, buffer: string, c: Config<V>, n: nat, m: nat)
    requires c.InBuffer(buffer) && Run(p, buffer, c, n).Go?
    ensures Run(p, buffer, c, n + m) == Run(p, buffer, Run(p, buffer, c, n).config, m)
    decreases n
  {
    hide Step;
    if n > 0 {
      RunCompose(p, buffer, Step(p, buffer, c).config, n - 1, m);
    }
  }

  // ---------------------------------------------------------------------------------------------
  // The parser state that the loop updates in place.

  class ParseState<V> {
    const parser: Parser<V>
    const buffer: string
    var cursorStack: seq<nat>
    var valueStack: seq<V>
    var currentSp: SourcePoint
    var currentIt: nat
    var currentTermEndIt: nat
    var currentTermIdx: Option<nat>
    var recoveryMode: bool
    var consumeMode: bool
    var errorStream: seq<Diagnostic>

    constructor (parser: Parser<V>, buffer: string)
      ensures this.parser == parser && this.buffer == buffer && Snapshot() == Initial<V>()
    {
      this.parser, this.buffer := parser, buffer;
      cursorStack, valueStack := [0], [];
      currentSp, currentIt, currentTermEndIt, currentTermIdx := START, 0, 0, None;
      recoveryMode, consumeMode, errorStream := false, false, [];
    }

    ghost function Snapshot(): Config<V>
      reads this
    {
      Config(cursorStack, valueStack, currentSp, currentIt, currentTermEndIt, currentTermIdx, recoveryMode, consumeMode, errorStream)
    }

    method GetCurrentTerm() returns (t: Option<nat>)
      requires Snapshot().InBuffer(buffer)
      modifies this
      ensures (Snapshot(), t) == CurrentTerm(parser, buffer, old(Snapshot()))
    {
      if recoveryMode {
        return Some(parser.Recovery());
      }
      if currentIt != currentTermEndIt {
        return currentTermIdx;
      }
      if currentIt == |buffer| {
        currentTermIdx := Some(parser.Eof());
        return currentTermIdx;
      }
      var res := Match(parser.dfa, buffer, currentIt);
      currentTermEndIt, currentTermIdx := res.it, res.term;
      if currentTermIdx.None? {
        errorStream := errorStream + [UnexpectedChar(currentSp, currentIt)];
      }
      return currentTermIdx;
    }

    method Consume()
      requires Snapshot().InBuffer(buffer)
      modifies this
      ensures Snapshot() == ConsumeTerm(buffer, old(Snapshot()))
    {
      currentSp := Update(currentSp, buffer[currentIt..currentTermEndIt]);
      currentIt := currentTermEndIt;
    }

    method Push(cursor: nat, value: V)
      modifies this
      ensures Snapshot() == old(Snapshot()).(cursors := old(cursorStack) + [cursor], values := old(valueStack) + [value])
    {
      cursorStack := cursorStack + [cursor];
      valueStack := valueStack + [value];
    }

    // Pops a state and, if there is one, a value; false when no state is left.
    method Pop() returns (left: bool)
      requires cursorStack != []
      modifies this
      ensures Snapshot() == PopStacks(old(Snapshot()))
      ensures left <==> cursorStack != []
    {
      cursorStack := cursorStack[..|cursorStack| - 1];
      if |valueStack| != 0 {
        valueStack := valueStack[..|valueStack| - 1];
      }
      left := |cursorStack| != 0;
    }

    // Replaces the handle on both stacks by the left-hand side; false when the rule's function throws.
    method ReduceBy(rule: nat) returns (ok: bool)
      requires rule < |parser.rules| && |parser.rules[rule].rhs| < |cursorStack| && |parser.rules[rule].rhs| <= |valueStack|
      modifies this
      ensures match Reduce(parser, old(Snapshot()), rule)
              case Go(c) => ok && Snapshot() == c
              case Stop(_, c) => !ok && Snapshot() == c
    {
      var n := |parser.rules[rule].rhs|;
      var lvalue := parser.reductor(rule, valueStack[|valueStack| - n..]);
      if lvalue.None? {
        return false;
      }
      cursorStack := cursorStack[..|cursorStack| - n];
      var newCursor := parser.goto(cursorStack[|cursorStack| - 1], parser.rules[rule].lhs);
      cursorStack := cursorStack + [newCursor];
      valueStack := valueStack[..|valueStack| - n] + [lvalue.value];
      return true;
    }

    // One pass through the parser loop; Some(outcome) when the loop is left.
    method Iterate() returns (done: Option<Outcome<V>>)
      requires Snapshot().InBuffer(buffer) && cursorStack != []
      requires Step(parser, buffer, Snapshot()).Stop? ==> Step(parser, buffer, Snapshot()).outcome != Undefined
      modifies this
      ensures match Step(parser, buffer, old(Snapshot()))
              case Go(c) => done == None && Snapshot() == c
              case Stop(outcome, last) => done == Some(outcome) && errorStream == last.errors
    {
      var tIdx := GetCurrentTerm();
      if tIdx.None? {
        return Some(NoValue);
      }
      var entry := parser.action(cursorStack[|cursorStack| - 1], tIdx.value);
      if entry.kind == ErrorEntry {
        if consumeMode {
          if currentTermIdx == Some(parser.Eof()) {
            return Some(NoValue);
          }
          Consume();
          return None;
        }
        if !recoveryMode {
          errorStream := errorStream + [SyntaxError(currentSp, tIdx.value)];
          recoveryMode := true;
        }
        var left := Pop();
        return if left then None else Some(NoValue);
      }
      consumeMode := false;
      if entry.kind == ShiftEntry {
        Push(entry.shift, parser.termValue(tIdx.value, buffer[currentIt..currentTermEndIt], currentSp));
        Consume();
      } else if entry.kind == ShiftRecoveryEntry {
        Push(entry.shift, parser.termValue(parser.Recovery(), "", currentSp));
        recoveryMode := false;
        consumeMode := true;
      } else if entry.kind == SuccessEntry {
        return Some(Value(valueStack[0]));
      } else {
        var ok := ReduceBy(entry.reduce);
        return if ok then None else Some(Threw);
      }
      return None;
    }
  }

  // The whole parse. It ends exactly when the deterministic machine of Step does, and then with the
  // same outcome and diagnostics.
  method ContextParse<V(!new)>(parser: Parser<V>, ghost items: nat -> iset<Item>, buffer: string)
    returns (outcome: Outcome<V>, errors: seq<Diagnostic>)
    requires Consistent(parser, items)
    requires exists n: nat :: Halts(parser, buffer, Initial<V>(), n)
    ensures exists n: nat ::
              && Halts(parser, buffer, Initial<V>(), n)
              && Run(parser, buffer, Initial<V>(), n).outcome == outcome
              && Run(parser, buffer, Initial<V>(), n).last.errors == errors
  {
    hide Step, Inv;
    ghost var n0: nat :| Halts(parser, buffer, Initial<V>(), n0);
    ghost var n := n0;
    var ps := new ParseState<V>(parser, buffer);
    ghost var h := History([], []);
    InitialInv(parser, items, buffer);
    while true
      invariant ps.parser == parser && ps.buffer == buffer && fresh(ps)
      invariant ps.Snapshot().InBuffer(buffer) && Inv(parser, items, buffer, ps.Snapshot(), h)
      invariant Run(parser, buffer, ps.Snapshot(), n) == Run(parser, buffer, Initial<V>(), n0)
      decreases n
    {
      InvShape(parser, items, buffer, ps.Snapshot(), h);
      h := StepKeepsInv(parser, items, buffer, ps.Snapshot(), h);
      var done := ps.Iterate();
      if done.Some? {
        return done.value, ps.errorStream;
      }
      n := n - 1;
    }
  }
}
