/** Context-free grammars, parse trees and rightmost derivations. */
module Grammar {
  import opened Wrappers
  import opened Text

  datatype Symbol = Term(t: nat) | NTerm(n: nat)

  datatype Rule = Rule(lhs: nat, rhs: seq<Symbol>)

  // A leaf is a shifted terminal with its text and position; a node applies a rule to its children.
  datatype Tree =
    | Leaf(t: nat, text: string, sp: SourcePoint)
    | Node(rule: nat, children: seq<Tree>)

  // The symbol at the root of a tree (arbitrary for a node that applies no rule).
  function Root(rules: seq<Rule>, tree: Tree): Symbol {
    match tree
    case Leaf(t, _, _) => Term(t)
    case Node(rule, _) => NTerm(if rule < |rules| then rules[rule].lhs else 0)
  }

  function Roots(rules: seq<Rule>, trees: seq<Tree>): (syms: seq<Symbol>) {
    seq(|trees|, i requires 0 <= i < |trees| => Root(rules, trees[i]))
  }

  // Every node applies one of the rules to children that match its right-hand side.
  predicate Valid(rules: seq<Rule>, tree: Tree)
    decreases tree
  {
    match tree
    case Leaf(_, _, _) => true
    case Node(rule, children) => rule < |rules| && ValidAll(rules, children) && Roots(rules, children) == rules[rule].rhs
  }

  predicate ValidAll(rules: seq<Rule>, trees: seq<Tree>)
    decreases trees
  {
    forall i :: 0 <= i < |trees| ==> Valid(rules, trees[i])
  }

  // The leaves of a forest, left to right.
  function Yield(tree: Tree): seq<Tree>
    decreases tree
  {
    match tree
    case Leaf(_, _, _) => [tree]
    case Node(_, children) => YieldAll(children)
  }

  function YieldAll(trees: seq<Tree>): seq<Tree>
    decreases trees
  {
    if trees == [] then []
    else YieldAll(trees[..|trees| - 1]) + Yield(trees[|trees| - 1])
  }

  lemma {:induction false} YieldAllAppend(a: seq<Tree>, b: seq<Tree>)
    ensures YieldAll(a + b) == YieldAll(a) + YieldAll(b)
    decreases |b|
  {
    if b == [] {
      assert a + b == a;
    } else {
      var init, last := b[..|b| - 1], b[|b| - 1];
      assert (a + b)[..|a + b| - 1] == a + init && (a + b)[|a + b| - 1] == last;
      YieldAllAppend(a, init);
    }
  }

  // The rules of a forest in the order in which a bottom-up parser reduces them.
  function PostOrder(tree: Tree): seq<nat>
    decreases tree
  {
    match tree
    case Leaf(_, _, _) => []
    case Node(rule, children) => PostOrderAll(children) + [rule]
  }

  function PostOrderAll(trees: seq<Tree>): seq<nat>
    decreases trees
  {
    if trees == [] then []
    else PostOrderAll(trees[..|trees| - 1]) + PostOrder(trees[|trees| - 1])
  }

  lemma {:induction false} PostOrderAllAppend(a: seq<Tree>, b: seq<Tree>)
    ensures PostOrderAll(a + b) == PostOrderAll(a) + PostOrderAll(b)
    decreases |b|
  {
    if b == [] {
      assert a + b == a;
    } else {
      var init, last := b[..|b| - 1], b[|b| - 1];
      assert (a + b)[..|a + b| - 1] == a + init && (a + b)[|a + b| - 1] == last;
      PostOrderAllAppend(a, init);
    }
  }

  function Reverse<T>(s: seq<T>): seq<T> {
    if s == [] then [] else [s[|s| - 1]] + Reverse(s[..|s| - 1])
  }

  lemma {:induction false} ReverseAppend<T>(a: seq<T>, b: seq<T>)
    ensures Reverse(a + b) == Reverse(b) + Reverse(a)
    decreases |b|
  {
    if b == [] {
      assert a + b == a;
    } else {
      assert (a + b)[..|a + b| - 1] == a + b[..|b| - 1];
      ReverseAppend(a, b[..|b| - 1]);
    }
  }

  predicate AllTerms(syms: seq<Symbol>) {
    forall i :: 0 <= i < |syms| ==> syms[i].Term?
  }

  // One rightmost step: replace the last nonterminal of `form` by the right-hand side of a rule for it.
  function RightmostStep(rules: seq<Rule>, form: seq<Symbol>, rule: nat): Option<seq<Symbol>> {
    if form == [] || rule >= |rules| then None
    else
      var last := form[|form| - 1];
      match last
      case NTerm(n) => if n == rules[rule].lhs then Some(form[..|form| - 1] + rules[rule].rhs) else None
      case Term(_) =>
        match RightmostStep(rules, form[..|form| - 1], rule)
        case None => None
        case Some(form') => Some(form' + [last])
  }

  function RightmostDerivation(rules: seq<Rule>, form: seq<Symbol>, steps: seq<nat>): Option<seq<Symbol>>
    decreases |steps|
  {
    if steps == [] then Some(form)
    else
      var next :- RightmostStep(rules, form, steps[0]);
      RightmostDerivation(rules, next, steps[1..])
  }

  lemma {:induction false} DerivationAppend(rules: seq<Rule>, form: seq<Symbol>, a: seq<nat>, b: seq<nat>)
    ensures RightmostDerivation(rules, form, a + b) ==
            match RightmostDerivation(rules, form, a) case None => None case Some(mid) => RightmostDerivation(rules, mid, b)
    decreases |a|
  {
    if a == [] {
      assert a + b == b;
    } else {
      assert (a + b)[0] == a[0] && (a + b)[1..] == a[1..] + b;
      match RightmostStep(rules, form, a[0])
      case None =>
      case Some(next) => DerivationAppend(rules, next, a[1..], b);
    }
  }

  lemma ChainDerivations(rules: seq<Rule>, form: seq<Symbol>, a: seq<nat>, mid: seq<Symbol>, b: seq<nat>)
    requires RightmostDerivation(rules, form, a) == Some(mid)
    ensures RightmostDerivation(rules, form, a + b) == RightmostDerivation(rules, mid, b)
  {
    DerivationAppend(rules, form, a, b);
  }

  lemma {:induction false} StepBeforeTerms(rules: seq<Rule>, front: seq<Symbol>, rule: nat, back: seq<Symbol>)
    requires rule < |rules| && AllTerms(back)
    ensures RightmostStep(rules, front + [NTerm(rules[rule].lhs)] + back, rule) == Some(front + rules[rule].rhs + back)
    decreases |back|
  {
    var form := front + [NTerm(rules[rule].lhs)] + back;
    if back == [] {
      assert form[..|form| - 1] == front;
      assert front + rules[rule].rhs + back == front + rules[rule].rhs;
    } else {
      var init, last := back[..|back| - 1], back[|back| - 1];
      assert back == init + [last];
      assert form[..|form| - 1] == front + [NTerm(rules[rule].lhs)] + init;
      StepBeforeTerms(rules, front, rule, init);
      assert front + rules[rule].rhs + init + [last] == front + rules[rule].rhs + back;
    }
  }

  function LeafSymbols(leaves: seq<Tree>): (syms: seq<Symbol>)
    ensures |syms| == |leaves|
  {
    seq(|leaves|, i requires 0 <= i < |leaves| => if leaves[i].Leaf? then Term(leaves[i].t) else NTerm(0))
  }

  lemma LeafSymbolsAppend(a: seq<Tree>, b: seq<Tree>)
    ensures LeafSymbols(a + b) == LeafSymbols(a) + LeafSymbols(b)
  {
  }

  predicate AllLeaves(trees: seq<Tree>) {
    forall i :: 0 <= i < |trees| ==> trees[i].Leaf?
  }

  lemma {:induction false} YieldIsLeaves(tree: Tree)
    ensures AllLeaves(Yield(tree))
    decreases tree, 0
  {
    match tree
    case Leaf(_, _, _) =>
    case Node(_, children) => YieldAllIsLeaves(children);
  }

  lemma {:induction false} YieldAllIsLeaves(trees: seq<Tree>)
    ensures AllLeaves(YieldAll(trees))
    decreases trees, |trees|
  {
    if trees != [] {
      YieldAllIsLeaves(trees[..|trees| - 1]);
      YieldIsLeaves(trees[|trees| - 1]);
    }
  }

  // The reversed reductions of a forest rewrite its roots to its leaves, rightmost first.
  lemma {:induction false} ForestDerives(rules: seq<Rule>, front: seq<Symbol>, trees: seq<Tree>, back: seq<Symbol>)
    requires ValidAll(rules, trees) && AllTerms(back)
    ensures RightmostDerivation(rules, front + Roots(rules, trees) + back, Reverse(PostOrderAll(trees))) ==
            Some(front + LeafSymbols(YieldAll(trees)) + back)
    decreases trees
  {
    if trees == [] {
      assert front + Roots(rules, trees) + back == front + LeafSymbols(YieldAll(trees)) + back;
    } else {
      var init, last := trees[..|trees| - 1], trees[|trees| - 1];
      var tail := LeafSymbols(Yield(last));
      var start, mid := front + Roots(rules, trees) + back, front + Roots(rules, init) + (tail + back);
      assert trees == init + [last];
      assert start == front + Roots(rules, init) + [Root(rules, last)] + back;
      assert mid == front + Roots(rules, init) + tail + back;
      TreeDerives(rules, front + Roots(rules, init), last, back);
      assert AllTerms(tail + back) by { YieldIsLeaves(last); }
      ForestDerives(rules, front, init, tail + back);
      ChainDerivations(rules, start, Reverse(PostOrder(last)), mid, Reverse(PostOrderAll(init)));
      ReverseAppend(PostOrderAll(init), PostOrder(last));
      LeafSymbolsAppend(YieldAll(init), Yield(last));
      assert front + LeafSymbols(YieldAll(init)) + (tail + back) == front + (LeafSymbols(YieldAll(init)) + tail) + back;
    }
  }

  lemma {:induction false} TreeDerives(rules: seq<Rule>, front: seq<Symbol>, tree: Tree, back: seq<Symbol>)
    requires Valid(rules, tree) && AllTerms(back)
    ensures RightmostDerivation(rules, front + [Root(rules, tree)] + back, Reverse(PostOrder(tree))) ==
            Some(front + LeafSymbols(Yield(tree)) + back)
    decreases tree
  {
    match tree
    case Leaf(_, _, _) =>
      assert front + [Root(rules, tree)] + back == front + LeafSymbols(Yield(tree)) + back;
    case Node(rule, children) =>
      ReverseAppend(PostOrderAll(children), [rule]);
      assert Reverse([rule]) == [rule];
      var rest := Reverse(PostOrderAll(children));
      assert ([rule] + rest)[0] == rule && ([rule] + rest)[1..] == rest;
      StepBeforeTerms(rules, front, rule, back);
      ForestDerives(rules, front, children, back);
  }

  // A whole parse tree: its reductions reversed are a rightmost derivation of exactly its leaves.
  lemma TreeIsRightmostDerivation(rules: seq<Rule>, tree: Tree)
    requires Valid(rules, tree)
    ensures RightmostDerivation(rules, [Root(rules, tree)], Reverse(PostOrder(tree))) == Some(LeafSymbols(Yield(tree)))
  {
    TreeDerives(rules, [], tree, []);
    assert [] + [Root(rules, tree)] + [] == [Root(rules, tree)];
    assert [] + LeafSymbols(Yield(tree)) + [] == LeafSymbols(Yield(tree));
  }
}
