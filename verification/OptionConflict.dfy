/** What the grammar's one conflict costs: the parser is stricter than the grammar. */
module OptionConflict {
  import opened Wrappers
  import opened Text
  import opened Grammar
  import opened OptionLexer
  import opened OptionTable
  import opened OptionText

  // The rule that reads a term as the first of a tail, or as a later one.
  function TailFirstRule(term: nat): nat {
    match term
    case 5 => 17
    case 3 => 18
    case 1 => 19
    case 2 => 20
    case 4 => 21
    case _ => 22
  }

  function TailNextRule(term: nat): nat {
    match term
    case 5 => 23
    case 6 => 24
    case 3 => 25
    case 4 => 26
    case 0 => 27
    case 1 => 28
    case _ => 29
  }

  ghost predicate LeavesOf(leaves: seq<Tree>, tokens: seq<Token>) {
    && |leaves| == |tokens|
    && forall i :: 0 <= i < |leaves| ==>
         leaves[i].Leaf? && leaves[i].t == tokens[i].term && leaves[i].text == tokens[i].text
  }

  ghost predicate TailLeaves(leaves: seq<Tree>) {
    && leaves != [] && (forall i :: 0 <= i < |leaves| ==> leaves[i].Leaf? && leaves[i].t < TERM_COUNT)
    && leaves[0].t != PERCENT
  }

  // A tail that reads all leaves.
  function TailTree(leaves: seq<Tree>): Tree
    requires TailLeaves(leaves)
    decreases |leaves|
  {
    var last := leaves[|leaves| - 1];
    if |leaves| == 1 then Node(TailFirstRule(last.t), [last])
    else Node(TailNextRule(last.t), [TailTree(leaves[..|leaves| - 1]), last])
  }

  lemma {:induction false} TailTreeReads(leaves: seq<Tree>)
    requires TailLeaves(leaves)
    ensures Valid(Rules(), TailTree(leaves)) && Root(Rules(), TailTree(leaves)) == NTerm(REST)
    ensures Yield(TailTree(leaves)) == leaves
    decreases |leaves|
  {
    var last := leaves[|leaves| - 1];
    if |leaves| == 1 {
      assert YieldAll([last]) == YieldAll([]) + [last];
    } else {
      var init := leaves[..|leaves| - 1];
      TailTreeReads(init);
      var children := [TailTree(init), last];
      assert children[..1] == [TailTree(init)];
      YieldAllAppend([TailTree(init)], [last]);
    }
  }

  lemma {:induction false} TokenTerms(line: string, pos: nat)
    requires pos <= |line|
    ensures forall i :: 0 <= i < |Tokens(line, pos)| ==> Tokens(line, pos)[i].term < TERM_COUNT
    decreases |line| - pos
  {
    hide TokenTerm, TokenEnd;
    if pos < |line| {
      TokenTerms(line, TokenEnd(line, pos));
    }
  }

  // The grammar alone derives every nonempty line that does not begin with '%': all of it as a tail.
  lemma GrammarDerives(line: string, leaves: seq<Tree>) returns (tree: Tree)
    requires line != [] && line[0] != '%' && LeavesOf(leaves, Tokens(line, 0))
    ensures Valid(Rules(), tree) && Root(Rules(), tree) == NTerm(TEXT) && Yield(tree) == leaves
  {
    hide Tokens, Valid, ValidAll, Yield;
    FirstTerm(line);
    TokenTerms(line, 0);
    TailTreeReads(leaves);
    tree := TextTree(TailTree(leaves));
  }

  lemma FirstTerm(line: string)
    requires line != [] && line[0] != '%'
    ensures Tokens(line, 0) != [] && Tokens(line, 0)[0].term != PERCENT
  {
  }

  lemma TextTree(rest: Tree) returns (tree: Tree)
    requires Valid(Rules(), rest) && Root(Rules(), rest) == NTerm(REST)
    ensures Valid(Rules(), tree) && Root(Rules(), tree) == NTerm(TEXT) && Yield(tree) == Yield(rest)
  {
    tree := Node(0, [rest]);
    assert YieldAll([rest]) == YieldAll([]) + Yield(rest);
  }

  // The parser shifts a '%' behind leading blanks, and then needs an option: of the lines that begin with
  // blanks and '%', which the grammar all derives, it accepts those alone whose text from '%' on it accepts.
  lemma ParserIsGreedy(line: string)
    requires line != [] && IsBlank(line[0])
    requires BlanksEnd(line, 0) < |line| && line[BlanksEnd(line, 0)] == '%'
    ensures ParseText(line, 0, false) == ParseText(line, BlanksEnd(line, 0), false)
    ensures ParseText(line, 0, false).Ok? ==> OptionAt(line, BlanksEnd(line, 0)).Ok?
  {
    hide OptionAt, IsBlank;
    var start := BlanksEnd(line, 0);
    PercentIsNoBlank();
    assert BlanksEnd(line, start) == start;
  }

  lemma PercentIsNoBlank()
    ensures !IsBlank('%')
  {
  }

  // The shortest line that the grammar derives and the parser rejects.
  lemma DerivableButRejected(leaves: seq<Tree>) returns (tree: Tree)
    requires LeavesOf(leaves, Tokens(" %", 0))
    ensures Valid(Rules(), tree) && Root(Rules(), tree) == NTerm(TEXT) && Yield(tree) == leaves
    ensures ParseText(" %", 0, false) == Err(2)
  {
    hide Tokens, Valid, ValidAll, Yield;
    tree := GrammarDerives(" %", leaves);
    assert BlanksEnd(" %", 1) == 1 && BlanksEnd(" %", 0) == 1;
    assert WordEnd(" %", 2) == 2;
    assert OptionAt(" %", 1) == Err(2);
  }
}
