/** The script-option grammar, its semantic actions and its parse table. */
module OptionTable {
  import opened Wrappers
  import opened Text
  import opened Lexer
  import opened Grammar
  import opened ShiftReduce
  import opened OptionLexer

  // Nonterminals.
  const TEXT: nat := 0
  const OPTION_VALUE: nat := 1
  const OPTIONS: nat := 2
  const OPTION_ELEMENT: nat := 3
  const REST: nat := 4
  const ROOT: nat := 5

  datatype ParsedOption = ParsedOption(key: string, value: string, start: SourcePoint, end: SourcePoint)

  // What the value stack holds: one variant per value type of a term or nonterminal.
  datatype Val =
    | TokenVal(text: string, sp: SourcePoint)
    | StringVal(s: string)
    | OptionVal(option: ParsedOption)
    | OptionsVal(options: seq<ParsedOption>)
    | IntVal(i: int)

  // The term that rule `17 + i` reads as the first of a tail, and rule `23 + i` as a later one.
  function TailFirst(i: nat): nat {
    match i
    case 0 => WORD
    case 1 => BLANKS
    case 2 => ESCAPE
    case 3 => BLANK_ESCAPE
    case 4 => SEMICOLON
    case _ => OTHER
  }

  function TailNext(i: nat): nat {
    match i
    case 0 => WORD
    case 1 => OTHER
    case 2 => BLANKS
    case 3 => SEMICOLON
    case 4 => PERCENT
    case 5 => ESCAPE
    case _ => BLANK_ESCAPE
  }

  // The term that rule `7 + i` reads as the first of a value, and rule `11 + i` as a later one.
  function ValueFirst(i: nat): nat {
    match i
    case 0 => WORD
    case 1 => OTHER
    case 2 => BLANK_ESCAPE
    case _ => ESCAPE
  }

  function ValueNext(i: nat): nat {
    match i
    case 0 => OTHER
    case 1 => BLANK_ESCAPE
    case 2 => ESCAPE
    case 3 => PERCENT
    case 4 => WORD
    case _ => BLANKS
  }

  function RuleAt(r: nat): Rule {
    if 7 <= r < 11 then Rule(OPTION_VALUE, [Term(ValueFirst(r - 7))])
    else if 11 <= r < 17 then Rule(OPTION_VALUE, [NTerm(OPTION_VALUE), Term(ValueNext(r - 11))])
    else if 17 <= r < 23 then Rule(REST, [Term(TailFirst(r - 17))])
    else if 23 <= r < 30 then Rule(REST, [NTerm(REST), Term(TailNext(r - 23))])
    else
      match r
      case 0 => Rule(TEXT, [NTerm(REST)])
      case 1 => Rule(TEXT, [NTerm(OPTIONS), NTerm(REST)])
      case 2 => Rule(TEXT, [NTerm(OPTIONS)])
      case 3 => Rule(OPTIONS, [NTerm(OPTION_ELEMENT)])
      case 4 => Rule(OPTIONS, [NTerm(OPTIONS), NTerm(OPTION_ELEMENT)])
      case 5 => Rule(OPTION_ELEMENT, [Term(PERCENT), Term(WORD), Term(BLANKS), NTerm(OPTION_VALUE), Term(SEMICOLON)])
      case 6 => Rule(OPTION_ELEMENT, [Term(BLANKS), Term(PERCENT), Term(WORD), Term(BLANKS), NTerm(OPTION_VALUE), Term(SEMICOLON)])
      case _ => Rule(ROOT, [NTerm(TEXT)])
  }

  const RULE_COUNT: nat := 31

  const ROOT_RULE: nat := 30

  function Rules(): (rules: seq<Rule>)
    ensures |rules| == RULE_COUNT
    ensures forall r :: 0 <= r < RULE_COUNT ==> rules[r] == RuleAt(r)
  {
    seq(RULE_COUNT, r requires 0 <= r < RULE_COUNT => RuleAt(r))
  }

  // `convert_escape_seq` and `convert_whitespace_escape_seq`; None where they throw.
  function ConvertEscape(text: string): Option<string> {
    if |text| == 2 && text[0] == '\\' then
      var c :- EscapedChar(text[1]);
      Some([c])
    else None
  }

  function ConvertBlankEscape(text: string): Option<string> {
    if |text| == 2 && text[0] == '\\' then
      var c :- EscapedBlank(text[1]);
      Some([c])
    else None
  }

  // The text that a token adds to a value it does not start; None when the conversion throws.
  function AppendedText(term: nat, text: string): Option<string> {
    if term == ESCAPE then ConvertEscape(text)
    else if term == PERCENT then Some("%")
    else Some(text)
  }

  // The text of a token that starts a value.
  function FirstText(term: nat, text: string): Option<string> {
    if term == ESCAPE then ConvertEscape(text)
    else if term == BLANK_ESCAPE then ConvertBlankEscape(text)
    else Some(text)
  }

  // The semantic actions. None is an exception; a value of the wrong variant is one too.
  function Reductor(rule: nat, args: seq<Val>): Option<Val> {
    if rule >= RULE_COUNT || |args| != |RuleAt(rule).rhs| then None
    else if 7 <= rule < 11 then
      if args[0].TokenVal? then
        var text :- FirstText(ValueFirst(rule - 7), args[0].text);
        Some(StringVal(text))
      else None
    else if 11 <= rule < 17 then
      if args[0].StringVal? && args[1].TokenVal? then
        var text :- AppendedText(ValueNext(rule - 11), args[1].text);
        Some(StringVal(args[0].s + text))
      else None
    else if 17 <= rule < 30 then Some(IntVal(0))
    else
      match rule
      case 0 => Some(OptionsVal([]))
      case 1 => if args[0].OptionsVal? then Some(args[0]) else None
      case 2 => if args[0].OptionsVal? then Some(args[0]) else None
      case 3 => if args[0].OptionVal? then Some(OptionsVal([args[0].option])) else None
      case 4 => if args[0].OptionsVal? && args[1].OptionVal? then Some(OptionsVal(args[0].options + [args[1].option])) else None
      case 5 => ToOption(args[0], args[1], args[3], args[4])
      case 6 => ToOption(args[1], args[2], args[4], args[5])
      case _ => None
  }

  function ToOption(start: Val, key: Val, value: Val, end: Val): Option<Val> {
    if start.TokenVal? && key.TokenVal? && value.StringVal? && end.TokenVal? then
      Some(OptionVal(ParsedOption(key.text, value.s, start.sp, end.sp)))
    else None
  }

  // ---------------------------------------------------------------------------------------------
  // The 40 states of the table.

  function ShiftTo(state: nat): Entry {
    Entry(ShiftEntry, state, 0)
  }

  function ReduceWith(rule: nat): Entry {
    Entry(ReduceEntry, 0, rule)
  }

  const ERROR := Entry(ErrorEntry, 0, 0)

  const EOF: nat := 7

  // The state that has just read the first term of a tail.
  function TailFirstState(t: nat): nat {
    match t
    case 5 => 4
    case 3 => 5
    case 1 => 6
    case 2 => 7
    case 4 => 8
    case _ => 9
  }

  function TailNextState(t: nat): nat {
    match t
    case 5 => 12
    case 6 => 13
    case 3 => 14
    case 4 => 15
    case 0 => 16
    case 1 => 17
    case _ => 18
  }

  function ValueNextState(t: nat): nat {
    match t
    case 6 => 33
    case 2 => 34
    case 1 => 35
    case 0 => 36
    case 5 => 37
    case _ => 38
  }

  // The rule that a state has read completely, for the states with no other kernel item.
  function CompleteRule(s: nat): Option<nat> {
    if 4 <= s <= 9 then Some(s + 13)
    else if 12 <= s <= 18 then Some(s + 11)
    else if 27 <= s <= 30 then Some(s - 20)
    else if 33 <= s <= 38 then Some(s - 22)
    else match s
      case 10 => Some(3)
      case 20 => Some(4)
      case 31 => Some(5)
      case 39 => Some(6)
      case _ => None
  }

  // Inside a value the end of input is not a lookahead.
  predicate InValue(s: nat) {
    27 <= s <= 30 || 33 <= s <= 38
  }

  // The shift/reduce conflict of state 5 on '%' is resolved to shift.
  function Action(s: nat, t: nat): Entry {
    if t > EOF then ERROR
    else if s == 5 && t == PERCENT then ShiftTo(22)
    else if CompleteRule(s).Some? then if t == EOF && InValue(s) then ERROR else ReduceWith(CompleteRule(s).value)
    else
      match s
      case 0 => if t == EOF then ERROR else if t == PERCENT then ShiftTo(19) else ShiftTo(TailFirstState(t))
      case 1 => if t == EOF then Entry(SuccessEntry, 0, ROOT_RULE) else ERROR
      case 2 => if t == EOF then ReduceWith(0) else ShiftTo(TailNextState(t))
      case 3 => if t == EOF then ReduceWith(2) else if t == PERCENT then ShiftTo(19) else ShiftTo(TailFirstState(t))
      case 11 => if t == EOF then ReduceWith(1) else ShiftTo(TailNextState(t))
      case 19 => if t == WORD then ShiftTo(21) else ERROR
      case 21 => if t == BLANKS then ShiftTo(23) else ERROR
      case 22 => if t == WORD then ShiftTo(24) else ERROR
      case 24 => if t == BLANKS then ShiftTo(26) else ERROR
      case 23 => ValueStart(t)
      case 26 => ValueStart(t)
      case 25 => if t == EOF then ERROR else if t == SEMICOLON then ShiftTo(31) else ShiftTo(ValueNextState(t))
      case 32 => if t == EOF then ERROR else if t == SEMICOLON then ShiftTo(39) else ShiftTo(ValueNextState(t))
      case _ => ERROR
  }

  function ValueStart(t: nat): Entry {
    match t
    case 5 => ShiftTo(27)
    case 6 => ShiftTo(28)
    case 2 => ShiftTo(29)
    case 1 => ShiftTo(30)
    case _ => ERROR
  }

  function Goto(s: nat, n: nat): nat {
    if n == TEXT then 1
    else if n == OPTIONS then 3
    else if n == OPTION_ELEMENT then if s == 0 then 10 else 20
    else if n == REST then if s == 0 then 2 else 11
    else if s == 23 then 25 else 32
  }

  function OptionParser(): Parser<Val> {
    Parser(OptionDfa(), Rules(), ROOT_RULE, TERM_COUNT,
           (s: nat, t: nat) => Action(s, t), (s: nat, n: nat) => Goto(s, n),
           (t: nat, text: string, sp: SourcePoint) => TokenVal(text, sp), (r: nat, args: seq<Val>) => Reductor(r, args))
  }

  // ---------------------------------------------------------------------------------------------
  // The item sets of the table.

  // Has state `s` an item with rule `r` read up to `d` symbols?
  predicate HasItem(s: nat, r: nat, d: nat) {
    if d == 0 then
      match s
      case 0 => r < 7 || 17 <= r < 31
      case 3 => r == 5 || r == 6 || 17 <= r < 30
      case 23 => 7 <= r < 17
      case 26 => 7 <= r < 17
      case _ => false
    else if s == 5 && r == 6 then d == 1
    else if CompleteRule(s).Some? then r == CompleteRule(s).value && d == |RuleAt(r).rhs|
    else
      match s
      case 1 => r == 30 && d == 1
      case 2 => (r == 0 || 23 <= r < 30) && d == 1
      case 3 => (r == 1 || r == 2 || r == 4) && d == 1
      case 11 => (r == 1 && d == 2) || (23 <= r < 30 && d == 1)
      case 19 => r == 5 && d == 1
      case 21 => r == 5 && d == 2
      case 22 => r == 6 && d == 2
      case 23 => r == 5 && d == 3
      case 24 => r == 6 && d == 3
      case 26 => r == 6 && d == 4
      case 25 => (r == 5 && d == 4) || (11 <= r < 17 && d == 1)
      case 32 => (r == 6 && d == 5) || (11 <= r < 17 && d == 1)
      case _ => false
  }

  ghost function Items(s: nat): iset<Item> {
    iset i: Item | HasItem(s, i.rule, i.dot)
  }

  ghost function ItemSets(): nat -> iset<Item> {
    (s: nat) => Items(s)
  }

  lemma ShiftConsistent(s: nat, t: nat)
    requires Action(s, t).kind == ShiftEntry
    ensures t < TERM_COUNT && Action(s, t).shift != 0
    ensures forall r: nat, d: nat :: d > 0 && HasItem(Action(s, t).shift, r, d) ==>
              r < RULE_COUNT && d <= |RuleAt(r).rhs| && RuleAt(r).rhs[d - 1] == Term(t) && HasItem(s, r, d - 1)
  {
  }

  lemma GotoConsistent(s: nat, rule: nat)
    requires rule < ROOT_RULE && HasItem(s, rule, 0)
    ensures Goto(s, RuleAt(rule).lhs) != 0
    ensures forall r: nat, d: nat :: d > 0 && HasItem(Goto(s, RuleAt(rule).lhs), r, d) ==>
              r < RULE_COUNT && d <= |RuleAt(r).rhs| && RuleAt(r).rhs[d - 1] == NTerm(RuleAt(rule).lhs) && HasItem(s, r, d - 1)
  {
  }

  lemma ReduceConsistent(s: nat, t: nat)
    requires Action(s, t).kind == ReduceEntry
    ensures var r := Action(s, t).reduce;
            r < ROOT_RULE && HasItem(s, r, |RuleAt(r).rhs|)
  {
  }

  lemma ActionKinds(s: nat, t: nat)
    ensures Action(s, t).kind in {ErrorEntry, ShiftEntry, ReduceEntry, SuccessEntry}
    ensures Action(s, t).kind == SuccessEntry ==> t == EOF && HasItem(s, ROOT_RULE, 1)
  {
  }

  lemma ShiftBackward(s: nat, t: nat)
    requires Action(s, t).kind == ShiftEntry
    ensures t < TERM_COUNT && BackwardOk(Rules(), ItemSets(), s, Term(t), Action(s, t).shift)
  {
    ShiftConsistent(s, t);
    hide Action, HasItem;
  }

  lemma ActionConsistent(s: nat, t: nat)
    ensures EntryOk(OptionParser(), ItemSets(), s, t)
  {
    hide Action, HasItem, RuleAt;
    ActionKinds(s, t);
    if Action(s, t).kind == ShiftEntry {
      ShiftBackward(s, t);
    } else if Action(s, t).kind == ReduceEntry {
      ReduceConsistent(s, t);
    }
  }

  lemma GotoBackward(s: nat, r: nat)
    requires Item(r, 0) in Items(s) && r < RULE_COUNT && r != ROOT_RULE
    ensures BackwardOk(Rules(), ItemSets(), s, NTerm(Rules()[r].lhs), Goto(s, Rules()[r].lhs))
  {
    GotoConsistent(s, r);
    hide HasItem, Goto;
  }

  // The table agrees with its item sets, so everything proved of consistent tables holds of it.
  lemma TableConsistent()
    ensures Consistent(OptionParser(), ItemSets())
  {
    var p, items := OptionParser(), ItemSets();
    assert forall i: Item :: i in items(0) ==> i.dot == 0;
    assert forall s: nat :: Item(p.rootRule, 0) in items(s) ==> s == 0;
    hide Action, HasItem, Goto, BackwardOk, EntryOk;
    forall s: nat, t: nat
      ensures EntryOk(p, items, s, t)
    {
      ActionConsistent(s, t);
    }
    forall s: nat, r: nat | Item(r, 0) in items(s) && r < |p.rules| && r != p.rootRule
      ensures BackwardOk(p.rules, items, s, NTerm(p.rules[r].lhs), p.goto(s, p.rules[r].lhs))
    {
      GotoBackward(s, r);
    }
  }
}
