/** Positions in source text. */
module Text {

  // Line and column are 32-bit counters of the parser and wrap around; `global` is a size_t.
  const COLUMN_MODULUS: nat := 0x1_0000_0000

  datatype SourcePoint = SourcePoint(line: nat, column: nat, global: nat)

  const START := SourcePoint(1, 1, 0)

  function AdvanceChar(sp: SourcePoint, c: char): SourcePoint {
    if c == '\n' then SourcePoint((sp.line + 1) % COLUMN_MODULUS, 1, sp.global + 1)
    else SourcePoint(sp.line, (sp.column + 1) % COLUMN_MODULUS, sp.global + 1)
  }

  function Advance(sp: SourcePoint, text: string): SourcePoint
    decreases |text|
  {
    if text == [] then sp else Advance(AdvanceChar(sp, text[0]), text[1..])
  }

  lemma {:induction false} AdvanceAppend(sp: SourcePoint, a: string, b: string)
    ensures Advance(sp, a + b) == Advance(Advance(sp, a), b)
    decreases |a|
  {
    if a == [] {
      assert a + b == b;
    } else {
      assert (a + b)[0] == a[0] && (a + b)[1..] == a[1..] + b;
      AdvanceAppend(AdvanceChar(sp, a[0]), a[1..], b);
    }
  }

  // Inside a line, the column counts characters from 1, modulo the counter width.
  lemma {:induction false} AdvanceInLine(sp: SourcePoint, text: string)
    requires '\n' !in text && sp.column < COLUMN_MODULUS
    ensures Advance(sp, text) == SourcePoint(sp.line, (sp.column + |text|) % COLUMN_MODULUS, sp.global + |text|)
    decreases |text|
  {
    if text != [] {
      AdvanceInLine(AdvanceChar(sp, text[0]), text[1..]);
    }
  }

  // Where the newlines of a text are.
  ghost function Newlines(text: string): set<nat> {
    set i: nat | i < |text| && text[i] == '\n'
  }

  lemma NewlinesAppend(text: string, c: char)
    ensures Newlines(text + [c]) == Newlines(text) + (if c == '\n' then {|text|} else {})
    ensures |Newlines(text + [c])| == |Newlines(text)| + (if c == '\n' then 1 else 0)
  {
    var longer := text + [c];
    assert forall i: nat :: i < |text| ==> longer[i] == text[i];
  }

  lemma StepModulo(x: nat)
    ensures (x % COLUMN_MODULUS + 1) % COLUMN_MODULUS == (x + 1) % COLUMN_MODULUS
  {
  }

  lemma CharCounts(newlines: nat, n: nat, last: int, c: char)
    requires -1 <= last <= n
    ensures AdvanceChar(SourcePoint((1 + newlines) % COLUMN_MODULUS, (n - last) % COLUMN_MODULUS, n), c) ==
            if c == '\n' then SourcePoint((2 + newlines) % COLUMN_MODULUS, 1, n + 1)
            else SourcePoint((1 + newlines) % COLUMN_MODULUS, (n + 1 - last) % COLUMN_MODULUS, n + 1)
  {
    StepModulo(1 + newlines);
    StepModulo(n - last);
  }

  // The position behind a text: the line counts the newlines in it, the column the characters behind the
  // last of them (`last`, or -1), both modulo the counter width.
  lemma {:induction false} AdvanceCounts(text: string, last: int)
    requires -1 <= last < |text| && (last >= 0 ==> text[last] == '\n')
    requires forall i :: last < i < |text| ==> text[i] != '\n'
    ensures Advance(START, text) == SourcePoint((1 + |Newlines(text)|) % 0x1_0000_0000, (|text| - last) % 0x1_0000_0000, |text|)
    decreases |text|
  {
    hide Newlines, Advance, AdvanceChar;
    if text == [] {
      AdvanceNothing();
    } else {
      var n := |text| - 1;
      var init, c := text[..n], text[n];
      var before := LastNewline(init);
      assert text == init + [c];
      AdvanceOne(init, c);
      AdvanceCounts(init, before);
      NewlinesAppend(init, c);
      CharCounts(|Newlines(init)|, n, before, c);
      if c != '\n' {
        assert before == last by { SameLast(text, last, before); }
      }
    }
  }

  lemma AdvanceNothing()
    ensures Advance(START, []) == START && Newlines([]) == {}
  {
  }

  lemma AdvanceOne(text: string, c: char)
    ensures Advance(START, text + [c]) == AdvanceChar(Advance(START, text), c)
  {
    AdvanceAppend(START, text, [c]);
  }

  lemma SameLast(text: string, a: int, b: int)
    requires -1 <= a < |text| && (a >= 0 ==> text[a] == '\n') && forall i :: a < i < |text| ==> text[i] != '\n'
    requires -1 <= b < |text| && (b >= 0 ==> text[b] == '\n') && forall i :: b < i < |text| ==> text[i] != '\n'
    ensures a == b
  {
  }

  function LastNewline(text: string): (last: int)
    ensures -1 <= last < |text| && (last >= 0 ==> text[last] == '\n')
    ensures forall i :: last < i < |text| ==> text[i] != '\n'
    decreases |text|
  {
    if text == [] then -1
    else if text[|text| - 1] == '\n' then |text| - 1
    else LastNewline(text[..|text| - 1])
  }

  // `source_point::update`: the loop that walks the consumed text.
  method Update(sp: SourcePoint, text: string) returns (r: SourcePoint)
    ensures r == Advance(sp, text)
  {
    r := sp;
    var start := 0;
    while start < |text|
      invariant start <= |text|
      invariant Advance(r, text[start..]) == Advance(sp, text)
    {
      assert text[start..][1..] == text[start + 1..];
      var column := r.column;
      var line := r.line;
      if text[start] == '\n' {
        line := (line + 1) % COLUMN_MODULUS;
        column := 1;
      } else {
        column := (column + 1) % COLUMN_MODULUS;
      }
      r := SourcePoint(line, column, r.global + 1);
      start := start + 1;
    }
  }
}
