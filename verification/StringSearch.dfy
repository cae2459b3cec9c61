/** The searches of std::string that the option parsers use; None stands for npos. */
module StringSearch {
  import opened Wrappers

  // The first position from `from` whose character satisfies `p`.
  function FindFirst(s: string, p: char -> bool, from: nat): (r: Option<nat>)
    ensures r.Some? ==> from <= r.value < |s| && p(s[r.value]) && forall i :: from <= i < r.value ==> !p(s[i])
    ensures r.None? ==> forall i :: from <= i < |s| ==> !p(s[i])
    decreases |s| - from
  {
    if from >= |s| then None
    else if p(s[from]) then Some(from)
    else FindFirst(s, p, from + 1)
  }

  // The last position up to `upTo`, or up to the end of `s`, whose character satisfies `p`.
  function FindLast(s: string, p: char -> bool, upTo: nat): (r: Option<nat>)
    ensures r.Some? ==> r.value <= upTo && r.value < |s| && p(s[r.value]) && forall i :: r.value < i <= upTo && i < |s| ==> !p(s[i])
    ensures r.None? ==> forall i :: 0 <= i <= upTo && i < |s| ==> !p(s[i])
    decreases upTo
  {
    if upTo < |s| && p(s[upTo]) then Some(upTo)
    else if upTo == 0 then None
    else FindLast(s, p, upTo - 1)
  }

  // Does `part` stand in `s` at `at`?
  predicate StandsAt(s: string, part: string, at: nat) {
    at + |part| <= |s| && s[at..at + |part|] == part
  }

  // The first occurrence of `part` from `from` on.
  function Find(s: string, part: string, from: nat): (r: Option<nat>)
    ensures r.Some? ==> from <= r.value && StandsAt(s, part, r.value) && forall i :: from <= i < r.value ==> !StandsAt(s, part, i)
    ensures r.None? ==> forall i :: from <= i ==> !StandsAt(s, part, i)
    decreases |s| - from
  {
    if StandsAt(s, part, from) then Some(from)
    else if from >= |s| then None
    else Find(s, part, from + 1)
  }

  predicate IsLineBreak(c: char) {
    c == '\r' || c == '\n'
  }
}
