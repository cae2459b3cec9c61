/** How the parser generator groups its rules by their left-hand sides. */
module RuleGrouping {

  // `l_idx`, `r_idx` and `r_elements`: the nonterminal, the rule's place in the grammar, its length.
  datatype RuleInfo = RuleInfo(l: nat, r: nat, elements: nat)

  datatype Slice = Slice(start: nat, n: nat)

  predicate Sorted(s: seq<RuleInfo>) {
    forall i, j :: 0 <= i < j < |s| ==> s[i].l <= s[j].l
  }

  // The rules of one nonterminal, in order.
  function Block(s: seq<RuleInfo>, nt: nat): seq<RuleInfo> {
    if s == [] then [] else (if s[0].l == nt then [s[0]] else []) + Block(s[1..], nt)
  }

  // The same rules, and those of each nonterminal in the same order.
  ghost predicate SameBlocks(s: seq<RuleInfo>, t: seq<RuleInfo>) {
    |s| == |t| && forall nt: nat :: Block(s, nt) == Block(t, nt)
  }

  lemma {:induction false} BlockCounts(s: seq<RuleInfo>, rule: RuleInfo)
    ensures multiset(Block(s, rule.l))[rule] == multiset(s)[rule]
    decreases |s|
  {
    if s != [] {
      BlockCounts(s[1..], rule);
      assert s == [s[0]] + s[1..];
    }
  }

  lemma SameBlocksPermute(s: seq<RuleInfo>, t: seq<RuleInfo>)
    requires SameBlocks(s, t)
    ensures multiset(s) == multiset(t)
  {
    forall rule: RuleInfo
      ensures multiset(s)[rule] == multiset(t)[rule]
    {
      BlockCounts(s, rule);
      BlockCounts(t, rule);
    }
  }

  // What every swap lowers: the sum of the keys, each weighted by its distance from the end.
  function Weight(s: seq<RuleInfo>): nat {
    if s == [] then 0 else |s| * s[0].l + Weight(s[1..])
  }

  function Swapped(s: seq<RuleInfo>, i: nat): seq<RuleInfo>
    requires i + 1 < |s|
  {
    s[i := s[i + 1]][i + 1 := s[i]]
  }

  lemma {:induction false} SwapKeepsBlock(s: seq<RuleInfo>, i: nat, nt: nat)
    requires i + 1 < |s| && s[i].l != s[i + 1].l
    ensures Block(Swapped(s, i), nt) == Block(s, nt)
    decreases i
  {
    var t := Swapped(s, i);
    if i == 0 {
      assert s[1..][1..] == s[2..] && t[1..][1..] == s[2..];
    } else {
      SwapKeepsBlock(s[1..], i - 1, nt);
      assert t[1..] == Swapped(s[1..], i - 1);
    }
  }

  lemma {:induction false} SwapLowersWeight(s: seq<RuleInfo>, i: nat)
    requires i + 1 < |s| && s[i + 1].l < s[i].l
    ensures Weight(Swapped(s, i)) == Weight(s) - (s[i].l - s[i + 1].l)
    decreases i
  {
    var t := Swapped(s, i);
    if i == 0 {
      assert s[1..][1..] == s[2..] && t[1..][1..] == s[2..];
      var n, a, b := |s|, s[0].l, s[1].l;
      assert Weight(s) == n * a + ((n - 1) * b + Weight(s[2..]));
      assert Weight(t) == n * b + ((n - 1) * a + Weight(s[2..]));
      Weigh(n, a, b);
    } else {
      SwapLowersWeight(s[1..], i - 1);
      assert t[1..] == Swapped(s[1..], i - 1);
    }
  }

  lemma Weigh(n: nat, a: nat, b: nat)
    requires n > 0
    ensures n * a + (n - 1) * b - (n * b + (n - 1) * a) == a - b
  {
  }

  // One comparison of the sort, with its swap.
  method Exchange(c: array<RuleInfo>, i: nat) returns (swapped: bool)
    requires i + 1 < c.Length
    modifies c
    ensures SameBlocks(c[..], old(c[..]))
    ensures swapped <==> old(c[i + 1].l < c[i].l)
    ensures if swapped then Weight(c[..]) < Weight(old(c[..])) else c[..] == old(c[..])
  {
    swapped := c[i + 1].l < c[i].l;
    if swapped {
      var x := c[i];
      c[i] := c[i + 1];
      c[i + 1] := x;
      ghost var was := old(c[..]);
      assert c[..] == Swapped(was, i);
      SwapLowersWeight(was, i);
      forall nt: nat
        ensures Block(c[..], nt) == Block(was, nt)
      {
        SwapKeepsBlock(was, i, nt);
      }
    }
  }

  // `stdex::sort` with the comparison of left-hand sides: it ends, and what it leaves is sorted and stable.
  method Sort(c: array<RuleInfo>)
    requires c.Length > 0
    modifies c
    ensures Sorted(c[..]) && SameBlocks(c[..], old(c[..]))
  {
    hide Block, Weight;
    var swap := true;
    while swap
      invariant SameBlocks(c[..], old(c[..]))
      invariant !swap ==> forall j :: 0 <= j < c.Length - 1 ==> c[j].l <= c[j + 1].l
      decreases Weight(c[..]), swap
    {
      swap := false;
      ghost var was := c[..];
      for i := 0 to c.Length - 1
        invariant SameBlocks(c[..], old(c[..]))
        invariant if swap then Weight(c[..]) < Weight(was) else c[..] == was
        invariant !swap ==> forall j :: 0 <= j < i ==> c[j].l <= c[j + 1].l
      {
        var swapped := Exchange(c, i);
        swap := swap || swapped;
      }
    }
    AdjacentSorted(c[..]);
  }

  lemma {:induction false} AdjacentSorted(s: seq<RuleInfo>)
    requires forall j :: 0 <= j < |s| - 1 ==> s[j].l <= s[j + 1].l
    ensures Sorted(s)
    decreases |s|
  {
    if |s| > 1 {
      var init := s[..|s| - 1];
      AdjacentSorted(init);
      forall i, j | 0 <= i < j < |s|
        ensures s[i].l <= s[j].l
      {
        if j == |s| - 1 {
          assert s[j - 1].l <= s[j - 1 + 1].l;
          assert i < j - 1 ==> init[i].l <= init[j - 1].l;
        } else {
          assert init[i].l <= init[j].l;
        }
      }
    }
  }

  // The slice holds exactly the positions of the nonterminal's rules among the first `n`.
  predicate SliceOk(s: seq<RuleInfo>, n: nat, slice: Slice, nt: nat)
    requires n <= |s|
  {
    && slice.start + slice.n <= n
    && forall j :: 0 <= j < n ==> (s[j].l == nt <==> slice.start <= j < slice.start + slice.n)
  }

  // `make_nterm_rule_slices`, on slices that are all empty at first.
  method MakeNtermRuleSlices(rules: seq<RuleInfo>, slices: array<Slice>)
    requires Sorted(rules) && forall i :: 0 <= i < |rules| ==> rules[i].l < slices.Length
    requires forall k :: 0 <= k < slices.Length ==> slices[k] == Slice(0, 0)
    modifies slices
    ensures forall k :: 0 <= k < slices.Length ==> SliceOk(rules, |rules|, slices[k], k)
  {
    var nt := 0;
    for i := 0 to |rules|
      invariant nt == if i == 0 then 0 else rules[i - 1].l
      invariant forall k :: 0 <= k < slices.Length ==> SliceOk(rules, i, slices[k], k)
      invariant forall k :: nt < k < slices.Length ==> slices[k] == Slice(0, 0)
      invariant nt < slices.Length ==> slices[nt].start + slices[nt].n == i
    {
      if nt != rules[i].l {
        nt := rules[i].l;
        slices[nt] := Slice(i, 1);
      } else {
        slices[nt] := Slice(slices[nt].start, slices[nt].n + 1);
      }
    }
  }

  // The slice of the rules behind the first one.
  function Rest(slice: Slice): Slice {
    if slice.start > 0 then Slice(slice.start - 1, slice.n) else if slice.n > 0 then Slice(0, slice.n - 1) else slice
  }

  lemma RestOk(s: seq<RuleInfo>, slice: Slice, nt: nat)
    requires s != [] && SliceOk(s, |s|, slice, nt)
    ensures SliceOk(s[1..], |s| - 1, Rest(slice), nt)
    ensures s[0].l == nt <==> slice.start == 0 < slice.n
  {
    var rest := Rest(slice);
    forall j | 0 <= j < |s| - 1
      ensures s[1..][j].l == nt <==> rest.start <= j < rest.start + rest.n
    {
      assert s[1..][j] == s[j + 1];
    }
  }

  lemma {:induction false} BlockIsSlice(s: seq<RuleInfo>, slice: Slice, nt: nat)
    requires SliceOk(s, |s|, slice, nt)
    ensures slice.start + slice.n <= |s|
    ensures Block(s, nt) == s[slice.start..slice.start + slice.n]
    decreases |s|
  {
    hide SliceOk;
    SliceFits(s, slice, nt);
    if s != [] {
      RestOk(s, slice, nt);
      BlockIsSlice(s[1..], Rest(slice), nt);
    }
  }

  lemma SliceFits(s: seq<RuleInfo>, slice: Slice, nt: nat)
    requires SliceOk(s, |s|, slice, nt)
    ensures slice.start + slice.n <= |s|
  {
  }

  // The analysis as a whole: every nonterminal's slice of the sorted rules is the list of its own rules, in
  // the order in which the grammar gives them, and every rule lies in the slice of its left-hand side alone.
  method GroupRules(rules: array<RuleInfo>, ntermCount: nat) returns (slices: array<Slice>)
    requires rules.Length > 0 && forall i :: 0 <= i < rules.Length ==> rules[i].l < ntermCount
    modifies rules
    ensures fresh(slices) && slices.Length == ntermCount
    ensures forall k :: 0 <= k < ntermCount ==>
              && slices[k].start + slices[k].n <= rules.Length
              && rules[slices[k].start..slices[k].start + slices[k].n] == Block(old(rules[..]), k)
    ensures forall i, k :: 0 <= i < rules.Length && 0 <= k < ntermCount ==>
              (slices[k].start <= i < slices[k].start + slices[k].n <==> rules[i].l == k)
  {
    Sort(rules);
    SameBlocksKeys(old(rules[..]), rules[..], ntermCount);
    slices := new Slice[ntermCount](_ => Slice(0, 0));
    MakeNtermRuleSlices(rules[..], slices);
    forall k | 0 <= k < ntermCount
      ensures rules[slices[k].start..slices[k].start + slices[k].n] == Block(old(rules[..]), k)
    {
      BlockIsSlice(rules[..], slices[k], k);
    }
  }

  lemma {:induction false} InBlock(s: seq<RuleInfo>, i: nat)
    requires i < |s|
    ensures s[i] in Block(s, s[i].l)
    decreases i
  {
    if i > 0 {
      InBlock(s[1..], i - 1);
    }
  }

  lemma {:induction false} BlockFrom(s: seq<RuleInfo>, nt: nat, rule: RuleInfo)
    requires rule in Block(s, nt)
    ensures rule in s
    decreases |s|
  {
    if s != [] && rule in Block(s[1..], nt) {
      BlockFrom(s[1..], nt, rule);
    }
  }

  lemma SameBlocksKeys(s: seq<RuleInfo>, t: seq<RuleInfo>, bound: nat)
    requires SameBlocks(t, s) && forall i :: 0 <= i < |s| ==> s[i].l < bound
    ensures forall i :: 0 <= i < |t| ==> t[i].l < bound
  {
    hide Block;
    forall i | 0 <= i < |t|
      ensures t[i].l < bound
    {
      InBlock(t, i);
      BlockFrom(s, t[i].l, t[i]);
    }
  }
}
