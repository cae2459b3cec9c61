/** Lists of lists. */
module Sequences {

  function Flatten<T>(lists: seq<seq<T>>): seq<T> {
    if lists == [] then [] else lists[0] + Flatten(lists[1..])
  }

  lemma {:induction false} FlattenAppend<T>(lists: seq<seq<T>>, last: seq<T>)
    ensures Flatten(lists + [last]) == Flatten(lists) + last
    decreases |lists|
  {
    if lists == [] {
      assert Flatten([last]) == last + Flatten([]);
    } else {
      assert (lists + [last])[1..] == lists[1..] + [last];
      FlattenAppend(lists[1..], last);
    }
  }
}
