/** Which artifacts an action depends on: a graph search with one set of visited nodes per root. */
module DepSets {
  import opened Wrappers

  datatype DepSet = DepSet(direct: seq<int>, transitive: seq<int>)

  type Graph = map<int, DepSet>

  // A walk along transitive dependencies.
  predicate IsPath(g: Graph, path: seq<int>) {
    && path != []
    && forall i :: 0 <= i < |path| - 1 ==> path[i] in g && path[i + 1] in g[path[i]].transitive
  }

  predicate IsPathTo(g: Graph, path: seq<int>, from: int, to: int) {
    IsPath(g, path) && path[0] == from && path[|path| - 1] == to
  }

  ghost predicate Reachable(g: Graph, from: int, to: int) {
    exists path :: IsPathTo(g, path, from, to)
  }

  // A root meets no reference to a missing set.
  ghost predicate Complete(g: Graph, from: int) {
    forall id :: Reachable(g, from, id) ==> id in g
  }

  // An artifact of a set that the root reaches.
  ghost predicate Provides(g: Graph, from: int, artifact: int) {
    exists id :: Reachable(g, from, id) && id in g && artifact in g[id].direct
  }

  lemma ReachesItself(g: Graph, id: int)
    ensures Reachable(g, id, id)
  {
    assert IsPathTo(g, [id], id, id);
  }

  lemma ReachesNext(g: Graph, from: int, id: int, next: int)
    requires Reachable(g, from, id) && id in g && next in g[id].transitive
    ensures Reachable(g, from, next)
  {
    var path :| IsPathTo(g, path, from, id);
    assert IsPathTo(g, path + [next], from, next);
  }

  ghost predicate Closed(g: Graph, ids: set<int>) {
    forall id, next :: id in ids && id in g && next in g[id].transitive ==> next in ids
  }

  // A set that contains the root and all that its members refer to contains all that the root reaches.
  lemma {:induction false} ClosedContains(g: Graph, ids: set<int>, path: seq<int>)
    requires IsPath(g, path) && path[0] in ids && Closed(g, ids)
    ensures path[|path| - 1] in ids
    decreases |path|
  {
    if |path| > 1 {
      var last := |path| - 2;
      ClosedContains(g, ids, path[..last + 1]);
      var id, next := path[last], path[|path| - 1];
      assert next == path[last + 1];
      assert id in ids && id in g && next in g[id].transitive;
    }
  }

  class Search {
    const depSets: Graph
    var seen: set<int>

    constructor (depSets: Graph)
      ensures this.depSets == depSets && seen == {}
    {
      this.depSets, seen := depSets, {};
    }

    // The sets from `new_` have all their references in `seen`, and are keys that the root reaches.
    ghost predicate Visited(root: int, visited: set<int>)
      reads this
    {
      && visited <= seen
      && (forall id, next :: id in visited && id in depSets && next in depSets[id].transitive ==> next in seen)
      && (forall id :: id in visited ==> id in depSets && Reachable(depSets, root, id))
    }

    // Artifacts of exactly these sets.
    ghost predicate ArtifactsOf(artifacts: set<int>, ids: set<int>) {
      && (forall a :: a in artifacts ==> exists id :: id in ids && id in depSets && a in depSets[id].direct)
      && (forall id, a :: id in ids && id in depSets && a in depSets[id].direct ==> a in artifacts)
    }

    // `artifact_ids`: visits what is not yet seen from `id` on. Err: a reference to this missing set.
    method ArtifactIds(id: int, ghost root: int) returns (r: Result<set<int>, int>)
      requires Reachable(depSets, root, id)
      modifies this`seen
      ensures old(seen) <= seen
      ensures r.Ok? ==> id in seen && Visited(root, seen - old(seen)) && ArtifactsOf(r.value, seen - old(seen))
      ensures r.Err? ==> r.error !in depSets && Reachable(depSets, root, r.error)
      decreases depSets.Keys - seen, 1
    {
      hide Reachable;
      if id in seen {
        return Ok({});
      }
      seen := seen + {id};
      if id !in depSets {
        return Err(id);
      }
      var depSet := depSets[id];
      var result := set a | a in depSet.direct;
      var i := 0;
      while i < |depSet.transitive|
        invariant i <= |depSet.transitive|
        invariant old(seen) + {id} <= seen
        invariant forall k :: 0 <= k < i ==> depSet.transitive[k] in seen
        invariant Visited(root, seen - old(seen) - {id})
        invariant ArtifactsOf(result, seen - old(seen))
      {
        ghost var before := seen;
        ReachesNext(depSets, root, id, depSet.transitive[i]);
        var more := ArtifactIds(depSet.transitive[i], root);
        if more.Err? {
          return more;
        }
        result := result + more.value;
        assert seen - old(seen) == (before - old(seen)) + (seen - before);
        i := i + 1;
      }
      r := Ok(result);
    }
  }

  // A search from a root with nothing seen yet: it succeeds exactly when every reference that the root
  // reaches leads to a set, and then finds exactly the artifacts of the sets that it reaches.
  method ArtifactsOfRoot(depSets: Graph, root: int) returns (r: Result<set<int>, int>)
    ensures r.Ok? <==> Complete(depSets, root)
    ensures r.Ok? ==> forall a :: a in r.value <==> Provides(depSets, root, a)
    ensures r.Err? ==> r.error !in depSets && Reachable(depSets, root, r.error)
  {
    hide Reachable;
    var search := new Search(depSets);
    ReachesItself(depSets, root);
    r := search.ArtifactIds(root, root);
    if r.Ok? {
      ReachedIsSeen(search, root, r.value);
    }
  }

  lemma ReachedIsSeen(search: Search, root: int, artifacts: set<int>)
    requires root in search.seen && search.Visited(root, search.seen) && search.ArtifactsOf(artifacts, search.seen)
    ensures Complete(search.depSets, root)
    ensures forall a :: a in artifacts <==> Provides(search.depSets, root, a)
  {
    forall id | Reachable(search.depSets, root, id)
      ensures id in search.seen
    {
      var path :| IsPathTo(search.depSets, path, root, id);
      ClosedContains(search.depSets, search.seen, path);
    }
  }

  // The input collection: all roots of all actions, each searched afresh.
  method CollectInputs(depSets: Graph, actions: seq<seq<int>>) returns (r: Result<set<int>, int>)
    ensures r.Ok? <==> forall i, j :: 0 <= i < |actions| && 0 <= j < |actions[i]| ==> Complete(depSets, actions[i][j])
    ensures r.Ok? ==> forall a :: a in r.value <==>
              exists i, j :: 0 <= i < |actions| && 0 <= j < |actions[i]| && Provides(depSets, actions[i][j], a)
  {
    hide Complete, Provides;
    var inputs: set<int> := {};
    var n := 0;
    while n < |actions|
      invariant n <= |actions|
      invariant forall i, j :: 0 <= i < n && 0 <= j < |actions[i]| ==> Complete(depSets, actions[i][j])
      invariant forall a :: a in inputs <==> exists i, j :: 0 <= i < n && 0 <= j < |actions[i]| && Provides(depSets, actions[i][j], a)
    {
      var m := 0;
      ghost var before := inputs;
      while m < |actions[n]|
        invariant m <= |actions[n]|
        invariant forall j :: 0 <= j < m ==> Complete(depSets, actions[n][j])
        invariant forall a :: a in inputs <==> a in before || exists j :: 0 <= j < m && Provides(depSets, actions[n][j], a)
      {
        var found := ArtifactsOfRoot(depSets, actions[n][m]);
        if found.Err? {
          assert !Complete(depSets, actions[n][m]);
          return found;
        }
        inputs := inputs + found.value;
        m := m + 1;
      }
      n := n + 1;
    }
    r := Ok(inputs);
  }
}
