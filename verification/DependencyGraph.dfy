/** The module dependency check inside `validateIndex` of src/governance-contract.ts. */
module DependencyGraph {

  type Id = string
  type Graph = map<Id, seq<Id>>

  predicate AllKnown(g: Graph) {
    forall id :: id in g ==> forall i :: 0 <= i < |g[id]| ==> g[id][i] in g
  }

  predicate Edge(g: Graph, x: Id, y: Id) {
    x in g && y in g[x]
  }

  predicate IsPath(g: Graph, path: seq<Id>) {
    forall i :: 0 < i < |path| ==> Edge(g, path[i - 1], path[i])
  }

  predicate IsCycle(g: Graph, path: seq<Id>) {
    |path| >= 2 && path[0] == path[|path| - 1] && IsPath(g, path)
  }

  ghost predicate Cyclic(g: Graph) {
    exists path :: IsCycle(g, path)
  }

  // ---- A finished part has no cycle ----

  /** Every module comes after all its dependencies. */
  predicate Sorted(g: Graph, order: seq<Id>) {
    forall i :: 0 <= i < |order| ==> SortedAt(g, order, i)
  }

  predicate SortedAt(g: Graph, order: seq<Id>, i: nat)
    requires i < |order|
  {
    order[i] in g && forall j :: 0 <= j < |g[order[i]]| ==> g[order[i]][j] in order[..i]
  }

  lemma SortedAppend(g: Graph, order: seq<Id>, id: Id)
    requires Sorted(g, order) && id in g && forall j :: 0 <= j < |g[id]| ==> g[id][j] in order
    ensures Sorted(g, order + [id])
  {
    var longer := order + [id];
    forall i | 0 <= i < |longer|
      ensures SortedAt(g, longer, i)
    {
      if i < |order| {
        assert SortedAt(g, order, i) && longer[..i] == order[..i] && longer[i] == order[i];
      } else {
        assert longer[..i] == order && longer[i] == id;
      }
    }
  }

  /** From a module of a sorted order, a path only leads to modules before it. */
  lemma {:induction false} PathsGoBack(g: Graph, order: seq<Id>, path: seq<Id>, n: nat)
    requires Sorted(g, order) && IsPath(g, path) && |path| >= 1 && n <= |order| && path[0] in order[..n]
    ensures path[|path| - 1] in order[..n]
    ensures |path| >= 2 ==> exists i :: 0 <= i < n && order[i] == path[0] && path[|path| - 1] in order[..i]
    decreases |path|
  {
    var i :| 0 <= i < n && order[i] == path[0];
    if |path| >= 2 {
      assert Edge(g, path[0], path[1]) && SortedAt(g, order, i);
      var rest := path[1..];
      assert IsPath(g, rest) by {
        assert forall k :: 0 < k < |rest| ==> Edge(g, path[k], path[k + 1]);
      }
      PathsGoBack(g, order, rest, i);
      assert rest[|rest| - 1] == path[|path| - 1];
      assert order[..i] <= order[..n];
    }
  }

  /** The first place of a module in an order. */
  lemma SortedHasNoCycle(g: Graph, order: seq<Id>, path: seq<Id>, n: nat)
    requires Sorted(g, order) && IsCycle(g, path) && n <= |order| && path[0] in order[..n]
    ensures false
    decreases n
  {
    PathsGoBack(g, order, path, n);
    var i :| 0 <= i < n && order[i] == path[0] && path[|path| - 1] in order[..i];
    SortedHasNoCycle(g, order, path, i);
  }

  // ---- The visit ----

  /** `finished` lists the visited modules, dependencies first; `stack` the modules being visited,
      each a dependency of the one before. */
  ghost predicate Consistent(g: Graph, visiting: set<Id>, visited: set<Id>, finished: seq<Id>, stack: seq<Id>) {
    && AllKnown(g)
    && (forall id :: id in visited <==> id in finished) && Sorted(g, finished)
    && (forall id :: id in visiting <==> id in stack) && IsPath(g, stack)
    && (forall id :: id in stack ==> id in g)
  }

  lemma Entering(g: Graph, visiting: set<Id>, visited: set<Id>, finished: seq<Id>, stack: seq<Id>, id: Id)
    requires Consistent(g, visiting, visited, finished, stack) && id in g && id !in visiting
    requires stack != [] ==> Edge(g, stack[|stack| - 1], id)
    ensures Consistent(g, visiting + {id}, visited, finished, stack + [id])
    ensures |g.Keys - (visiting + {id})| < |g.Keys - visiting|
  {
    hide Sorted;
    ExtendsPath(g, stack, id);
    FewerLeft(g.Keys, visiting, id);
  }

  lemma Leaving(g: Graph, visiting: set<Id>, visited: set<Id>, finished: seq<Id>, stack: seq<Id>, id: Id)
    requires Consistent(g, visiting + {id}, visited, finished, stack + [id]) && id in g && id !in visiting
    requires forall x :: x in visiting <==> x in stack
    requires forall i :: 0 <= i < |g[id]| ==> g[id][i] in visited
    ensures Consistent(g, visiting, visited + {id}, finished + [id], stack)
  {
    SortedAppend(g, finished, id);
    hide Sorted;
    forall i | 0 < i < |stack|
      ensures Edge(g, stack[i - 1], stack[i])
    {
      assert (stack + [id])[i - 1] == stack[i - 1] && (stack + [id])[i] == stack[i];
    }
    assert forall x :: x in stack ==> x in stack + [id];
  }

  lemma SameModules(g: Graph, visiting: set<Id>, visited: set<Id>, finished: seq<Id>, stack: seq<Id>)
    requires Consistent(g, visiting, visited, finished, stack)
    ensures forall x :: x in visiting <==> x in stack
    ensures AllKnown(g) && IsPath(g, stack)
  {
  }

  class DependencyCheck {
    const g: Graph
    var visiting: set<Id>
    var visited: set<Id>
    ghost var finished: seq<Id>
    ghost var stack: seq<Id>

    ghost predicate Valid()
      reads this
    {
      Consistent(g, visiting, visited, finished, stack)
    }

    constructor (g: Graph)
      requires AllKnown(g)
      ensures this.g == g && Valid() && stack == [] && visited == {}
    {
      this.g := g;
      visiting, visited := {}, {};
      finished, stack := [], [];
    }

    /** `visit`: false when it throws. It throws only if there is a cycle. */
    method Visit(id: Id) returns (ok: bool)
      requires Valid() && id in g && (stack != [] ==> Edge(g, stack[|stack| - 1], id))
      modifies this
      ensures ok ==> Valid() && stack == old(stack) && visiting == old(visiting) && old(visited) <= visited && id in visited
      ensures !ok ==> Cyclic(g)
      decreases |g.Keys - visiting|
    {
      hide Consistent, AllKnown, IsPath, Cyclic, Edge;
      SameModules(g, visiting, visited, finished, stack);
      if id in visiting {
        ClosesACycle(g, stack, id);
        return false;
      }
      if id in visited {
        return true;
      }
      Enter(id);
      for i := 0 to |g[id]|
        invariant Valid() && stack == old(stack) + [id] && visiting == old(visiting) + {id} && old(visited) <= visited
        invariant forall k :: 0 <= k < i ==> g[id][k] in visited
      {
        DependencyIsKnown(g, id, i);
        ok := Visit(g[id][i]);
        if !ok {
          return false;
        }
      }
      Leave(id, old(visiting), old(stack));
      return true;
    }

    /** `visiting.add(id)`. */
    method Enter(id: Id)
      requires Valid() && id in g && id !in visiting && (stack != [] ==> Edge(g, stack[|stack| - 1], id))
      modifies this`visiting, this`stack
      ensures Valid() && visiting == old(visiting) + {id} && stack == old(stack) + [id]
      ensures |g.Keys - visiting| < |g.Keys - old(visiting)|
    {
      Entering(g, visiting, visited, finished, stack, id);
      visiting := visiting + {id};
      stack := stack + [id];
    }

    /** `visiting.delete(id); visited.add(id)`. */
    method Leave(id: Id, ghost before: set<Id>, ghost below: seq<Id>)
      requires Valid() && id in g && visiting == before + {id} && stack == below + [id] && id !in before
      requires (forall x :: x in before <==> x in below) && forall i :: 0 <= i < |g[id]| ==> g[id][i] in visited
      modifies this
      ensures Valid() && visiting == before && stack == below && visited == old(visited) + {id}
    {
      hide Consistent;
      Leaving(g, before, visited, finished, below, id);
      assert (before + {id}) - {id} == before && (below + [id])[..|below|] == below;
      visiting := visiting - {id};
      stack := stack[..|stack| - 1];
      visited := visited + {id};
      finished := finished + [id];
    }
  }

  lemma DependencyIsKnown(g: Graph, id: Id, i: nat)
    requires AllKnown(g) && id in g && i < |g[id]|
    ensures g[id][i] in g && Edge(g, id, g[id][i])
  {
  }

  lemma FewerLeft(all: set<Id>, before: set<Id>, id: Id)
    requires id in all && id !in before
    ensures |all - (before + {id})| < |all - before|
  {
    assert all - before == (all - (before + {id})) + {id};
  }

  lemma ExtendsPath(g: Graph, stack: seq<Id>, id: Id)
    requires IsPath(g, stack) && (stack != [] ==> Edge(g, stack[|stack| - 1], id))
    ensures IsPath(g, stack + [id])
  {
    var longer := stack + [id];
    forall i | 0 < i < |longer|
      ensures Edge(g, longer[i - 1], longer[i])
    {
      assert i < |stack| ==> Edge(g, stack[i - 1], stack[i]);
    }
  }

  lemma ClosesACycle(g: Graph, stack: seq<Id>, id: Id)
    requires IsPath(g, stack) && id in stack && Edge(g, stack[|stack| - 1], id)
    ensures Cyclic(g)
  {
    ExtendsPath(g, stack, id);
    var longer := stack + [id];
    var k :| 0 <= k < |stack| && stack[k] == id;
    var cycle := longer[k..];
    forall i | 0 < i < |cycle|
      ensures Edge(g, cycle[i - 1], cycle[i])
    {
      assert cycle[i - 1] == longer[k + i - 1] && cycle[i] == longer[k + i];
    }
    assert IsCycle(g, cycle);
  }

  /** Every module of a list is known. */
  method Known(values: seq<Id>, allowed: set<Id>) returns (ok: bool)
    ensures ok <==> forall i :: 0 <= i < |values| ==> values[i] in allowed
  {
    for i := 0 to |values|
      invariant forall k :: 0 <= k < i ==> values[k] in allowed
    {
      if values[i] !in allowed {
        return false;
      }
    }
    return true;
  }

  /** The whole check, in any order of the modules: it passes exactly when every dependency is known
      and no module depends on itself through others. */
  method CheckDependencies(g: Graph, order: seq<Id>) returns (ok: bool)
    requires forall id :: id in g <==> id in order
    ensures ok <==> AllKnown(g) && !Cyclic(g)
  {
    for i := 0 to |order|
      invariant forall k :: 0 <= k < i ==> forall j :: 0 <= j < |g[order[k]]| ==> g[order[k]][j] in g
    {
      ok := Known(g[order[i]], g.Keys);
      if !ok {
        assert order[i] in g;
        return false;
      }
    }
    assert AllKnown(g) by {
      forall id | id in g
        ensures forall j :: 0 <= j < |g[id]| ==> g[id][j] in g
      {
        var k :| 0 <= k < |order| && order[k] == id;
      }
    }
    var check := new DependencyCheck(g);
    for i := 0 to |order|
      invariant check.Valid() && check.g == g && check.stack == [] && fresh(check)
      invariant forall k :: 0 <= k < i ==> order[k] in check.visited
    {
      ok := check.Visit(order[i]);
      if !ok {
        return false;
      }
    }
    forall path | IsCycle(g, path)
      ensures false
    {
      assert Edge(g, path[0], path[1]);
      assert path[0] in check.finished[..|check.finished|];
      SortedHasNoCycle(g, check.finished, path, |check.finished|);
    }
    return true;
  }
}
