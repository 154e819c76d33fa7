/** The packages a root depends on, found with a worklist. */
module Worklist {
  import opened Wrappers

  type Id = string

  /** What each resolved package depends on. */
  type Graph = map<Id, seq<Id>>

  datatype Package = Package(name: string, external: bool)

  const FACADE := "into-markdown"

  // ---- reachability ----

  predicate Edge(graph: Graph, a: Id, b: Id) {
    a in graph && b in graph[a]
  }

  predicate IsPath(graph: Graph, path: seq<Id>) {
    path != [] && forall i | 0 <= i < |path| - 1 :: Edge(graph, path[i], path[i + 1])
  }

  predicate Joins(graph: Graph, path: seq<Id>, a: Id, b: Id) {
    IsPath(graph, path) && path[0] == a && path[|path| - 1] == b
  }

  ghost predicate Reachable(graph: Graph, a: Id, b: Id) {
    exists path :: Joins(graph, path, a, b)
  }

  lemma ReachesItself(graph: Graph, a: Id)
    ensures Reachable(graph, a, a)
  {
    assert Joins(graph, [a], a, a);
  }

  lemma ReachesNext(graph: Graph, a: Id, b: Id, c: Id)
    requires Reachable(graph, a, b) && Edge(graph, b, c)
    ensures Reachable(graph, a, c)
  {
    var path :| Joins(graph, path, a, b);
    assert Joins(graph, path + [c], a, c);
  }

  /** A set that holds the start of a path and is closed under edges holds its end. */
  lemma {:induction false} ClosedHolds(graph: Graph, s: set<Id>, path: seq<Id>)
    requires IsPath(graph, path) && path[0] in s
    requires forall a, b | a in s && Edge(graph, a, b) :: b in s
    ensures path[|path| - 1] in s
    decreases |path|
  {
    if |path| > 1 {
      assert Edge(graph, path[0], path[1]);
      var rest := path[1..];
      forall i | 0 <= i < |rest| - 1
        ensures Edge(graph, rest[i], rest[i + 1])
      {
        assert Edge(graph, path[i + 1], path[i + 2]);
      }
      ClosedHolds(graph, s, rest);
    }
  }

  // ---- the worklist ----

  /** Everything found or pending is reachable, and every edge from what is found leads to such a package. */
  ghost predicate Explored(graph: Graph, root: Id, reachable: set<Id>, pending: seq<Id>) {
    && reachable <= graph.Keys
    && (root in reachable || root in pending)
    && (forall id | id in reachable || id in pending :: Reachable(graph, root, id))
    && forall a, b | a in reachable && Edge(graph, a, b) :: b in reachable || b in pending
  }

  /** The packages found are exactly those reachable from the root, however often one is pending; the search
      fails exactly when a reachable package is not resolved. */
  method Reach(graph: Graph, root: Id) returns (r: Result<set<Id>>)
    ensures r.Ok? ==> forall id :: id in r.value <==> Reachable(graph, root, id)
    ensures r.Ok? <==> forall id | Reachable(graph, root, id) :: id in graph
  {
    var reachable: set<Id>, pending := {}, [root];
    ReachesItself(graph, root);
    while pending != []
      invariant Explored(graph, root, reachable, pending)
      decreases graph.Keys - reachable, |pending|
    {
      var id := pending[|pending| - 1];
      ghost var before := pending;
      pending := pending[..|pending| - 1];
      assert before == pending + [id];
      if id in reachable {
        continue;
      }
      if id !in graph {
        return Err;
      }
      forall b | b in graph[id]
        ensures Reachable(graph, root, b)
      {
        ReachesNext(graph, root, id, b);
      }
      reachable := reachable + {id};
      pending := pending + graph[id];
    }
    forall id | Reachable(graph, root, id)
      ensures id in reachable
    {
      var path :| Joins(graph, path, root, id);
      ClosedHolds(graph, reachable, path);
    }
    return Ok(reachable);
  }

  /** The packages of the facade's name. */
  function Roots(packages: map<Id, Package>): set<Id> {
    set id | id in packages && packages[id].name == FACADE
  }

  /** `root` is the one facade, and everything it reaches is resolved and known. */
  ghost predicate Resolves(packages: map<Id, Package>, graph: Graph, root: Id) {
    Roots(packages) == {root} && forall id | Reachable(graph, root, id) :: id in graph && id in packages
  }

  /** The local packages that `root` reaches. */
  ghost predicate LocalOf(packages: map<Id, Package>, graph: Graph, root: Id, found: set<Id>) {
    forall id :: id in found <==> Reachable(graph, root, id) && id in packages && !packages[id].external
  }

  /** The local packages the facade depends on; refused unless there is one facade and all it reaches is known. */
  method LocalPackages(packages: map<Id, Package>, graph: Graph) returns (r: Result<set<Id>>)
    ensures r.Ok? <==> exists root :: Resolves(packages, graph, root)
    ensures r.Ok? ==> exists root :: Resolves(packages, graph, root) && LocalOf(packages, graph, root, r.value)
  {
    var roots := Roots(packages);
    if |roots| != 1 {
      NotOne(roots);
      return Err;
    }
    One(roots);
    var root :| root in roots;
    assert roots == {root};
    var found := Reach(graph, root);
    if found.Err? {
      return Err;
    }
    if !(found.value <= packages.Keys) {
      return Err;
    }
    assert Resolves(packages, graph, root);
    return Ok(set id | id in found.value && !packages[id].external);
  }

  lemma One(s: set<Id>)
    requires |s| == 1
    ensures forall x | x in s :: s == {x}
    ensures exists x :: x in s
    ensures forall x, y | x in s && y in s :: x == y
  {
    forall x | x in s
      ensures s == {x}
    {
      var rest := s - {x};
      assert |rest| == 0;
      assert s == rest + {x};
    }
    assert s != {};
  }

  lemma NotOne(s: set<Id>)
    requires |s| != 1
    ensures forall x :: s != {x}
  {
  }
}
