/** Following `child` and `right` from the root of a compound file's directory. */
module CfbWalk {
  import opened Wrappers
  import opened CfbChains
  import opened CfbDirectory
  import opened CfbLinks
  import opened TextOrder

  // ---- the walk over entries as they are stored ----

  /** A stored directory entry. */
  datatype Record = Record(name: string, kind: int, left: int, right: int, child: int, start: int, size: nat)

  type Visit = (nat, Path)

  /** The entries of the sibling tree rooted at `id` and of everything below them, each with its path:
      left siblings, the entry itself, the entries below it, right siblings. `None` when a link leaves
      the directory or the walk is deeper than `fuel`. */
  function Walk(records: seq<Record>, id: int, prefix: Path, fuel: nat): Option<seq<Visit>>
    decreases fuel
  {
    if id == FREE then Some([])
    else if fuel == 0 || id < 0 || id >= |records| then None
    else
      var path := prefix + [records[id].name];
      match Walk(records, records[id].left, prefix, fuel - 1)
      case None => None
      case Some(left) =>
        match Walk(records, records[id].child, path, fuel - 1)
        case None => None
        case Some(below) =>
          match Walk(records, records[id].right, prefix, fuel - 1)
          case None => None
          case Some(right) => Some(left + [(id as nat, path)] + below + right)
  }

  // ---- what the walk visits ----

  /** The first child of `p` from index `from` on. */
  lemma FirstChild(dir: seq<Node>, p: nat, from: nat)
    requires Ordered(dir) && p < |dir| <= FREE
    ensures Children(dir, p, from) == [] ==> forall k | from <= k < |dir| :: !IsChild(dir, p, k)
    ensures Children(dir, p, from) != [] ==>
      forall k | from <= k < Children(dir, p, from)[0] :: !IsChild(dir, p, k)
  {
    forall k | from <= k < |dir| && IsChild(dir, p, k)
      ensures k in Children(dir, p, from)
    {
      ChildrenAll(dir, p, from, k);
    }
  }

  lemma ChildAfter(dir: seq<Node>, p: nat, k: nat)
    requires Ordered(dir) && p < |dir| && k < |dir| && IsChild(dir, p, k)
    ensures p < k
  {
    BeforeOrder(dir[k].path, dir[p].path);
  }

  /** The head of the list of children. */
  lemma FirstOf(dir: seq<Node>, p: nat, from: nat) returns (h: nat)
    requires Ordered(dir) && p < |dir| <= FREE && Children(dir, p, from) != []
    ensures h == Children(dir, p, from)[0] && p < h < |dir| && from <= h && IsChild(dir, p, h)
    ensures forall k | from <= k < h :: !IsChild(dir, p, k)
  {
    h := Children(dir, p, from)[0];
    FirstChild(dir, p, from);
    ChildAfter(dir, p, h);
  }

  lemma FirstIsChild(dir: seq<Node>, p: nat, from: nat) returns (h: nat)
    requires Ordered(dir) && p < |dir| && Children(dir, p, from) != []
    ensures h == Children(dir, p, from)[0] && p < h < |dir| && from <= h && IsChild(dir, p, h)
  {
    h := Children(dir, p, from)[0];
    ChildAfter(dir, p, h);
  }

  lemma ForestOf(dir: seq<Node>, p: nat, from: nat, h: nat)
    requires Ordered(dir) && p < |dir| <= FREE && Children(dir, p, from) != [] && h == Children(dir, p, from)[0]
    ensures p < h < |dir| && Forest(dir, p, from) == [h] + Forest(dir, h, 0) + Forest(dir, p, h + 1)
  {
    ChildAfter(dir, p, h);
    assert Forest(dir, p, from) == [h] + Forest(dir, h, 0) + Forest(dir, p, h + 1);
  }

  lemma RightOf(dir: seq<Node>, p: nat, h: nat)
    requires Ordered(dir) && p < |dir| <= FREE && h < |dir| && IsChild(dir, p, h)
    ensures RightLink(dir, h) == Head(Children(dir, p, h + 1))
  {
    OneParent(dir, p, h);
  }

  predicate Within(visited: seq<nat>, bound: nat) {
    forall i | i in visited :: i < bound
  }

  lemma WithinJoin(h: nat, below: seq<nat>, right: seq<nat>, bound: nat)
    requires h < bound && Within(below, bound) && Within(right, bound)
    ensures Within([h] + below + right, bound)
  {
  }

  /** The indices a walk visits that starts at the first child of `p` from index `from` on. */
  function Forest(dir: seq<Node>, p: nat, from: nat): (visited: seq<nat>)
    requires Ordered(dir) && p < |dir|
    ensures Within(visited, |dir|)
    decreases |dir| - p, |dir| - from
  {
    var found := Children(dir, p, from);
    if found == [] then []
    else
      var h := found[0];
      ChildAfter(dir, p, h);
      WithinJoin(h, Forest(dir, h, 0), Forest(dir, p, h + 1), |dir|);
      [h] + Forest(dir, h, 0) + Forest(dir, p, h + 1)
  }

  /** `i` is `k` or lies below it, and everything between them is a storage. */
  predicate Reaches(dir: seq<Node>, k: nat, i: nat)
    requires k < |dir| && i < |dir|
  {
    && dir[k].path <= dir[i].path
    && forall m | 0 <= m < |dir| && |dir[k].path| <= |dir[m].path| < |dir[i].path| && dir[m].path <= dir[i].path ::
         dir[m].data.None?
  }

  ghost predicate InForest(dir: seq<Node>, p: nat, from: nat, i: nat)
    requires p < |dir| && i < |dir|
  {
    exists k | from <= k < |dir| :: IsChild(dir, p, k) && Reaches(dir, k, i)
  }

  lemma {:induction false} AncestorPresent(dir: seq<Node>, i: nat, length: nat) returns (k: nat)
    requires IsDirectory(dir) && i < |dir| && length <= |dir[i].path|
    ensures k < |dir| && dir[k].path == dir[i].path[..length]
    decreases |dir[i].path| - length
  {
    if length == |dir[i].path| {
      k := i;
    } else {
      var m := AncestorPresent(dir, i, length + 1);
      assert ParentPresent(dir, m);
      k :| 0 <= k < |dir| && dir[k].path == dir[m].path[..length];
    }
  }

  lemma ReachedBelow(dir: seq<Node>, h: nat, k: nat, i: nat)
    requires Ordered(dir) && h < |dir| && k < |dir| && i < |dir| && IsChild(dir, h, k) && Reaches(dir, k, i)
    ensures i != h && Reaches(dir, h, i)
  {
    forall m | 0 <= m < |dir| && |dir[h].path| <= |dir[m].path| < |dir[i].path| && dir[m].path <= dir[i].path
      ensures dir[m].data.None?
    {
      if |dir[m].path| == |dir[h].path| {
        assert dir[m].path == dir[i].path[..|dir[h].path|] == dir[h].path;
        OrderedDistinct(dir);
      }
    }
  }

  lemma ReachedThrough(dir: seq<Node>, h: nat, i: nat) returns (k: nat)
    requires IsDirectory(dir) && h < |dir| && i < |dir| && i != h && Reaches(dir, h, i)
    ensures k < |dir| && IsChild(dir, h, k) && Reaches(dir, k, i)
  {
    var length := |dir[h].path|;
    assert dir[i].path[..length] == dir[h].path;
    OrderedDistinct(dir);
    assert |dir[i].path| > length;
    k := AncestorPresent(dir, i, length + 1);
    assert dir[k].path[..length] == dir[i].path[..length];
  }

  /** What lies below `h` is what the forest of its children reaches. */
  lemma Below(dir: seq<Node>, h: nat, i: nat)
    requires IsDirectory(dir) && h < |dir| && i < |dir|
    ensures InForest(dir, h, 0, i) <==> i != h && Reaches(dir, h, i)
  {
    if InForest(dir, h, 0, i) {
      var k :| 0 <= k < |dir| && IsChild(dir, h, k) && Reaches(dir, k, i);
      ReachedBelow(dir, h, k, i);
    } else if i != h && Reaches(dir, h, i) {
      var k := ReachedThrough(dir, h, i);
    }
  }

  /** Two different children of one storage reach nothing in common. */
  lemma Apart(dir: seq<Node>, p: nat, k: nat, l: nat, i: nat)
    requires Ordered(dir) && p < |dir| && k < |dir| && l < |dir| && i < |dir|
    requires IsChild(dir, p, k) && IsChild(dir, p, l) && Reaches(dir, k, i) && Reaches(dir, l, i)
    ensures k == l
  {
    assert dir[k].path == dir[i].path[..|dir[k].path|] == dir[l].path;
    OrderedDistinct(dir);
  }

  /** `inside` tells where `i` lies: at a first child, below it, or to its right, and in one of these places only. */
  ghost predicate SplitsAt(dir: seq<Node>, p: nat, from: nat, i: nat, inside: (nat, nat) -> bool)
    requires p < |dir|
  {
    if Children(dir, p, from) == [] then !inside(p, from)
    else
      var h := Children(dir, p, from)[0];
      && (inside(p, from) <==> i == h || inside(h, 0) || inside(p, h + 1))
      && !(i == h && inside(h, 0)) && !(i == h && inside(p, h + 1)) && !(inside(h, 0) && inside(p, h + 1))
  }

  /** `visited` holds `i` once or not at all. */
  predicate Holds(visited: seq<nat>, i: nat, inside: bool) {
    (i in visited <==> inside) && multiset(visited)[i] <= 1
  }

  lemma HoldsJoin(h: nat, below: seq<nat>, right: seq<nat>, i: nat, a: bool, b: bool, all: seq<nat>, inside: bool)
    requires Holds(below, i, a) && Holds(right, i, b) && all == [h] + below + right
    requires inside == (i == h || a || b) && !(i == h && a) && !(i == h && b) && !(a && b)
    ensures Holds(all, i, inside)
  {
  }

  ghost predicate SplitsEverywhere(dir: seq<Node>, i: nat, inside: (nat, nat) -> bool) {
    forall p: nat, from: nat | p < |dir| :: SplitsAt(dir, p, from, i, inside)
  }

  lemma SplitJoins(dir: seq<Node>, p: nat, from: nat, i: nat, inside: (nat, nat) -> bool, h: nat, below: seq<nat>, right: seq<nat>)
    requires p < |dir| && SplitsEverywhere(dir, i, inside)
    requires Children(dir, p, from) != [] && h == Children(dir, p, from)[0]
    requires Holds(below, i, inside(h, 0)) && Holds(right, i, inside(p, h + 1))
    ensures Holds([h] + below + right, i, inside(p, from))
  {
    assert SplitsAt(dir, p, from, i, inside);
    HoldsJoin(h, below, right, i, inside(h, 0), inside(p, h + 1), [h] + below + right, inside(p, from));
  }

  lemma EmptySplit(dir: seq<Node>, p: nat, from: nat, i: nat, inside: (nat, nat) -> bool)
    requires p < |dir| && SplitsEverywhere(dir, i, inside) && Children(dir, p, from) == []
    ensures Holds([], i, inside(p, from))
  {
    assert SplitsAt(dir, p, from, i, inside);
  }

  lemma {:induction false} ForestHolds(dir: seq<Node>, p: nat, from: nat, i: nat, inside: (nat, nat) -> bool)
    requires Ordered(dir) && p < |dir| <= FREE && SplitsEverywhere(dir, i, inside)
    ensures Holds(Forest(dir, p, from), i, inside(p, from))
    decreases |dir| - p, |dir| - from
  {
    if Children(dir, p, from) == [] {
      EmptySplit(dir, p, from, i, inside);
    } else {
      var h := FirstIsChild(dir, p, from);
      ForestHolds(dir, h, 0, i, inside);
      ForestHolds(dir, p, h + 1, i, inside);
      SplitJoins(dir, p, from, i, inside, h, Forest(dir, h, 0), Forest(dir, p, h + 1));
      ForestOf(dir, p, from, h);
    }
  }

  ghost function Inside(dir: seq<Node>, i: nat): (nat, nat) -> bool
    requires i < |dir|
  {
    (p: nat, from: nat) => p < |dir| && InForest(dir, p, from, i)
  }

  lemma InsideSplits(dir: seq<Node>, p: nat, from: nat, i: nat)
    requires IsDirectory(dir) && p < |dir| <= FREE && i < |dir|
    ensures SplitsAt(dir, p, from, i, Inside(dir, i))
  {
    if Children(dir, p, from) == [] {
      FirstChild(dir, p, from);
    } else {
      var h := FirstOf(dir, p, from);
      Below(dir, h, i);
      ForestSplits(dir, p, from, h, i);
      ReachesItself(dir, i);
    }
  }

  lemma ReachesItself(dir: seq<Node>, i: nat)
    requires i < |dir|
    ensures Reaches(dir, i, i)
  {
  }

  /** The walk's indices are exactly those that lie below `p` from `from` on, each once. */
  lemma ForestVisits(dir: seq<Node>, p: nat, from: nat, i: nat)
    requires IsDirectory(dir) && p < |dir| <= FREE && i < |dir|
    ensures Holds(Forest(dir, p, from), i, InForest(dir, p, from, i))
  {
    forall q: nat, f: nat | q < |dir|
      ensures SplitsAt(dir, q, f, i, Inside(dir, i))
    {
      InsideSplits(dir, q, f, i);
    }
    ForestHolds(dir, p, from, i, Inside(dir, i));
  }

  lemma ForestSplits(dir: seq<Node>, p: nat, from: nat, h: nat, i: nat)
    requires Ordered(dir) && p < |dir| && from <= h < |dir| && i < |dir| && IsChild(dir, p, h)
    requires forall k | from <= k < h :: !IsChild(dir, p, k)
    ensures InForest(dir, p, from, i) <==> Reaches(dir, h, i) || InForest(dir, p, h + 1, i)
    ensures !(Reaches(dir, h, i) && InForest(dir, p, h + 1, i))
  {
    if Reaches(dir, h, i) && InForest(dir, p, h + 1, i) {
      var k :| h + 1 <= k < |dir| && IsChild(dir, p, k) && Reaches(dir, k, i);
      Apart(dir, p, h, k, i);
    }
  }

  /** A stream lies above `path`. */
  predicate Shadowed(dir: seq<Node>, path: Path) {
    exists m | 0 <= m < |dir| :: dir[m].data.Some? && dir[m].path < path
  }

  /** A walk from the root visits exactly the entries below it that no stream shadows, each once. */
  lemma RootVisits(dir: seq<Node>, i: nat)
    requires IsDirectory(dir) && |dir| <= FREE && i < |dir|
    ensures i in Forest(dir, 0, 0) <==> i != 0 && !Shadowed(dir, dir[i].path)
    ensures multiset(Forest(dir, 0, 0))[i] <= 1
  {
    ForestVisits(dir, 0, 0, i);
    Below(dir, 0, i);
  }

  /** A right link leads to the sibling with the next name. */
  lemma RightIsNextName(dir: seq<Node>, p: nat, j: nat)
    requires IsDirectory(dir) && p < |dir| <= FREE && j < |dir| && IsChild(dir, p, j)
    ensures RightLink(dir, j) == FREE ==>
      forall k | 0 <= k < |dir| && k != j && IsChild(dir, p, k) :: StringLess(LastName(dir[k]), LastName(dir[j]))
    ensures RightLink(dir, j) != FREE ==>
      var r := RightLink(dir, j);
      && 0 <= r < |dir| && IsChild(dir, p, r) && StringLess(LastName(dir[j]), LastName(dir[r]))
      && forall k | 0 <= k < |dir| && IsChild(dir, p, k) && k != j && k != r ::
           StringLess(LastName(dir[k]), LastName(dir[j])) || StringLess(LastName(dir[r]), LastName(dir[k]))
  {
    OneParent(dir, p, j);
    FirstChild(dir, p, j + 1);
    var r := RightLink(dir, j);
    if r != FREE {
      SiblingsByName(dir, p, j, r);
    }
    forall k | 0 <= k < |dir| && IsChild(dir, p, k) && k != j && k != r
      ensures StringLess(LastName(dir[k]), LastName(dir[j]))
           || (r != FREE && StringLess(LastName(dir[r]), LastName(dir[k])))
    {
      if k < j {
        SiblingsByName(dir, p, k, j);
      } else if r != FREE {
        SiblingsByName(dir, p, r, k);
      }
    }
  }

  // ---- the walk over the stored entries of a directory ----

  /** The first records hold the names and links of `dir`. */
  ghost predicate Stored(records: seq<Record>, dir: seq<Node>) {
    |dir| <= |records| && forall i | 0 <= i < |dir| :: StoredAt(records, dir, i)
  }

  predicate StoredAt(records: seq<Record>, dir: seq<Node>, i: nat)
    requires i < |dir| <= |records|
  {
    && (i > 0 ==> records[i].name == LastName(dir[i])) && records[i].left == FREE
    && records[i].child == ChildLink(dir, i) && records[i].right == RightLink(dir, i)
  }

  function Visits(dir: seq<Node>, visited: seq<nat>): seq<Visit>
    requires Within(visited, |dir|)
  {
    seq(|visited|, k requires 0 <= k < |visited| =>
      (var i := visited[k]; assert i in visited; (i, dir[i].path)))
  }

  lemma WalkStep(records: seq<Record>, h: nat, prefix: Path, fuel: nat, below: seq<Visit>, right: seq<Visit>)
    requires h < |records| && h != FREE && fuel > 0 && records[h].left == FREE
    requires Walk(records, records[h].child, prefix + [records[h].name], fuel - 1) == Some(below)
    requires Walk(records, records[h].right, prefix, fuel - 1) == Some(right)
    ensures Walk(records, h, prefix, fuel) == Some([(h, prefix + [records[h].name])] + below + right)
  {
    assert Walk(records, FREE, prefix, fuel - 1) == Some([]);
    assert [] + [(h, prefix + [records[h].name])] == [(h, prefix + [records[h].name])];
  }

  /** The walk from `id` visits the entries `visited`. */
  ghost predicate Walks(records: seq<Record>, dir: seq<Node>, id: int, prefix: Path, fuel: nat, visited: seq<nat>) {
    Within(visited, |dir|) && Walk(records, id, prefix, fuel) == Some(Visits(dir, visited))
  }

  lemma WalksJoin(records: seq<Record>, dir: seq<Node>, p: nat, h: nat, fuel: nat, below: seq<nat>, right: seq<nat>)
    requires Ordered(dir) && Stored(records, dir) && p < |dir| < FREE && h < |dir| && IsChild(dir, p, h) && fuel > 0
    requires p < h && Walks(records, dir, ChildLink(dir, h), dir[h].path, fuel - 1, below)
    requires Walks(records, dir, RightLink(dir, h), dir[p].path, fuel - 1, right)
    ensures Walks(records, dir, h, dir[p].path, fuel, [h] + below + right)
  {
    assert StoredAt(records, dir, h);
    assert dir[p].path + [records[h].name] == dir[h].path;
    WalkStep(records, h, dir[p].path, fuel, Visits(dir, below), Visits(dir, right));
    VisitsJoin(dir, h, below, right, [h] + below + right);
  }

  /** What holds of the forests below and to the right of a first child holds of the whole. */
  ghost predicate ForestStep(dir: seq<Node>, p: nat, from: nat, holds: (nat, nat) -> bool)
    requires Ordered(dir) && p < |dir|
  {
    if Children(dir, p, from) == [] then holds(p, from)
    else
      var h := Children(dir, p, from)[0];
      holds(h, 0) && holds(p, h + 1) ==> holds(p, from)
  }

  /** The induction along a walk. */
  lemma {:induction false} ForestInduction(dir: seq<Node>, p: nat, from: nat, holds: (nat, nat) -> bool)
    requires Ordered(dir) && p < |dir|
    requires forall q: nat, f: nat | q < |dir| :: ForestStep(dir, q, f, holds)
    ensures holds(p, from)
    decreases |dir| - p, |dir| - from
  {
    assert ForestStep(dir, p, from, holds);
    if Children(dir, p, from) != [] {
      var h := FirstIsChild(dir, p, from);
      ForestInduction(dir, h, 0, holds);
      ForestInduction(dir, p, h + 1, holds);
    }
  }

  /** A walk over the forest below `p` from `from` on never goes deeper than this. */
  predicate DeepEnough(dir: seq<Node>, p: nat, from: nat, fuel: nat) {
    fuel + p + 1 >= |dir| || fuel + from >= |dir|
  }

  /** The stored walk over the forest below `p` from `from` on visits it, provided it may go deep enough. */
  ghost predicate WalksAll(records: seq<Record>, dir: seq<Node>, p: nat, from: nat)
    requires Ordered(dir) && p < |dir|
  {
    forall fuel: nat | DeepEnough(dir, p, from, fuel) ::
      Walks(records, dir, Head(Children(dir, p, from)), dir[p].path, fuel, Forest(dir, p, from))
  }

  ghost function WalksFrom(records: seq<Record>, dir: seq<Node>): (nat, nat) -> bool
    requires Ordered(dir)
  {
    (p: nat, from: nat) => p < |dir| ==> WalksAll(records, dir, p, from)
  }

  lemma WalkJoins(records: seq<Record>, dir: seq<Node>, p: nat, from: nat, h: nat, fuel: nat)
    requires Ordered(dir) && p < h < |dir| < FREE && Stored(records, dir) && from <= h && IsChild(dir, p, h)
    requires WalksAll(records, dir, h, 0) && WalksAll(records, dir, p, h + 1) && DeepEnough(dir, p, from, fuel)
    ensures Walks(records, dir, h, dir[p].path, fuel, [h] + Forest(dir, h, 0) + Forest(dir, p, h + 1))
  {
    RightOf(dir, p, h);
    assert DeepEnough(dir, h, 0, fuel - 1) && DeepEnough(dir, p, h + 1, fuel - 1);
    WalksJoin(records, dir, p, h, fuel, Forest(dir, h, 0), Forest(dir, p, h + 1));
  }

  lemma WalkForestStep(records: seq<Record>, dir: seq<Node>, p: nat, from: nat)
    requires Ordered(dir) && p < |dir| < FREE && Stored(records, dir)
    ensures ForestStep(dir, p, from, WalksFrom(records, dir))
  {
    if Children(dir, p, from) == [] {
      assert Visits(dir, []) == [];
    } else {
      var h := FirstIsChild(dir, p, from);
      ForestOf(dir, p, from, h);
      forall fuel: nat | WalksAll(records, dir, h, 0) && WalksAll(records, dir, p, h + 1) && DeepEnough(dir, p, from, fuel)
        ensures Walks(records, dir, h, dir[p].path, fuel, Forest(dir, p, from))
      {
        WalkJoins(records, dir, p, from, h, fuel);
      }
    }
  }

  /** Following the stored links visits the forest. */
  lemma WalkForest(records: seq<Record>, dir: seq<Node>, p: nat, from: nat, fuel: nat)
    requires Ordered(dir) && p < |dir| < FREE && Stored(records, dir) && DeepEnough(dir, p, from, fuel)
    ensures Walks(records, dir, Head(Children(dir, p, from)), dir[p].path, fuel, Forest(dir, p, from))
  {
    forall q: nat, f: nat | q < |dir|
      ensures ForestStep(dir, q, f, WalksFrom(records, dir))
    {
      WalkForestStep(records, dir, q, f);
    }
    ForestInduction(dir, p, from, WalksFrom(records, dir));
  }

  lemma VisitsJoin(dir: seq<Node>, h: nat, below: seq<nat>, right: seq<nat>, all: seq<nat>)
    requires h < |dir| && Within(below, |dir|) && Within(right, |dir|)
    requires Within(all, |dir|) && all == [h] + below + right
    ensures Visits(dir, all) == [(h, dir[h].path)] + Visits(dir, below) + Visits(dir, right)
  {
  }
}
