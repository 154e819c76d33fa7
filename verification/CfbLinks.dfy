/** The links of a compound file's directory, and the walk that follows them
    ([MS-CFB] section 2.6.4: here every sibling tree is a list along `right`). */
module CfbLinks {
  import opened CfbChains
  import opened CfbDirectory
  import opened TextOrder

  predicate IsChild(dir: seq<Node>, p: nat, j: nat)
    requires p < |dir| && j < |dir|
  {
    && dir[p].data.None? && |dir[j].path| == |dir[p].path| + 1
    && dir[j].path[..|dir[j].path| - 1] == dir[p].path
  }

  /** The entries from `from` on that lie directly below entry `p`. */
  function Children(dir: seq<Node>, p: nat, from: nat): (found: seq<nat>)
    requires p < |dir|
    ensures forall k | 0 <= k < |found| :: from <= found[k] < |dir| && IsChild(dir, p, found[k])
    ensures forall k, l | 0 <= k < l < |found| :: found[k] < found[l]
    decreases |dir| - from
  {
    if from >= |dir| then []
    else if IsChild(dir, p, from) then [from] + Children(dir, p, from + 1)
    else Children(dir, p, from + 1)
  }

  function Head(found: seq<nat>): int {
    if found == [] then FREE else found[0]
  }

  function ChildLink(dir: seq<Node>, p: nat): int
    requires p < |dir|
  {
    Head(Children(dir, p, 0))
  }

  /** The storage from `p` on that holds entry `j`, or `|dir|`. */
  function Parent(dir: seq<Node>, j: nat, p: nat): (q: nat)
    requires j < |dir| && p <= |dir|
    ensures p <= q <= |dir| && (q < |dir| ==> IsChild(dir, q, j))
    ensures forall o | p <= o < q :: !IsChild(dir, o, j)
    decreases |dir| - p
  {
    if p == |dir| || IsChild(dir, p, j) then p else Parent(dir, j, p + 1)
  }

  function RightLink(dir: seq<Node>, j: nat): int
    requires j < |dir|
  {
    var p := Parent(dir, j, 0);
    if p == |dir| then FREE else Head(Children(dir, p, j + 1))
  }

  // ---- filling in the links ----

  function LastName(node: Node): string {
    if node.path == [] then "" else node.path[|node.path| - 1]
  }

  /** A stable insertion by last name. */
  function InsertByName(dir: seq<Node>, c: nat, sorted: seq<nat>): (all: seq<nat>)
    requires c < |dir| && forall k | 0 <= k < |sorted| :: sorted[k] < |dir|
    ensures forall k | 0 <= k < |all| :: all[k] < |dir|
  {
    if sorted == [] || !StringLess(LastName(dir[sorted[0]]), LastName(dir[c])) then [c] + sorted
    else [sorted[0]] + InsertByName(dir, c, sorted[1..])
  }

  function SortByName(dir: seq<Node>, found: seq<nat>): (sorted: seq<nat>)
    requires forall k | 0 <= k < |found| :: found[k] < |dir|
    ensures forall k | 0 <= k < |sorted| :: sorted[k] < |dir|
  {
    if found == [] then [] else InsertByName(dir, found[0], SortByName(dir, found[1..]))
  }

  lemma {:induction false} TupleLast(a: Path, b: Path)
    requires |a| == |b| > 0 && a[..|a| - 1] == b[..|b| - 1]
    ensures TupleLess(a, b) <==> StringLess(a[|a| - 1], b[|b| - 1])
  {
    if |a| == 1 {
      StringOrder(a[0], b[0]);
    } else {
      assert a[0] == a[..|a| - 1][0] == b[0];
      StringOrder(a[0], b[0]);
      assert a[1..][..|a| - 2] == a[..|a| - 1][1..] && b[1..][..|b| - 2] == b[..|b| - 1][1..];
      TupleLast(a[1..], b[1..]);
    }
  }

  /** In a directory in order, the children of a storage are found in name order. */
  lemma SiblingsByName(dir: seq<Node>, p: nat, a: nat, b: nat)
    requires Ordered(dir) && p < |dir| && a < b < |dir| && IsChild(dir, p, a) && IsChild(dir, p, b)
    ensures StringLess(LastName(dir[a]), LastName(dir[b]))
  {
    assert Before(dir[a].path, dir[b].path);
    TupleLast(dir[a].path, dir[b].path);
  }

  lemma {:induction false} ChildrenSorted(dir: seq<Node>, p: nat, found: seq<nat>)
    requires Ordered(dir) && p < |dir|
    requires forall k | 0 <= k < |found| :: found[k] < |dir| && IsChild(dir, p, found[k])
    requires forall k, l | 0 <= k < l < |found| :: found[k] < found[l]
    ensures SortByName(dir, found) == found
  {
    if found != [] {
      ChildrenSorted(dir, p, found[1..]);
      if |found| > 1 {
        SiblingsByName(dir, p, found[0], found[1]);
        StringOrder(LastName(dir[found[0]]), LastName(dir[found[1]]));
      }
      assert found == [found[0]] + found[1..];
    }
  }

  /** The children after the `k`-th one, when the scan reaches them from any point before it. */
  lemma {:induction false} ChildrenAfter(dir: seq<Node>, p: nat, from: nat, k: nat)
    requires p < |dir| && k < |Children(dir, p, from)|
    ensures Children(dir, p, Children(dir, p, from)[k] + 1) == Children(dir, p, from)[k + 1..]
    decreases |dir| - from
  {
    if !IsChild(dir, p, from) {
      ChildrenAfter(dir, p, from + 1, k);
    } else if k > 0 {
      ChildrenAfter(dir, p, from + 1, k - 1);
    }
  }

  lemma {:induction false} ChildrenAll(dir: seq<Node>, p: nat, from: nat, c: nat)
    requires p < |dir| && from <= c < |dir| && IsChild(dir, p, c)
    ensures c in Children(dir, p, from)
    decreases |dir| - from
  {
    if from < c {
      ChildrenAll(dir, p, from + 1, c);
    }
  }

  lemma OneParent(dir: seq<Node>, p: nat, j: nat)
    requires Ordered(dir) && p < |dir| && j < |dir| && IsChild(dir, p, j)
    ensures Parent(dir, j, 0) == p
  {
    var q := Parent(dir, j, 0);
    BeforeOrder(dir[q].path, dir[p].path);
  }

  /** The right links once the storages before `parent` are done. */
  function RightSoFar(dir: seq<Node>, j: nat, parent: nat): int
    requires j < |dir|
  {
    if Parent(dir, j, 0) < parent then RightLink(dir, j) else FREE
  }

  method Link(dir: seq<Node>) returns (child: seq<int>, right: seq<int>)
    requires Ordered(dir)
    ensures |child| == |right| == |dir|
    ensures forall p | 0 <= p < |dir| :: child[p] == ChildLink(dir, p)
    ensures forall j | 0 <= j < |dir| :: right[j] == RightLink(dir, j)
  {
    child, right := seq(|dir|, _ => FREE), seq(|dir|, _ => FREE);
    for parent := 0 to |dir|
      invariant |child| == |right| == |dir|
      invariant forall p | 0 <= p < |dir| :: child[p] == if p < parent then ChildLink(dir, p) else FREE
      invariant forall j | 0 <= j < |dir| :: right[j] == RightSoFar(dir, j, parent)
    {
      if dir[parent].data.None? {
        var children := FindChildren(dir, parent);
        if children != [] {
          child := child[parent := children[0]];
          var linked := LinkSiblings(children, right);
          LinkedSiblings(dir, parent, right, linked);
          right := linked;
        }
      }
      NextParent(dir, parent);
    }
  }

  /** `found` are the children before `index`. */
  ghost predicate Found(dir: seq<Node>, parent: nat, index: nat, found: seq<nat>)
    requires parent < |dir|
  {
    Children(dir, parent, 0) == found + Children(dir, parent, index)
  }

  lemma NextChild(dir: seq<Node>, parent: nat, index: nat, before: seq<nat>)
    requires parent < |dir| && index < |dir| && Found(dir, parent, index, before)
    ensures Found(dir, parent, index + 1, if IsChild(dir, parent, index) then before + [index] else before)
  {
    if IsChild(dir, parent, index) {
      var rest := Children(dir, parent, index + 1);
      assert before + ([index] + rest) == before + [index] + rest;
    }
  }

  lemma NoMoreChildren(dir: seq<Node>, parent: nat, found: seq<nat>)
    requires parent < |dir| && Found(dir, parent, |dir|, found)
    ensures found == Children(dir, parent, 0)
  {
  }

  method ListChildren(dir: seq<Node>, parent: nat) returns (children: seq<nat>)
    requires parent < |dir|
    ensures children == Children(dir, parent, 0)
  {
    children := [];
    for index := 0 to |dir|
      invariant Found(dir, parent, index, children)
    {
      NextChild(dir, parent, index, children);
      if IsChild(dir, parent, index) {
        children := children + [index];
      }
    }
    NoMoreChildren(dir, parent, children);
  }

  method FindChildren(dir: seq<Node>, parent: nat) returns (children: seq<nat>)
    requires Ordered(dir) && parent < |dir|
    ensures children == Children(dir, parent, 0)
  {
    children := ListChildren(dir, parent);
    ChildrenSorted(dir, parent, children);
    children := SortByName(dir, children);
  }

  lemma NextParent(dir: seq<Node>, parent: nat)
    requires Ordered(dir) && parent < |dir|
    ensures forall j | 0 <= j < |dir| ::
      RightSoFar(dir, j, parent + 1) == if j in Children(dir, parent, 0) then RightLink(dir, j) else RightSoFar(dir, j, parent)
    ensures dir[parent].data.Some? ==> Children(dir, parent, 0) == []
  {
    assert Children(dir, parent, 0) == [] || IsChild(dir, parent, Children(dir, parent, 0)[0]);
    forall j | 0 <= j < |dir|
      ensures j in Children(dir, parent, 0) <==> Parent(dir, j, 0) == parent
    {
      if Parent(dir, j, 0) == parent {
        ChildrenAll(dir, parent, 0, j);
      } else if j in Children(dir, parent, 0) {
        OneParent(dir, parent, j);
      }
    }
  }

  /** Each child but the last points at the next one. */
  method LinkSiblings(children: seq<nat>, before: seq<int>) returns (right: seq<int>)
    requires children != [] && forall k | 0 <= k < |children| :: children[k] < |before|
    requires forall k, l | 0 <= k < l < |children| :: children[k] < children[l]
    ensures |right| == |before|
    ensures forall k | 0 <= k < |children| - 1 :: right[children[k]] == children[k + 1]
    ensures forall j | 0 <= j < |before| && j !in children[..|children| - 1] ::
      right[j] == before[j]
  {
    right := before;
    var k := 0;
    while k + 1 < |children|
      invariant 0 <= k && k < |children|
      invariant |right| == |before|
      invariant forall l | 0 <= l < k < |children| :: right[children[l]] == children[l + 1]
      invariant forall j | 0 <= j < |before| && (forall l | 0 <= l < k < |children| :: j != children[l]) ::
        right[j] == before[j]
    {
      right := right[children[k] := children[k + 1]];
      k := k + 1;
    }
  }

  lemma SiblingLinks(dir: seq<Node>, parent: nat)
    requires Ordered(dir) && parent < |dir|
    ensures forall j | j in Children(dir, parent, 0) :: RightSoFar(dir, j, parent) == FREE
    ensures forall k | 0 <= k < |Children(dir, parent, 0)| ::
      RightLink(dir, Children(dir, parent, 0)[k]) == Head(Children(dir, parent, 0)[k + 1..])
  {
    var children := Children(dir, parent, 0);
    forall k | 0 <= k < |children|
      ensures RightSoFar(dir, children[k], parent) == FREE
      ensures RightLink(dir, children[k]) == Head(children[k + 1..])
    {
      SiblingLink(dir, parent, k);
    }
  }

  lemma SiblingLink(dir: seq<Node>, parent: nat, k: nat)
    requires Ordered(dir) && parent < |dir| && k < |Children(dir, parent, 0)|
    ensures RightSoFar(dir, Children(dir, parent, 0)[k], parent) == FREE
    ensures RightLink(dir, Children(dir, parent, 0)[k]) == Head(Children(dir, parent, 0)[k + 1..])
  {
    OneParent(dir, parent, Children(dir, parent, 0)[k]);
    ChildrenAfter(dir, parent, 0, k);
  }

  lemma LinkedSiblings(dir: seq<Node>, parent: nat, before: seq<int>, right: seq<int>)
    requires Ordered(dir) && parent < |dir| == |before| == |right|
    requires forall j | 0 <= j < |dir| :: before[j] == RightSoFar(dir, j, parent)
    requires forall k | 0 <= k < |Children(dir, parent, 0)| - 1 ::
      right[Children(dir, parent, 0)[k]] == Children(dir, parent, 0)[k + 1]
    requires Children(dir, parent, 0) != []
    requires forall j | 0 <= j < |dir| && j !in Children(dir, parent, 0)[..|Children(dir, parent, 0)| - 1] ::
      right[j] == before[j]
    ensures forall j | 0 <= j < |dir| :: right[j] == RightSoFar(dir, j, parent + 1)
  {
    var children := Children(dir, parent, 0);
    SiblingLinks(dir, parent);
    NextParent(dir, parent);
    forall j | 0 <= j < |dir| && j in children
      ensures right[j] == RightLink(dir, j)
    {
      var k :| 0 <= k < |children| && children[k] == j;
      if k + 1 == |children| {
        assert forall l | 0 <= l < k :: children[l] < children[k];
        assert j !in children[..k];
      }
    }
  }
}
