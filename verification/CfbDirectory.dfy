/** The directory of a compound file: paths in order, and the links between their entries. */
module CfbDirectory {
  import opened Wrappers
  import opened Bytes
  import opened TextOrder

  type Path = seq<string>

  /** A storage has no data; a stream has some, possibly empty. */
  datatype Node = Node(path: Path, data: Option<Bytes>)

  // ---- the order of paths ----

  predicate TupleLess(a: Path, b: Path) {
    b != [] && (a == [] || StringLess(a[0], b[0]) || (a[0] == b[0] && TupleLess(a[1..], b[1..])))
  }

  /** Shorter paths first, paths of one length in tuple order. */
  predicate Before(a: Path, b: Path) {
    |a| < |b| || (|a| == |b| && TupleLess(a, b))
  }

  lemma {:induction false} TupleOrder(a: Path, b: Path)
    ensures !(TupleLess(a, b) && TupleLess(b, a))
    ensures TupleLess(a, b) || a == b || TupleLess(b, a)
    ensures a == b ==> !TupleLess(a, b)
  {
    if a != [] && b != [] {
      StringOrder(a[0], b[0]);
      TupleOrder(a[1..], b[1..]);
      assert a[0] == b[0] && a[1..] == b[1..] ==> a == [b[0]] + b[1..] == b;
    }
  }

  lemma {:induction false} TupleTransitive(a: Path, b: Path, c: Path)
    requires TupleLess(a, b) && TupleLess(b, c)
    ensures TupleLess(a, c)
  {
    if a != [] {
      StringOrder(a[0], b[0]);
      StringOrder(b[0], c[0]);
      if StringLess(a[0], b[0]) && StringLess(b[0], c[0]) {
        StringTransitive(a[0], b[0], c[0]);
      } else if a[0] == b[0] == c[0] {
        TupleTransitive(a[1..], b[1..], c[1..]);
      }
    }
  }

  lemma BeforeOrder(a: Path, b: Path)
    ensures !(Before(a, b) && Before(b, a))
    ensures Before(a, b) || a == b || Before(b, a)
    ensures a == b ==> !Before(a, b)
  {
    TupleOrder(a, b);
  }

  lemma BeforeTransitive(a: Path, b: Path, c: Path)
    requires Before(a, b) && Before(b, c)
    ensures Before(a, c)
  {
    if |a| == |b| == |c| {
      TupleTransitive(a, b, c);
    }
  }

  predicate Ordered(dir: seq<Node>) {
    forall i, j | 0 <= i < j < |dir| :: Before(dir[i].path, dir[j].path)
  }

  // ---- the dictionary of paths ----

  predicate HasPath(nodes: seq<Node>, path: Path) {
    exists i | 0 <= i < |nodes| :: nodes[i].path == path
  }

  predicate Distinct(nodes: seq<Node>) {
    forall i, j | 0 <= i < j < |nodes| :: nodes[i].path != nodes[j].path
  }

  function SetDefault(nodes: seq<Node>, path: Path): seq<Node> {
    if HasPath(nodes, path) then nodes else nodes + [Node(path, None)]
  }

  /** Every proper ancestor of `path` shorter than `length` becomes a storage if it is missing. */
  function SetAncestors(nodes: seq<Node>, path: Path, length: nat): seq<Node>
    requires length <= |path|
  {
    if length <= 1 then nodes
    else SetDefault(SetAncestors(nodes, path, length - 1), path[..length - 1])
  }

  type Entry = (Path, Option<Bytes>)

  function AddEntry(nodes: seq<Node>, entry: Entry): Result<seq<Node>> {
    var more := SetAncestors(nodes, entry.0, |entry.0|);
    if HasPath(more, entry.0) then Err else Ok(more + [Node(entry.0, entry.1)])
  }

  function AddAll(nodes: seq<Node>, entries: seq<Entry>): Result<seq<Node>>
    decreases |entries|
  {
    if entries == [] then Ok(nodes)
    else
      match AddEntry(nodes, entries[0])
      case Err => Err
      case Ok(more) => AddAll(more, entries[1..])
  }

  const ROOT: Node := Node([], None)

  function Insert(node: Node, sorted: seq<Node>): seq<Node> {
    if sorted == [] || Before(node.path, sorted[0].path) then [node] + sorted
    else [sorted[0]] + Insert(node, sorted[1..])
  }

  function Sort(nodes: seq<Node>): seq<Node> {
    if nodes == [] then [] else Insert(nodes[0], Sort(nodes[1..]))
  }

  lemma {:induction false} InsertKeeps(node: Node, sorted: seq<Node>)
    requires Ordered(sorted) && !HasPath(sorted, node.path)
    ensures Ordered(Insert(node, sorted))
    ensures multiset(Insert(node, sorted)) == multiset(sorted) + multiset{node}
  {
    if sorted == [] {
    } else if Before(node.path, sorted[0].path) {
      forall j | 1 <= j < |sorted|
        ensures Before(node.path, sorted[j].path)
      {
        BeforeTransitive(node.path, sorted[0].path, sorted[j].path);
      }
    } else {
      assert sorted == [sorted[0]] + sorted[1..];
      assert forall i | 0 <= i < |sorted[1..]| :: sorted[1..][i] == sorted[i + 1];
      InsertKeeps(node, sorted[1..]);
      InsertedAfter(node, sorted, Insert(node, sorted[1..]));
    }
  }

  lemma InsertedAfter(node: Node, sorted: seq<Node>, rest: seq<Node>)
    requires Ordered(sorted) && sorted != [] && !HasPath(sorted, node.path) && !Before(node.path, sorted[0].path)
    requires multiset(rest) == multiset(sorted[1..]) + multiset{node}
    ensures forall j | 0 <= j < |rest| :: Before(sorted[0].path, rest[j].path)
  {
    BeforeOrder(node.path, sorted[0].path);
    forall j | 0 <= j < |rest|
      ensures Before(sorted[0].path, rest[j].path)
    {
      assert rest[j] in multiset(sorted[1..]) + multiset{node};
      assert rest[j] == node || rest[j] in sorted[1..];
    }
  }

  lemma SamePaths(a: seq<Node>, b: seq<Node>, path: Path)
    requires multiset(a) == multiset(b) && HasPath(a, path)
    ensures HasPath(b, path)
  {
    var i :| 0 <= i < |a| && a[i].path == path;
    assert a[i] in multiset(b);
    assert a[i] in b;
  }

  lemma {:induction false} SortSorts(nodes: seq<Node>)
    requires Distinct(nodes)
    ensures Ordered(Sort(nodes)) && multiset(Sort(nodes)) == multiset(nodes)
  {
    if nodes != [] {
      assert nodes == [nodes[0]] + nodes[1..];
      SortSorts(nodes[1..]);
      assert !HasPath(Sort(nodes[1..]), nodes[0].path) by {
        if HasPath(Sort(nodes[1..]), nodes[0].path) {
          SamePaths(Sort(nodes[1..]), nodes[1..], nodes[0].path);
          assert false;
        }
      }
      InsertKeeps(nodes[0], Sort(nodes[1..]));
    }
  }

  // ---- what the dictionary holds ----

  /** `path` is the root, or some entry lies at or below it. */
  ghost predicate Known(entries: seq<Entry>, path: Path) {
    path == [] || exists k | 0 <= k < |entries| :: path <= entries[k].0
  }

  /** Some entry's path is already known from the entries before it. */
  ghost predicate Clash(done: seq<Entry>, entries: seq<Entry>) {
    exists k | 0 <= k < |entries| :: Known(done + entries[..k], entries[k].0)
  }

  /** `nodes` are the entries and the storages above them, each once. */
  ghost predicate Holds(nodes: seq<Node>, entries: seq<Entry>) {
    && Distinct(nodes) && ROOT in nodes
    && (forall path :: HasPath(nodes, path) <==> Known(entries, path))
    && (forall e | e in entries :: Node(e.0, e.1) in nodes)
    && (forall n | n in nodes && n.data.Some? :: (n.path, n.data) in entries)
  }

  ghost predicate HoldsIfOk(r: Result<seq<Node>>, entries: seq<Entry>) {
    r.Ok? ==> Holds(r.value, entries)
  }

  lemma HasPathAppend(nodes: seq<Node>, node: Node, path: Path)
    ensures HasPath(nodes + [node], path) <==> HasPath(nodes, path) || node.path == path
  {
    if HasPath(nodes, path) {
      var i :| 0 <= i < |nodes| && nodes[i].path == path;
      assert (nodes + [node])[i].path == path;
    } else if node.path == path {
      assert (nodes + [node])[|nodes|].path == path;
    }
  }

  lemma {:induction false} AncestorsHold(nodes: seq<Node>, path: Path, length: nat)
    requires length <= |path| && Distinct(nodes)
    ensures Distinct(SetAncestors(nodes, path, length)) && nodes <= SetAncestors(nodes, path, length)
    ensures forall n | n in SetAncestors(nodes, path, length) :: n in nodes || n.data == None
    ensures forall p :: HasPath(SetAncestors(nodes, path, length), p)
                   <==> HasPath(nodes, p) || (1 <= |p| < length && p <= path)
  {
    if length > 1 {
      AncestorsHold(nodes, path, length - 1);
      var before, above := SetAncestors(nodes, path, length - 1), path[..length - 1];
      forall p
        ensures HasPath(SetDefault(before, above), p) <==> HasPath(nodes, p) || (1 <= |p| < length && p <= path)
      {
        HasPathAppend(before, Node(above, None), p);
      }
    }
  }

  lemma KnownAppend(entries: seq<Entry>, entry: Entry, path: Path)
    ensures Known(entries + [entry], path) <==> Known(entries, path) || path <= entry.0
  {
    var all := entries + [entry];
    if Known(entries, path) && path != [] {
      var k :| 0 <= k < |entries| && path <= entries[k].0;
      assert path <= all[k].0;
    } else if path <= entry.0 {
      assert path <= all[|entries|].0;
    }
  }

  lemma AddEntryHolds(nodes: seq<Node>, done: seq<Entry>, entry: Entry)
    requires Holds(nodes, done)
    ensures AddEntry(nodes, entry).Err? <==> Known(done, entry.0)
    ensures HoldsIfOk(AddEntry(nodes, entry), done + [entry])
  {
    AncestorsHold(nodes, entry.0, |entry.0|);
    var more := SetAncestors(nodes, entry.0, |entry.0|);
    if AddEntry(nodes, entry).Ok? {
      var all := more + [Node(entry.0, entry.1)];
      forall path
        ensures HasPath(all, path) <==> Known(done + [entry], path)
      {
        HasPathAppend(more, Node(entry.0, entry.1), path);
        KnownAppend(done, entry, path);
        assert path <= entry.0 && |path| == |entry.0| ==> path == entry.0;
      }
      assert forall n | n in all :: n in more || n == Node(entry.0, entry.1);
      assert all[|more|] == Node(entry.0, entry.1);
    }
  }

  lemma ClashFirst(done: seq<Entry>, entries: seq<Entry>)
    requires entries != []
    ensures Clash(done, entries) <==> Known(done, entries[0].0) || Clash(done + [entries[0]], entries[1..])
  {
    var next, rest := done + [entries[0]], entries[1..];
    assert done + entries[..0] == done;
    assert forall k | 1 <= k <= |entries| :: next + rest[..k - 1] == done + entries[..k];
    if Clash(done, entries) {
      var k :| 0 <= k < |entries| && Known(done + entries[..k], entries[k].0);
      assert k == 0 || Known(next + rest[..k - 1], rest[k - 1].0);
    }
    if Clash(next, rest) {
      var k :| 0 <= k < |rest| && Known(next + rest[..k], rest[k].0);
      assert Known(done + entries[..k + 1], entries[k + 1].0);
    }
  }

  lemma {:induction false} AddAllHolds(nodes: seq<Node>, done: seq<Entry>, entries: seq<Entry>)
    requires Holds(nodes, done)
    ensures AddAll(nodes, entries).Err? <==> Clash(done, entries)
    ensures HoldsIfOk(AddAll(nodes, entries), done + entries)
    decreases |entries|
  {
    if entries == [] {
      assert done + entries == done;
    } else {
      AddEntryHolds(nodes, done, entries[0]);
      ClashFirst(done, entries);
      match AddEntry(nodes, entries[0]) {
        case Err =>
        case Ok(more) =>
          AddAllHolds(more, done + [entries[0]], entries[1..]);
          assert done + [entries[0]] + entries[1..] == done + entries;
      }
    }
  }

  // ---- the directory ----

  /** The entries and their storages in directory order. */
  function Directory(entries: seq<Entry>): Result<seq<Node>> {
    match AddAll([ROOT], entries)
    case Err => Err
    case Ok(nodes) => Ok(Sort(nodes))
  }

  /** In order, the root first, and every other path below a path that is present. */
  ghost predicate IsDirectory(dir: seq<Node>) {
    && Ordered(dir) && dir != [] && dir[0] == ROOT
    && forall i | 0 <= i < |dir| :: ParentPresent(dir, i)
  }

  predicate ParentPresent(dir: seq<Node>, i: nat)
    requires i < |dir|
  {
    dir[i].path != [] ==> HasPath(dir, dir[i].path[..|dir[i].path| - 1])
  }

  lemma OrderedDistinct(dir: seq<Node>)
    requires Ordered(dir)
    ensures Distinct(dir)
  {
    forall i, j | 0 <= i < j < |dir|
      ensures dir[i].path != dir[j].path
    {
      BeforeOrder(dir[i].path, dir[j].path);
    }
  }

  lemma ParentKnown(entries: seq<Entry>, path: Path)
    requires Known(entries, path) && path != []
    ensures Known(entries, path[..|path| - 1])
  {
    var k :| 0 <= k < |entries| && path <= entries[k].0;
    assert path[..|path| - 1] <= entries[k].0;
  }

  /** The directory is refused exactly when two paths clash; otherwise it holds the entries, the
      storages above them and the root, each once and in order. */
  lemma DirectoryHolds(entries: seq<Entry>)
    ensures Directory(entries).Err? <==> Clash([], entries)
    ensures Directory(entries).Ok? ==> IsDirectory(Directory(entries).value) && Holds(Directory(entries).value, entries)
  {
    assert ROOT in [ROOT] && HasPath([ROOT], []);
    AddAllHolds([ROOT], [], entries);
    assert [] + entries == entries;
    if AddAll([ROOT], entries).Ok? {
      SortedHolds(AddAll([ROOT], entries).value, entries);
    }
  }

  lemma SortedHolds(nodes: seq<Node>, entries: seq<Entry>)
    requires Holds(nodes, entries)
    ensures IsDirectory(Sort(nodes)) && Holds(Sort(nodes), entries)
  {
    var dir := Sort(nodes);
    SortSorts(nodes);
    OrderedDistinct(dir);
    assert forall n :: n in dir <==> n in multiset(dir);
    assert forall n :: n in nodes <==> n in multiset(nodes);
    forall path
      ensures HasPath(dir, path) <==> Known(entries, path)
    {
      if HasPath(dir, path) {
        SamePaths(dir, nodes, path);
      } else if HasPath(nodes, path) {
        SamePaths(nodes, dir, path);
      }
    }
    forall i | 0 <= i < |dir|
      ensures ParentPresent(dir, i)
    {
      assert HasPath(dir, dir[i].path);
      if dir[i].path != [] {
        ParentKnown(entries, dir[i].path);
      }
    }
    RootFirst(dir);
  }

  lemma RootFirst(dir: seq<Node>)
    requires Ordered(dir) && ROOT in dir
    ensures dir[0] == ROOT
  {
    var i :| 0 <= i < |dir| && dir[i] == ROOT;
    assert i == 0 || Before(dir[0].path, dir[i].path);
  }

  /** The dictionary is filled entry by entry, each entry after the storages above it. */
  method Collect(entries: seq<Entry>) returns (r: Result<seq<Node>>)
    ensures r == Directory(entries)
  {
    var paths := [ROOT];
    for k := 0 to |entries|
      invariant AddAll([ROOT], entries) == AddAll(paths, entries[k..])
    {
      var path, data := entries[k].0, entries[k].1;
      ghost var before := paths;
      var length := 1;
      while length < |path|
        invariant |path| <= 1 || length <= |path|
        invariant paths == SetAncestors(before, path, if |path| <= 1 then |path| else length)
      {
        if !HasPath(paths, path[..length]) {
          paths := paths + [Node(path[..length], None)];
        }
        length := length + 1;
      }
      assert entries[k..][1..] == entries[k + 1..];
      if HasPath(paths, path) {
        return Err;
      }
      paths := paths + [Node(path, data)];
    }
    return Ok(Sort(paths));
  }
}
