/** The release audit archive: every content once, and a manifest of the paths it came from. */
module Evidence {
  import opened Wrappers
  import Bytes
  import opened OrderedDict
  import opened TextOrder

  const MAX_FILES: nat := 4096
  const MAX_TOTAL_BYTES: nat := 0x8000_0000

  type Content = Bytes.Bytes

  type Digest = string

  type Hash = Content -> Digest

  datatype Entry = File(content: Content) | Folder | Link | Special

  /** The source: what lies at each path below it. */
  type Tree = map<string, Entry>

  datatype Intake = Intake(objects: Dict<Digest, Content>, paths: Dict<Digest, seq<string>>, total: nat, count: nat)

  // ---- reading the source ----

  function AddPath(paths: Dict<Digest, seq<string>>, digest: Digest, path: string): Dict<Digest, seq<string>> {
    match Find(paths, digest)
    case None => Put(paths, digest, [path])
    case Some(known) => Put(paths, digest, known + [path])
  }

  /** One file; refused beyond the limits, and when its digest already stands for other bytes. */
  function Taken(hash: Hash, s: Intake, path: string, content: Content): Result<Intake> {
    var total, count, digest := s.total + |content|, s.count + 1, hash(content);
    var previous := Find(s.objects, digest);
    if count > MAX_FILES || total > MAX_TOTAL_BYTES || (previous.Some? && previous.value != content) then Err
    else Ok(Intake(Put(s.objects, digest, content), AddPath(s.paths, digest, path), total, count))
  }

  /** The entries at `names`, in that order; `safe` accepts the paths of files. */
  function TakenAll(hash: Hash, safe: string -> bool, tree: Tree, s: Intake, names: seq<string>): Result<Intake>
    requires forall i | 0 <= i < |names| :: names[i] in tree
    decreases |names|
  {
    if names == [] then Ok(s)
    else
      match tree[names[0]]
      case Folder => TakenAll(hash, safe, tree, s, names[1..])
      case Link => Err
      case Special => Err
      case File(content) =>
        if !safe(names[0]) then Err
        else
          match Taken(hash, s, names[0], content)
          case Err => Err
          case Ok(next) => TakenAll(hash, safe, tree, next, names[1..])
  }

  const EMPTY: Intake := Intake([], [], 0, 0)

  predicate Enumerates(names: seq<string>, tree: Tree) {
    && (forall i | 0 <= i < |names| :: names[i] in tree)
    && (forall path | path in tree :: path in names)
    && forall i, j | 0 <= i < j < |names| :: names[i] != names[j]
  }

  /** Sorting the names keeps them in the tree. */
  lemma SortedInTree(names: seq<string>, tree: Tree)
    requires forall i | 0 <= i < |names| :: names[i] in tree
    ensures forall i | 0 <= i < |SortNames(names)| :: SortNames(names)[i] in tree
  {
    SortSorts(names);
    forall i | 0 <= i < |SortNames(names)|
      ensures SortNames(names)[i] in tree
    {
      assert SortNames(names)[i] in multiset(names);
      assert SortNames(names)[i] in names;
    }
  }

  /** What the enumeration `names` of the source gives: read in name order, and refused when it has no file. */
  function SourceRead(hash: Hash, safe: string -> bool, tree: Tree, names: seq<string>): Result<Intake>
    requires Enumerates(names, tree)
  {
    SortedInTree(names, tree);
    match TakenAll(hash, safe, tree, EMPTY, SortNames(names))
    case Err => Err
    case Ok(s) => if s.objects == [] then Err else Ok(s)
  }

  method ReadSource(hash: Hash, safe: string -> bool, tree: Tree, names: seq<string>) returns (r: Result<Intake>)
    requires Enumerates(names, tree)
    ensures r == SourceRead(hash, safe, tree, names)
  {
    SortedInTree(names, tree);
    var sorted := SortNames(names);
    var objects: Dict<Digest, Content>, paths: Dict<Digest, seq<string>>, total: nat, count: nat := [], [], 0, 0;
    for i := 0 to |sorted|
      invariant TakenAll(hash, safe, tree, EMPTY, sorted)
             == TakenAll(hash, safe, tree, Intake(objects, paths, total, count), sorted[i..])
    {
      var path := sorted[i];
      assert sorted[i..][1..] == sorted[i + 1..];
      match tree[path] {
        case Folder =>
        case Link => return Err;
        case Special => return Err;
        case File(content) =>
          if !safe(path) {
            return Err;
          }
          total := total + |content|;
          count := count + 1;
          if count > MAX_FILES || total > MAX_TOTAL_BYTES {
            return Err;
          }
          var digest := hash(content);
          var previous := Find(objects, digest);
          if previous.Some? && previous.value != content {
            return Err;
          }
          objects := Put(objects, digest, content);
          paths := AddPath(paths, digest, path);
      }
    }
    if objects == [] {
      return Err;
    }
    return Ok(Intake(objects, paths, total, count));
  }

  // ---- writing the bundle ----

  /** The part of a path after its last slash. */
  function Leaf(path: string): string {
    if path == "" then "" else if '/' !in path then path else Leaf(path[1..])
  }

  predicate SameLeaf(paths: seq<string>) {
    forall i | 0 <= i < |paths| :: Leaf(paths[i]) == Leaf(paths[0])
  }

  /** Stored under the digest, by its own name if all its paths end in one name. */
  function ObjectName(digest: Digest, paths: seq<string>): string {
    "objects/" + digest + "/" + if paths != [] && SameLeaf(paths) then Leaf(paths[0]) else "content.bin"
  }

  datatype Described = Described(bytes: nat, sha256: Digest, sourcePaths: seq<string>, storedPath: string)

  /** The stored contents by name, and the manifest. */
  datatype Bundle = Bundle(stored: map<string, Content>, manifest: seq<Described>)

  function PathsOf(s: Intake, digest: Digest): seq<string> {
    match Find(s.paths, digest)
    case None => []
    case Some(paths) => paths
  }

  function ContentOf(s: Intake, digest: Digest): Content {
    match Find(s.objects, digest)
    case None => []
    case Some(content) => content
  }

  function Describe(s: Intake, digest: Digest): Described {
    Described(|ContentOf(s, digest)|, digest, SortNames(PathsOf(s, digest)), ObjectName(digest, PathsOf(s, digest)))
  }

  function Added(b: Bundle, s: Intake, digest: Digest): Bundle {
    Bundle(b.stored[ObjectName(digest, PathsOf(s, digest)) := ContentOf(s, digest)], b.manifest + [Describe(s, digest)])
  }

  function AddedAll(b: Bundle, s: Intake, digests: seq<Digest>): Bundle
    decreases |digests|
  {
    if digests == [] then b else AddedAll(Added(b, s, digests[0]), s, digests[1..])
  }

  function Digests(s: Intake): (digests: seq<Digest>)
    ensures |digests| == |s.objects| && forall i | 0 <= i < |digests| :: digests[i] == s.objects[i].0
  {
    seq(|s.objects|, i requires 0 <= i < |s.objects| => s.objects[i].0)
  }

  function Bundled(s: Intake): Bundle {
    AddedAll(Bundle(map[], []), s, SortNames(Digests(s)))
  }

  predicate IsRevision(revision: string) {
    revision != "" && forall i | 0 <= i < |revision| :: revision[i] in "0123456789abcdefABCDEF"
  }

  method WriteBundle(s: Intake, outputExists: bool, revision: string) returns (r: Result<Bundle>)
    ensures r.Ok? <==> !outputExists && revision != "" && forall i | 0 <= i < |revision| :: revision[i] in "0123456789abcdefABCDEF"
    ensures r.Ok? ==> r.value == Bundled(s)
  {
    if outputExists || !IsRevision(revision) {
      return Err;
    }
    var digests := SortNames(Digests(s));
    var stored: map<string, Content>, manifest: seq<Described> := map[], [];
    for i := 0 to |digests|
      invariant Bundled(s) == AddedAll(Bundle(stored, manifest), s, digests[i..])
    {
      assert digests[i..][1..] == digests[i + 1..];
      var name := ObjectName(digests[i], PathsOf(s, digests[i]));
      stored := stored[name := ContentOf(s, digests[i])];
      manifest := manifest + [Describe(s, digests[i])];
    }
    return Ok(Bundle(stored, manifest));
  }
}
