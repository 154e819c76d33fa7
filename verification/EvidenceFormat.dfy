/** When a source is taken in, and what every entry of the manifest says. */
module EvidenceFormat {
  import opened Wrappers
  import opened OrderedDict
  import opened TextOrder
  import opened Evidence
  import opened EvidenceTheorems

  // ---- when a source is refused ----

  function FileCount(tree: Tree, names: seq<string>): nat
    requires forall i | 0 <= i < |names| :: names[i] in tree
  {
    if names == [] then 0 else (if tree[names[0]].File? then 1 else 0) + FileCount(tree, names[1..])
  }

  function FileBytes(tree: Tree, names: seq<string>): nat
    requires forall i | 0 <= i < |names| :: names[i] in tree
  {
    if names == [] then 0 else (if tree[names[0]].File? then |tree[names[0]].content| else 0) + FileBytes(tree, names[1..])
  }

  /** Nothing but folders and files, the files at safe paths. */
  predicate AllPlain(safe: string -> bool, tree: Tree, names: seq<string>)
    requires forall i | 0 <= i < |names| :: names[i] in tree
  {
    forall i | 0 <= i < |names| ::
      !tree[names[i]].Link? && !tree[names[i]].Special? && (tree[names[i]].File? ==> safe(names[i]))
  }

  /** No two files of different bytes have one digest. */
  predicate NoCollision(hash: Hash, tree: Tree, names: seq<string>)
    requires forall i | 0 <= i < |names| :: names[i] in tree
  {
    forall i, j | 0 <= i < |names| && 0 <= j < |names| && tree[names[i]].File? && tree[names[j]].File? ::
      hash(tree[names[i]].content) == hash(tree[names[j]].content) ==> tree[names[i]].content == tree[names[j]].content
  }

  /** What is held already does not clash with the files to come. */
  ghost predicate NoClash(hash: Hash, tree: Tree, objects: Dict<Digest, Content>, names: seq<string>)
    requires forall i | 0 <= i < |names| :: names[i] in tree
  {
    forall i | 0 <= i < |names| && tree[names[i]].File? ::
      var known := Find(objects, hash(tree[names[i]].content));
      known.Some? ==> known.value == tree[names[i]].content
  }

  ghost predicate Acceptable(hash: Hash, safe: string -> bool, tree: Tree, s: Intake, names: seq<string>)
    requires forall i | 0 <= i < |names| :: names[i] in tree
  {
    && AllPlain(safe, tree, names) && NoCollision(hash, tree, names) && NoClash(hash, tree, s.objects, names)
    && s.count + FileCount(tree, names) <= 4096 && s.total + FileBytes(tree, names) <= 0x8000_0000
  }

  lemma ClashFirst(hash: Hash, tree: Tree, objects: Dict<Digest, Content>, names: seq<string>, content: Content)
    requires names != [] && forall i | 0 <= i < |names| :: names[i] in tree
    requires tree[names[0]] == File(content)
    ensures NoCollision(hash, tree, names) && NoClash(hash, tree, objects, names)
       <==> (Find(objects, hash(content)).Some? ==> Find(objects, hash(content)).value == content)
            && NoCollision(hash, tree, names[1..]) && NoClash(hash, tree, Put(objects, hash(content), content), names[1..])
  {
    var rest := names[1..];
    assert forall i | 0 < i < |names| :: names[i] == rest[i - 1];
    assert forall i | 0 <= i < |rest| :: rest[i] == names[i + 1];
    forall other
      ensures Find(Put(objects, hash(content), content), other) == if other == hash(content) then Some(content) else Find(objects, other)
    {
      FindPut(objects, hash(content), content, other);
    }
  }

  lemma PassFolder(hash: Hash, safe: string -> bool, tree: Tree, s: Intake, names: seq<string>)
    requires names != [] && (forall i | 0 <= i < |names| :: names[i] in tree) && tree[names[0]].Folder?
    ensures Acceptable(hash, safe, tree, s, names) <==> Acceptable(hash, safe, tree, s, names[1..])
  {
    var rest := names[1..];
    assert forall i | 0 < i < |names| :: names[i] == rest[i - 1];
    assert forall i | 0 <= i < |rest| :: rest[i] == names[i + 1];
  }

  lemma PassFile(hash: Hash, safe: string -> bool, tree: Tree, s: Intake, names: seq<string>, content: Content)
    requires names != [] && (forall i | 0 <= i < |names| :: names[i] in tree) && tree[names[0]] == File(content)
    requires safe(names[0])
    ensures Acceptable(hash, safe, tree, s, names)
       <==> Taken(hash, s, names[0], content).Ok? && Acceptable(hash, safe, tree, Taken(hash, s, names[0], content).value, names[1..])
  {
    var rest := names[1..];
    assert forall i | 0 < i < |names| :: names[i] == rest[i - 1];
    assert forall i | 0 <= i < |rest| :: rest[i] == names[i + 1];
    ClashFirst(hash, tree, s.objects, names, content);
    assert AllPlain(safe, tree, names) <==> AllPlain(safe, tree, rest);
  }

  lemma {:induction false} TakenExactly(hash: Hash, safe: string -> bool, tree: Tree, s: Intake, names: seq<string>)
    requires forall i | 0 <= i < |names| :: names[i] in tree
    requires s.count <= 4096 && s.total <= 0x8000_0000
    ensures TakenAll(hash, safe, tree, s, names).Ok? <==> Acceptable(hash, safe, tree, s, names)
    decreases |names|
  {
    if names != [] {
      match tree[names[0]]
      case Folder =>
        PassFolder(hash, safe, tree, s, names);
        TakenExactly(hash, safe, tree, s, names[1..]);
      case Link =>
      case Special =>
      case File(content) =>
        if safe(names[0]) {
          PassFile(hash, safe, tree, s, names, content);
          if Taken(hash, s, names[0], content).Ok? {
            TakenExactly(hash, safe, tree, Taken(hash, s, names[0], content).value, names[1..]);
          }
        }
    }
  }

  lemma {:induction false} TakenObjects(hash: Hash, safe: string -> bool, tree: Tree, s: Intake, names: seq<string>)
    requires (forall i | 0 <= i < |names| :: names[i] in tree) && TakenAll(hash, safe, tree, s, names).Ok?
    ensures TakenAll(hash, safe, tree, s, names).value.objects == [] <==> s.objects == [] && FileCount(tree, names) == 0
    decreases |names|
  {
    if names != [] {
      match tree[names[0]]
      case Folder => TakenObjects(hash, safe, tree, s, names[1..]);
      case File(content) =>
        FindPut(s.objects, hash(content), content, hash(content));
        TakenObjects(hash, safe, tree, Taken(hash, s, names[0], content).value, names[1..]);
      case _ =>
    }
  }

  /** The files are few and small enough, at safe paths, at least one, and nothing else but folders is there; and no
      two different files have one digest. */
  ghost predicate AcceptedTree(hash: Hash, safe: string -> bool, tree: Tree, names: seq<string>)
    requires forall i | 0 <= i < |names| :: names[i] in tree
  {
    && (forall path | path in tree :: !tree[path].Link? && !tree[path].Special?)
    && (forall path | path in tree && tree[path].File? :: safe(path))
    && (forall a, b | a in tree && b in tree && tree[a].File? && tree[b].File? ::
          hash(tree[a].content) == hash(tree[b].content) ==> tree[a].content == tree[b].content)
    && 0 < FileCount(tree, names) <= 4096 && FileBytes(tree, names) <= 0x8000_0000
  }

  lemma PlainTree(safe: string -> bool, tree: Tree, names: seq<string>)
    requires (forall i | 0 <= i < |names| :: names[i] in tree) && forall path | path in tree :: path in names
    ensures AllPlain(safe, tree, names)
       <==> (forall path | path in tree :: !tree[path].Link? && !tree[path].Special?)
            && forall path | path in tree && tree[path].File? :: safe(path)
  {
    if AllPlain(safe, tree, names) {
      forall path | path in tree
        ensures !tree[path].Link? && !tree[path].Special? && (tree[path].File? ==> safe(path))
      {
        var i :| 0 <= i < |names| && names[i] == path;
      }
    }
  }

  lemma CollisionFreeTree(hash: Hash, tree: Tree, names: seq<string>)
    requires (forall i | 0 <= i < |names| :: names[i] in tree) && forall path | path in tree :: path in names
    ensures NoCollision(hash, tree, names)
       <==> forall a, b | a in tree && b in tree && tree[a].File? && tree[b].File? ::
              hash(tree[a].content) == hash(tree[b].content) ==> tree[a].content == tree[b].content
  {
    if NoCollision(hash, tree, names) {
      forall a, b | a in tree && b in tree && tree[a].File? && tree[b].File?
        ensures hash(tree[a].content) == hash(tree[b].content) ==> tree[a].content == tree[b].content
      {
        var i :| 0 <= i < |names| && names[i] == a;
        var j :| 0 <= j < |names| && names[j] == b;
      }
    }
  }

  /** A source is refused exactly when it is not such a tree. */
  lemma SourceAcceptedExactly(hash: Hash, safe: string -> bool, tree: Tree, names: seq<string>)
    requires Enumerates(names, tree)
    ensures SourceRead(hash, safe, tree, names).Ok? <==> AcceptedTree(hash, safe, tree, names)
  {
    var sorted := SortNames(names);
    SortedInTree(names, tree);
    SortSorts(names);
    forall path | path in tree
      ensures path in sorted
    {
      assert path in multiset(names);
      assert path in multiset(sorted);
    }
    TakenExactly(hash, safe, tree, EMPTY, sorted);
    PlainTree(safe, tree, sorted);
    CollisionFreeTree(hash, tree, sorted);
    CountsPermuted(tree, names, sorted);
    assert NoClash(hash, tree, [], sorted);
    if TakenAll(hash, safe, tree, EMPTY, sorted).Ok? {
      TakenObjects(hash, safe, tree, EMPTY, sorted);
    }
  }

  lemma {:induction false} CountsJoin(tree: Tree, a: seq<string>, b: seq<string>)
    requires forall i | 0 <= i < |a + b| :: (a + b)[i] in tree
    requires (forall i | 0 <= i < |a| :: a[i] in tree) && forall i | 0 <= i < |b| :: b[i] in tree
    ensures FileCount(tree, a + b) == FileCount(tree, a) + FileCount(tree, b)
    ensures FileBytes(tree, a + b) == FileBytes(tree, a) + FileBytes(tree, b)
  {
    if a == [] {
      assert a + b == b;
    } else {
      assert (a + b)[1..] == a[1..] + b;
      CountsJoin(tree, a[1..], b);
    }
  }

  lemma {:induction false} CountsPermuted(tree: Tree, a: seq<string>, b: seq<string>)
    requires (forall i | 0 <= i < |a| :: a[i] in tree) && forall i | 0 <= i < |b| :: b[i] in tree
    requires multiset(a) == multiset(b)
    ensures FileCount(tree, a) == FileCount(tree, b) && FileBytes(tree, a) == FileBytes(tree, b)
    decreases |a|
  {
    if a == [] {
      assert |multiset(b)| == |b|;
    } else {
      var j := FoundFirst(a, b);
      var x, y, one := b[..j], b[j + 1..], [b[j]];
      CountsPermuted(tree, a[1..], x + y);
      CountsJoin(tree, x, y);
      CountsJoin(tree, x, one);
      CountsJoin(tree, x + one, y);
      assert one[1..] == [];
      assert FileCount(tree, one) == FileCount(tree, [a[0]]) && FileBytes(tree, one) == FileBytes(tree, [a[0]]);
    }
  }

  // ---- the manifest ----

  /** `name` is the last component of `path`. */
  ghost predicate EndsIn(path: string, name: string) {
    '/' !in name && (path == name || exists folder :: path == folder + "/" + name)
  }

  lemma {:induction false} LeafExactly(path: string, name: string)
    ensures EndsIn(path, name) <==> name == Leaf(path)
  {
    if path != "" && '/' in path {
      var rest := path[1..];
      LeafExactly(rest, name);
      if EndsIn(path, name) {
        var folder :| path == folder + "/" + name;
        if folder == "" {
          assert rest == name;
        } else {
          assert rest == folder[1..] + "/" + name;
        }
      }
      if EndsIn(rest, name) {
        if rest == name {
          assert path[0] == '/' && path == "" + "/" + name;
        } else {
          var folder :| rest == folder + "/" + name;
          assert path == path[..1] + folder + "/" + name;
        }
      }
    } else if path != "" {
      forall folder
        ensures path != folder + "/" + name
      {
        assert (folder + "/" + name)[|folder|] == '/';
      }
    }
  }

  ghost predicate AllEndIn(paths: seq<string>, name: string) {
    forall i | 0 <= i < |paths| :: EndsIn(paths[i], name)
  }

  lemma ObjectNameExactly(digest: Digest, paths: seq<string>, listed: seq<string>)
    requires paths != [] && forall path :: path in paths <==> path in listed
    ensures forall name | AllEndIn(listed, name) :: ObjectName(digest, paths) == "objects/" + digest + "/" + name
    ensures (forall name :: !AllEndIn(listed, name)) ==> ObjectName(digest, paths) == "objects/" + digest + "/content.bin"
  {
    assert paths[0] in listed;
    forall i | 0 <= i < |listed|
      ensures exists j | 0 <= j < |paths| :: paths[j] == listed[i]
    {
      assert listed[i] in paths;
    }
    forall name
      ensures AllEndIn(listed, name) <==> SameLeaf(paths) && name == Leaf(paths[0])
    {
      forall path
        ensures EndsIn(path, name) <==> name == Leaf(path)
      {
        LeafExactly(path, name);
      }
      if AllEndIn(listed, name) {
        forall i | 0 <= i < |paths|
          ensures Leaf(paths[i]) == name
        {
          assert paths[i] in listed;
        }
      }
    }
    assert SameLeaf(paths) ==> AllEndIn(listed, Leaf(paths[0]));
  }

  lemma {:induction false} OnlyListed(b: Bundle, s: Intake, digests: seq<Digest>, name: string)
    requires name in AddedAll(b, s, digests).stored
    ensures name in b.stored || exists i | 0 <= i < |digests| :: name == ObjectName(digests[i], PathsOf(s, digests[i]))
    decreases |digests|
  {
    if digests != [] {
      OnlyListed(Added(b, s, digests[0]), s, digests[1..], name);
      assert forall i | 0 <= i < |digests[1..]| :: digests[1..][i] == digests[i + 1];
    }
  }

  /** An entry says the digest and the size of what is stored for it, its paths in order, and the name: the last
      component of the paths where they agree on it. */
  ghost predicate Told(hash: Hash, b: Bundle, e: Described) {
    && e.storedPath in b.stored && hash(b.stored[e.storedPath]) == e.sha256 && |b.stored[e.storedPath]| == e.bytes
    && e.sourcePaths != [] && Sorted(e.sourcePaths)
    && (forall name | AllEndIn(e.sourcePaths, name) :: e.storedPath == "objects/" + e.sha256 + "/" + name)
    && ((forall name :: !AllEndIn(e.sourcePaths, name)) ==> e.storedPath == "objects/" + e.sha256 + "/content.bin")
  }

  lemma EntryTold(hash: Hash, tree: Tree, s: Intake, names: seq<string>, i: nat)
    requires Filed(hash, tree, s, names) && SlashFree(hash) && i < |Bundled(s).manifest|
    ensures Told(hash, Bundled(s), Bundled(s).manifest[i])
  {
    BundleListed(s);
    BundleEntries(hash, tree, s, names, i);
    var digest := SortNames(Digests(s))[i];
    var paths := PathsOf(s, digest);
    SortSorts(paths);
    ObjectNameExactly(digest, paths, Bundled(s).manifest[i].sourcePaths);
  }

  /** Every entry of the manifest is as told, the entries are in the order of their digests, and nothing is stored
      without an entry. */
  lemma ManifestTold(hash: Hash, safe: string -> bool, tree: Tree, names: seq<string>)
    requires Enumerates(names, tree) && SlashFree(hash) && SourceRead(hash, safe, tree, names).Ok?
    ensures var b := Bundled(SourceRead(hash, safe, tree, names).value);
      && (forall i | 0 <= i < |b.manifest| :: Told(hash, b, b.manifest[i]))
      && (forall i, j | 0 <= i < j < |b.manifest| :: StringLess(b.manifest[i].sha256, b.manifest[j].sha256))
      && forall name | name in b.stored :: exists i | 0 <= i < |b.manifest| :: b.manifest[i].storedPath == name
  {
    var s := SourceRead(hash, safe, tree, names).value;
    var digests, b := SortNames(Digests(s)), Bundled(s);
    SourceFiled(hash, safe, tree, names);
    DigestsPlain(hash, tree, s, names);
    BundleListed(s);
    SortSorts(Digests(s));
    forall i | 0 <= i < |b.manifest|
      ensures Told(hash, b, b.manifest[i])
    {
      EntryTold(hash, tree, s, names, i);
    }
    forall i, j | 0 <= i < j < |b.manifest|
      ensures StringLess(b.manifest[i].sha256, b.manifest[j].sha256)
    {
      StringOrder(digests[i], digests[j]);
    }
    forall name | name in b.stored
      ensures exists i | 0 <= i < |b.manifest| :: b.manifest[i].storedPath == name
    {
      OnlyListed(Bundle(map[], []), s, digests, name);
      var i :| 0 <= i < |digests| && name == ObjectName(digests[i], PathsOf(s, digests[i]));
      assert b.manifest[i].storedPath == name;
    }
  }
}
