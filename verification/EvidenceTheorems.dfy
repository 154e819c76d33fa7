/** The audit archive loses nothing, stores every content once, and does not depend on enumeration order. */
module EvidenceTheorems {
  import opened Wrappers
  import opened OrderedDict
  import opened TextOrder
  import opened Evidence

  // ---- what is taken in ----

  /** `path` is among the names and holds a file of the given digest. */
  ghost predicate HasDigest(hash: Hash, tree: Tree, names: seq<string>, path: string, digest: Digest) {
    path in names && path in tree && tree[path].File? && hash(tree[path].content) == digest
  }

  /** The files among `done`, each under its own digest. */
  ghost predicate Filed(hash: Hash, tree: Tree, s: Intake, done: seq<string>) {
    && Unique(s.objects)
    && (forall digest :: Find(s.objects, digest).Some? <==> PathsOf(s, digest) != [])
    && (forall digest | Find(s.objects, digest).Some? :: hash(ContentOf(s, digest)) == digest)
    && (forall digest, path :: path in PathsOf(s, digest) <==> HasDigest(hash, tree, done, path, digest))
    && (forall digest :: NoRepeat(PathsOf(s, digest)))
    && forall path | path in done && path in tree && tree[path].File? ::
         Find(s.objects, hash(tree[path].content)) == Some(tree[path].content)
  }

  lemma PathsAdded(s: Intake, digest: Digest, path: string, other: Digest)
    ensures PathsOf(s.(paths := AddPath(s.paths, digest, path)), other)
         == if other == digest then PathsOf(s, digest) + [path] else PathsOf(s, other)
  {
    match Find(s.paths, digest) {
      case None => FindPut(s.paths, digest, [path], other);
      case Some(known) => FindPut(s.paths, digest, known + [path], other);
    }
  }

  /** What taking a file changes. */
  lemma TakenFinds(hash: Hash, s: Intake, path: string, content: Content, other: Digest)
    requires Taken(hash, s, path, content).Ok?
    ensures var t, digest := Taken(hash, s, path, content).value, hash(content);
      && Find(t.objects, other) == (if other == digest then Some(content) else Find(s.objects, other))
      && PathsOf(t, other) == if other == digest then PathsOf(s, digest) + [path] else PathsOf(s, other)
  {
    FindPut(s.objects, hash(content), content, other);
    PathsAdded(s, hash(content), path, other);
  }

  lemma TakenFiled(hash: Hash, tree: Tree, s: Intake, done: seq<string>, path: string)
    requires Filed(hash, tree, s, done) && path in tree && tree[path].File? && path !in done
    requires Taken(hash, s, path, tree[path].content).Ok?
    ensures Filed(hash, tree, Taken(hash, s, path, tree[path].content).value, done + [path])
  {
    var content := tree[path].content;
    var digest := hash(content);
    var t := Taken(hash, s, path, content).value;
    PutUnique(s.objects, digest, content);
    forall other
      ensures Find(t.objects, other).Some? <==> PathsOf(t, other) != []
      ensures Find(t.objects, other).Some? ==> hash(ContentOf(t, other)) == other
      ensures NoRepeat(PathsOf(t, other))
    {
      TakenFinds(hash, s, path, content, other);
      assert !HasDigest(hash, tree, done, path, digest);
      assert path !in PathsOf(s, digest);
    }
    forall other, name
      ensures name in PathsOf(t, other) <==> HasDigest(hash, tree, done + [path], name, other)
    {
      TakenFinds(hash, s, path, content, other);
      assert name in PathsOf(s, other) <==> HasDigest(hash, tree, done, name, other);
    }
    forall name | name in done + [path] && name in tree && tree[name].File?
      ensures Find(t.objects, hash(tree[name].content)) == Some(tree[name].content)
    {
      TakenFinds(hash, s, path, content, hash(tree[name].content));
    }
  }

  lemma SkippedFiled(hash: Hash, tree: Tree, s: Intake, done: seq<string>, path: string)
    requires Filed(hash, tree, s, done) && path in tree && !tree[path].File?
    ensures Filed(hash, tree, s, done + [path])
  {
  }

  lemma {:induction false} AllFiled(hash: Hash, safe: string -> bool, tree: Tree, s: Intake, done: seq<string>, names: seq<string>)
    requires Filed(hash, tree, s, done) && NoRepeat(done + names)
    requires forall i | 0 <= i < |names| :: names[i] in tree
    requires TakenAll(hash, safe, tree, s, names).Ok?
    ensures Filed(hash, tree, TakenAll(hash, safe, tree, s, names).value, done + names)
    decreases |names|
  {
    if names == [] {
      assert done + names == done;
    } else {
      var path, rest := names[0], names[1..];
      assert done + names == done + [path] + rest;
      assert path !in done by {
        assert (done + names)[|done|] == path;
        assert forall i | 0 <= i < |done| :: (done + names)[i] == done[i];
      }
      if tree[path].File? {
        TakenFiled(hash, tree, s, done, path);
        AllFiled(hash, safe, tree, Taken(hash, s, path, tree[path].content).value, done + [path], rest);
      } else {
        SkippedFiled(hash, tree, s, done, path);
        AllFiled(hash, safe, tree, s, done + [path], rest);
      }
    }
  }

  lemma SortKeeps(names: seq<string>)
    requires NoRepeat(names)
    ensures NoRepeat(SortNames(names)) && forall name :: name in SortNames(names) <==> name in names
  {
    SortSorts(names);
    forall name
      ensures name in SortNames(names) <==> name in names
    {
      assert name in SortNames(names) <==> name in multiset(SortNames(names));
      assert name in names <==> name in multiset(names);
    }
    forall i, j | 0 <= i < j < |SortNames(names)|
      ensures SortNames(names)[i] != SortNames(names)[j]
    {
      if SortNames(names)[i] == SortNames(names)[j] {
        CountTwice(SortNames(names), i, j);
        CountOnce(names, SortNames(names)[i]);
      }
    }
  }

  lemma CountTwice(s: seq<string>, i: nat, j: nat)
    requires i < j < |s| && s[i] == s[j]
    ensures multiset(s)[s[i]] >= 2
  {
    assert s == s[..j] + s[j..];
    assert s[i] in s[..j] && s[j] in s[j..];
  }

  lemma {:induction false} CountOnce(s: seq<string>, x: string)
    requires NoRepeat(s)
    ensures multiset(s)[x] <= 1
  {
    if s != [] {
      assert s == [s[0]] + s[1..];
      assert forall i | 0 <= i < |s[1..]| :: s[1..][i] == s[i + 1];
      CountOnce(s[1..], x);
    }
  }

  lemma NothingFiled(hash: Hash, tree: Tree)
    ensures Filed(hash, tree, EMPTY, [])
  {
  }

  /** Reading a source leaves every file of it, and nothing else, under its digest. */
  lemma SourceFiled(hash: Hash, safe: string -> bool, tree: Tree, names: seq<string>)
    requires Enumerates(names, tree) && SourceRead(hash, safe, tree, names).Ok?
    ensures Filed(hash, tree, SourceRead(hash, safe, tree, names).value, names)
  {
    SortedInTree(names, tree);
    SortKeeps(names);
    var sorted := SortNames(names);
    assert [] + sorted == sorted;
    NothingFiled(hash, tree);
    AllFiled(hash, safe, tree, EMPTY, [], sorted);
    FiledSame(hash, tree, SourceRead(hash, safe, tree, names).value, sorted, names);
  }

  lemma FiledSame(hash: Hash, tree: Tree, s: Intake, a: seq<string>, b: seq<string>)
    requires Filed(hash, tree, s, a) && forall name :: name in a <==> name in b
    ensures Filed(hash, tree, s, b)
  {
    forall digest, path
      ensures HasDigest(hash, tree, a, path, digest) <==> HasDigest(hash, tree, b, path, digest)
    {
    }
  }

  // ---- enumeration order ----

  lemma OneMultiset(a: seq<string>, b: seq<string>)
    requires NoRepeat(a) && NoRepeat(b) && forall name :: name in a <==> name in b
    ensures multiset(a) == multiset(b)
  {
    forall name
      ensures multiset(a)[name] == multiset(b)[name]
    {
      CountOnce(a, name);
      CountOnce(b, name);
      assert name in a <==> name in multiset(a);
      assert name in b <==> name in multiset(b);
    }
  }

  /** The order in which the source is enumerated does not matter. */
  lemma EnumerationDoesNotMatter(hash: Hash, safe: string -> bool, tree: Tree, a: seq<string>, b: seq<string>)
    requires Enumerates(a, tree) && Enumerates(b, tree)
    ensures SourceRead(hash, safe, tree, a) == SourceRead(hash, safe, tree, b)
  {
    OneMultiset(a, b);
    SortPermuted(a, b);
  }

  // ---- stored names ----

  lemma NotShorter(a: string, b: string, x: string, y: string)
    requires '/' !in b && a + "/" + x == b + "/" + y
    ensures |a| >= |b|
  {
    assert (a + "/" + x)[|a|] == '/';
    assert forall k | 0 <= k < |b| :: (b + "/" + y)[k] == b[k] != '/';
  }

  lemma FirstSlash(a: string, b: string, x: string, y: string)
    requires '/' !in a && '/' !in b && a + "/" + x == b + "/" + y
    ensures a == b
  {
    NotShorter(a, b, x, y);
    NotShorter(b, a, y, x);
    assert (a + "/" + x)[..|a|] == a && (b + "/" + y)[..|b|] == b;
  }

  /** Digests without slashes, as hexadecimal ones are, have different stored names. */
  lemma StoredApart(a: Digest, b: Digest, p: seq<string>, q: seq<string>)
    requires '/' !in a && '/' !in b && ObjectName(a, p) == ObjectName(b, q)
    ensures a == b
  {
    var x := if p != [] && SameLeaf(p) then Leaf(p[0]) else "content.bin";
    var y := if q != [] && SameLeaf(q) then Leaf(q[0]) else "content.bin";
    assert ObjectName(a, p) == "objects/" + (a + "/" + x);
    assert ObjectName(b, q) == "objects/" + (b + "/" + y);
    assert ObjectName(a, p)[8..] == a + "/" + x;
    assert ObjectName(b, q)[8..] == b + "/" + y;
    FirstSlash(a, b, x, y);
  }

  // ---- the bundle ----

  /** What the bundle stores under a name. */
  function StoredAt(b: Bundle, name: string): Content {
    if name in b.stored then b.stored[name] else []
  }

  ghost predicate Plain(digests: seq<Digest>) {
    NoRepeat(digests) && forall i | 0 <= i < |digests| :: '/' !in digests[i]
  }

  lemma {:induction false} AddedKeeps(b: Bundle, s: Intake, digests: seq<Digest>, name: string)
    requires forall i | 0 <= i < |digests| :: ObjectName(digests[i], PathsOf(s, digests[i])) != name
    ensures (name in AddedAll(b, s, digests).stored <==> name in b.stored) && StoredAt(AddedAll(b, s, digests), name) == StoredAt(b, name)
    decreases |digests|
  {
    if digests != [] {
      assert forall i | 0 <= i < |digests[1..]| :: digests[1..][i] == digests[i + 1];
      AddedKeeps(Added(b, s, digests[0]), s, digests[1..], name);
    }
  }

  function Descriptions(s: Intake, digests: seq<Digest>): (es: seq<Described>)
    ensures |es| == |digests| && forall i | 0 <= i < |digests| :: es[i] == Describe(s, digests[i])
  {
    seq(|digests|, i requires 0 <= i < |digests| => Describe(s, digests[i]))
  }

  lemma FirstDescription(s: Intake, digests: seq<Digest>, before: seq<Described>)
    requires digests != []
    ensures before + Descriptions(s, digests) == before + [Describe(s, digests[0])] + Descriptions(s, digests[1..])
  {
    var e, es, rest := Describe(s, digests[0]), Descriptions(s, digests), Descriptions(s, digests[1..]);
    assert forall i | 0 < i < |es| :: es[i] == rest[i - 1];
    assert es[0] == e;
    assert es == [e] + rest;
  }

  lemma {:induction false} AddedLists(b: Bundle, s: Intake, digests: seq<Digest>)
    ensures AddedAll(b, s, digests).manifest == b.manifest + Descriptions(s, digests)
    decreases |digests|
  {
    if digests != [] {
      FirstDescription(s, digests, b.manifest);
      AddedLists(Added(b, s, digests[0]), s, digests[1..]);
    }
  }

  lemma {:induction false} AddedStores(b: Bundle, s: Intake, digests: seq<Digest>, i: nat)
    requires Plain(digests) && i < |digests|
    ensures var name := ObjectName(digests[i], PathsOf(s, digests[i]));
      name in AddedAll(b, s, digests).stored && AddedAll(b, s, digests).stored[name] == ContentOf(s, digests[i])
    decreases |digests|
  {
    var rest := digests[1..];
    assert forall k | 0 <= k < |rest| :: rest[k] == digests[k + 1];
    if i > 0 {
      AddedStores(Added(b, s, digests[0]), s, rest, i - 1);
    } else {
      var name := ObjectName(digests[0], PathsOf(s, digests[0]));
      forall k | 0 <= k < |rest|
        ensures ObjectName(rest[k], PathsOf(s, rest[k])) != name
      {
        if ObjectName(rest[k], PathsOf(s, rest[k])) == name {
          StoredApart(rest[k], digests[0], PathsOf(s, rest[k]), PathsOf(s, digests[0]));
        }
      }
      AddedKeeps(Added(b, s, digests[0]), s, rest, name);
    }
  }

  ghost predicate SlashFree(hash: Hash) {
    forall content :: '/' !in hash(content)
  }

  lemma DigestsPlain(hash: Hash, tree: Tree, s: Intake, names: seq<string>)
    requires Filed(hash, tree, s, names) && SlashFree(hash)
    ensures Plain(SortNames(Digests(s)))
    ensures forall digest :: digest in SortNames(Digests(s)) <==> Find(s.objects, digest).Some?
  {
    SortKeeps(Digests(s));
    forall digest
      ensures digest in Digests(s) <==> Find(s.objects, digest).Some?
    {
      FindSome(s.objects, digest);
      if Find(s.objects, digest).Some? {
        var i :| 0 <= i < |s.objects| && s.objects[i].0 == digest;
        assert Digests(s)[i] == digest;
      }
    }
    forall i | 0 <= i < |SortNames(Digests(s))|
      ensures '/' !in SortNames(Digests(s))[i]
    {
      var digest := SortNames(Digests(s))[i];
      assert digest in SortNames(Digests(s));
      assert hash(ContentOf(s, digest)) == digest;
    }
  }

  /** The bundle gives back `content` for `path`. */
  ghost predicate Restores(b: Bundle, path: string, content: Content) {
    exists i | 0 <= i < |b.manifest| :: RestoresFrom(b, i, path, content)
  }

  predicate RestoresFrom(b: Bundle, i: nat, path: string, content: Content)
    requires i < |b.manifest|
  {
    var e := b.manifest[i];
    path in e.sourcePaths && e.storedPath in b.stored && b.stored[e.storedPath] == content && |content| == e.bytes
  }

  lemma BundleListed(s: Intake)
    ensures Bundled(s).manifest == Descriptions(s, SortNames(Digests(s)))
    ensures |SortNames(Digests(s))| == |s.objects|
  {
    SortSorts(Digests(s));
    assert |multiset(SortNames(Digests(s)))| == |multiset(Digests(s))|;
    AddedLists(Bundle(map[], []), s, SortNames(Digests(s)));
  }

  /** The manifest entries in terms of the digests. */
  lemma BundleEntries(hash: Hash, tree: Tree, s: Intake, names: seq<string>, i: nat)
    requires Filed(hash, tree, s, names) && SlashFree(hash) && i < |s.objects|
    ensures var digests := SortNames(Digests(s)); var b := Bundled(s);
      && |digests| == |b.manifest| == |s.objects|
      && b.manifest[i] == Describe(s, digests[i]) && Find(s.objects, digests[i]).Some?
      && b.manifest[i].storedPath in b.stored && b.stored[b.manifest[i].storedPath] == ContentOf(s, digests[i])
      && (forall path :: path in b.manifest[i].sourcePaths <==> path in PathsOf(s, digests[i]))
  {
    var digests := SortNames(Digests(s));
    DigestsPlain(hash, tree, s, names);
    BundleListed(s);
    AddedStores(Bundle(map[], []), s, digests, i);
    SortKeeps(PathsOf(s, digests[i]));
    assert digests[i] in digests;
  }

  /** From manifest and stored contents exactly the files of the source are rebuilt, with their bytes. */
  lemma Lossless(hash: Hash, safe: string -> bool, tree: Tree, names: seq<string>, path: string, content: Content)
    requires Enumerates(names, tree) && SlashFree(hash) && SourceRead(hash, safe, tree, names).Ok?
    ensures Restores(Bundled(SourceRead(hash, safe, tree, names).value), path, content)
       <==> path in tree && tree[path] == File(content)
  {
    var s := SourceRead(hash, safe, tree, names).value;
    var digests, b := SortNames(Digests(s)), Bundled(s);
    SourceFiled(hash, safe, tree, names);
    DigestsPlain(hash, tree, s, names);
    BundleListed(s);
    if Restores(b, path, content) {
      var i :| 0 <= i < |b.manifest| && RestoresFrom(b, i, path, content);
      BundleEntries(hash, tree, s, names, i);
      assert HasDigest(hash, tree, names, path, digests[i]);
    }
    if path in tree && tree[path] == File(content) {
      var digest := hash(content);
      assert HasDigest(hash, tree, names, path, digest);
      assert digest in digests;
      var i :| 0 <= i < |digests| && digests[i] == digest;
      BundleEntries(hash, tree, s, names, i);
      assert RestoresFrom(b, i, path, content);
    }
  }

  /** Every path is listed in one entry, once; different entries have different stored names and different
      contents. */
  lemma StoredOnce(hash: Hash, safe: string -> bool, tree: Tree, names: seq<string>, i: nat, j: nat)
    requires Enumerates(names, tree) && SlashFree(hash) && SourceRead(hash, safe, tree, names).Ok?
    requires i < |Bundled(SourceRead(hash, safe, tree, names).value).manifest|
    requires j < |Bundled(SourceRead(hash, safe, tree, names).value).manifest|
    ensures var b := Bundled(SourceRead(hash, safe, tree, names).value);
      var e, f := b.manifest[i], b.manifest[j];
      && NoRepeat(e.sourcePaths)
      && (i != j ==> e.storedPath != f.storedPath && StoredAt(b, e.storedPath) != StoredAt(b, f.storedPath)
                     && forall path | path in e.sourcePaths :: path !in f.sourcePaths)
  {
    var s := SourceRead(hash, safe, tree, names).value;
    var digests, b := SortNames(Digests(s)), Bundled(s);
    SourceFiled(hash, safe, tree, names);
    DigestsPlain(hash, tree, s, names);
    BundleListed(s);
    BundleEntries(hash, tree, s, names, i);
    BundleEntries(hash, tree, s, names, j);
    SortKeeps(PathsOf(s, digests[i]));
    if i != j {
      assert digests[i] != digests[j];
      if b.manifest[i].storedPath == b.manifest[j].storedPath {
        StoredApart(digests[i], digests[j], PathsOf(s, digests[i]), PathsOf(s, digests[j]));
      }
    }
  }
}
