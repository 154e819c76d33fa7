/** A written compound file, read back. */
module CfbRoundTrip {
  import opened Bytes
  import opened Wrappers
  import opened CfbChains
  import opened CfbDirectory
  import opened CfbWalk
  import opened CfbRecords
  import opened CfbLayout
  import opened CfbReader

  /** `v` holds the tables of `dir`, possibly followed by unused entries. */
  ghost predicate Faithful(v: Volume, dir: seq<Node>) {
    && FatSector(dir) < FAT_ENTRIES && NamesFit(dir)
    && v.fat == Fat(dir) && v.image == Image(dir) && Records(dir) <= v.records
    && MiniFat(dir) <= v.minifat && |v.minifat| < END && v.mini == MiniStream(dir)
  }

  /** Putting the tables of a file together. */
  lemma VolumeFrom(file: Bytes, fat: seq<int>, image: Bytes, f: nat, records: seq<Record>, minifat: Bytes, mini: Bytes)
    requires |file| >= SECTOR && file[..8] == MAGIC && Get16(file, 30) == 9 && Get16(file, 32) == 6
    requires Get32(file, 56) == CUTOFF && Get32(file, 76) == f && image == file[SECTOR..] && |image| == SECTOR * f + SECTOR
    requires GetWords(image[SECTOR * f..SECTOR * f + SECTOR]) == fat
    requires ReadChain(fat, image, SECTOR, Get32(file, 48)).Some?
    requires DecodeTable(ReadChain(fat, image, SECTOR, Get32(file, 48)).value) == Some(records)
    requires records != [] && records[0].kind == ROOT_STORAGE
    requires ReadChain(fat, image, SECTOR, Get32(file, 60)) == Some(minifat)
    requires ReadStream(fat, image, SECTOR, records[0].start, records[0].size) == Some(mini)
    ensures ReadVolume(file) == Some(Volume(records, fat, image, GetWords(minifat), mini))
  {
  }

  lemma FileSplits(dir: seq<Node>)
    requires FatSector(dir) < FAT_ENTRIES && NamesFit(dir)
    ensures File(dir) == Header(dir) + Image(dir) && File(dir)[SECTOR..] == Image(dir)
  {
    FatBounded(dir);
    Joined(Header(dir), Blocks(Regions(dir), SECTOR), Words(Fat(dir)));
  }

  lemma Joined(a: Bytes, b: Bytes, c: Bytes)
    ensures a + b + c == a + (b + c) && (a + b + c)[|a|..] == b + c
  {
  }

  lemma VolumeReads(dir: seq<Node>)
    requires FatSector(dir) < FAT_ENTRIES && NamesFit(dir) && dir != []
    ensures ReadVolume(File(dir)).Some? && Faithful(ReadVolume(File(dir)).value, dir)
  {
    FileSplits(dir);
    HeaderFields(dir, Image(dir));
    ReadFat(dir);
    ReadTable(dir);
    ReadMiniFat(dir);
    ReadMiniStream(dir);
    var records := DecodeTable(ReadChain(Fat(dir), Image(dir), SECTOR, 0).value).value;
    assert records[0] == Records(dir)[0] == RecordOf(dir, 0);
    var minifat := ReadChain(Fat(dir), Image(dir), SECTOR, Get32(File(dir), 60)).value;
    VolumeFrom(File(dir), Fat(dir), Image(dir), FatSector(dir), records, minifat, MiniStream(dir));
  }

  // ---- one stream ----

  lemma MinisHeld(v: Volume, dir: seq<Node>)
    requires Faithful(v, dir)
    ensures CfbChains.Holds(v.minifat, v.mini, MINI, 0, Minis(dir))
  {
    assert v.minifat[0..0 + Sum(MiniCounts(dir))] == MiniFat(dir);
    assert v.mini[0..|MiniStream(dir)|] == MiniStream(dir);
  }

  lemma MiniReads(v: Volume, dir: seq<Node>, i: nat)
    requires Faithful(v, dir) && 0 < i < |dir| && dir[i].data.Some? && |dir[i].data.value| < CUTOFF
    ensures ReadStream(v.minifat, v.mini, MINI, Start(dir, i), Size(dir, i)) == dir[i].data
  {
    if dir[i].data.value != [] {
      MinisHeld(v, dir);
      StreamReads(v.minifat, v.mini, MINI, 0, Minis(dir), i);
    }
  }

  lemma LargeReads(v: Volume, dir: seq<Node>, i: nat)
    requires Faithful(v, dir) && 0 < i < |dir| && dir[i].data.Some? && |dir[i].data.value| >= CUTOFF
    ensures ReadStream(v.fat, v.image, SECTOR, Start(dir, i), Size(dir, i)) == dir[i].data
  {
    RegionsHeld(dir);
    StreamReads(v.fat, v.image, SECTOR, 0, Regions(dir), 3 + i);
    RegionsCounted(dir);
    RegionsSum(dir);
  }

  lemma NodeReads(v: Volume, dir: seq<Node>, i: nat)
    requires Faithful(v, dir) && 0 < i < |dir|
    ensures ReadNode(v, (i, dir[i].path)) == Some(dir[i])
  {
    assert v.records[i] == Records(dir)[i] == RecordOf(dir, i);
    if dir[i].data.Some? {
      if |dir[i].data.value| < CUTOFF {
        MiniReads(v, dir, i);
      } else {
        LargeReads(v, dir, i);
      }
    }
  }

  // ---- the whole walk ----

  function Pick(dir: seq<Node>, visited: seq<nat>): seq<Node>
    requires Within(visited, |dir|)
  {
    seq(|visited|, k requires 0 <= k < |visited| => (var i := visited[k]; assert i in visited; dir[i]))
  }

  predicate ReadsAs(v: Volume, dir: seq<Node>, i: nat)
    requires i < |dir|
  {
    ReadNode(v, (i, dir[i].path)) == Some(dir[i])
  }

  lemma {:induction false} NodesRead(v: Volume, dir: seq<Node>, visited: seq<nat>)
    requires Within(visited, |dir|) && forall i | i in visited :: ReadsAs(v, dir, i)
    ensures ReadNodes(v, Visits(dir, visited)) == Some(Pick(dir, visited))
  {
    if visited != [] {
      var i, rest := visited[0], visited[1..];
      assert i in visited && ReadsAs(v, dir, i);
      assert forall k | k in rest :: k in visited;
      NodesRead(v, dir, rest);
      assert Visits(dir, visited)[1..] == Visits(dir, rest);
      assert Pick(dir, visited) == [dir[i]] + Pick(dir, rest);
    }
  }

  lemma StoredRecords(v: Volume, dir: seq<Node>)
    requires Faithful(v, dir)
    ensures Stored(v.records, dir)
  {
    forall i | 0 <= i < |dir|
      ensures StoredAt(v.records, dir, i)
    {
      assert v.records[i] == Records(dir)[i] == RecordOf(dir, i);
    }
  }

  lemma ReadsBack(dir: seq<Node>)
    requires IsDirectory(dir) && FatSector(dir) < FAT_ENTRIES && NamesFit(dir)
    ensures Read(File(dir)) == Some(Pick(dir, Forest(dir, 0, 0)))
  {
    VolumeReads(dir);
    var v := ReadVolume(File(dir)).value;
    StoredRecords(v, dir);
    SizesBounded(dir);
    WalkForest(v.records, dir, 0, 0, |v.records|);
    assert StoredAt(v.records, dir, 0);
    RootVisits(dir, 0);
    forall i | i in Forest(dir, 0, 0)
      ensures ReadsAs(v, dir, i)
    {
      NodeReads(v, dir, i);
    }
    NodesRead(v, dir, Forest(dir, 0, 0));
  }

  // ---- in terms of the directory, and in terms of the entries ----

  ghost predicate Once(nodes: seq<Node>) {
    forall k, l | 0 <= k < l < |nodes| :: nodes[k] != nodes[l]
  }

  lemma {:induction false} NoRepeats(s: seq<nat>, k: nat, l: nat)
    requires k < l < |s| && multiset(s)[s[k]] <= 1
    ensures s[k] != s[l]
  {
    assert s == s[..l] + s[l..] && s[k] in s[..l] && s[l] in s[l..];
    assert multiset(s) == multiset(s[..l]) + multiset(s[l..]);
  }

  lemma Picked(dir: seq<Node>, visited: seq<nat>, i: nat)
    requires Distinct(dir) && Within(visited, |dir|) && i < |dir|
    ensures dir[i] in Pick(dir, visited) <==> i in visited
  {
    var picked := Pick(dir, visited);
    if i in visited {
      var k :| 0 <= k < |visited| && visited[k] == i;
      assert picked[k] == dir[i];
    }
    if dir[i] in picked {
      var k :| 0 <= k < |picked| && picked[k] == dir[i];
      assert visited[k] in visited;
    }
  }

  lemma PickedOnce(dir: seq<Node>, visited: seq<nat>)
    requires Distinct(dir) && Within(visited, |dir|) && forall i | i in visited :: multiset(visited)[i] <= 1
    ensures Once(Pick(dir, visited))
    ensures forall node | node in Pick(dir, visited) :: node in dir
  {
    var picked := Pick(dir, visited);
    assert forall k | 0 <= k < |visited| :: visited[k] in visited;
    forall k, l | 0 <= k < l < |picked|
      ensures picked[k] != picked[l]
    {
      NoRepeats(visited, k, l);
    }
  }

  lemma PickedNodes(dir: seq<Node>, node: Node)
    requires IsDirectory(dir) && |dir| <= FREE
    ensures node in Pick(dir, Forest(dir, 0, 0)) <==> node in dir && node != ROOT && !Shadowed(dir, node.path)
    ensures Once(Pick(dir, Forest(dir, 0, 0)))
  {
    OrderedDistinct(dir);
    forall i | i in Forest(dir, 0, 0)
      ensures multiset(Forest(dir, 0, 0))[i] <= 1
    {
      RootVisits(dir, i);
    }
    PickedOnce(dir, Forest(dir, 0, 0));
    if node in dir {
      var i :| 0 <= i < |dir| && dir[i] == node;
      RootVisits(dir, i);
      Picked(dir, Forest(dir, 0, 0), i);
    }
  }

  /** `nodes` are the unshadowed part of the directory of `entries`. */
  ghost predicate Unshadowed(nodes: seq<Node>, dir: seq<Node>) {
    forall node :: node in nodes <==> node in dir && node != ROOT && !Shadowed(dir, node.path)
  }

  /** Reading a written file gives back exactly the storages and streams that no stream lies above,
      each once, with the path and the bytes they were written with. */
  lemma RoundTrip(entries: seq<Entry>)
    requires Cfb(entries).Ok?
    ensures Read(Cfb(entries).value).Some? && Once(Read(Cfb(entries).value).value)
    ensures Unshadowed(Read(Cfb(entries).value).value, Directory(entries).value)
  {
    var dir := Directory(entries).value;
    DirectoryHolds(entries);
    ReadsBack(dir);
    SizesBounded(dir);
    forall node
      ensures node in Pick(dir, Forest(dir, 0, 0)) <==> node in dir && node != ROOT && !Shadowed(dir, node.path)
      ensures Once(Pick(dir, Forest(dir, 0, 0)))
    {
      PickedNodes(dir, node);
    }
    PickedNodes(dir, ROOT);
  }

  /** Some stream's path is a proper prefix of another entry's path. */
  ghost predicate StreamAbove(entries: seq<Entry>) {
    exists a, b | a in entries && b in entries :: a.1.Some? && a.0 < b.0
  }

  lemma ShadowedEntry(entries: seq<Entry>, path: Path)
    requires Directory(entries).Ok? && Known(entries, path) && path != []
    requires Shadowed(Directory(entries).value, path)
    ensures StreamAbove(entries)
  {
    var dir := Directory(entries).value;
    DirectoryHolds(entries);
    var m :| 0 <= m < |dir| && dir[m].data.Some? && dir[m].path < path;
    var k :| 0 <= k < |entries| && path <= entries[k].0;
    assert dir[m] in dir;
    var a, b := (dir[m].path, dir[m].data), entries[k];
    assert a in entries && b in entries && a.0 < b.0;
  }

  /** What is read lies among the entries and the storages above them, with the entries' own data. */
  ghost predicate Sound(nodes: seq<Node>, entries: seq<Entry>) {
    && (forall node | node in nodes :: node.path != [] && Known(entries, node.path))
    && (forall node | node in nodes :: node.data.Some? ==> (node.path, node.data) in entries)
    && (forall e | e in entries && HasPath(nodes, e.0) :: Node(e.0, e.1) in nodes)
  }

  /** Everything below the root is read. */
  ghost predicate Complete(nodes: seq<Node>, entries: seq<Entry>) {
    forall path | path != [] && Known(entries, path) :: HasPath(nodes, path)
  }

  /** Reading back is always sound, and it is complete exactly when no stream's path is a proper prefix of
      another path. */
  lemma RoundTripOfEntries(entries: seq<Entry>)
    requires Cfb(entries).Ok?
    ensures Read(Cfb(entries).value).Some?
    ensures Sound(Read(Cfb(entries).value).value, entries)
    ensures Complete(Read(Cfb(entries).value).value, entries) <==> !StreamAbove(entries)
  {
    RoundTrip(entries);
    SoundlyRead(entries, Read(Cfb(entries).value).value);
    AllRead(entries, Read(Cfb(entries).value).value);
  }

  lemma SoundlyRead(entries: seq<Entry>, nodes: seq<Node>)
    requires Directory(entries).Ok? && Unshadowed(nodes, Directory(entries).value)
    ensures Sound(nodes, entries)
  {
    var dir := Directory(entries).value;
    DirectoryHolds(entries);
    forall node | node in nodes
      ensures node.path != [] && Known(entries, node.path)
    {
      var i :| 0 <= i < |dir| && dir[i] == node;
      assert HasPath(dir, node.path);
      DataOf(dir, node, ROOT);
    }
    forall e | e in entries && HasPath(nodes, e.0)
      ensures Node(e.0, e.1) in nodes
    {
      var k :| 0 <= k < |nodes| && nodes[k].path == e.0;
      assert nodes[k] in nodes && Node(e.0, e.1) in dir;
      DataOf(dir, nodes[k], Node(e.0, e.1));
    }
  }

  lemma DataOf(dir: seq<Node>, a: Node, b: Node)
    requires Distinct(dir) && a in dir && b in dir
    ensures a.path == b.path ==> a == b
  {
    var i :| 0 <= i < |dir| && dir[i] == a;
    var j :| 0 <= j < |dir| && dir[j] == b;
  }

  lemma AllRead(entries: seq<Entry>, nodes: seq<Node>)
    requires Directory(entries).Ok? && Unshadowed(nodes, Directory(entries).value)
    ensures Complete(nodes, entries) <==> !StreamAbove(entries)
  {
    var dir := Directory(entries).value;
    DirectoryHolds(entries);
    if StreamAbove(entries) {
      var a, b :| a in entries && b in entries && a.1.Some? && a.0 < b.0;
      assert Node(a.0, a.1) in dir;
      assert Shadowed(dir, b.0);
      assert Known(entries, b.0);
      forall k | 0 <= k < |nodes|
        ensures nodes[k].path != b.0
      {
        assert nodes[k] in nodes;
      }
    } else {
      forall path | path != [] && Known(entries, path)
        ensures HasPath(nodes, path)
      {
        if Shadowed(dir, path) {
          ShadowedEntry(entries, path);
        } else {
          assert HasPath(dir, path);
          var i :| 0 <= i < |dir| && dir[i].path == path;
          assert dir[i] in nodes;
        }
      }
    }
  }
}
