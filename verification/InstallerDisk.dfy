/** The part of the file system the Unix installer owns, and the names it uses there. */
module InstallerDisk {
  import opened Wrappers
  import opened Numerals

  type Name = string
  type Dir = string

  /** A tree on disk: the files its own manifest lists, the files that are whole, and the
      files that were created but not yet fully copied. */
  datatype Tree = Tree(want: set<Name>, have: set<Name>, torn: set<Name>)

  type Trees = map<Name, Tree>

  /** The verdict of the bundled archive checker, which is itself one of the files. */
  predicate Complete(t: Tree) {
    t.want != {} && t.have == t.want && t.torn == {}
  }

  predicate Empty(t: Tree) {
    t.have == {} && t.torn == {}
  }

  /** What stands at `into-md` in a command directory. */
  datatype Command = Absent | Owned | Foreign

  datatype Journal =
    | Installing(id: Name, staging: Name)
    | Uninstalling(committed: bool, removed: Name, dir: Dir)

  /** A `versions` directory that was moved aside. `original` and `touched` are bookkeeping of
      the model, which the installer never reads: what the directory held when it was moved and
      whether its deletion has begun. */
  datatype Removed = Removed(trees: Trees, original: Trees, touched: bool)

  datatype Disk = Disk(
    prefix: bool,
    lock: bool,
    journal: Option<Journal>,
    versions: Option<Trees>,
    removed: map<Name, Removed>,
    authority: Option<Name>,
    current: Option<Name>,
    commands: map<Dir, Command>)

  function CommandAt(d: Disk, dir: Dir): Command {
    if dir in d.commands then d.commands[dir] else Absent
  }

  predicate HexDigit(c: char) {
    '0' <= c <= '9' || 'a' <= c <= 'f'
  }

  predicate ValidHash(id: Name) {
    |id| == 64 && forall i | 0 <= i < |id| :: HexDigit(id[i])
  }

  function StagingName(id: Name, pid: nat): Name {
    ".install-" + id + "-" + Decimal(pid)
  }

  function RemovedName(pid: nat): Name {
    ".removed-versions-" + Decimal(pid)
  }

  /** No process can mistake its staging directory for a published version. */
  lemma StagingIsNotPublished(id: Name, pid: nat)
    ensures !ValidHash(StagingName(id, pid))
  {
    assert StagingName(id, pid)[0] == '.';
  }

  /** Processes with different identifiers have different names for what they stage and remove. */
  lemma NamesApart(a: Name, p: nat, b: Name, q: nat)
    requires ValidHash(a) && ValidHash(b)
    ensures StagingName(a, p) == StagingName(b, q) <==> a == b && p == q
    ensures RemovedName(p) == RemovedName(q) <==> p == q
  {
    var s, t := StagingName(a, p), StagingName(b, q);
    DecimalIsValue(p);
    DecimalIsValue(q);
    assert s[9..73] == a && s[74..] == Decimal(p) && t[9..73] == b && t[74..] == Decimal(q);
    assert RemovedName(p)[18..] == Decimal(p) && RemovedName(q)[18..] == Decimal(q);
  }

  /** Every tree that is not a published version is an empty directory. */
  predicate Quiet(trees: Trees) {
    forall n | n in trees :: ValidHash(n) || Empty(trees[n])
  }

  /** The command in `dir` runs the complete version `id`. */
  predicate Runs(d: Disk, dir: Dir, id: Name) {
    CommandAt(d, dir) == Owned && d.current == Some(id) && CurrentComplete(d)
  }

  predicate CurrentComplete(d: Disk) {
    && d.current.Some?
    && d.versions.Some?
    && d.current.value in d.versions.value
    && Complete(d.versions.value[d.current.value])
  }

  /** Deleting the moved tree is allowed: recovery as it stands would delete and not restore it. */
  predicate DeletionAllowed(d: Disk) {
    && d.journal.Some?
    && d.journal.value.Uninstalling?
    && (d.journal.value.committed || CommandAt(d, d.journal.value.dir).Absent? || d.versions.Some?)
  }

  /** Nothing stands in `t` that does not stand in `u`. */
  predicate PartOf(t: Tree, u: Tree) {
    t.want == u.want && t.have <= u.have && t.torn <= u.torn
  }

  predicate Part(trees: Trees, whole: Trees) {
    forall n | n in trees :: n in whole && PartOf(trees[n], whole[n])
  }

  /** A moved tree is named by the journal; it is a part of what was moved, and all of it until its
      deletion has begun. */
  predicate MovedTreeSafe(d: Disk, n: Name)
    requires n in d.removed
  {
    && d.journal.Some? && d.journal.value.Uninstalling? && d.journal.value.removed == n
    && Quiet(d.removed[n].original) && Part(d.removed[n].trees, d.removed[n].original)
    && (!d.removed[n].touched ==> d.removed[n].trees == d.removed[n].original)
  }

  /** Inside `versions`, files stand only in published versions and in the journaled staging. */
  predicate VersionSafe(d: Disk, n: Name)
    requires d.versions.Some? && n in d.versions.value
  {
    || ValidHash(n)
    || Empty(d.versions.value[n])
    || (d.journal.Some? && d.journal.value.Installing? && d.journal.value.staging == n)
  }

  /** Holds on disk at every instant, whether a process is running or was killed. */
  predicate DiskInvariant(d: Disk) {
    && (forall n | n in d.removed :: MovedTreeSafe(d, n))
    && (d.versions.Some? ==> forall n | n in d.versions.value :: VersionSafe(d, n))
    && (d.journal.Some? && d.journal.value.Installing? ==> !ValidHash(d.journal.value.staging))
    && (d.current.Some? ==> ValidHash(d.current.value))
  }

  /** Nothing is in progress: no journal, no moved tree, no staged content. */
  predicate Settled(d: Disk) {
    && d.journal.None?
    && d.removed == map[]
    && (d.versions.Some? ==> Quiet(d.versions.value))
  }
}
