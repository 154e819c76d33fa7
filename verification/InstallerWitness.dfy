/** Runs that begin on a disk nothing was ever installed on, and end where the guarantees do. */
module InstallerWitness {
  import opened Wrappers
  import opened InstallerDisk
  import opened InstallerMachine
  import opened InstallerSystem
  import opened InstallerTheorems
  import opened InstallerReach
  import opened InstallerExposure

  /** A first installation on the untouched disk `d`. */
  function Installed(d: Disk, op: Op): Disk
    requires op.Install?
  {
    d.(prefix := true, versions := Some(map[op.id := Tree(op.want, op.want, {})]), authority := Some(op.id),
       current := Some(op.id), commands := d.commands[op.dir := Owned])
  }

  lemma Links(s: System, d: Disk, p: nat, q: Proc)
    requires Reaches(AnyRun, s, With(d, map[], p, q)) && q.op.Install? && q.pc == Adding(LinkCommand)
    requires CommandAt(d, q.op.dir).Absent? && d.journal.Some?
    ensures var d' := d.(journal := None, commands := d.commands[q.op.dir := Owned], authority := Some(q.op.id),
                         current := Some(q.op.id), lock := false);
            Reaches(AnyRun, s, Idle(d'))
  {
    var d1 := d.(commands := d.commands[q.op.dir := Owned]);
    Advance(AnyRun, s, d, map[], p, q, CALM, Effect(d1, q.(pc := Adding(WriteAuthority))));
    var d2 := d1.(authority := Some(q.op.id));
    Advance(AnyRun, s, d1, map[], p, q.(pc := Adding(WriteAuthority)), CALM, Effect(d2, q.(pc := Adding(LinkCurrent))));
    var d3 := d2.(current := Some(q.op.id));
    Advance(AnyRun, s, d2, map[], p, q.(pc := Adding(LinkCurrent)), CALM, Effect(d3, q.(pc := Closing(ClearFinished))));
    var d4 := ClearJournal(d3);
    Advance(AnyRun, s, d3, map[], p, q.(pc := Closing(ClearFinished)), CALM, Effect(d4, q.(pc := Closing(Release(true)))));
    KillAlone(AnyRun, s, d4, p, q.(pc := Closing(Release(true))));
  }

  lemma FirstInstall(d: Disk, op: Op)
    requires Untouched(d) && Sound(op) && CommandAt(d, op.dir).Absent?
    ensures Reaches(AnyRun, Idle(d), Idle(Installed(d, op)))
  {
    var s, q := Idle(d), Start(op, 0);
    ReachesItself(AnyRun, s);
    InstallEnters(AnyRun, s, d, 0, op);
    Recovers(AnyRun, s, Entered(d), 0, q.(pc := Recovering(Recover)));
    StagingIsNotPublished(op.id, 0);
    Publishes(AnyRun, s, Entered(d), 0, q.(pc := Adding(Inspect)));
    var published := PublishedBy(Entered(d), q);
    var none: Trees := map[];
    assert none - {q.scratch} == none;
    assert published.versions == Some(map[op.id := Tree(op.want, op.want, {})]);
    Links(s, published, 0, q.(pc := Adding(LinkCommand), isNew := true));
  }

  /** `versions` has been moved aside and the command unlinked; the journal is `committed` or not. */
  function MovedOff(d: Disk, dir: Dir, committed: bool): Disk
    requires d.versions.Some?
  {
    var n := RemovedName(0);
    d.(journal := Some(Uninstalling(committed, n, dir)), versions := None, commands := d.commands[dir := Absent],
       removed := map[n := Removed(d.versions.value, d.versions.value, false)], lock := true)
  }

  lemma Unlinks(s: System, d: Disk, dir: Dir)
    requires Reaches(AnyRun, s, Idle(d)) && d.prefix && !d.lock && d.journal.None? && d.removed == map[]
    requires d.versions.Some? && CommandAt(d, dir).Owned?
    ensures var q := Start(Op.Uninstall(dir), 0).(pc := Removing(WriteCommitted), moved := true);
            Reaches(AnyRun, s, With(MovedOff(d, dir, false), map[], 0, q))
  {
    var q, n := Start(Op.Uninstall(dir), 0), RemovedName(0);
    UninstallEnters(AnyRun, s, d, map[], 0, dir);
    var d1 := d.(lock := true);
    Advance(AnyRun, s, d1, map[], 0, q.(pc := Recovering(Recover)), CALM, Effect(d1, q.(pc := Removing(Validate))));
    Advance(AnyRun, s, d1, map[], 0, q.(pc := Removing(Validate)), CALM, Effect(d1, q.(pc := Removing(WritePrepared))));
    var d2 := d1.(journal := Some(Uninstalling(false, n, dir)));
    Advance(AnyRun, s, d1, map[], 0, q.(pc := Removing(WritePrepared)), CALM, Effect(d2, q.(pc := Removing(MoveVersions))));
    var d3 := d2.(versions := None, removed := map[n := Removed(d.versions.value, d.versions.value, false)]);
    var q3 := q.(pc := Removing(Unlink), moved := true);
    Advance(AnyRun, s, d2, map[], 0, q.(pc := Removing(MoveVersions)), CALM, Effect(d3, q3));
    Advance(AnyRun, s, d3, map[], 0, q3, CALM, Effect(MovedOff(d, dir, false), q3.(pc := Removing(WriteCommitted))));
  }

  // ---- a partly deleted tree comes back ----

  /** The disk after that uninstall was killed and a second one deleted one file before it was killed, too. */
  function HalfGone(d: Disk, dir: Dir, id: Name, file: Name): Disk
    requires d.versions.Some? && id in d.versions.value
  {
    var v, m := d.versions.value, MovedOff(d, dir, false);
    Left(m, RemovedName(0), v[id := WithoutFile(v[id], file)]).(lock := false)
  }

  lemma SecondUninstallDeletes(s: System, d: Disk, dir: Dir, id: Name, file: Name)
    requires Reaches(AnyRun, s, Idle(d)) && d.prefix && !d.lock && d.journal.None? && d.removed == map[]
    requires d.versions.Some? && CommandAt(d, dir).Owned?
    requires id in d.versions.value && file in d.versions.value[id].have
    ensures Reaches(AnyRun, s, Idle(HalfGone(d, dir, id, file)))
  {
    var m, q := MovedOff(d, dir, false), Start(Op.Uninstall(dir), 0);
    Unlinks(s, d, dir);
    KillAlone(AnyRun, s, m, 0, q.(pc := Removing(WriteCommitted), moved := true));
    UninstallEnters(AnyRun, s, m.(lock := false), map[], 0, dir);
    Advance(AnyRun, s, m, map[], 0, q.(pc := Recovering(Recover)), CALM, Effect(m, q.(pc := Recovering(PruneRemoved))));
    var half := HalfGone(d, dir, id, file).(lock := true);
    var q1 := q.(pc := Recovering(PruneRemoved));
    Advance(AnyRun, s, m, map[], 0, q1, Choice(NoFault, id, file), Effect(half, q1));
    KillAlone(AnyRun, s, half, 0, q1);
  }

  /** Some run from `d` ends with the version `id` in place without its `file`. */
  ghost predicate EndsWithout(d: Disk, id: Name, file: Name) {
    exists t: System :: Reaches(AnyRun, Idle(d), t) && LacksFile(t.disk, id, file)
  }

  predicate LacksFile(d: Disk, id: Name, file: Name) {
    && d.versions.Some? && id in d.versions.value && !Complete(d.versions.value[id])
    && file in d.versions.value[id].want && file !in d.versions.value[id].have
  }

  lemma ThirdUninstallRestores(s: System, d: Disk, dir: Dir, id: Name, file: Name)
    requires d.prefix && d.versions.Some? && id in d.versions.value
    requires s.procs == map[] && Reaches(AnyRun, s, Idle(HalfGone(d, dir, id, file)))
    requires file in d.versions.value[id].have && file in d.versions.value[id].want
    ensures EndsWithout(s.disk, id, file)
  {
    var h, q := HalfGone(d, dir, id, file), Start(Op.Uninstall(dir), 0);
    ReachesNext(AnyRun, s, Idle(h), Meddle(dir, Foreign));
    var planted := SetCommand(h, dir, Foreign);
    UninstallEnters(AnyRun, s, planted, map[], 0, dir);
    var d1, q1 := planted.(lock := true), q.(pc := Recovering(Restore));
    Advance(AnyRun, s, d1, map[], 0, q.(pc := Recovering(Recover)), CALM, Effect(d1, q1));
    var d2 := RestoreMoved(d1, RemovedName(0));
    Advance(AnyRun, s, d1, map[], 0, q1, CALM, Effect(d2, q.(pc := Recovering(ClearRecovered))));
    assert s == Idle(s.disk) && LacksFile(d2, id, file);
  }

  /** From every untouched disk and for every distribution: installed, uninstalled up to the unlinking and
      killed, taken apart by a second uninstall and killed, and brought back, incomplete, by a third after
      another program has put a command in place. */
  lemma PartialTreeComesBack(d: Disk, op: Op, file: Name)
    requires Untouched(d) && Sound(op) && CommandAt(d, op.dir).Absent? && file in op.want
    ensures EndsWithout(d, op.id, file)
  {
    FirstInstall(d, op);
    SecondUninstallDeletes(Idle(d), Installed(d, op), op.dir, op.id, file);
    ThirdUninstallRestores(Idle(d), Installed(d, op), op.dir, op.id, file);
  }

  // ---- `current` dangles ----

  lemma DroppedPruner(journal: Option<Journal>, q: Proc)
    requires q.pc == Removing(DropRemoved)
    ensures PrunesMoved(journal, q, q.scratch, Removing(DropAuthority))
  {
  }

  /** `current` names a version that is not there. */
  predicate Dangling(d: Disk) {
    d.current.Some? && (d.versions.Some? ==> d.current.value !in d.versions.value)
  }

  /** From every untouched disk: installed, and uninstalled by a process that is killed after it has
      deleted the versions and before it has unlinked `current`; a failing reinstall then leaves `current`
      at a broken version. */
  lemma CurrentCanDangle(d: Disk, op: Op)
    requires Untouched(d) && Sound(op) && CommandAt(d, op.dir).Absent?
    ensures exists d': Disk :: Reaches(AnyRun, Idle(d), Idle(d')) && Dangling(d') && InstallsCanTear(d')
  {
    var s, i := Idle(d), Installed(d, op);
    FirstInstall(d, op);
    Unlinks(s, i, op.dir);
    var q := Start(Op.Uninstall(op.dir), 0).(pc := Removing(WriteCommitted), moved := true);
    var m, q1 := MovedOff(i, op.dir, true), q.(pc := Removing(DropRemoved));
    Advance(AnyRun, s, MovedOff(i, op.dir, false), map[], 0, q, CALM, Effect(m, q1));
    DroppedPruner(m.journal, q1);
    PruneMovedToEnd(AnyRun, s, m, 0, q1, RemovedName(0), Removing(DropAuthority));
    var d' := m.(removed := m.removed - {RemovedName(0)}, lock := false);
    KillAlone(AnyRun, s, d'.(lock := true), 0, q1.(pc := Removing(DropAuthority)));
    var ls :| Leads(AnyRun, s, ls, Idle(d'));
    RunsKeep(s, ls);
    TornExactly(d');
    assert Reaches(AnyRun, s, Idle(d')) && Dangling(d');
  }

  // ---- the sync of `current` is lost ----

  /** In `t` the command in `dir` runs the version `id`, and two steps of the install of `next` break `current`. */
  ghost predicate SyncBreaks(t: System, dir: Dir, id: Name, next: Name) {
    Runs(t.disk, dir, id) && exists c, c' :: Breaks(t, [Run(0, c), Run(0, c')], next)
  }

  lemma LinksUpToCurrent(s: System, d: Disk, p: nat, q: Proc)
    requires Reaches(AnyRun, s, With(d, map[], p, q)) && q.op.Install? && q.pc == Adding(LinkCommand)
    requires CommandAt(d, q.op.dir).Owned?
    ensures Reaches(AnyRun, s, With(d.(authority := Some(q.op.id)), map[], p, q.(pc := Adding(LinkCurrent))))
  {
    var q1 := q.(pc := Adding(WriteAuthority));
    Advance(AnyRun, s, d, map[], p, q, CALM, Effect(d, q1));
    Advance(AnyRun, s, d, map[], p, q1, CALM, Effect(d.(authority := Some(q.op.id)), q.(pc := Adding(LinkCurrent))));
  }

  /** From every untouched disk: a first install, and a second one of another version, whose lost sync takes a
      working command's version away. */
  lemma LostSyncIsReachable(d: Disk, op: Op, next: Op)
    requires Untouched(d) && Sound(op) && Sound(next) && CommandAt(d, op.dir).Absent?
    requires next.dir == op.dir && next.id != op.id
    ensures exists t: System :: Reaches(AnyRun, Idle(d), t) && SyncBreaks(t, op.dir, op.id, next.id)
  {
    var s, q := Idle(d), Start(next, 0);
    var i := Entered(Installed(d, op));
    FirstInstall(d, op);
    InstallEnters(AnyRun, s, Installed(d, op), 0, next);
    Recovers(AnyRun, s, i, 0, q.(pc := Recovering(Recover)));
    StagingIsNotPublished(next.id, 0);
    Publishes(AnyRun, s, i, 0, q.(pc := Adding(Inspect)));
    LinksUpToCurrent(s, PublishedBy(i, q), 0, q.(pc := Adding(LinkCommand), isNew := true));
    var published := PublishedBy(i, q).(authority := Some(next.id));
    assert Runs(published, op.dir, op.id);
    SyncIsLost(s, published, q.(pc := Adding(LinkCurrent), isNew := true), op.dir, op.id);
  }

  lemma SyncIsLost(s: System, d: Disk, q: Proc, dir: Dir, id: Name)
    requires Reaches(AnyRun, s, With(d, map[], 0, q)) && Invariant(s) && Runs(d, dir, id)
    requires q.op.Install? && q.pc == Adding(LinkCurrent) && q.isNew
    ensures exists t: System :: Reaches(AnyRun, s, t) && SyncBreaks(t, dir, id, q.op.id)
  {
    var t, c := With(d, map[], 0, q), Choice(After, "", "");
    var ls :| Leads(AnyRun, s, ls, t);
    RunsKeep(s, ls);
    LostSyncBreaksCurrent(t, 0, c);
    assert SyncBreaks(t, dir, id, q.op.id);
  }
}
