/** What an install can be made to do, and when that can break the installation. */
module InstallerExposure {
  import opened Wrappers
  import opened InstallerDisk
  import opened InstallerMachine
  import opened InstallerSystem
  import opened InstallerTheorems
  import opened InstallerRecovery
  import opened InstallerReach

  // ---- recovery comes to an end ----

  lemma StagingPruner(journal: Option<Journal>, q: Proc)
    requires journal.Some? && journal.value.Installing? && q.pc == Recovering(PruneStaging)
    ensures Prunes(journal, q, journal.value.staging, Recovering(ClearRecovered))
  {
  }

  lemma RemovedPruner(journal: Option<Journal>, q: Proc)
    requires journal.Some? && journal.value.Uninstalling? && q.pc == Recovering(PruneRemoved)
    ensures PrunesMoved(journal, q, journal.value.removed, Recovering(ClearRecovered))
  {
  }

  lemma OrphanPruner(journal: Option<Journal>, q: Proc)
    requires q.op.Install? && q.pc == Adding(PruneOrphan)
    ensures Prunes(journal, q, q.scratch, Adding(MakeStaging))
  {
  }

  lemma ClearsJournal(kind: Kind, s: System, d: Disk, p: nat, q: Proc)
    requires Reaches(kind, s, With(d, map[], p, q)) && MayTake(kind, q, CALM)
    requires q.pc == Recovering(ClearRecovered) && d.journal.Some?
    ensures Reaches(kind, s, With(ClearJournal(d), map[], p, q.(pc := AfterRecovery(q.op))))
  {
    Advance(kind, s, d, map[], p, q, CALM, Effect(ClearJournal(d), q.(pc := AfterRecovery(q.op))));
  }

  lemma StagingRecovers(kind: Kind, s: System, d: Disk, p: nat, q: Proc)
    requires Reaches(kind, s, With(d, map[], p, q)) && MayTake(kind, q, CALM) && q.pc == Recovering(Recover)
    requires d.versions.Some? && d.journal.Some? && d.journal.value.Installing?
    ensures Reaches(kind, s, With(Recovered(d, q.op.dir), map[], p, q.(pc := AfterRecovery(q.op))))
  {
    var n, q1 := d.journal.value.staging, q.(pc := Recovering(PruneStaging));
    Advance(kind, s, d, map[], p, q, CALM, Effect(d, q1));
    StagingPruner(d.journal, q1);
    PruneToEnd(kind, s, d, p, q1, n, Recovering(ClearRecovered));
    ClearsJournal(kind, s, SetVersions(d, d.versions.value - {n}), p, q.(pc := Recovering(ClearRecovered)));
  }

  lemma MovedTreeRecovers(kind: Kind, s: System, d: Disk, p: nat, q: Proc)
    requires Reaches(kind, s, With(d, map[], p, q)) && MayTake(kind, q, CALM) && q.pc == Recovering(Recover)
    requires d.versions.Some? && d.journal.Some? && d.journal.value.Uninstalling? && d.journal.value.dir == q.op.dir
    ensures Reaches(kind, s, With(Recovered(d, q.op.dir), map[], p, q.(pc := AfterRecovery(q.op))))
  {
    var n, q1, q2 := d.journal.value.removed, q.(pc := Recovering(PruneRemoved)), q.(pc := Recovering(ClearRecovered));
    if n in d.removed {
      Advance(kind, s, d, map[], p, q, CALM, Effect(d, q1));
      RemovedPruner(d.journal, q1);
      PruneMovedToEnd(kind, s, d, p, q1, n, Recovering(ClearRecovered));
    } else {
      assert d.removed - {n} == d.removed;
      Advance(kind, s, d, map[], p, q, CALM, Effect(d, q2));
    }
    ClearsJournal(kind, s, d.(removed := d.removed - {n}), p, q2);
  }

  lemma Recovers(kind: Kind, s: System, d: Disk, p: nat, q: Proc)
    requires Reaches(kind, s, With(d, map[], p, q)) && MayTake(kind, q, CALM) && q.pc == Recovering(Recover)
    requires d.versions.Some? && (d.journal.Some? && d.journal.value.Uninstalling? ==> d.journal.value.dir == q.op.dir)
    ensures Reaches(kind, s, With(Recovered(d, q.op.dir), map[], p, q.(pc := AfterRecovery(q.op))))
  {
    if d.journal.None? {
      Advance(kind, s, d, map[], p, q, CALM, Effect(d, q.(pc := AfterRecovery(q.op))));
    } else if d.journal.value.Installing? {
      StagingRecovers(kind, s, d, p, q);
    } else {
      MovedTreeRecovers(kind, s, d, p, q);
    }
  }

  // ---- an install publishes its version ----

  /** The staging directory holds `have` of the files to copy. */
  function Staged(d: Disk, q: Proc, have: set<Name>): Disk
    requires q.op.Install? && d.versions.Some?
  {
    SetVersions(d, d.versions.value[q.scratch := Tree(q.op.want, have, {})])
  }

  lemma CopiesFile(kind: Kind, s: System, d: Disk, p: nat, q: Proc, have: set<Name>, file: Name)
    requires q.op.Install? && q.pc == Adding(Copy) && d.versions.Some?
    requires Reaches(kind, s, With(Staged(d, q, have), map[], p, q)) && file in q.op.files && file !in have
    ensures Reaches(kind, s, With(Staged(d, q, have + {file}), map[], p, q))
  {
    var v, c := d.versions.value, Choice(NoFault, "", file);
    var t, t1, t2 := Tree(q.op.want, have, {}), Tree(q.op.want, have, {file}), Tree(q.op.want, have + {file}, {});
    var torn := SetVersions(d, v[q.scratch := t1]);
    assert CopyFile(t, file) == t1 && CopyFile(t1, file) == t2;
    assert v[q.scratch := t][q.scratch := t1] == v[q.scratch := t1];
    assert v[q.scratch := t1][q.scratch := t2] == v[q.scratch := t2];
    Advance(kind, s, Staged(d, q, have), map[], p, q, c, Effect(torn, q));
    Advance(kind, s, torn, map[], p, q, c, Effect(Staged(d, q, have + {file}), q));
  }

  lemma {:induction false} CopiesAll(kind: Kind, s: System, d: Disk, p: nat, q: Proc, have: set<Name>)
    requires q.op.Install? && q.pc == Adding(Copy) && d.versions.Some? && have <= q.op.files
    requires Reaches(kind, s, With(Staged(d, q, have), map[], p, q))
    ensures Reaches(kind, s, With(Staged(d, q, q.op.files), map[], p, q.(pc := Adding(Check))))
    decreases q.op.files - have
  {
    if q.op.files <= have {
      assert have == q.op.files;
      Advance(kind, s, Staged(d, q, have), map[], p, q, CALM, Effect(Staged(d, q, have), q.(pc := Adding(Check))));
    } else {
      var file :| file in q.op.files && file !in have;
      CopiesFile(kind, s, d, p, q, have, file);
      CopiesAll(kind, s, d, p, q, have + {file});
    }
  }

  /** The version of `q` stands under its name, with the journal of its staging. */
  function PublishedBy(d: Disk, q: Proc): Disk
    requires q.op.Install? && d.versions.Some?
  {
    d.(journal := Some(Installing(q.op.id, q.scratch)),
       versions := Some((d.versions.value - {q.scratch})[q.op.id := Tree(q.op.want, q.op.want, {})]))
  }

  /** A distribution that holds what its manifest lists. */
  predicate Sound(op: Op) {
    op.Install? && op.want != {} && op.files == op.want && ValidHash(op.id)
  }

  lemma Stages(kind: Kind, s: System, d: Disk, p: nat, q: Proc)
    requires Reaches(kind, s, With(d, map[], p, q)) && Sound(q.op) && q.pc == Adding(Inspect)
    requires d.versions.Some? && q.op.id !in d.versions.value
    ensures var d' := SetVersions(d, d.versions.value - {q.scratch}).(journal := Some(Installing(q.op.id, q.scratch)));
            Reaches(kind, s, With(Staged(d', q, {}), map[], p, q.(pc := Adding(Copy))))
  {
    var q1, q2, q3 := q.(pc := Adding(PruneOrphan)), q.(pc := Adding(MakeStaging)), q.(pc := Adding(WriteInstalling));
    Advance(kind, s, d, map[], p, q, CALM, Effect(d, q1));
    OrphanPruner(d.journal, q1);
    PruneToEnd(kind, s, d, p, q1, q.scratch, Adding(MakeStaging));
    var d1 := SetVersions(d, d.versions.value - {q.scratch});
    Advance(kind, s, d1, map[], p, q2, CALM, Effect(Staged(d1, q, {}), q3));
    var d2 := d1.(journal := Some(Installing(q.op.id, q.scratch)));
    Advance(kind, s, Staged(d1, q, {}), map[], p, q3, CALM, Effect(Staged(d2, q, {}), q.(pc := Adding(Copy))));
  }

  lemma Publishes(kind: Kind, s: System, d: Disk, p: nat, q: Proc)
    requires Reaches(kind, s, With(d, map[], p, q)) && Sound(q.op) && q.pc == Adding(Inspect)
    requires d.versions.Some? && q.op.id !in d.versions.value && q.scratch != q.op.id
    ensures Reaches(kind, s, With(PublishedBy(d, q), map[], p, q.(pc := Adding(LinkCommand), isNew := true)))
  {
    var v := d.versions.value - {q.scratch};
    var d1, q1 := SetVersions(d, v).(journal := Some(Installing(q.op.id, q.scratch))), q.(pc := Adding(Copy));
    Stages(kind, s, d, p, q);
    CopiesAll(kind, s, d1, p, q1, {});
    var d2 := Staged(d1, q, q.op.want);
    Advance(kind, s, d2, map[], p, q.(pc := Adding(Check)), CALM, Effect(d2, q.(pc := Adding(Publish))));
    assert v[q.scratch := Tree(q.op.want, q.op.want, {})] - {q.scratch} == v;
    Advance(kind, s, d2, map[], p, q.(pc := Adding(Publish)), CALM,
            Effect(PublishedBy(d, q), q.(pc := Adding(LinkCommand), isNew := true)));
  }

  // ---- when safe installs can break the current version ----

  /** `current` leads to a version that is not complete. */
  predicate CurrentTorn(d: Disk) {
    d.current.Some? && d.versions.Some? && d.current.value in d.versions.value && !CurrentComplete(d)
  }

  /** Some run of safe installs ends with a `current` that leads to a broken version. */
  ghost predicate InstallsCanTear(d: Disk) {
    exists ls :: Possible(Idle(d), ls) && SafeInstalls(Idle(d), ls) && CurrentTorn(End(Idle(d), ls).disk)
  }

  /** The disk on which an install begins to recover. */
  function Entered(d: Disk): Disk {
    d.(prefix := true, lock := true, versions := if d.versions.None? then Some(map[]) else d.versions)
  }

  function RecoveryDir(d: Disk): Dir {
    if d.journal.Some? && d.journal.value.Uninstalling? then d.journal.value.dir else ""
  }

  lemma StillDangling(d: Disk, dir: Dir)
    requires DiskInvariant(d) && d.current.Some? && !CurrentTorn(d) && !CurrentComplete(d) && dir == RecoveryDir(d)
    ensures var r := Recovered(Entered(d), dir);
            r.versions.Some? && r.current == d.current && d.current.value !in r.versions.value
  {
  }

  lemma DanglingTears(d: Disk)
    requires DiskInvariant(d) && d.current.Some? && !CurrentTorn(d) && !CurrentComplete(d)
    ensures InstallsCanTear(d)
  {
    var id, dir, s, p, unlocked := d.current.value, RecoveryDir(d), Idle(d), 0, d.(lock := false);
    var op := Install(id, dir, {"into-md"}, {"into-md"});
    var q := Start(op, p);
    ReachesItself(SafeOnly, s);
    Unlock(SafeOnly, s, s);
    InstallEnters(SafeOnly, s, unlocked, p, op);
    assert Entered(unlocked) == Entered(d);
    Recovers(SafeOnly, s, Entered(d), p, q.(pc := Recovering(Recover)));
    StillDangling(d, dir);
    StagingIsNotPublished(id, p);
    var r := Recovered(Entered(d), dir);
    Publishes(SafeOnly, s, r, p, q.(pc := Adding(Inspect)));
    Tears(s, PublishedBy(r, q), p, q.(pc := Adding(LinkCommand), isNew := true), "into-md");
  }

  /** A failure right after the publication takes the current version apart. */
  lemma Tears(s: System, d: Disk, p: nat, q: Proc, file: Name)
    requires Reaches(SafeOnly, s, With(d, map[], p, q)) && s.procs == map[] && q.op.Install? && q.isNew
    requires q.pc == Adding(LinkCommand) && d.current == Some(q.op.id) && CurrentComplete(d)
    requires file in d.versions.value[q.op.id].have
    ensures InstallsCanTear(s.disk)
  {
    var q1, v := q.(pc := Adding(Unpublish)), d.versions.value;
    Advance(SafeOnly, s, d, map[], p, q, Choice(Before, "", ""), Effect(d, q1));
    var d1 := SetVersions(d, v[q.op.id := WithoutFile(v[q.op.id], file)]);
    Advance(SafeOnly, s, d1.(versions := d.versions), map[], p, q1, Choice(NoFault, "", file), Effect(d1, q1));
    assert file !in d1.versions.value[q.op.id].have && file in d1.versions.value[q.op.id].want;
    var ls :| Leads(SafeOnly, s, ls, With(d1, map[], p, q1));
    SafeRun(s, ls);
    assert s == Idle(s.disk) && CurrentTorn(End(Idle(s.disk), ls).disk);
  }

  /** Safe installs, and failures at any point of them, can make `current` lead to a broken version
      exactly when, before them, it does not lead to a complete one. */
  lemma TornExactly(d: Disk)
    requires DiskInvariant(d)
    ensures InstallsCanTear(d) <==> d.current.Some? && !CurrentComplete(d)
  {
    if d.current.Some? && !CurrentComplete(d) {
      if CurrentTorn(d) {
        assert Possible(Idle(d), []) && SafeInstalls(Idle(d), []) && End(Idle(d), []) == Idle(d);
      } else {
        DanglingTears(d);
      }
    } else if InstallsCanTear(d) {
      var ls :| Possible(Idle(d), ls) && SafeInstalls(Idle(d), ls) && CurrentTorn(End(Idle(d), ls).disk);
      InstallsKeepCurrentSound(Idle(d), ls);
    }
  }
}
