/** Whole invocations of the installer on a disk that nobody else uses. */
module InstallerRuns {
  import opened InstallerDisk
  import opened InstallerMachine
  import opened InstallerSystem
  import opened InstallerRecovery
  import opened InstallerTheorems
  import opened InstallerCommands
  import opened InstallerRefusal
  import opened InstallerRollback
  import opened InstallerHost

  lemma StepRunsInstaller()
    ensures RunsEntry(Step) && RunsRecovery(Step) && RunsStaging(Step) && RunsLinking(Step)
    ensures RunsUninstall(Step) && RunsClose(Step)
  {
    StepRunsEntry();
    StepRunsRecovery();
    StepRunsStaging();
    StepRunsLinking();
    StepRunsUninstall();
    StepRunsClose();
  }

  function Labels(pid: nat, script: seq<Choice>): seq<Label> {
    seq(|script|, i requires 0 <= i < |script| => Label.Run(pid, script[i]))
  }

  lemma NextOfOne(d: Disk, pid: nat, q: Proc, c: Choice)
    ensures Next(System(d, map[pid := q]), Label.Run(pid, c))
         == System(Step(d, q, c).disk, map[pid := Step(d, q, c).proc])
  {
    var q' := Step(d, q, c).proc;
    assert map[pid := q][pid := q'] == map[pid := q'];
  }

  /** The imperative installer never leaves the machine: each of its instants is the end of a run
      of a system with one process. */
  lemma {:induction false} FollowIsRun(d: Disk, op: Op, pid: nat, script: seq<Choice>)
    ensures var s, e := System(d, map[pid := Start(op, pid)]), Follow(Step, Effect(d, Start(op, pid)), script);
            && Possible(s, Labels(pid, script))
            && End(s, Labels(pid, script)) == System(e.disk, map[pid := e.proc])
    decreases |script|
  {
    var s := System(d, map[pid := Start(op, pid)]);
    if script == [] {
      assert Labels(pid, script) == [];
    } else {
      var last := |script| - 1;
      FollowIsRun(d, op, pid, script[..last]);
      var ls := Labels(pid, script[..last]);
      var l := Label.Run(pid, script[last]);
      assert Labels(pid, script) == ls + [l];
      EndAppend(s, ls, l);
      var e := Follow(Step, Effect(d, Start(op, pid)), script[..last]);
      NextOfOne(e.disk, pid, e.proc, script[last]);
    }
  }

  /** Killing an invocation at any instant leaves a disk that recovery can start from. */
  lemma EveryInstantIsSafe(d: Disk, op: Op, pid: nat, script: seq<Choice>, i: nat)
    requires DiskInvariant(d) && i <= |script|
    ensures DiskInvariant(Follow(Step, Effect(d, Start(op, pid)), script[..i]).disk)
  {
    var s := System(d, map[pid := Start(op, pid)]);
    if op.Install? {
      StagingIsNotPublished(op.id, pid);
    }
    assert ProcInvariant(d, Start(op, pid));
    FollowIsRun(d, op, pid, script[..i]);
    RunsKeep(s, Labels(pid, script[..i]));
  }

  lemma RecoveredIsSettled(d: Disk, dir: Dir)
    requires DiskInvariant(d) && !ForeignJournal(d, dir)
    ensures Settled(Recovered(d, dir))
  {
    if d.journal.Some? {
      match d.journal.value
      case Installing(_, staging) =>
        forall n | d.versions.Some? && n in d.versions.value && n != staging
          ensures ValidHash(n) || Empty(d.versions.value[n])
        {
          assert VersionSafe(d, n);
        }
      case Uninstalling(_, removed, _) =>
        assert forall n | n in d.removed :: MovedTreeSafe(d, n);
        assert d.removed - {removed} == map[];
    }
  }

  lemma RecoveredKeepsVersion(d: Disk, dir: Dir, id: Name)
    requires DiskInvariant(d) && d.versions.Some? && ValidHash(id)
    ensures var v := Recovered(d, dir).versions;
            && v.Some?
            && (id in v.value <==> id in d.versions.value)
            && (id in v.value ==> v.value[id] == d.versions.value[id])
  {
  }

  lemma ErasedIsUninstalled(d: Disk, dir: Dir, lock: bool)
    requires Settled(d) && !CommandAt(d, dir).Foreign?
    ensures Uninstalled(Erase(d, dir).(lock := lock), dir) && Erase(d, dir).versions.None?
  {
  }

  lemma UninstallOutcome(d: Disk, removed: Name, dir: Dir)
    requires DiskInvariant(d) && !ForeignJournal(d, dir) && !CommandAt(d, dir).Foreign?
    ensures CanUninstall(d, removed, dir)
    ensures forall lock :: Uninstalled(Erase(Recovered(d, dir), dir).(lock := lock), dir)
    ensures Erase(Recovered(d, dir), dir).versions.None?
  {
    RecoveredIsSettled(d, dir);
    RecoveredCommands(d, dir);
    forall lock {
      ErasedIsUninstalled(Recovered(d, dir), dir, lock);
    }
  }

  /** From any disk a crash can leave, an uninstall that succeeds leaves nothing; and when no call fails it succeeds
      exactly when nobody holds the lock, the journal is not one for another command directory and the command is
      not somebody else's, or there is no prefix. */
  method RunUninstall(d: Disk, pid: nat, dir: Dir, reliable: bool) returns (ok: bool, d': Disk, ghost script: seq<Choice>)
    requires DiskInvariant(d)
    ensures Follow(Step, Effect(d, Start(Op.Uninstall(dir), pid)), script).disk == d'
    ensures ok && d.prefix ==> Uninstalled(d', dir) && d'.versions.None?
    ensures ok && !d.prefix ==> d' == d
    ensures CommandsKept(d, d', dir)
    ensures CommandAt(d, dir).Foreign? ==> LinksKept(d, d') && PublishedKept(d, d')
    ensures Barred(d, Op.Uninstall(dir)) ==> OnlyDirectories(d, d')
    ensures reliable ==>
              (ok <==> !d.prefix || (!d.lock && !ForeignJournal(d, dir) && !CommandAt(d, dir).Foreign?))
  {
    var host := new Host(d, Op.Uninstall(dir), pid, reliable);
    StepRunsInstaller();
    if !ForeignJournal(d, dir) && !CommandAt(d, dir).Foreign? {
      UninstallOutcome(Locked(d), RemovedName(pid), dir);
    }
    ok := host.Uninstall(RemovedName(pid), dir);
    d', script := host.disk, host.script;
    assert host.at.pc == Done(ok);
    FollowLeavesForeign(d, Start(Op.Uninstall(dir), pid), script);
    UninstallRefused(d, pid, dir, script);
  }

  lemma UninstallRefused(d: Disk, pid: nat, dir: Dir, script: seq<Choice>)
    requires DiskInvariant(d)
    ensures var e := Follow(Step, Effect(d, Start(Op.Uninstall(dir), pid)), script);
      && (CommandAt(d, dir).Foreign? ==> LinksKept(d, e.disk) && PublishedKept(d, e.disk))
      && (Barred(d, Op.Uninstall(dir)) ==> OnlyDirectories(d, e.disk))
      && (e.proc.pc == Done(true) && d.prefix ==> !d.lock && !ForeignJournal(d, dir) && !CommandAt(d, dir).Foreign?)
  {
    if CommandAt(d, dir).Foreign? {
      ForeignRefuses(d, Op.Uninstall(dir), pid, script);
      ForeignKeepsVersions(d, dir, pid, script);
    }
    if Barred(d, Op.Uninstall(dir)) {
      BarredRefuses(d, Op.Uninstall(dir), pid, script);
    }
  }

  /** An invocation, whether it succeeds or not, leaves commands of other programs and other directories alone. */
  lemma {:induction false} FollowLeavesForeign(d: Disk, q: Proc, script: seq<Choice>)
    ensures var e := Follow(Step, Effect(d, q), script);
            e.proc.op == q.op && CommandsKept(d, e.disk, q.op.dir)
    decreases |script|
  {
    if script != [] {
      var last := |script| - 1;
      FollowLeavesForeign(d, q, script[..last]);
      var e := Follow(Step, Effect(d, q), script[..last]);
      StepKeepsOp(e.disk, e.proc, script[last]);
      StepLeavesForeign(e.disk, e.proc, script[last]);
    }
  }

  /** What an install needs is there before the recovery as it is after it. */
  lemma CanInstallOnDisk(d: Disk, id: Name, dir: Dir, want: set<Name>, files: set<Name>)
    requires DiskInvariant(d) && ValidHash(id)
    ensures !ForeignJournal(d, dir) && !CommandAt(d, dir).Foreign? && CanStage(WithDirectories(d), id, want, files)
            ==> CanInstall(Locked(WithDirectories(d)), id, dir, want, files)
  {
    var d0 := Locked(WithDirectories(d));
    RecoveredKeepsVersion(d0, dir, id);
    RecoveredCommands(d0, dir);
  }

  lemma InstalledRuns(d: Disk, d': Disk, staging: Name, id: Name, dir: Dir, want: set<Name>, files: set<Name>)
    requires IsInstalled(d, Locked(d'), staging, id, dir, want, files) && staging != id
    ensures Runs(d', dir, id) && d'.journal.None?
  {
  }

  /** From any disk a crash can leave, a successful install leaves a command that runs the requested version,
      complete; and when no call fails it succeeds exactly when nobody holds the lock, the journal is not one for
      another command directory, the command is not somebody else's, and the version is either whole already or
      whole in the distribution. Published versions stay in any case. */
  method RunInstall(d: Disk, pid: nat, id: Name, dir: Dir, want: set<Name>, files: set<Name>, reliable: bool)
    returns (ok: bool, d': Disk, ghost script: seq<Choice>)
    requires DiskInvariant(d)
    ensures Follow(Step, Effect(d, Start(Op.Install(id, dir, want, files), pid)), script).disk == d'
    ensures ok ==> Runs(d', dir, id) && d'.journal.None? && ValidHash(id) && !d.lock
    ensures CommandsKept(d, d', dir) && PublishedKept(d, d')
    ensures CommandAt(d, dir).Foreign? ==> LinksKept(d, d')
    ensures Barred(d, Op.Install(id, dir, want, files)) ==> OnlyDirectories(d, d')
    ensures reliable ==>
              (ok <==> && ValidHash(id) && !d.lock && !ForeignJournal(d, dir) && !CommandAt(d, dir).Foreign?
                       && CanStage(WithDirectories(d), id, want, files))
  {
    var host := new Host(d, Op.Install(id, dir, want, files), pid, reliable);
    StepRunsInstaller();
    ghost var staging := StagingName(id, pid);
    if ValidHash(id) {
      StagingIsNotPublished(id, pid);
      CanInstallOnDisk(d, id, dir, want, files);
    }
    ok := host.Install(StagingName(id, pid), id, dir, want, files);
    d', script := host.disk, host.script;
    assert host.at.pc == Done(ok);
    FollowLeavesForeign(d, Start(Op.Install(id, dir, want, files), pid), script);
    InstallRefused(d, pid, Op.Install(id, dir, want, files), script);
    if ok {
      InstalledRuns(Recovered(Locked(WithDirectories(d)), dir), d', staging, id, dir, want, files);
      InstalledWasStaged(d, d', staging, id, dir, want, files);
    }
  }

  lemma InstallRefused(d: Disk, pid: nat, op: Op, script: seq<Choice>)
    requires DiskInvariant(d) && op.Install?
    ensures var e := Follow(Step, Effect(d, Start(op, pid)), script);
      && PublishedKept(d, e.disk)
      && (CommandAt(d, op.dir).Foreign? ==> LinksKept(d, e.disk))
      && (Barred(d, op) ==> OnlyDirectories(d, e.disk))
      && (e.proc.pc == Done(true) ==> !d.lock && !ForeignJournal(d, op.dir) && !CommandAt(d, op.dir).Foreign? && ValidHash(op.id))
  {
    InstallKeepsVersions(d, op, pid, script);
    if CommandAt(d, op.dir).Foreign? {
      ForeignRefuses(d, op, pid, script);
    }
    if Barred(d, op) {
      BarredRefuses(d, op, pid, script);
    }
  }

  lemma InstalledWasStaged(d: Disk, d': Disk, staging: Name, id: Name, dir: Dir, want: set<Name>, files: set<Name>)
    requires DiskInvariant(d) && ValidHash(id)
    requires IsInstalled(Recovered(Locked(WithDirectories(d)), dir), Locked(d'), staging, id, dir, want, files)
    ensures CanStage(WithDirectories(d), id, want, files)
  {
    RecoveredKeepsVersion(Locked(WithDirectories(d)), dir, id);
  }
}
