/** The installer's own control flow, each file-system call tied to one step of a machine. */
module InstallerHost {
  import opened Wrappers
  import opened InstallerDisk
  import opened InstallerMachine
  import opened InstallerRecovery

  type Machine = (Disk, Proc, Choice) -> Effect

  /** A machine driven by a script of choices. */
  ghost function Follow(m: Machine, e: Effect, script: seq<Choice>): Effect
    decreases |script|
  {
    if script == [] then e
    else
      var last := |script| - 1;
      var e' := Follow(m, e, script[..last]);
      m(e'.disk, e'.proc, script[last])
  }

  lemma FollowNext(m: Machine, e: Effect, script: seq<Choice>, c: Choice)
    ensures Follow(m, e, script + [c]) == m(Follow(m, e, script).disk, Follow(m, e, script).proc, c)
  {
    assert (script + [c])[..|script|] == script;
  }

  /** A machine that takes the recovery steps of the installer. */
  ghost predicate RunsRecovery(m: Machine) {
    && (forall d, q: Proc, c | q.pc == Recovering(Recover) :: m(d, q, c) == RecoverStep(d, q, c))
    && (forall d, q: Proc, c | q.pc == Recovering(PruneStaging) :: m(d, q, c) == PruneStagingStep(d, q, c))
    && (forall d, q: Proc, c | q.pc == Recovering(PruneRemoved) :: m(d, q, c) == PruneRemovedStep(d, q, c))
    && (forall d, q: Proc, c | q.pc == Recovering(Restore) :: m(d, q, c) == RestoreStep(d, q, c))
    && (forall d, q: Proc, c | q.pc == Recovering(ClearRecovered) ::
          m(d, q, c) == AttemptClear(d, q, c, AfterRecovery(q.op), FAIL))
  }

  ghost predicate RunsUninstall(m: Machine) {
    && (forall d, q: Proc, c | q.pc == Removing(Validate) :: m(d, q, c) == ValidateStep(d, q, c))
    && (forall d, q: Proc, c | q.pc == Removing(WritePrepared) ::
          m(d, q, c) == WriteUninstallingStep(d, q, c, Uninstalling(false, q.scratch, q.op.dir), Removing(MoveVersions)))
    && (forall d, q: Proc, c | q.pc == Removing(MoveVersions) :: m(d, q, c) == MoveVersionsStep(d, q, c))
    && (forall d, q: Proc, c | q.pc == Removing(Unlink) :: m(d, q, c) == UnlinkStep(d, q, c))
    && (forall d, q: Proc, c | q.pc == Removing(MoveBack) :: m(d, q, c) == MoveBackStep(d, q, c))
    && (forall d, q: Proc, c | q.pc == Removing(WriteCommitted) ::
          m(d, q, c) == WriteUninstallingStep(d, q, c, Uninstalling(true, q.scratch, q.op.dir), Removing(DropRemoved)))
    && (forall d, q: Proc, c | q.pc == Removing(DropRemoved) ::
          m(d, q, c) == PruneMoved(d, q, c, q.scratch, Removing(DropAuthority)))
    && (forall d, q: Proc, c | q.pc == Removing(DropAuthority) :: m(d, q, c) == DropAuthorityStep(d, q, c))
    && (forall d, q: Proc, c | q.pc == Removing(DropCurrent) :: m(d, q, c) == DropCurrentStep(d, q, c))
  }

  ghost predicate RunsStaging(m: Machine) {
    && (forall d, q: Proc, c | q.op.Install? && q.pc == Adding(Inspect) :: m(d, q, c) == InspectStep(d, q, c))
    && (forall d, q: Proc, c | q.op.Install? && q.pc == Adding(PruneOrphan) ::
          m(d, q, c) == PruneVersion(d, q, c, q.scratch, Adding(MakeStaging)))
    && (forall d, q: Proc, c | q.op.Install? && q.pc == Adding(MakeStaging) :: m(d, q, c) == MakeStagingStep(d, q, c))
    && (forall d, q: Proc, c | q.op.Install? && q.pc == Adding(WriteInstalling) ::
          m(d, q, c) == WriteInstallingStep(d, q, c))
    && (forall d, q: Proc, c | q.op.Install? && q.pc == Adding(Copy) :: m(d, q, c) == CopyStep(d, q, c))
    && (forall d, q: Proc, c | q.op.Install? && q.pc == Adding(Check) :: m(d, q, c) == CheckStep(d, q, c))
    && (forall d, q: Proc, c | q.op.Install? && q.pc == Adding(Publish) :: m(d, q, c) == PublishStep(d, q, c))
    && (forall d, q: Proc, c | q.op.Install? && q.pc == Adding(Rollback) ::
          m(d, q, c) == PruneVersion(d, q, c, q.scratch, Adding(ClearRollback)))
    && (forall d, q: Proc, c | q.op.Install? && q.pc == Adding(ClearRollback) ::
          m(d, q, c) == AttemptClear(d, q, c, FAIL, FAIL))
  }

  ghost predicate RunsLinking(m: Machine) {
    && (forall d, q: Proc, c | q.op.Install? && q.pc == Adding(LinkCommand) :: m(d, q, c) == LinkCommandStep(d, q, c))
    && (forall d, q: Proc, c | q.op.Install? && q.pc == Adding(WriteAuthority) ::
          m(d, q, c) == WriteAuthorityStep(d, q, c))
    && (forall d, q: Proc, c | q.op.Install? && q.pc == Adding(LinkCurrent) :: m(d, q, c) == LinkCurrentStep(d, q, c))
    && (forall d, q: Proc, c | q.op.Install? && q.pc == Adding(Unpublish) ::
          m(d, q, c) == PruneVersion(d, q, c, q.op.id, Closing(ClearFailed)))
  }

  ghost predicate RunsClose(m: Machine) {
    && (forall d, q: Proc, c | q.pc == Closing(ClearFailed) :: m(d, q, c) == AttemptClear(d, q, c, FAIL, FAIL))
    && (forall d, q: Proc, c | q.pc == Closing(ClearFinished) ::
          m(d, q, c) == AttemptClear(d, q, c, Closing(Release(true)), FAIL))
    && (forall d, q: Proc, c | q.pc.Closing? && q.pc.closing.Release? ::
          m(d, q, c) == Goto(if c.fault.Before? then d else d.(lock := false), q, Done(q.pc.closing.ok)))
  }

  ghost predicate RunsEntry(m: Machine) {
    && (forall d, q: Proc, c | q.pc == Entry(Prepare) :: m(d, q, c) == PrepareStep(d, q, c))
    && (forall d, q: Proc, c | q.pc == Entry(MakeVersions) :: m(d, q, c) == MakeVersionsStep(d, q, c))
    && (forall d, q: Proc, c | q.pc == Entry(Lock) :: m(d, q, c) == LockStep(d, q, c))
  }

  lemma StepRunsRecovery()
    ensures RunsRecovery(Step)
  {
  }

  lemma StepRunsUninstall()
    ensures RunsUninstall(Step)
  {
  }

  lemma StepRunsStaging()
    ensures RunsStaging(Step)
  {
  }

  lemma StepRunsLinking()
    ensures RunsLinking(Step)
  {
  }

  lemma StepRunsClose()
    ensures RunsClose(Step)
  {
  }

  lemma StepRunsEntry()
    ensures RunsEntry(Step)
  {
  }

  /** Of the directory `n` inside `versions` a part is left, and nothing else has changed. */
  predicate PartlyRemoved(d: Disk, d': Disk, n: Name) {
    && d.versions.Some? && d'.versions.Some? && n in d.versions.value && n in d'.versions.value
    && PartOf(d'.versions.value[n], d.versions.value[n])
    && d' == SetVersions(d, d.versions.value[n := d'.versions.value[n]])
  }

  lemma RemovesMore(d: Disk, d1: Disk, n: Name, file: Name)
    requires PartlyRemoved(d, d1, n)
    ensures var v := d1.versions.value; PartlyRemoved(d, SetVersions(d1, v[n := WithoutFile(v[n], file)]), n)
    ensures d1.versions.value - {n} == d.versions.value - {n}
  {
    var v, t := d1.versions.value, WithoutFile(d1.versions.value[n], file);
    assert d.versions.value[n := v[n]][n := t] == d.versions.value[n := t];
  }

  /** The staging directory holds nothing but files of the distribution, and nothing else has changed. */
  predicate PartlyCopied(d: Disk, d': Disk, staging: Name, files: set<Name>) {
    && d.versions.Some? && d'.versions.Some? && staging in d.versions.value && staging in d'.versions.value
    && PartOf(d'.versions.value[staging], Tree(d.versions.value[staging].want, files, files))
    && d' == SetVersions(d, d.versions.value[staging := d'.versions.value[staging]])
  }

  lemma CopiesMore(d: Disk, d1: Disk, staging: Name, files: set<Name>, file: Name)
    requires PartlyCopied(d, d1, staging, files) && file in files
    ensures var v := d1.versions.value;
            PartlyCopied(d, SetVersions(d1, v[staging := CopyFile(v[staging], file)]), staging, files)
  {
    var v, t := d1.versions.value, CopyFile(d1.versions.value[staging], file);
    assert d.versions.value[staging := v[staging]][staging := t] == d.versions.value[staging := t];
  }

  /** Some entry of a tree that is not empty. */
  method PickFile(t: Tree) returns (file: Name)
    requires !Empty(t)
    ensures file in Entries(t)
  {
    file :| file in Entries(t);
  }

  /** One process on a disk that nobody else uses. `reliable` means that no call fails. */
  class Host {
    var disk: Disk
    const reliable: bool
    ghost const machine: Machine
    ghost const start: Effect
    ghost var script: seq<Choice>
    ghost var at: Proc

    /** The run so far is the run of the machine under `script`. */
    ghost predicate Valid()
      reads this
    {
      Follow(machine, start, script) == Effect(disk, at)
    }

    constructor (d: Disk, op: Op, pid: nat, reliable: bool)
      ensures Valid() && disk == d && at == Start(op, pid) && this.reliable == reliable
      ensures start == Effect(d, Start(op, pid)) && script == [] && machine == Step
    {
      disk := d;
      this.reliable := reliable;
      at := Start(op, pid);
      start := Effect(d, Start(op, pid));
      script := [];
      machine := Step;
    }

    /** The outcome of the next call. */
    method Outcome() returns (fault: Fault)
      ensures reliable ==> fault.NoFault?
    {
      fault := *;
      if reliable {
        fault := NoFault;
      }
    }

    /** Records that the change from `before` to the present disk was one machine step. */
    ghost method Log(before: Disk, c: Choice, next: Proc)
      requires Follow(machine, start, script) == Effect(before, at)
      requires machine(before, at, c) == Effect(disk, next)
      modifies `script, `at
      ensures Valid() && at == next && script == old(script) + [c]
    {
      FollowNext(machine, start, script, c);
      script := script + [c];
      at := next;
    }

    /** One call that turns the disk into `after`. */
    method Call(after: Disk, ghost good: Pc, ghost bad: Pc) returns (ok: bool)
      requires Valid()
      requires forall c :: machine(disk, at, c) == Attempt(disk, after, at, c, good, bad)
      modifies this
      ensures Valid()
      ensures at == old(at).(pc := if ok then good else bad)
      ensures ok ==> disk == after
      ensures reliable ==> ok
    {
      ghost var before := disk;
      var fault := Outcome();
      if !fault.Before? {
        disk := after;
      }
      ok := fault.NoFault?;
      Log(before, Choice(fault, "", ""), at.(pc := if ok then good else bad));
    }

    method ClearTransaction(ghost good: Pc, ghost bad: Pc) returns (ok: bool)
      requires Valid()
      requires forall c :: machine(disk, at, c) == AttemptClear(disk, at, c, good, bad)
      modifies this
      ensures Valid()
      ensures at == old(at).(pc := if ok then good else bad)
      ensures ok ==> disk == ClearJournal(old(disk))
      ensures reliable ==> ok
    {
      if disk.journal.None? {
        Log(disk, CALM, at.(pc := good));
        return true;
      }
      ok := Call(ClearJournal(disk), good, bad);
    }

    method RemoveFile(n: Name, file: Name, ghost gone: Pc) returns (ok: bool)
      requires Valid() && disk.versions.Some? && n in disk.versions.value
      requires file in Entries(disk.versions.value[n])
      requires forall c :: machine(disk, at, c) == PruneVersion(disk, at, c, n, gone)
      modifies this
      ensures Valid()
      ensures at == old(at).(pc := if ok then old(at).pc else FAIL)
      ensures var v := old(disk).versions.value;
              disk == if ok then SetVersions(old(disk), v[n := WithoutFile(v[n], file)]) else old(disk)
      ensures reliable ==> ok
    {
      ghost var before := disk;
      var fault := Outcome();
      ok := !fault.Before?;
      if ok {
        var v := disk.versions.value;
        disk := SetVersions(disk, v[n := WithoutFile(v[n], file)]);
      }
      Log(before, Choice(fault, "", file), at.(pc := if ok then at.pc else FAIL));
    }

    method RemoveDirectory(n: Name, ghost gone: Pc) returns (ok: bool)
      requires Valid() && disk.versions.Some? && n in disk.versions.value && Empty(disk.versions.value[n])
      requires forall c :: machine(disk, at, c) == PruneVersion(disk, at, c, n, gone)
      modifies this
      ensures Valid()
      ensures at == old(at).(pc := if ok then gone else FAIL)
      ensures disk == if ok then SetVersions(old(disk), old(disk).versions.value - {n}) else old(disk)
      ensures reliable ==> ok
    {
      ghost var before := disk;
      var fault := Outcome();
      ok := !fault.Before?;
      if ok {
        disk := SetVersions(disk, disk.versions.value - {n});
      }
      Log(before, Choice(fault, "", ""), at.(pc := if ok then gone else FAIL));
    }

    /** Deletes the directory `n` inside `versions`, entry by entry. */
    method RemoveTree(n: Name, ghost gone: Pc) returns (ok: bool)
      requires Valid()
      requires forall d: Disk, c | d.journal == disk.journal :: machine(d, at, c) == PruneVersion(d, at, c, n, gone)
      modifies this
      ensures Valid()
      ensures at == old(at).(pc := if ok then gone else FAIL)
      ensures ok ==> disk == old(disk).(versions := Without(old(disk).versions, n))
      ensures !ok ==> PartlyRemoved(old(disk), disk, n)
      ensures reliable ==> ok
    {
      if disk.versions.None? || n !in disk.versions.value {
        assert disk.versions.Some? ==> disk.versions.value - {n} == disk.versions.value;
        Log(disk, CALM, at.(pc := gone));
        return true;
      }
      assert disk.versions.value[n := disk.versions.value[n]] == disk.versions.value;
      while !Empty(disk.versions.value[n])
        invariant Valid() && at == old(at)
        invariant PartlyRemoved(old(disk), disk, n)
        decreases Entries(disk.versions.value[n])
      {
        var file := PickFile(disk.versions.value[n]);
        PruneShrinks(disk.versions.value, n, file);
        RemovesMore(old(disk), disk, n, file);
        ok := RemoveFile(n, file, gone);
        if !ok {
          return;
        }
      }
      RemovesMore(old(disk), disk, n, "");
      ok := RemoveDirectory(n, gone);
    }

    method RemoveMovedFile(n: Name, tree: Name, file: Name, ghost gone: Pc) returns (ok: bool)
      requires Valid() && n in disk.removed && tree in disk.removed[n].trees
      requires forall c :: machine(disk, at, c) == PruneMoved(disk, at, c, n, gone)
      modifies this
      ensures Valid()
      ensures at == old(at).(pc := if ok then old(at).pc else FAIL)
      ensures var r := old(disk).removed[n];
              ok ==> disk == old(disk).(removed := old(disk).removed[n := PruneRemovedAt(r, Choice(NoFault, tree, file))])
      ensures reliable ==> ok
    {
      ghost var before := disk;
      var fault := Outcome();
      ok := !fault.Before?;
      if ok {
        var r := disk.removed[n];
        disk := disk.(removed := disk.removed[n := PruneRemovedAt(r, Choice(NoFault, tree, file))]);
      }
      Log(before, Choice(fault, tree, file), at.(pc := if ok then at.pc else FAIL));
    }

    method RemoveMovedRoot(n: Name, ghost gone: Pc) returns (ok: bool)
      requires Valid() && n in disk.removed && disk.removed[n].trees == map[]
      requires forall c :: machine(disk, at, c) == PruneMoved(disk, at, c, n, gone)
      modifies this
      ensures Valid()
      ensures at == old(at).(pc := if ok then gone else FAIL)
      ensures ok ==> disk == old(disk).(removed := old(disk).removed - {n})
      ensures reliable ==> ok
    {
      ghost var before := disk;
      var fault := Outcome();
      ok := !fault.Before?;
      if ok {
        disk := disk.(removed := disk.removed - {n});
      }
      Log(before, Choice(fault, "", ""), at.(pc := if ok then gone else FAIL));
    }

    /** Empties and removes one tree of a moved `versions` directory. */
    method RemoveMovedTree(n: Name, tree: Name, ghost gone: Pc) returns (ok: bool)
      requires Valid() && n in disk.removed && tree in disk.removed[n].trees
      requires forall d: Disk, c | d.journal == disk.journal :: machine(d, at, c) == PruneMoved(d, at, c, n, gone)
      modifies this
      ensures Valid()
      ensures at == old(at).(pc := if ok then old(at).pc else FAIL)
      ensures ok ==> disk == old(disk).(removed := disk.removed) && disk.removed - {n} == old(disk).removed - {n}
      ensures ok ==> n in disk.removed && disk.removed[n].trees == old(disk).removed[n].trees - {tree}
      ensures reliable ==> ok
    {
      while !Empty(disk.removed[n].trees[tree])
        invariant Valid() && at == old(at)
        invariant disk == old(disk).(removed := disk.removed) && disk.removed - {n} == old(disk).removed - {n}
        invariant n in disk.removed && tree in disk.removed[n].trees
        invariant disk.removed[n].trees - {tree} == old(disk).removed[n].trees - {tree}
        decreases Entries(disk.removed[n].trees[tree])
      {
        var file := PickFile(disk.removed[n].trees[tree]);
        PruneShrinks(disk.removed[n].trees, tree, file);
        ok := RemoveMovedFile(n, tree, file, gone);
        if !ok {
          return;
        }
      }
      ok := RemoveMovedFile(n, tree, "", gone);
    }

    /** Deletes a moved `versions` directory, tree by tree. */
    method RemoveMoved(n: Name, ghost gone: Pc) returns (ok: bool)
      requires Valid()
      requires forall d: Disk, c | d.journal == disk.journal :: machine(d, at, c) == PruneMoved(d, at, c, n, gone)
      modifies this
      ensures Valid()
      ensures at == old(at).(pc := if ok then gone else FAIL)
      ensures ok ==> disk == old(disk).(removed := old(disk).removed - {n})
      ensures reliable ==> ok
    {
      if n !in disk.removed {
        assert disk.removed - {n} == disk.removed;
        Log(disk, CALM, at.(pc := gone));
        return true;
      }
      while disk.removed[n].trees != map[]
        invariant Valid() && at == old(at)
        invariant disk == old(disk).(removed := disk.removed) && disk.removed - {n} == old(disk).removed - {n}
        invariant n in disk.removed
        decreases disk.removed[n].trees.Keys
      {
        var tree :| tree in disk.removed[n].trees;
        ok := RemoveMovedTree(n, tree, gone);
        if !ok {
          return;
        }
      }
      ok := RemoveMovedRoot(n, gone);
    }

    /** The journal of an install: its staging directory goes. */
    method RecoverInstall(staging: Name, ghost dir: Dir) returns (ok: bool)
      requires Valid() && RunsRecovery(machine) && at.pc == Recovering(RecoveryPc.Recover)
      requires disk.journal.Some? && disk.journal.value.Installing? && disk.journal.value.staging == staging
      modifies this
      ensures Valid()
      ensures at == old(at).(pc := if ok then Recovering(ClearRecovered) else FAIL)
      ensures ok ==> disk.journal.Some? && ClearJournal(disk) == Recovered(old(disk), dir)
      ensures reliable ==> ok
    {
      Log(disk, CALM, at.(pc := Recovering(PruneStaging)));
      ok := RemoveTree(staging, Recovering(ClearRecovered));
    }

    /** The journal of an uninstall for `dir`: the moved tree is restored or deleted. */
    method RecoverUninstall(committed: bool, removed: Name, dir: Dir) returns (ok: bool)
      requires Valid() && RunsRecovery(machine) && at.pc == Recovering(RecoveryPc.Recover) && at.op.dir == dir
      requires disk.journal == Some(Uninstalling(committed, removed, dir)) && removed in disk.removed
      modifies this
      ensures Valid()
      ensures at == old(at).(pc := if ok then Recovering(ClearRecovered) else FAIL)
      ensures ok ==> disk.journal.Some? && ClearJournal(disk) == Recovered(old(disk), dir)
      ensures reliable ==> ok
    {
      if !committed && !CommandAt(disk, dir).Absent? && disk.versions.None? {
        Log(disk, CALM, at.(pc := Recovering(Restore)));
        ok := Call(RestoreMoved(disk, removed), Recovering(ClearRecovered), FAIL);
      } else {
        Log(disk, CALM, at.(pc := Recovering(PruneRemoved)));
        ok := RemoveMoved(removed, Recovering(ClearRecovered));
      }
    }

    /** Does what the journal asks for and leaves only the journal to clear. */
    method Settle(dir: Dir) returns (ok: bool)
      requires Valid() && RunsRecovery(machine) && at.pc == Recovering(RecoveryPc.Recover) && at.op.dir == dir
      requires disk.journal.Some? && !ForeignJournal(disk, dir)
      modifies this
      ensures Valid()
      ensures at == old(at).(pc := if ok then Recovering(ClearRecovered) else FAIL)
      ensures ok ==> disk.journal.Some? && ClearJournal(disk) == Recovered(old(disk), dir)
      ensures reliable ==> ok
    {
      match disk.journal.value
      case Installing(_, staging) =>
        ok := RecoverInstall(staging, dir);
      case Uninstalling(committed, removed, _) =>
        if removed in disk.removed {
          ok := RecoverUninstall(committed, removed, dir);
        } else {
          assert disk.removed - {removed} == disk.removed;
          Log(disk, CALM, at.(pc := Recovering(ClearRecovered)));
          ok := true;
        }
    }

    /** Undoes or finishes what an interrupted process left, for the command directory `dir`. */
    method Recover(dir: Dir) returns (ok: bool)
      requires Valid() && RunsRecovery(machine) && at.pc == Recovering(RecoveryPc.Recover) && at.op.dir == dir
      modifies this
      ensures Valid()
      ensures at == old(at).(pc := if ok then AfterRecovery(old(at).op) else FAIL)
      ensures ok ==> disk == Recovered(old(disk), dir) && !ForeignJournal(old(disk), dir)
      ensures reliable && !ForeignJournal(old(disk), dir) ==> ok
    {
      if disk.journal.None? {
        Log(disk, CALM, at.(pc := AfterRecovery(at.op)));
        return true;
      }
      var fault := Outcome();
      if fault.Before? || ForeignJournal(disk, dir) {
        Log(disk, Choice(fault, "", ""), at.(pc := FAIL));
        return false;
      }
      ok := Settle(dir);
      if ok {
        ok := ClearTransaction(AfterRecovery(at.op), FAIL);
      }
    }

    /** Takes the lock; nobody else may hold it. */
    method Acquire() returns (ok: bool)
      requires Valid() && RunsEntry(machine) && at.pc == Entry(Lock)
      modifies this
      ensures Valid()
      ensures at == old(at).(pc := if ok then Recovering(RecoveryPc.Recover) else Done(false))
      ensures disk == if ok then old(disk).(lock := true) else old(disk)
      ensures ok ==> !old(disk).lock
      ensures reliable && !old(disk).lock ==> ok
    {
      ghost var before := disk;
      var fault := Outcome();
      ok := !disk.lock && !fault.Before?;
      if ok {
        disk := disk.(lock := true);
      }
      Log(before, Choice(fault, "", ""), at.(pc := if ok then Recovering(RecoveryPc.Recover) else Done(false)));
    }

    /** Gives up the lock when the operation returns; a failure to do so is ignored. */
    method Drop(result: bool)
      requires Valid() && RunsClose(machine) && at.pc == Closing(Release(result))
      modifies this
      ensures Valid()
      ensures at == old(at).(pc := Done(result))
      ensures disk == old(disk).(lock := disk.lock)
      ensures reliable ==> !disk.lock
    {
      ghost var before := disk;
      var fault := Outcome();
      if !fault.Before? {
        disk := disk.(lock := false);
      }
      Log(before, Choice(fault, "", ""), at.(pc := Done(result)));
    }

    /** Moves `versions` aside; the journal already names the place. */
    method MoveAside(removed: Name) returns (ok: bool)
      requires Valid() && RunsUninstall(machine) && at.pc == Removing(MoveVersions) && at.scratch == removed
      requires disk.versions.Some?
      modifies this
      ensures Valid()
      ensures at == if ok then old(at).(pc := Removing(Unlink), moved := true) else old(at).(pc := FAIL)
      ensures ok ==> disk == Moved(old(disk), removed) && removed !in old(disk).removed
      ensures reliable && removed !in old(disk).removed ==> ok
    {
      ghost var before := disk;
      var fault := Outcome();
      ok := fault.NoFault? && removed !in disk.removed;
      if removed !in disk.removed && !fault.Before? {
        disk := Moved(disk, removed);
      }
      Log(before, Choice(fault, "", ""),
          if ok then at.(pc := Removing(Unlink), moved := true) else at.(pc := FAIL));
    }

    /** Removes the command link, if there is one and it is the installer's. */
    method RemoveUnixCommand(dir: Dir) returns (ok: bool)
      requires Valid() && RunsUninstall(machine) && at.pc == Removing(Unlink) && at.op.dir == dir
      modifies this
      ensures Valid()
      ensures at == old(at).(pc := if ok then Unlinked(old(at)) else UnlinkFailed(old(at)))
      ensures ok ==> disk == WithoutCommand(old(disk), dir) && CommandAt(disk, dir).Absent?
      ensures reliable && !CommandAt(old(disk), dir).Foreign? ==> ok
      ensures CommandAt(old(disk), dir).Foreign? ==> !ok && disk == old(disk)
    {
      if CommandAt(disk, dir).Owned? {
        ok := Call(WithoutCommand(disk, dir), Unlinked(at), UnlinkFailed(at));
      } else {
        ok := CommandAt(disk, dir).Absent?;
        Log(disk, CALM, at.(pc := if ok then Unlinked(at) else UnlinkFailed(at)));
      }
    }

    /** After a failed command removal: puts `versions` back and forgets the journal. */
    method Undo(removed: Name, moved: bool)
      requires Valid() && RunsUninstall(machine) && RunsClose(machine)
      requires at.pc == UnlinkFailed(at) && at.scratch == removed && at.moved == moved
      modifies this
      ensures Valid() && at == old(at).(pc := FAIL)
    {
      if moved {
        ghost var before := disk;
        var fault := Outcome();
        var back := removed in disk.removed && Replaceable(disk.versions) && !fault.Before?;
        if back {
          disk := RestoreMoved(disk, removed);
        }
        Log(before, Choice(fault, "", ""), at.(pc := if back then Closing(ClearFailed) else FAIL));
        if !back {
          return;
        }
      }
      var _ := ClearTransaction(FAIL, FAIL);
    }

    /** Commits the removal and deletes the moved tree. */
    method Commit(removed: Name, dir: Dir) returns (ok: bool)
      requires Valid() && RunsUninstall(machine) && at.pc == Removing(WriteCommitted)
      requires at.scratch == removed && at.op.dir == dir
      modifies this
      ensures Valid()
      ensures at == old(at).(pc := if ok then Removing(DropAuthority) else FAIL)
      ensures var j := Some(Uninstalling(true, removed, dir));
              ok ==> disk == old(disk).(journal := j, removed := old(disk).removed - {removed})
      ensures reliable ==> ok
    {
      ok := Call(disk.(journal := Some(Uninstalling(true, removed, dir))), Removing(DropRemoved), FAIL);
      if ok {
        ok := RemoveMoved(removed, Removing(DropAuthority));
      }
    }

    /** Removes `current.txt`, the `current` link and the journal. */
    method DropAuthorities() returns (ok: bool)
      requires Valid() && RunsUninstall(machine) && RunsClose(machine) && at.pc == Removing(DropAuthority)
      modifies this
      ensures Valid()
      ensures at == old(at).(pc := Closing(Release(ok)))
      ensures ok ==> disk == old(disk).(authority := None, current := None, journal := None)
      ensures reliable ==> ok
    {
      ok := true;
      if disk.authority.Some? {
        ok := Call(disk.(authority := None), Removing(DropCurrent), FAIL);
      } else {
        Log(disk, CALM, at.(pc := Removing(DropCurrent)));
      }
      if ok {
        if disk.current.Some? {
          ok := Call(disk.(current := None), Closing(ClearFinished), FAIL);
        } else {
          Log(disk, CALM, at.(pc := Closing(ClearFinished)));
        }
      }
      if ok {
        ok := ClearTransaction(Closing(Release(true)), FAIL);
      }
    }

    /** Journals the removal and moves `versions` aside, if there is a `versions`. */
    method Detach(removed: Name, dir: Dir) returns (ok: bool, moved: bool)
      requires Valid() && RunsUninstall(machine)
      requires at.pc == Removing(Validate) && at.scratch == removed && at.op.dir == dir && !at.moved
      modifies this
      ensures Valid() && moved == old(disk).versions.Some?
      ensures at == if ok then old(at).(pc := Removing(Unlink), moved := moved) else old(at).(pc := FAIL)
      ensures ok && moved ==>
                && removed !in old(disk).removed
                && disk == Moved(old(disk).(journal := Some(Uninstalling(false, removed, dir))), removed)
      ensures ok && !moved ==> disk == old(disk)
      ensures reliable && !CommandAt(old(disk), dir).Foreign? && removed !in old(disk).removed ==> ok
    {
      moved := disk.versions.Some?;
      if CommandAt(disk, dir).Foreign? {
        Log(disk, CALM, at.(pc := FAIL));
        return false, moved;
      }
      Log(disk, CALM, at.(pc := if moved then Removing(WritePrepared) else Removing(Unlink)));
      ok := true;
      if moved {
        ok := Call(disk.(journal := Some(Uninstalling(false, removed, dir))), Removing(MoveVersions), FAIL);
        if ok {
          ok := MoveAside(removed);
        }
      }
    }

    /** Removes the command, or undoes the removal of `versions`. */
    method RemoveCommandOrUndo(removed: Name, dir: Dir, moved: bool) returns (ok: bool)
      requires Valid() && RunsUninstall(machine) && RunsClose(machine) && at.pc == Removing(Unlink)
      requires at.scratch == removed && at.op.dir == dir && at.moved == moved
      modifies this
      ensures Valid() && at == old(at).(pc := if ok then Unlinked(old(at)) else FAIL)
      ensures ok ==> disk == WithoutCommand(old(disk), dir) && !CommandAt(old(disk), dir).Foreign?
      ensures reliable && !CommandAt(old(disk), dir).Foreign? ==> ok
    {
      ok := RemoveUnixCommand(dir);
      if !ok {
        Undo(removed, moved);
      }
    }

    /** Deletes what was moved aside and every authority, once the command is gone. */
    method Finish(removed: Name, dir: Dir, moved: bool) returns (ok: bool)
      requires Valid() && RunsUninstall(machine) && RunsClose(machine) && at.pc == Unlinked(at)
      requires at.scratch == removed && at.op.dir == dir && at.moved == moved
      modifies this
      ensures Valid() && at == old(at).(pc := Closing(Release(ok)))
      ensures var r := if moved then old(disk).removed - {removed} else old(disk).removed;
              ok ==> disk == old(disk).(removed := r, authority := None, current := None, journal := None)
      ensures reliable ==> ok
    {
      ok := true;
      if moved {
        ok := Commit(removed, dir);
      }
      if ok {
        ok := DropAuthorities();
      }
    }

    /** The uninstall proper, after recovery and inside the lock. */
    method UninstallLocked(removed: Name, dir: Dir) returns (ok: bool)
      requires Valid() && RunsUninstall(machine) && RunsClose(machine)
      requires at.pc == Removing(Validate) && at.scratch == removed && at.op.dir == dir && !at.moved
      modifies this
      ensures Valid() && at == old(at).(pc := Closing(Release(ok)), moved := at.moved)
      ensures ok ==> disk == Erase(old(disk), dir) && !CommandAt(old(disk), dir).Foreign?
      ensures reliable && !CommandAt(old(disk), dir).Foreign? && removed !in old(disk).removed ==> ok
    {
      ghost var d := disk;
      var moved;
      ok, moved := Detach(removed, dir);
      if ok {
        ok := RemoveCommandOrUndo(removed, dir, moved);
      }
      if ok {
        ok := Finish(removed, dir, moved);
      }
      if ok && moved {
        assert d.removed[removed := Removed(d.versions.value, d.versions.value, false)] - {removed} == d.removed;
      }
    }

    /** Everything an uninstall does inside the lock, and giving it up. */
    method UninstallUnderLock(removed: Name, dir: Dir) returns (ok: bool)
      requires Valid() && RunsRecovery(machine) && RunsUninstall(machine) && RunsClose(machine)
      requires at.pc == Recovering(RecoveryPc.Recover) && at.op == Op.Uninstall(dir)
      requires at.scratch == removed && !at.moved
      modifies this
      ensures Valid() && at == old(at).(pc := Done(ok), moved := at.moved)
      ensures ok ==> disk == Erase(Recovered(old(disk), dir), dir).(lock := disk.lock)
      ensures ok ==> !ForeignJournal(old(disk), dir) && !CommandAt(old(disk), dir).Foreign?
      ensures reliable && CanUninstall(old(disk), removed, dir) ==> ok && !disk.lock
    {
      ok := Recover(dir);
      if ok {
        RecoveredCommands(old(disk), dir);
        ok := UninstallLocked(removed, dir);
      }
      Drop(ok);
    }

    /** An uninstall on a prefix that exists. */
    method UninstallExisting(removed: Name, dir: Dir) returns (ok: bool)
      requires Valid() && RunsEntry(machine) && RunsRecovery(machine) && RunsUninstall(machine) && RunsClose(machine)
      requires at.pc == Entry(Lock) && at.op == Op.Uninstall(dir) && at.scratch == removed && !at.moved
      modifies this
      ensures Valid() && at == old(at).(pc := Done(ok), moved := at.moved)
      ensures ok ==> disk == Erase(Recovered(Locked(old(disk)), dir), dir).(lock := disk.lock)
      ensures ok ==> !ForeignJournal(old(disk), dir) && !CommandAt(old(disk), dir).Foreign?
      ensures reliable && !old(disk).lock && CanUninstall(Locked(old(disk)), removed, dir) ==> ok
    {
      ok := Acquire();
      if ok {
        ok := UninstallUnderLock(removed, dir);
      }
    }

    method Uninstall(removed: Name, dir: Dir) returns (ok: bool)
      requires Valid() && RunsEntry(machine) && RunsRecovery(machine) && RunsUninstall(machine) && RunsClose(machine)
      requires at.pc == Entry(Prepare) && at.op == Op.Uninstall(dir) && at.scratch == removed && !at.moved
      modifies this
      ensures Valid() && at == old(at).(pc := Done(ok), moved := at.moved)
      ensures ok ==> disk == if old(disk).prefix
                             then Erase(Recovered(Locked(old(disk)), dir), dir).(lock := disk.lock)
                             else old(disk)
      ensures ok && old(disk).prefix ==> !ForeignJournal(old(disk), dir) && !CommandAt(old(disk), dir).Foreign?
      ensures reliable && !old(disk).prefix ==> ok
      ensures reliable && !old(disk).lock && CanUninstall(Locked(old(disk)), removed, dir) ==> ok
    {
      if !disk.prefix {
        Log(disk, CALM, at.(pc := Done(true)));
        return true;
      }
      Log(disk, CALM, at.(pc := Entry(Lock)));
      ok := UninstallExisting(removed, dir);
    }

    /** Makes the staging directory and journals it. */
    method CreateStaging(staging: Name, id: Name, want: set<Name>) returns (ok: bool)
      requires Valid() && RunsStaging(machine) && at.pc == Adding(PruneOrphan) && at.scratch == staging
      requires at.op.Install? && at.op.id == id && at.op.want == want
      modifies this
      ensures Valid() && at == old(at).(pc := if ok then Adding(Copy) else FAIL)
      ensures ok ==> old(disk).versions.Some?
                     && disk == old(disk).(journal := Some(Installing(id, staging)),
                                           versions := Some(old(disk).versions.value[staging := Tree(want, {}, {})]))
      ensures reliable && old(disk).versions.Some? ==> ok
    {
      ok := RemoveTree(staging, Adding(MakeStaging));
      if !ok {
        return;
      }
      if disk.versions.None? {
        Log(disk, CALM, at.(pc := FAIL));
        return false;
      }
      var v := disk.versions.value;
      assert old(disk).versions.value[staging := Tree(want, {}, {})] == v[staging := Tree(want, {}, {})];
      ok := Call(SetVersions(disk, v[staging := Tree(want, {}, {})]), Adding(WriteInstalling), FAIL);
      if ok {
        ok := Call(disk.(journal := Some(Installing(id, staging))), Adding(Copy), FAIL);
      }
    }

    /** One call of the copy: `file` is created, or filled. */
    method CopyOne(staging: Name, file: Name) returns (ok: bool)
      requires Valid() && RunsStaging(machine) && at.pc == Adding(Copy) && at.scratch == staging
      requires at.op.Install? && file in at.op.files
      requires disk.versions.Some? && staging in disk.versions.value && file !in disk.versions.value[staging].have
      modifies this
      ensures Valid() && at == old(at).(pc := if ok then Adding(Copy) else Adding(Rollback))
      ensures var v := old(disk).versions.value;
              disk == SetVersions(old(disk), v[staging := CopyFile(v[staging], file)]) || (!ok && disk == old(disk))
      ensures reliable ==> ok
    {
      ghost var before := disk;
      var fault := Outcome();
      if !fault.Before? {
        var v := disk.versions.value;
        disk := SetVersions(disk, v[staging := CopyFile(v[staging], file)]);
      }
      ok := fault.NoFault?;
      Log(before, Choice(fault, "", file), at.(pc := if ok then Adding(Copy) else Adding(Rollback)));
    }

    /** Copies the distribution into the empty staging directory, file by file. */
    method CopyTree(staging: Name, files: set<Name>) returns (ok: bool)
      requires Valid() && RunsStaging(machine) && at.pc == Adding(Copy) && at.scratch == staging
      requires at.op.Install? && at.op.files == files
      requires disk.versions.Some? && staging in disk.versions.value && Empty(disk.versions.value[staging])
      modifies this
      ensures Valid() && at == old(at).(pc := if ok then Adding(Check) else Adding(Rollback))
      ensures var v := old(disk).versions.value;
              ok ==> disk == SetVersions(old(disk), v[staging := Tree(v[staging].want, files, {})])
      ensures !ok ==> PartlyCopied(old(disk), disk, staging, files)
      ensures reliable ==> ok
    {
      var left := files;
      assert files - left == {} && disk.versions.value[staging] == Tree(disk.versions.value[staging].want, {}, {});
      while left != {}
        invariant Valid() && at == old(at) && left <= files
        invariant disk == old(disk).(versions := disk.versions) && disk.versions.Some?
        invariant disk.versions.value
                  == old(disk).versions.value[staging := Tree(old(disk).versions.value[staging].want, files - left, {})]
      {
        var file :| file in left;
        CopiesMore(old(disk), disk, staging, files, file);
        ok := CopyOne(staging, file);
        if !ok {
          return;
        }
        CopiesMore(old(disk), disk, staging, files, file);
        ok := CopyOne(staging, file);
        if !ok {
          return;
        }
        assert (files - left) + {file} == files - (left - {file});
        left := left - {file};
      }
      assert files - left == files;
      Log(disk, CALM, at.(pc := Adding(Check)));
      ok := true;
    }

    method RunArchiveCheck(staging: Name) returns (ok: bool)
      requires Valid() && RunsStaging(machine) && at.pc == Adding(Check) && at.scratch == staging && at.op.Install?
      requires disk.versions.Some? && staging in disk.versions.value
      modifies this
      ensures Valid() && disk == old(disk) && at == old(at).(pc := if ok then Adding(Publish) else Adding(Rollback))
      ensures ok ==> Complete(disk.versions.value[staging])
      ensures reliable && Complete(disk.versions.value[staging]) ==> ok
    {
      var fault := Outcome();
      ok := Complete(disk.versions.value[staging]) && fault.NoFault?;
      Log(disk, Choice(fault, "", ""), at.(pc := if ok then Adding(Publish) else Adding(Rollback)));
    }

    /** Renames the checked tree to its final name and syncs; either may fail. */
    method PublishVersion(staging: Name, id: Name) returns (renamed: bool, ok: bool)
      requires Valid() && RunsStaging(machine) && at.pc == Adding(Publish) && at.scratch == staging
      requires at.op.Install? && at.op.id == id
      requires disk.versions.Some? && staging in disk.versions.value && id !in disk.versions.value
      modifies this
      ensures Valid() && (ok ==> renamed) && (reliable ==> ok)
      ensures ok ==> at == old(at).(pc := Adding(LinkCommand), isNew := true)
      ensures !ok ==> at == old(at).(pc := if renamed then FAIL else Adding(Rollback))
      ensures var v := old(disk).versions.value;
              ok ==> disk == SetVersions(old(disk), (v - {staging})[id := v[staging]])
    {
      ghost var before := disk;
      var fault := Outcome();
      renamed := !fault.Before?;
      ok := fault.NoFault?;
      if renamed {
        var v := disk.versions.value;
        disk := SetVersions(disk, (v - {staging})[id := v[staging]]);
      }
      Log(before, Choice(fault, "", ""),
          if ok then at.(pc := Adding(LinkCommand), isNew := true)
          else at.(pc := if renamed then FAIL else Adding(Rollback)));
    }

    /** Takes a failed staging away again. */
    method RollBack(staging: Name)
      requires Valid() && RunsStaging(machine) && at.pc == Adding(Rollback) && at.scratch == staging
      requires at.op.Install?
      modifies this
      ensures Valid() && at == old(at).(pc := FAIL)
    {
      var ok := RemoveTree(staging, Adding(ClearRollback));
      if ok {
        ok := ClearTransaction(FAIL, FAIL);
      }
    }

    /** Fills, checks and publishes the staging directory, or rolls it back. */
    method FillAndPublish(staging: Name, id: Name, files: set<Name>) returns (ok: bool)
      requires Valid() && RunsStaging(machine) && at.pc == Adding(Copy) && at.scratch == staging
      requires at.op.Install? && at.op.id == id && at.op.files == files
      requires disk.versions.Some? && staging in disk.versions.value && Empty(disk.versions.value[staging])
      requires id !in disk.versions.value
      modifies this
      ensures Valid()
      ensures at == if ok then old(at).(pc := Adding(LinkCommand), isNew := true) else old(at).(pc := FAIL)
      ensures var v := old(disk).versions.value;
              var t := Tree(v[staging].want, files, {});
              ok ==> Complete(t) && disk == SetVersions(old(disk), (v - {staging})[id := t])
      ensures reliable && old(disk).versions.value[staging].want == files != {} ==> ok
    {
      ok := CopyTree(staging, files);
      if ok {
        ok := RunArchiveCheck(staging);
      }
      var renamed := false;
      if ok {
        renamed, ok := PublishVersion(staging, id);
      }
      if !ok && !renamed {
        RollBack(staging);
      }
      if ok {
        ghost var v := old(disk).versions.value;
        ghost var t := Tree(v[staging].want, files, {});
        assert v[staging := t] - {staging} == v - {staging};
      }
    }

    /** Stages a version that is not there yet. */
    method Stage(staging: Name, id: Name, want: set<Name>, files: set<Name>) returns (ok: bool)
      requires Valid() && RunsStaging(machine) && at.pc == Adding(PruneOrphan) && at.scratch == staging
      requires at.op.Install? && at.op.id == id && at.op.want == want && at.op.files == files && staging != id
      requires disk.versions.Some? ==> id !in disk.versions.value
      modifies this
      ensures Valid()
      ensures at == if ok then old(at).(pc := Adding(LinkCommand), isNew := true) else old(at).(pc := FAIL)
      ensures ok ==> Complete(Tree(want, files, {}))
      ensures ok ==> old(disk).versions.Some? && disk == WithVersion(old(disk), staging, id, want, files)
      ensures reliable && old(disk).versions.Some? && want == files != {} ==> ok
    {
      ok := CreateStaging(staging, id, want);
      if ok {
        ok := FillAndPublish(staging, id, files);
        ghost var v := old(disk).versions.value;
        assert v[staging := Tree(want, {}, {})] - {staging} == v - {staging};
      }
    }

    /** Publishes the command, `current.txt` and the `current` link, in this order. */
    method InstallUnixCommand(dir: Dir, id: Name) returns (ok: bool)
      requires Valid() && RunsLinking(machine) && at.pc == Adding(LinkCommand)
      requires at.op.Install? && at.op.id == id && at.op.dir == dir
      modifies this
      ensures Valid() && at == old(at).(pc := if ok then Closing(ClearFinished) else CommandFailed(old(at)))
      ensures ok ==> !CommandAt(old(disk), dir).Foreign? && disk == Linked(old(disk), dir, id)
      ensures CommandAt(old(disk), dir).Foreign? ==> !ok && disk == old(disk)
      ensures reliable && !CommandAt(old(disk), dir).Foreign? ==> ok
    {
      if CommandAt(disk, dir).Foreign? {
        Log(disk, CALM, at.(pc := CommandFailed(at)));
        return false;
      }
      if CommandAt(disk, dir).Absent? {
        ok := Call(disk.(commands := disk.commands[dir := Owned]), Adding(WriteAuthority), CommandFailed(at));
      } else {
        Log(disk, CALM, at.(pc := Adding(WriteAuthority)));
        ok := true;
      }
      if ok {
        ok := Call(disk.(authority := Some(id)), Adding(LinkCurrent), CommandFailed(at));
      }
      if ok {
        ok := Call(disk.(current := Some(id)), Closing(ClearFinished), CommandFailed(at));
      }
    }

    /** After a failed command publication: a version that is new is taken away again. */
    method Retract(id: Name, isNew: bool)
      requires Valid() && RunsLinking(machine) && RunsClose(machine) && at.pc == CommandFailed(at)
      requires at.op.Install? && at.op.id == id && at.isNew == isNew
      modifies this
      ensures Valid() && at == old(at).(pc := FAIL)
    {
      if isNew {
        var ok := RemoveTree(id, Closing(ClearFailed));
        if !ok {
          return;
        }
      }
      var _ := ClearTransaction(FAIL, FAIL);
    }

    /** Finds the version complete, or stages it. */
    method EnsureVersion(staging: Name, id: Name, want: set<Name>, files: set<Name>) returns (ok: bool, isNew: bool)
      requires Valid() && RunsStaging(machine) && at.pc == Adding(Inspect) && at.scratch == staging && !at.isNew
      requires at.op.Install? && at.op.id == id && at.op.want == want && at.op.files == files && staging != id
      modifies this
      ensures Valid()
      ensures at == if ok then old(at).(pc := Adding(LinkCommand), isNew := isNew) else old(at).(pc := FAIL)
      ensures ok ==> old(disk).versions.Some? && isNew == (id !in old(disk).versions.value)
      ensures ok && isNew ==> Complete(Tree(want, files, {}))
      ensures ok && isNew ==> disk == WithVersion(old(disk), staging, id, want, files)
      ensures ok && !isNew ==> disk == old(disk) && Complete(old(disk).versions.value[id])
      ensures reliable && CanStage(old(disk), id, want, files) ==> ok
    {
      isNew := disk.versions.None? || id !in disk.versions.value;
      if isNew {
        Log(disk, CALM, at.(pc := Adding(PruneOrphan)));
        ok := Stage(staging, id, want, files);
      } else {
        var fault := Outcome();
        ok := fault.NoFault? && Complete(disk.versions.value[id]);
        Log(disk, Choice(fault, "", ""), at.(pc := if ok then Adding(LinkCommand) else FAIL));
      }
    }

    /** The install proper, after recovery and inside the lock. */
    method InstallLocked(staging: Name, id: Name, dir: Dir, want: set<Name>, files: set<Name>) returns (ok: bool)
      requires Valid() && RunsStaging(machine) && RunsLinking(machine) && RunsClose(machine)
      requires at.pc == Adding(Inspect) && at.op == Op.Install(id, dir, want, files)
      requires at.scratch == staging && !at.isNew && staging != id
      modifies this
      ensures Valid() && at == old(at).(pc := Closing(Release(ok)), isNew := at.isNew)
      ensures ok ==> IsInstalled(old(disk), disk, staging, id, dir, want, files)
      ensures reliable && CanStage(old(disk), id, want, files) && !CommandAt(old(disk), dir).Foreign? ==> ok
    {
      var isNew;
      ok, isNew := EnsureVersion(staging, id, want, files);
      if !ok {
        return;
      }
      ok := InstallUnixCommand(dir, id);
      if ok {
        ok := ClearTransaction(Closing(Release(true)), FAIL);
      } else {
        Retract(id, isNew);
      }
    }

    /** Everything an install does inside the lock, and giving it up. */
    method InstallUnderLock(staging: Name, id: Name, dir: Dir, want: set<Name>, files: set<Name>) returns (ok: bool)
      requires Valid() && RunsRecovery(machine) && RunsStaging(machine) && RunsLinking(machine) && RunsClose(machine)
      requires at.pc == Recovering(RecoveryPc.Recover) && at.op == Op.Install(id, dir, want, files)
      requires at.scratch == staging && !at.isNew && staging != id
      modifies this
      ensures Valid() && at == old(at).(pc := Done(ok), isNew := at.isNew)
      ensures ok ==> IsInstalled(Recovered(old(disk), dir), disk.(lock := old(disk).lock), staging, id, dir, want, files)
      ensures reliable && CanInstall(old(disk), id, dir, want, files) ==> ok && !disk.lock
    {
      ok := Recover(dir);
      if ok {
        RecoveredCommands(old(disk), dir);
        ok := InstallLocked(staging, id, dir, want, files);
      }
      Drop(ok);
    }

    /** The prefix and `versions` are made before the lock is taken. */
    method MakeDirectories(id: Name) returns (ok: bool)
      requires Valid() && RunsEntry(machine) && at.pc == Entry(Prepare) && at.op.Install? && at.op.id == id
      modifies this
      ensures Valid() && at == old(at).(pc := if ok then Entry(Lock) else Done(false))
      ensures ok ==> ValidHash(id) && disk == WithDirectories(old(disk))
      ensures reliable && ValidHash(id) ==> ok
    {
      if !ValidHash(id) {
        Log(disk, CALM, at.(pc := Done(false)));
        return false;
      }
      ok := Call(disk.(prefix := true), Entry(MakeVersions), Done(false));
      if ok {
        ok := Call(WithDirectories(disk), Entry(Lock), Done(false));
      }
    }

    method Install(staging: Name, id: Name, dir: Dir, want: set<Name>, files: set<Name>) returns (ok: bool)
      requires Valid() && RunsEntry(machine) && RunsRecovery(machine)
      requires RunsStaging(machine) && RunsLinking(machine) && RunsClose(machine)
      requires at.pc == Entry(Prepare) && at.op == Op.Install(id, dir, want, files)
      requires at.scratch == staging && !at.isNew && staging != id
      modifies this
      ensures Valid() && at == old(at).(pc := Done(ok), isNew := at.isNew)
      ensures ok ==>
                && ValidHash(id) && !old(disk).lock
                && IsInstalled(Recovered(Locked(WithDirectories(old(disk))), dir), Locked(disk), staging, id, dir, want, files)
      ensures (&& reliable && ValidHash(id) && !old(disk).lock
               && CanInstall(Locked(WithDirectories(old(disk))), id, dir, want, files)) ==> ok && !disk.lock
    {
      ok := MakeDirectories(id);
      if ok {
        ok := Acquire();
      }
      if ok {
        ok := InstallUnderLock(staging, id, dir, want, files);
      }
    }
  }

  function WithDirectories(d: Disk): Disk {
    d.(prefix := true, versions := if d.versions.None? then Some(map[]) else d.versions)
  }

  /** What a successful install makes of the recovered disk `d`. */
  predicate IsInstalled(d: Disk, d': Disk, staging: Name, id: Name, dir: Dir, want: set<Name>, files: set<Name>) {
    && d.versions.Some? && !CommandAt(d, dir).Foreign?
    && if id in d.versions.value then
         Complete(d.versions.value[id]) && d' == ClearJournal(Linked(d, dir, id))
       else
         && Complete(Tree(want, files, {}))
         && d' == ClearJournal(Linked(WithVersion(d, staging, id, want, files), dir, id))
  }

  /** What an install needs to find, besides a disk that works. */
  predicate CanInstall(d: Disk, id: Name, dir: Dir, want: set<Name>, files: set<Name>) {
    && !ForeignJournal(d, dir) && !CommandAt(d, dir).Foreign?
    && CanStage(Recovered(d, dir), id, want, files)
  }

  function WithVersion(d: Disk, staging: Name, id: Name, want: set<Name>, files: set<Name>): Disk
    requires d.versions.Some?
  {
    d.(journal := Some(Installing(id, staging)),
       versions := Some((d.versions.value - {staging})[id := Tree(want, files, {})]))
  }

  function Linked(d: Disk, dir: Dir, id: Name): Disk {
    d.(commands := if CommandAt(d, dir).Absent? then d.commands[dir := Owned] else d.commands,
       authority := Some(id),
       current := Some(id))
  }

  /** The version is there and complete, or the distribution is. */
  predicate CanStage(d: Disk, id: Name, want: set<Name>, files: set<Name>) {
    && d.versions.Some?
    && (if id in d.versions.value then Complete(d.versions.value[id]) else want == files != {})
  }

  function Locked(d: Disk): Disk {
    d.(lock := true)
  }

  lemma RecoveredCommands(d: Disk, dir: Dir)
    ensures Recovered(d, dir).commands == d.commands
  {
  }

  function Moved(d: Disk, removed: Name): Disk
    requires d.versions.Some?
  {
    var v := d.versions.value;
    d.(versions := None, removed := d.removed[removed := Removed(v, v, false)])
  }

  /** What an uninstall needs to find, besides a disk that works. */
  predicate CanUninstall(d: Disk, removed: Name, dir: Dir) {
    && !ForeignJournal(d, dir) && !CommandAt(d, dir).Foreign?
    && removed !in Recovered(d, dir).removed
  }

  function WithoutCommand(d: Disk, dir: Dir): Disk {
    if CommandAt(d, dir).Owned? then d.(commands := d.commands[dir := Absent]) else d
  }

  /** What a successful uninstall makes of a recovered disk. */
  function Erase(d: Disk, dir: Dir): Disk {
    WithoutCommand(d, dir).(versions := None, authority := None, current := None, journal := None)
  }

  /** The journal belongs to an uninstall for another command directory. */
  predicate ForeignJournal(d: Disk, dir: Dir) {
    d.journal.Some? && d.journal.value.Uninstalling? && d.journal.value.dir != dir
  }
}
