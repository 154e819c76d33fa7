/** When an invocation is refused, and that a refused one leaves the installation as it was. */
module InstallerRefusal {
  import opened Wrappers
  import opened InstallerDisk
  import opened InstallerMachine
  import opened InstallerInvariant
  import opened InstallerSteps
  import opened InstallerSystem
  import opened InstallerTheorems
  import opened InstallerCommands
  import opened InstallerHost

  // ---- a process alone ----

  lemma StepAlone(d: Disk, q: Proc, c: Choice)
    requires DiskInvariant(d) && ProcInvariant(d, q)
    ensures DiskInvariant(Step(d, q, c).disk) && ProcInvariant(Step(d, q, c).disk, Step(d, q, c).proc)
  {
    if HoldsLock(q) {
      HolderStepKeeps(d, q, c);
      StepLeavesEntry(d, q, c);
    } else {
      EntryKeeps(d, q, c);
    }
  }

  lemma StartsWell(d: Disk, op: Op, pid: nat)
    ensures ProcInvariant(d, Start(op, pid))
  {
    if op.Install? {
      StagingIsNotPublished(op.id, pid);
    }
  }

  // ---- published versions ----

  predicate Has(d: Disk, n: Name) {
    d.versions.Some? && n in d.versions.value
  }

  /** Every published version is there as before. */
  ghost predicate PublishedKept(d: Disk, d': Disk) {
    forall n | Has(d, n) && ValidHash(n) :: Has(d', n) && d'.versions.value[n] == d.versions.value[n]
  }

  lemma PruningKeepsPublished(d: Disk, q: Proc, c: Choice, n: Name, gone: Pc)
    requires !ValidHash(n)
    ensures PublishedKept(d, PruneVersion(d, q, c, n, gone).disk)
  {
  }

  lemma RecoveryKeepsPublished(d: Disk, q: Proc, pc: RecoveryPc, c: Choice)
    requires HolderInvariant(d, q) && q.pc == Recovering(pc)
    ensures PublishedKept(d, RecoveryStep(d, q, pc, c).disk)
  {
    match pc
    case PruneStaging =>
      if d.journal.Some? && d.journal.value.Installing? {
        PruningKeepsPublished(d, q, c, d.journal.value.staging, Recovering(ClearRecovered));
      }
    case _ =>
  }

  lemma StagingKeepsPublished(d: Disk, q: Proc, c: Choice)
    requires HolderInvariant(d, q) && q.op.Install?
    requires q.pc == Adding(MakeStaging) || q.pc == Adding(Copy) || q.pc == Adding(Publish)
    ensures PublishedKept(d, Step(d, q, c).disk)
    ensures Step(d, q, c).proc.isNew ==> q.isNew || !Has(d, q.op.id)
  {
    match q.pc.adding
    case MakeStaging =>
    case Copy =>
    case Publish =>
    case _ =>
  }

  lemma NothingNew(d: Disk, q: Proc, c: Choice)
    requires q.pc != Adding(Publish)
    ensures Step(d, q, c).proc.isNew == q.isNew
  {
    match q.pc
    case Entry(_) =>
    case Recovering(_) =>
    case Adding(_) =>
    case Removing(_) =>
    case Closing(_) =>
    case Done(_) =>
  }

  /** No step of an install changes a published version, except to take away the one it published itself. */
  lemma InstallKeepsPublished(d: Disk, q: Proc, c: Choice)
    requires ProcInvariant(d, q) && q.op.Install?
    ensures (q.pc == Adding(Unpublish) && OthersKept(d, Step(d, q, c).disk, q.op.id)) || PublishedKept(d, Step(d, q, c).disk)
  {
    if !HoldsLock(q) {
      OutsideTheLock(d, q, c);
    } else if q.pc.Recovering? {
      RecoveryKeepsPublished(d, q, q.pc.recovery, c);
    } else if q.pc.Adding? {
      match q.pc.adding
      case PruneOrphan => PruningKeepsPublished(d, q, c, q.scratch, Adding(MakeStaging));
      case Rollback => PruningKeepsPublished(d, q, c, q.scratch, Adding(ClearRollback));
      case Unpublish => InstallKeepsOthers(d, q, c);
      case MakeStaging => StagingKeepsPublished(d, q, c);
      case Copy => StagingKeepsPublished(d, q, c);
      case Publish => StagingKeepsPublished(d, q, c);
      case pc => PlainKeepsVersions(d, q, pc, c);
    } else if q.pc.Removing? {
      RemovingUninstalls(d, q);
    }
  }

  lemma StepPublished(d: Disk, q: Proc, c: Choice, was: Disk)
    requires ProcInvariant(d, q) && q.op.Install? && PublishedKept(was, d) && (q.isNew ==> !Has(was, q.op.id))
    ensures PublishedKept(was, Step(d, q, c).disk) && (Step(d, q, c).proc.isNew ==> !Has(was, q.op.id))
  {
    InstallKeepsPublished(d, q, c);
    if q.pc == Adding(Publish) {
      StagingKeepsPublished(d, q, c);
    } else {
      NothingNew(d, q, c);
    }
  }

  /** Wherever an install ends or is killed, every version that was published before it is there unchanged. */
  lemma {:induction false} InstallKeepsVersions(d: Disk, op: Op, pid: nat, script: seq<Choice>)
    requires DiskInvariant(d) && op.Install?
    ensures var e := Follow(Step, Effect(d, Start(op, pid)), script);
            && e.proc.op == op && DiskInvariant(e.disk) && ProcInvariant(e.disk, e.proc)
            && PublishedKept(d, e.disk) && (e.proc.isNew ==> !Has(d, op.id))
    decreases |script|
  {
    if script == [] {
      StartsWell(d, op, pid);
    } else {
      var last := |script| - 1;
      InstallKeepsVersions(d, op, pid, script[..last]);
      var e := Follow(Step, Effect(d, Start(op, pid)), script[..last]);
      StepAlone(e.disk, e.proc, script[last]);
      StepKeepsOp(e.disk, e.proc, script[last]);
      StepPublished(e.disk, e.proc, script[last], d);
    }
  }

  // ---- somebody else's command ----

  /** Where a process can be that found a command of another program. */
  predicate Halted(q: Proc) {
    match q.pc
    case Entry(_) => true
    case Recovering(_) => true
    case Adding(pc) => !pc.WriteAuthority? && !pc.LinkCurrent?
    case Removing(pc) => pc.Validate?
    case Closing(pc) => !pc.ClearFinished? && pc != Release(true)
    case Done(_) => true
  }

  /** The links of the installation are as before. */
  predicate LinksKept(d: Disk, d': Disk) {
    d'.current == d.current && d'.authority == d.authority
  }

  /** It stays there, and succeeds only as an uninstall that finds no prefix. */
  ghost predicate StaysHalted(d: Disk, q: Proc, e: Effect) {
    && Halted(e.proc) && LinksKept(d, e.disk) && e.proc.pc != Entry(Prepare)
    && (e.proc.pc == Done(true) ==>
          e.disk == d && (q.pc == Done(true) || (q.pc == Entry(Prepare) && q.op.Uninstall? && !d.prefix)))
  }

  lemma HaltedEntry(d: Disk, q: Proc, pc: EntryPc, c: Choice)
    requires q.pc == Entry(pc)
    ensures StaysHalted(d, q, EntryStep(d, q, pc, c))
  {
  }

  lemma HaltedRecovery(d: Disk, q: Proc, pc: RecoveryPc, c: Choice)
    requires q.pc == Recovering(pc)
    ensures StaysHalted(d, q, RecoveryStep(d, q, pc, c))
  {
  }

  lemma HaltedLinking(d: Disk, q: Proc, c: Choice)
    requires CommandAt(d, q.op.dir).Foreign? && q.op.Install? && q.pc == Adding(LinkCommand)
    ensures StaysHalted(d, q, LinkCommandStep(d, q, c))
  {
  }

  lemma HaltedInstall(d: Disk, q: Proc, pc: InstallPc, c: Choice)
    requires q.op.Install? && q.pc == Adding(pc) && Halted(q) && !pc.LinkCommand?
    ensures StaysHalted(d, q, InstallStep(d, q, pc, c))
  {
  }

  lemma HaltedStep(d: Disk, q: Proc, c: Choice)
    requires CommandAt(d, q.op.dir).Foreign? && Halted(q)
    ensures StaysHalted(d, q, Step(d, q, c))
  {
    match q.pc
    case Entry(pc) => HaltedEntry(d, q, pc, c);
    case Recovering(pc) => HaltedRecovery(d, q, pc, c);
    case Adding(pc) =>
      if q.op.Install? {
        if pc.LinkCommand? {
          HaltedLinking(d, q, c);
        } else {
          HaltedInstall(d, q, pc, c);
        }
      }
    case Removing(_) =>
    case Closing(_) =>
    case Done(_) =>
  }

  /** An invocation that finds somebody else's command never succeeds, unless there is nothing to uninstall at all,
      and leaves `current` and the authority as they were, wherever it ends or is killed. */
  lemma {:induction false} ForeignRefuses(d: Disk, op: Op, pid: nat, script: seq<Choice>)
    requires CommandAt(d, op.dir).Foreign?
    ensures var e := Follow(Step, Effect(d, Start(op, pid)), script);
            && e.proc.op == op && Halted(e.proc) && CommandAt(e.disk, op.dir).Foreign?
            && e.disk.current == d.current && e.disk.authority == d.authority
            && (e.proc.pc == Done(true) ==> op.Uninstall? && !d.prefix && e.disk == d)
            && (e.proc.pc == Entry(Prepare) ==> e.disk == d)
    decreases |script|
  {
    if script != [] {
      var last := |script| - 1;
      ForeignRefuses(d, op, pid, script[..last]);
      var e := Follow(Step, Effect(d, Start(op, pid)), script[..last]);
      StepKeepsOp(e.disk, e.proc, script[last]);
      StepLeavesForeign(e.disk, e.proc, script[last]);
      HaltedStep(e.disk, e.proc, script[last]);
    }
  }

  lemma HaltedKeepsPublished(d: Disk, q: Proc, c: Choice)
    requires ProcInvariant(d, q) && Halted(q) && q.op.Uninstall?
    ensures PublishedKept(d, Step(d, q, c).disk)
  {
    if !HoldsLock(q) {
      OutsideTheLock(d, q, c);
    } else if q.pc.Recovering? {
      RecoveryKeepsPublished(d, q, q.pc.recovery, c);
    }
  }

  /** And a refused uninstall leaves every published version unchanged. */
  lemma {:induction false} ForeignKeepsVersions(d: Disk, dir: Dir, pid: nat, script: seq<Choice>)
    requires DiskInvariant(d) && CommandAt(d, dir).Foreign?
    ensures var e := Follow(Step, Effect(d, Start(Op.Uninstall(dir), pid)), script);
            DiskInvariant(e.disk) && ProcInvariant(e.disk, e.proc) && PublishedKept(d, e.disk)
    decreases |script|
  {
    if script == [] {
      StartsWell(d, Op.Uninstall(dir), pid);
    } else {
      var last := |script| - 1;
      ForeignKeepsVersions(d, dir, pid, script[..last]);
      ForeignRefuses(d, Op.Uninstall(dir), pid, script[..last]);
      var e := Follow(Step, Effect(d, Start(Op.Uninstall(dir), pid)), script[..last]);
      StepAlone(e.disk, e.proc, script[last]);
      HaltedKeepsPublished(e.disk, e.proc, script[last]);
    }
  }

  // ---- somebody else's lock, and the journal of another directory ----

  /** The lock is held, the journal is of an uninstall for another command directory, or the version has no proper
      name. */
  predicate Barred(d: Disk, op: Op) {
    || d.lock
    || (d.journal.Some? && d.journal.value.Uninstalling? && d.journal.value.dir != op.dir)
    || (op.Install? && !ValidHash(op.id))
  }

  /** Where a process can be that is barred. */
  predicate StaysOut(d: Disk, q: Proc) {
    && Barred(d, q.op)
    && (HoldsLock(q) ==>
          && (q.pc == Recovering(Recover) || q.pc == Closing(Release(false)))
          && d.journal.Some? && d.journal.value.Uninstalling? && d.journal.value.dir != q.op.dir)
    && (q.pc.Entry? && !q.pc.entry.Prepare? && q.op.Install? ==> ValidHash(q.op.id))
  }

  /** At most the prefix, an empty `versions` and the lock have come or gone. */
  predicate OnlyDirectories(d: Disk, d': Disk) {
    && d' == d.(prefix := d'.prefix, versions := d'.versions, lock := d'.lock)
    && (d'.versions == d.versions || (d.versions.None? && d'.versions == Some(map[])))
  }

  /** It stays out, and succeeds only as an uninstall that finds no prefix. */
  ghost predicate KeepsOut(d: Disk, q: Proc, e: Effect) {
    && StaysOut(e.disk, e.proc) && OnlyDirectories(d, e.disk) && e.proc.pc != Entry(Prepare)
    && (e.proc.pc == Done(true) ==>
          e.disk == d && (q.pc == Done(true) || (q.pc == Entry(Prepare) && q.op.Uninstall? && !d.prefix)))
  }

  lemma BarredPreparing(d: Disk, q: Proc, c: Choice)
    requires StaysOut(d, q) && q.pc == Entry(Prepare)
    ensures KeepsOut(d, q, PrepareStep(d, q, c))
  {
  }

  lemma BarredMaking(d: Disk, q: Proc, c: Choice)
    requires StaysOut(d, q) && q.pc == Entry(MakeVersions)
    ensures KeepsOut(d, q, MakeVersionsStep(d, q, c))
  {
  }

  lemma BarredLocking(d: Disk, q: Proc, c: Choice)
    requires StaysOut(d, q) && q.pc == Entry(Lock)
    ensures KeepsOut(d, q, LockStep(d, q, c))
  {
  }

  lemma BarredStep(d: Disk, q: Proc, c: Choice)
    requires StaysOut(d, q)
    ensures KeepsOut(d, q, Step(d, q, c))
  {
    match q.pc
    case Entry(pc) =>
      match pc {
        case Prepare => BarredPreparing(d, q, c);
        case MakeVersions => BarredMaking(d, q, c);
        case Lock => BarredLocking(d, q, c);
      }
    case Recovering(_) =>
    case Closing(_) =>
    case Done(_) =>
  }

  /** Under somebody else's lock, with a journal of another command directory, or with an improper name for the
      version, no invocation succeeds, unless there is nothing to uninstall at all, and nothing but the prefix, an
      empty `versions` and the lock comes or goes. */
  lemma {:induction false} BarredRefuses(d: Disk, op: Op, pid: nat, script: seq<Choice>)
    requires d.lock || (d.journal.Some? && d.journal.value.Uninstalling? && d.journal.value.dir != op.dir)
          || (op.Install? && !ValidHash(op.id))
    ensures var e := Follow(Step, Effect(d, Start(op, pid)), script);
      && e.proc.op == op && StaysOut(e.disk, e.proc) && OnlyDirectories(d, e.disk)
      && (e.proc.pc == Done(true) ==> op.Uninstall? && !d.prefix && e.disk == d)
      && (e.proc.pc == Entry(Prepare) ==> e.disk == d)
    decreases |script|
  {
    if script != [] {
      var last := |script| - 1;
      BarredRefuses(d, op, pid, script[..last]);
      var e := Follow(Step, Effect(d, Start(op, pid)), script[..last]);
      StepKeepsOp(e.disk, e.proc, script[last]);
      BarredStep(e.disk, e.proc, script[last]);
    }
  }
}
