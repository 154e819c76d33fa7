/** What the installer leaves alone: commands that are not its own, other directories, other versions; and when
    the lock is free again. */
module InstallerCommands {
  import opened InstallerDisk
  import opened InstallerMachine
  import opened InstallerInvariant
  import opened InstallerSystem
  import opened InstallerTheorems

  // ---- commands ----

  /** No directory but `dir` has another command, and what is somebody else's in `dir` still is. */
  ghost predicate CommandsKept(d: Disk, d': Disk, dir: Dir) {
    && (forall other | other != dir :: CommandAt(d', other) == CommandAt(d, other))
    && (CommandAt(d, dir).Foreign? ==> CommandAt(d', dir).Foreign?)
  }

  lemma InstallLeavesCommands(d: Disk, q: Proc, pc: InstallPc, c: Choice)
    requires q.op.Install? && !pc.LinkCommand?
    ensures InstallStep(d, q, pc, c).disk.commands == d.commands
  {
  }

  lemma UninstallLeavesCommands(d: Disk, q: Proc, pc: UninstallPc, c: Choice)
    requires !pc.Unlink?
    ensures UninstallStep(d, q, pc, c).disk.commands == d.commands
  {
  }

  lemma RecoveryLeavesCommands(d: Disk, q: Proc, pc: RecoveryPc, c: Choice)
    ensures RecoveryStep(d, q, pc, c).disk.commands == d.commands
  {
  }

  lemma EntryLeavesCommands(d: Disk, q: Proc, pc: EntryPc, c: Choice)
    ensures EntryStep(d, q, pc, c).disk.commands == d.commands
  {
  }

  lemma LinkingLeavesForeign(d: Disk, q: Proc, c: Choice)
    ensures CommandsKept(d, LinkCommandStep(d, q, c).disk, q.op.dir)
    ensures CommandsKept(d, UnlinkStep(d, q, c).disk, q.op.dir)
  {
  }

  /** No step of any process, whatever fails in it, touches a command of another program or of another
      directory. */
  lemma StepLeavesForeign(d: Disk, q: Proc, c: Choice)
    ensures CommandsKept(d, Step(d, q, c).disk, q.op.dir)
  {
    match q.pc
    case Entry(pc) => EntryLeavesCommands(d, q, pc, c);
    case Recovering(pc) => RecoveryLeavesCommands(d, q, pc, c);
    case Adding(pc) =>
      if pc.LinkCommand? {
        LinkingLeavesForeign(d, q, c);
      } else if q.op.Install? {
        InstallLeavesCommands(d, q, pc, c);
      }
    case Removing(pc) =>
      if pc.Unlink? {
        LinkingLeavesForeign(d, q, c);
      } else {
        UninstallLeavesCommands(d, q, pc, c);
      }
    case Closing(_) =>
    case Done(_) =>
  }

  /** In no step of the run does another program change the command in `dir`. */
  predicate NobodyMeddles(ls: seq<Label>, dir: Dir) {
    forall i | 0 <= i < |ls| :: ls[i].Meddle? ==> ls[i].dir != dir
  }

  /** No step of the run is one of a process that works for `dir`. */
  predicate NobodyWorks(s: System, ls: seq<Label>, dir: Dir)
    requires Possible(s, ls)
    decreases |ls|
  {
    ls != [] ==> (ls[0].Run? ==> s.procs[ls[0].pid].op.dir != dir) && NobodyWorks(Next(s, ls[0]), ls[1..], dir)
  }

  lemma LabelLeavesForeign(s: System, l: Label, dir: Dir)
    requires Enabled(s, l) && (l.Meddle? ==> l.dir != dir)
    ensures CommandAt(s.disk, dir).Foreign? ==> CommandAt(Next(s, l).disk, dir).Foreign?
    ensures (l.Run? ==> s.procs[l.pid].op.dir != dir) ==> CommandAt(Next(s, l).disk, dir) == CommandAt(s.disk, dir)
  {
    if l.Run? {
      StepLeavesForeign(s.disk, s.procs[l.pid], l.choice);
    }
  }

  /** Over any run, with any crashes and failures, a command of another program stays until another program
      changes it, and a directory nobody works for keeps its command. */
  lemma {:induction false} ForeignCommandStays(s: System, ls: seq<Label>, dir: Dir)
    requires Possible(s, ls) && NobodyMeddles(ls, dir)
    ensures CommandAt(s.disk, dir).Foreign? ==> CommandAt(End(s, ls).disk, dir).Foreign?
    ensures NobodyWorks(s, ls, dir) ==> CommandAt(End(s, ls).disk, dir) == CommandAt(s.disk, dir)
    decreases |ls|
  {
    if ls != [] {
      LabelLeavesForeign(s, ls[0], dir);
      assert NobodyMeddles(ls[1..], dir);
      ForeignCommandStays(Next(s, ls[0]), ls[1..], dir);
    }
  }

  // ---- versions ----

  /** Every published version but `id` is there as before. */
  ghost predicate OthersKept(d: Disk, d': Disk, id: Name) {
    d.versions.Some? ==>
      && d'.versions.Some?
      && forall n | n in d.versions.value && ValidHash(n) && n != id ::
           n in d'.versions.value && d'.versions.value[n] == d.versions.value[n]
  }

  lemma PruningKeepsOthers(d: Disk, q: Proc, c: Choice, n: Name, gone: Pc, id: Name)
    requires n == id || !ValidHash(n)
    ensures OthersKept(d, PruneVersion(d, q, c, n, gone).disk, id)
  {
  }

  lemma RecoveryKeepsOthers(d: Disk, q: Proc, c: Choice)
    requires HolderInvariant(d, q) && q.pc.Recovering? && q.op.Install?
    ensures OthersKept(d, Step(d, q, c).disk, q.op.id)
  {
    match q.pc.recovery
    case Recover =>
    case PruneStaging =>
    case PruneRemoved =>
    case Restore =>
    case ClearRecovered =>
  }

  lemma StagingKeepsOthers(d: Disk, q: Proc, c: Choice)
    requires HolderInvariant(d, q) && q.op.Install?
    requires q.pc == Adding(MakeStaging) || q.pc == Adding(Copy) || q.pc == Adding(Publish)
    ensures OthersKept(d, Step(d, q, c).disk, q.op.id)
  {
    match q.pc.adding
    case MakeStaging =>
    case Copy =>
    case Publish =>
    case _ =>
  }

  lemma PlainKeepsVersions(d: Disk, q: Proc, pc: InstallPc, c: Choice)
    requires q.op.Install? && !pc.PruneOrphan? && !pc.MakeStaging? && !pc.Copy? && !pc.Publish? && !pc.Rollback? && !pc.Unpublish?
    ensures InstallStep(d, q, pc, c).disk.versions == d.versions
  {
  }

  /** Whatever an install does, and wherever it fails, every other published version stays as it is. */
  lemma InstallKeepsOthers(d: Disk, q: Proc, c: Choice)
    requires ProcInvariant(d, q) && q.op.Install?
    ensures OthersKept(d, Step(d, q, c).disk, q.op.id)
  {
    if !HoldsLock(q) {
      OutsideTheLock(d, q, c);
    } else if q.pc.Recovering? {
      RecoveryKeepsOthers(d, q, c);
    } else if q.pc.Adding? {
      match q.pc.adding
      case PruneOrphan => PruningKeepsOthers(d, q, c, q.scratch, Adding(MakeStaging), q.op.id);
      case Rollback => PruningKeepsOthers(d, q, c, q.scratch, Adding(ClearRollback), q.op.id);
      case Unpublish => PruningKeepsOthers(d, q, c, q.op.id, Closing(ClearFailed), q.op.id);
      case MakeStaging => StagingKeepsOthers(d, q, c);
      case Copy => StagingKeepsOthers(d, q, c);
      case Publish => StagingKeepsOthers(d, q, c);
      case pc => PlainKeepsVersions(d, q, pc, c);
    } else if q.pc.Removing? {
      RemovingUninstalls(d, q);
    }
  }

  // ---- the lock ----

  /** The lock is there exactly while somebody holds it. */
  predicate LockExact(s: System) {
    s.disk.lock <==> exists p | p in s.procs :: HoldsLock(s.procs[p])
  }

  /** The lock outlives its holder: the holder is killed, or cannot remove it. */
  predicate LeavesLock(s: System, l: Label)
    requires Enabled(s, l)
  {
    || (l.Kill? && HoldsLock(s.procs[l.pid]))
    || (l.Run? && Releasing(s.procs[l.pid]) && l.choice.fault.Before?)
  }

  predicate Releasing(q: Proc) {
    q.pc.Closing? && q.pc.closing.Release?
  }

  lemma RecoveryHolds(d: Disk, q: Proc, pc: RecoveryPc, c: Choice)
    requires q.pc == Recovering(pc)
    ensures HoldsLock(RecoveryStep(d, q, pc, c).proc) && RecoveryStep(d, q, pc, c).disk.lock == d.lock
  {
  }

  lemma InstallHolds(d: Disk, q: Proc, pc: InstallPc, c: Choice)
    requires q.op.Install? && q.pc == Adding(pc)
    ensures HoldsLock(InstallStep(d, q, pc, c).proc) && InstallStep(d, q, pc, c).disk.lock == d.lock
  {
  }

  lemma UninstallHolds(d: Disk, q: Proc, pc: UninstallPc, c: Choice)
    requires q.pc == Removing(pc)
    ensures HoldsLock(UninstallStep(d, q, pc, c).proc) && UninstallStep(d, q, pc, c).disk.lock == d.lock
  {
  }

  lemma EntryTakesLock(d: Disk, q: Proc, pc: EntryPc, c: Choice)
    requires q.pc == Entry(pc)
    ensures var e := EntryStep(d, q, pc, c);
            if HoldsLock(e.proc) then e.disk.lock && !d.lock else e.disk.lock == d.lock
  {
  }

  /** A holder keeps the lock until it releases it; nobody takes a lock that is there. */
  lemma StepLock(d: Disk, q: Proc, c: Choice, e: Effect)
    requires e == Step(d, q, c)
    ensures HoldsLock(q) && !Releasing(q) ==> HoldsLock(e.proc) && e.disk.lock == d.lock
    ensures Releasing(q) ==> !HoldsLock(e.proc) && e.disk.lock == (d.lock && c.fault.Before?)
    ensures !HoldsLock(q) ==> if HoldsLock(e.proc) then e.disk.lock && !d.lock else e.disk.lock == d.lock
  {
    match q.pc
    case Entry(pc) => EntryTakesLock(d, q, pc, c);
    case Recovering(pc) => RecoveryHolds(d, q, pc, c);
    case Adding(pc) => if q.op.Install? { InstallHolds(d, q, pc, c); }
    case Removing(pc) => UninstallHolds(d, q, pc, c);
    case Closing(_) =>
    case Done(_) =>
  }

  /** A stale lock comes about exactly by these two. */
  lemma LockStaysExact(s: System, l: Label)
    requires Invariant(s) && Enabled(s, l) && LockExact(s)
    ensures LockExact(Next(s, l)) <==> !LeavesLock(s, l)
  {
    match l
    case Run(p, c) => RunLockExact(s, p, c);
    case Kill(p) => KillLockExact(s, p);
    case Spawn(p, op) => SpawnLockExact(s, p, op);
    case ClearLock =>
    case Meddle(_, _) =>
  }

  lemma RunLockExact(s: System, p: nat, c: Choice)
    requires Invariant(s) && p in s.procs && LockExact(s)
    ensures LockExact(Next(s, Run(p, c))) <==> !LeavesLock(s, Run(p, c))
  {
    var q, t := s.procs[p], Next(s, Run(p, c));
    assert ProcInvariant(s.disk, q);
    StepLock(s.disk, q, c, Step(s.disk, q, c));
    if HoldsLock(t.procs[p]) {
      assert p in t.procs && HoldsLock(t.procs[p]);
    } else if HoldsLock(q) {
      assert forall r | r in t.procs :: !HoldsLock(t.procs[r]);
    } else {
      assert forall r | r in s.procs && r != p :: t.procs[r] == s.procs[r];
    }
  }

  lemma KillLockExact(s: System, p: nat)
    requires Invariant(s) && p in s.procs && LockExact(s)
    ensures LockExact(Next(s, Kill(p))) <==> !LeavesLock(s, Kill(p))
  {
    var t := Next(s, Kill(p));
    if HoldsLock(s.procs[p]) {
      assert forall r | r in t.procs :: !HoldsLock(t.procs[r]);
    } else {
      assert forall r | r in s.procs && r != p :: r in t.procs && t.procs[r] == s.procs[r];
    }
  }

  lemma SpawnLockExact(s: System, p: nat, op: Op)
    requires p !in s.procs && LockExact(s)
    ensures LockExact(Next(s, Spawn(p, op)))
  {
    var t := Next(s, Spawn(p, op));
    assert !HoldsLock(t.procs[p]);
    assert forall r | r in s.procs :: r in t.procs && t.procs[r] == s.procs[r];
  }
}
