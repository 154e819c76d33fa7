/** What holds while a process is inside the lock, and why every step keeps it. */
module InstallerInvariant {
  import opened Wrappers
  import opened InstallerDisk
  import opened InstallerMachine

  /** `versions` is missing, or an empty one was created by a process waiting for the lock. */
  predicate VersionsGone(d: Disk) {
    d.versions.None? || d.versions.value == map[]
  }

  predicate OwnInstallJournal(d: Disk, q: Proc)
    requires q.op.Install?
  {
    d.journal == Some(Installing(q.op.id, q.scratch))
  }

  predicate OwnUninstallJournal(d: Disk, q: Proc, committed: bool) {
    d.journal == Some(Uninstalling(committed, q.scratch, q.op.dir))
  }

  /** The version to install is not there yet and nothing is in progress. */
  predicate Ready(d: Disk, q: Proc) {
    && q.op.Install? && !q.isNew && Settled(d)
    && (d.versions.Some? ==> q.op.id !in d.versions.value)
  }

  /** The staging directory exists but no journal names it yet. */
  predicate Made(d: Disk, q: Proc) {
    && Ready(d, q) && d.versions.Some? && q.scratch in d.versions.value
    && d.versions.value[q.scratch].want == q.op.want
  }

  /** The journal names the staging directory, which is being filled or taken away. */
  predicate Undoing(d: Disk, q: Proc) {
    && q.op.Install? && OwnInstallJournal(d, q) && d.removed == map[]
    && d.versions.Some? && q.op.id !in d.versions.value
  }

  predicate Copying(d: Disk, q: Proc) {
    && Undoing(d, q) && q.scratch in d.versions.value
    && d.versions.value[q.scratch].want == q.op.want
  }

  predicate Copied(d: Disk, q: Proc) {
    Copying(d, q) && Complete(d.versions.value[q.scratch])
  }

  /** The version stands under its final name; a journal written by this process names a staging
      directory that is gone. */
  predicate Published(d: Disk, q: Proc) {
    && q.op.Install? && d.removed == map[] && d.versions.Some? && Quiet(d.versions.value)
    && (q.isNew ==> OwnInstallJournal(d, q) && q.scratch !in d.versions.value)
    && (!q.isNew ==> d.journal.None?)
  }

  predicate Whole(d: Disk, q: Proc) {
    && Published(d, q) && q.op.id in d.versions.value && Complete(d.versions.value[q.op.id])
    && (q.isNew ==> d.versions.value[q.op.id].want == q.op.want)
  }

  /** The journal is all that is left to clear. */
  predicate Closable(d: Disk) {
    Settled(ClearJournal(d))
  }

  /** Everything an uninstall promises to remove, apart from the command, the journal and moved trees. */
  predicate Erased(d: Disk) {
    VersionsGone(d) && d.authority.None? && d.current.None?
  }

  predicate Succeeded(d: Disk, op: Op) {
    && (op.Install? ==> CurrentComplete(d) && d.current == Some(op.id) && d.authority == Some(op.id))
    && (op.Uninstall? ==> Erased(d))
  }

  predicate MovedAway(d: Disk, n: Name) {
    d.removed.Keys == {n} && VersionsGone(d)
  }

  /** `versions` was moved aside whole and nothing of it was deleted. */
  predicate MovedWhole(d: Disk, n: Name) {
    MovedAway(d, n) && d.removed[n].trees == d.removed[n].original && !d.removed[n].touched
  }

  predicate Restoring(d: Disk, q: Proc) {
    && d.journal.Some? && d.journal.value.Uninstalling? && d.journal.value.dir == q.op.dir
    && MovedAway(d, d.journal.value.removed)
  }

  predicate Moving(d: Disk, q: Proc) {
    && q.op.Uninstall? && OwnUninstallJournal(d, q, false)
    && d.removed == map[] && d.versions.Some? && Quiet(d.versions.value)
  }

  predicate MovedAside(d: Disk, q: Proc) {
    q.op.Uninstall? && q.moved && OwnUninstallJournal(d, q, false) && MovedWhole(d, q.scratch)
  }

  predicate Unlinking(d: Disk, q: Proc) {
    if q.moved then MovedAside(d, q) else q.op.Uninstall? && Settled(d) && VersionsGone(d)
  }

  predicate Dropping(d: Disk, q: Proc) {
    q.op.Uninstall? && OwnUninstallJournal(d, q, true) && VersionsGone(d)
  }

  predicate Dropped(d: Disk, q: Proc) {
    q.op.Uninstall? && Closable(d) && VersionsGone(d)
  }

  /** What the journal names has been dealt with. */
  predicate Handled(d: Disk, q: Proc) {
    && d.journal.Some? && Closable(d)
    && match d.journal.value
       case Installing(_, staging) => d.versions.Some? ==> staging !in d.versions.value
       case Uninstalling(_, _, dir) => dir == q.op.dir
  }

  /** The directory `n` inside `versions` is not there, or not there any more. */
  predicate Withdrawn(d: Disk, n: Name) {
    d.versions.Some? ==> n !in d.versions.value
  }

  predicate AtRecovery(d: Disk, q: Proc, pc: RecoveryPc) {
    match pc
    case Recover => true
    case PruneStaging => d.journal.Some? && d.journal.value.Installing?
    case PruneRemoved => d.journal.Some? && d.journal.value.Uninstalling? && d.journal.value.dir == q.op.dir
    case Restore => Restoring(d, q)
    case ClearRecovered => Handled(d, q)
  }

  predicate AtInstall(d: Disk, q: Proc, pc: InstallPc) {
    match pc
    case Inspect => q.op.Install? && !q.isNew && Settled(d)
    case PruneOrphan => Ready(d, q)
    case MakeStaging => Ready(d, q)
    case WriteInstalling => Made(d, q)
    case Copy => Copying(d, q)
    case Check => Copying(d, q)
    case Publish => Copied(d, q)
    case Rollback => Undoing(d, q)
    case ClearRollback => q.op.Install? && Closable(d) && Withdrawn(d, q.scratch)
    case LinkCommand => Whole(d, q)
    case WriteAuthority => Whole(d, q)
    case LinkCurrent => Whole(d, q) && d.authority == Some(q.op.id)
    case Unpublish => q.isNew && Published(d, q)
  }

  predicate AtUninstall(d: Disk, q: Proc, pc: UninstallPc) {
    match pc
    case Validate => q.op.Uninstall? && !q.moved && Settled(d)
    case WritePrepared => q.op.Uninstall? && !q.moved && Settled(d) && d.versions.Some?
    case MoveVersions => Moving(d, q)
    case Unlink => Unlinking(d, q)
    case MoveBack => MovedAside(d, q)
    case WriteCommitted => MovedAside(d, q)
    case DropRemoved => Dropping(d, q)
    case DropAuthority => Dropped(d, q)
    case DropCurrent => Dropped(d, q) && d.authority.None?
  }

  predicate AtClose(d: Disk, q: Proc, pc: ClosePc) {
    match pc
    case ClearFailed => Closable(d) && (q.op.Install? && q.isNew ==> Withdrawn(d, q.op.id))
    case ClearFinished => Closable(d) && Succeeded(d, q.op)
    case Release(ok) => ok ==> Settled(d) && Succeeded(d, q.op)
  }

  /** What the process at its control point may rely on, beyond the disk invariant. */
  predicate AtPc(d: Disk, q: Proc) {
    match q.pc
    case Entry(_) => true
    case Recovering(pc) => !q.isNew && !q.moved && AtRecovery(d, q, pc)
    case Adding(pc) => AtInstall(d, q, pc)
    case Removing(pc) => AtUninstall(d, q, pc)
    case Closing(pc) => AtClose(d, q, pc)
    case Done(_) => true
  }

  /** The names of an operation: only a published version has a hash for a name. */
  predicate ProperNames(q: Proc) {
    q.op.Install? ==> ValidHash(q.op.id) && !ValidHash(q.scratch)
  }

  /** The invariant of the process inside the lock. */
  predicate HolderInvariant(d: Disk, q: Proc) {
    d.lock && DiskInvariant(d) && ProperNames(q) && AtPc(d, q)
  }

  predicate Kept(e: Effect) {
    HolderInvariant(e.disk, e.proc)
  }

  /** The part of the holder's invariant that does not depend on the control point. */
  predicate HeldWell(d: Disk, q: Proc) {
    d.lock && DiskInvariant(d) && ProperNames(q)
  }

  lemma KeptAdding(e: Effect, pc: InstallPc)
    requires HeldWell(e.disk, e.proc) && e.proc.pc == Adding(pc) && AtInstall(e.disk, e.proc, pc)
    ensures Kept(e)
  {
  }

  lemma KeptRemoving(e: Effect, pc: UninstallPc)
    requires HeldWell(e.disk, e.proc) && e.proc.pc == Removing(pc) && AtUninstall(e.disk, e.proc, pc)
    ensures Kept(e)
  {
  }

  lemma KeptClosing(e: Effect, pc: ClosePc)
    requires HeldWell(e.disk, e.proc) && e.proc.pc == Closing(pc) && AtClose(e.disk, e.proc, pc)
    ensures Kept(e)
  {
  }

  /** Giving up asks for nothing beyond the disk invariant. */
  lemma KeptFailing(e: Effect)
    requires HeldWell(e.disk, e.proc) && e.proc.pc == FAIL
    ensures Kept(e)
  {
  }
}
