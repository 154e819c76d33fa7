/** Every step of a process that holds the lock keeps the holder's invariant. */
module InstallerSteps {
  import opened InstallerDisk
  import opened InstallerMachine
  import opened InstallerInvariant

  lemma RecoverKeeps(d: Disk, q: Proc, c: Choice)
    requires HolderInvariant(d, q) && q.pc == Recovering(Recover)
    ensures Kept(RecoverStep(d, q, c))
  {
  }

  lemma PruneStagingKeeps(d: Disk, q: Proc, c: Choice)
    requires HolderInvariant(d, q) && q.pc == Recovering(PruneStaging)
    ensures Kept(PruneStagingStep(d, q, c))
  {
  }

  lemma SetRemovedKeeps(d: Disk, n: Name, r: Removed)
    requires DiskInvariant(d)
    requires n in d.removed && r.original == d.removed[n].original && r.touched && Part(r.trees, d.removed[n].trees)
    ensures DiskInvariant(d.(removed := d.removed[n := r]))
  {
  }

  /** Deleting from the moved tree that the journal names. */
  lemma PruneMovedKeeps(d: Disk, q: Proc, c: Choice, gone: Pc)
    requires DiskInvariant(d) && d.journal.Some? && d.journal.value.Uninstalling?
    ensures DiskInvariant(PruneMoved(d, q, c, d.journal.value.removed, gone).disk)
  {
    var n := d.journal.value.removed;
    if n in d.removed && c.tree in d.removed[n].trees {
      SetRemovedKeeps(d, n, PruneRemovedAt(d.removed[n], c));
    }
  }

  /** The deletion is over only when no moved tree is left. */
  lemma PruneMovedEnds(d: Disk, q: Proc, c: Choice, gone: Pc)
    requires DiskInvariant(d) && d.journal.Some? && d.journal.value.Uninstalling? && gone != q.pc && gone != FAIL
    requires PruneMoved(d, q, c, d.journal.value.removed, gone).proc.pc == gone
    ensures PruneMoved(d, q, c, d.journal.value.removed, gone).disk == d.(removed := map[])
  {
  }

  lemma PruneRemovedKeeps(d: Disk, q: Proc, c: Choice)
    requires HolderInvariant(d, q) && q.pc == Recovering(PruneRemoved)
    ensures Kept(PruneRemovedStep(d, q, c))
  {
    PruneMovedKeeps(d, q, c, Recovering(ClearRecovered));
    if PruneRemovedStep(d, q, c).proc.pc == Recovering(ClearRecovered) {
      PruneMovedEnds(d, q, c, Recovering(ClearRecovered));
    }
  }

  lemma RestoreKeeps(d: Disk, q: Proc, c: Choice)
    requires HolderInvariant(d, q) && q.pc == Recovering(Restore)
    ensures Kept(RestoreStep(d, q, c))
  {
  }

  lemma ClearRecoveredKeeps(d: Disk, q: Proc, c: Choice)
    requires HolderInvariant(d, q) && q.pc == Recovering(ClearRecovered)
    ensures Kept(AttemptClear(d, q, c, AfterRecovery(q.op), FAIL))
  {
  }

  lemma RecoveringKeeps(d: Disk, q: Proc, c: Choice)
    requires HolderInvariant(d, q) && q.pc.Recovering?
    ensures Kept(Step(d, q, c))
  {
    match q.pc.recovery
    case Recover => RecoverKeeps(d, q, c);
    case PruneStaging => PruneStagingKeeps(d, q, c);
    case PruneRemoved => PruneRemovedKeeps(d, q, c);
    case Restore => RestoreKeeps(d, q, c);
    case ClearRecovered => ClearRecoveredKeeps(d, q, c);
  }

  lemma InspectKeeps(d: Disk, q: Proc, c: Choice)
    requires HolderInvariant(d, q) && q.pc == Adding(Inspect)
    ensures Kept(InspectStep(d, q, c))
  {
  }

  lemma PruneOrphanKeeps(d: Disk, q: Proc, c: Choice)
    requires HolderInvariant(d, q) && q.pc == Adding(PruneOrphan)
    ensures Kept(PruneVersion(d, q, c, q.scratch, Adding(MakeStaging)))
  {
  }

  lemma MakeStagingKeeps(d: Disk, q: Proc, c: Choice)
    requires HolderInvariant(d, q) && q.pc == Adding(MakeStaging)
    ensures Kept(MakeStagingStep(d, q, c))
  {
    match c.fault
    case NoFault =>
    case Before =>
    case After =>
  }

  lemma WriteInstallingKeeps(d: Disk, q: Proc, c: Choice)
    requires HolderInvariant(d, q) && q.pc == Adding(WriteInstalling)
    ensures Kept(WriteInstallingStep(d, q, c))
  {
  }

  lemma CopyKeeps(d: Disk, q: Proc, c: Choice)
    requires HolderInvariant(d, q) && q.pc == Adding(Copy)
    ensures Kept(CopyStep(d, q, c))
  {
    var e := CopyStep(d, q, c);
    assert DiskInvariant(e.disk) && Copying(e.disk, q);
    if e.proc.pc == Adding(Copy) {
      KeptAdding(e, Copy);
    } else if e.proc.pc == Adding(Check) {
      KeptAdding(e, Check);
    } else {
      KeptAdding(e, Rollback);
    }
  }

  lemma CheckKeeps(d: Disk, q: Proc, c: Choice)
    requires HolderInvariant(d, q) && q.pc == Adding(Check)
    ensures Kept(CheckStep(d, q, c))
  {
  }

  lemma PublishKeeps(d: Disk, q: Proc, c: Choice)
    requires HolderInvariant(d, q) && q.pc == Adding(Publish)
    ensures Kept(PublishStep(d, q, c))
  {
    var e := PublishStep(d, q, c);
    if e.proc.pc == FAIL {
      KeptFailing(e);
    } else if e.proc.pc == Adding(Rollback) {
      KeptAdding(e, Rollback);
    } else {
      KeptAdding(e, LinkCommand);
    }
  }

  lemma RollbackKeeps(d: Disk, q: Proc, c: Choice)
    requires HolderInvariant(d, q) && q.pc == Adding(Rollback)
    ensures Kept(PruneVersion(d, q, c, q.scratch, Adding(ClearRollback)))
  {
    var e := PruneVersion(d, q, c, q.scratch, Adding(ClearRollback));
    assert DiskInvariant(e.disk);
    if e.proc.pc == Adding(ClearRollback) {
      KeptAdding(e, ClearRollback);
    } else if e.proc.pc == q.pc {
      KeptAdding(e, Rollback);
    } else {
      KeptFailing(e);
    }
  }

  lemma ClearRollbackKeeps(d: Disk, q: Proc, c: Choice)
    requires HolderInvariant(d, q) && q.pc == Adding(ClearRollback)
    ensures Kept(AttemptClear(d, q, c, FAIL, FAIL))
  {
    match c.fault
    case NoFault =>
    case Before =>
    case After =>
  }

  lemma LinkCommandKeeps(d: Disk, q: Proc, c: Choice)
    requires HolderInvariant(d, q) && q.pc == Adding(LinkCommand)
    ensures Kept(LinkCommandStep(d, q, c))
  {
    var e := LinkCommandStep(d, q, c);
    assert DiskInvariant(e.disk) && Whole(e.disk, q);
    if e.proc.pc == Adding(WriteAuthority) {
      KeptAdding(e, WriteAuthority);
    } else if q.isNew {
      KeptAdding(e, Unpublish);
    } else {
      KeptClosing(e, ClearFailed);
    }
  }

  lemma WriteAuthorityKeeps(d: Disk, q: Proc, c: Choice)
    requires HolderInvariant(d, q) && q.pc == Adding(WriteAuthority)
    ensures Kept(WriteAuthorityStep(d, q, c))
  {
    match c.fault
    case NoFault =>
    case Before =>
    case After =>
  }

  lemma LinkCurrentKeeps(d: Disk, q: Proc, c: Choice)
    requires HolderInvariant(d, q) && q.pc == Adding(LinkCurrent)
    ensures Kept(LinkCurrentStep(d, q, c))
  {
  }

  lemma UnpublishKeeps(d: Disk, q: Proc, c: Choice)
    requires HolderInvariant(d, q) && q.pc == Adding(Unpublish)
    ensures Kept(PruneVersion(d, q, c, q.op.id, Closing(ClearFailed)))
  {
  }

  lemma AddingKeeps(d: Disk, q: Proc, c: Choice)
    requires HolderInvariant(d, q) && q.pc.Adding?
    ensures Kept(Step(d, q, c))
  {
    match q.pc.adding
    case Inspect => InspectKeeps(d, q, c);
    case PruneOrphan => PruneOrphanKeeps(d, q, c);
    case MakeStaging => MakeStagingKeeps(d, q, c);
    case WriteInstalling => WriteInstallingKeeps(d, q, c);
    case Copy => CopyKeeps(d, q, c);
    case Check => CheckKeeps(d, q, c);
    case Publish => PublishKeeps(d, q, c);
    case Rollback => RollbackKeeps(d, q, c);
    case ClearRollback => ClearRollbackKeeps(d, q, c);
    case LinkCommand => LinkCommandKeeps(d, q, c);
    case WriteAuthority => WriteAuthorityKeeps(d, q, c);
    case LinkCurrent => LinkCurrentKeeps(d, q, c);
    case Unpublish => UnpublishKeeps(d, q, c);
  }

  lemma ValidateKeeps(d: Disk, q: Proc, c: Choice)
    requires HolderInvariant(d, q) && q.pc == Removing(Validate)
    ensures Kept(ValidateStep(d, q, c))
  {
  }

  lemma WritePreparedKeeps(d: Disk, q: Proc, c: Choice)
    requires HolderInvariant(d, q) && q.pc == Removing(WritePrepared)
    ensures Kept(WriteUninstallingStep(d, q, c, Uninstalling(false, q.scratch, q.op.dir), Removing(MoveVersions)))
  {
  }

  lemma MoveVersionsKeeps(d: Disk, q: Proc, c: Choice)
    requires HolderInvariant(d, q) && q.pc == Removing(MoveVersions)
    ensures Kept(MoveVersionsStep(d, q, c))
  {
    var e := MoveVersionsStep(d, q, c);
    if e.proc.pc == FAIL {
      KeptFailing(e);
    } else {
      KeptRemoving(e, Unlink);
    }
  }

  lemma UnlinkKeeps(d: Disk, q: Proc, c: Choice)
    requires HolderInvariant(d, q) && q.pc == Removing(Unlink)
    ensures Kept(UnlinkStep(d, q, c))
  {
    var e := UnlinkStep(d, q, c);
    assert DiskInvariant(e.disk) && Unlinking(e.disk, q);
    if e.proc.pc == UnlinkFailed(q) {
      if q.moved { KeptRemoving(e, MoveBack); } else { KeptClosing(e, ClearFailed); }
    } else {
      if q.moved { KeptRemoving(e, WriteCommitted); } else { KeptRemoving(e, DropAuthority); }
    }
  }

  lemma MoveBackKeeps(d: Disk, q: Proc, c: Choice)
    requires HolderInvariant(d, q) && q.pc == Removing(MoveBack)
    ensures Kept(MoveBackStep(d, q, c))
  {
  }

  lemma WriteCommittedKeeps(d: Disk, q: Proc, c: Choice)
    requires HolderInvariant(d, q) && q.pc == Removing(WriteCommitted)
    ensures Kept(WriteUninstallingStep(d, q, c, Uninstalling(true, q.scratch, q.op.dir), Removing(DropRemoved)))
  {
  }

  /** Where a deletion of the moved tree can lead. */
  lemma PruneMovedLeads(d: Disk, q: Proc, c: Choice, n: Name, gone: Pc)
    ensures PruneMoved(d, q, c, n, gone).disk == d.(removed := PruneMoved(d, q, c, n, gone).disk.removed)
    ensures PruneMoved(d, q, c, n, gone).proc in {q.(pc := gone), q, q.(pc := FAIL)}
  {
    assert q == q.(pc := q.pc);
    if n in d.removed && !c.fault.Before? {
      var r := d.removed[n];
      if r.trees == map[] {
        assert PruneMoved(d, q, c, n, gone) == Goto(d.(removed := d.removed - {n}), q, gone);
      } else if c.tree in r.trees {
        assert PruneMoved(d, q, c, n, gone) == Goto(d.(removed := d.removed[n := PruneRemovedAt(r, c)]), q, q.pc);
      } else {
        assert PruneMoved(d, q, c, n, gone) == Goto(d, q, q.pc);
      }
    }
  }

  lemma DropRemovedEnds(d: Disk, q: Proc, e: Effect)
    requires HolderInvariant(d, q) && q.pc == Removing(DropRemoved) && e.disk == d.(removed := map[])
    requires e.proc == q.(pc := Removing(DropAuthority)) && DiskInvariant(e.disk)
    ensures Kept(e)
  {
    KeptRemoving(e, DropAuthority);
  }

  lemma DropRemovedGoesOn(d: Disk, q: Proc, e: Effect)
    requires HolderInvariant(d, q) && q.pc == Removing(DropRemoved) && e.disk == d.(removed := e.disk.removed)
    requires e.proc == q && DiskInvariant(e.disk)
    ensures Kept(e)
  {
    KeptRemoving(e, DropRemoved);
  }

  lemma DropRemovedKeeps(d: Disk, q: Proc, c: Choice)
    requires HolderInvariant(d, q) && q.pc == Removing(DropRemoved)
    ensures Kept(PruneMoved(d, q, c, q.scratch, Removing(DropAuthority)))
  {
    var e := PruneMoved(d, q, c, q.scratch, Removing(DropAuthority));
    PruneMovedKeeps(d, q, c, Removing(DropAuthority));
    PruneMovedLeads(d, q, c, q.scratch, Removing(DropAuthority));
    if e.proc.pc == Removing(DropAuthority) {
      PruneMovedEnds(d, q, c, Removing(DropAuthority));
      DropRemovedEnds(d, q, e);
    } else if e.proc.pc == Removing(DropRemoved) {
      DropRemovedGoesOn(d, q, e);
    } else {
      KeptFailing(e);
    }
  }

  lemma DropAuthorityKeeps(d: Disk, q: Proc, c: Choice)
    requires HolderInvariant(d, q) && q.pc == Removing(DropAuthority)
    ensures Kept(DropAuthorityStep(d, q, c))
  {
    match c.fault
    case NoFault =>
    case Before =>
    case After =>
  }

  lemma DropCurrentKeeps(d: Disk, q: Proc, c: Choice)
    requires HolderInvariant(d, q) && q.pc == Removing(DropCurrent)
    ensures Kept(DropCurrentStep(d, q, c))
  {
    match c.fault
    case NoFault =>
    case Before =>
    case After =>
  }

  lemma RemovingKeeps(d: Disk, q: Proc, c: Choice)
    requires HolderInvariant(d, q) && q.pc.Removing?
    ensures Kept(Step(d, q, c))
  {
    match q.pc.removing
    case Validate => ValidateKeeps(d, q, c);
    case WritePrepared => WritePreparedKeeps(d, q, c);
    case MoveVersions => MoveVersionsKeeps(d, q, c);
    case Unlink => UnlinkKeeps(d, q, c);
    case MoveBack => MoveBackKeeps(d, q, c);
    case WriteCommitted => WriteCommittedKeeps(d, q, c);
    case DropRemoved => DropRemovedKeeps(d, q, c);
    case DropAuthority => DropAuthorityKeeps(d, q, c);
    case DropCurrent => DropCurrentKeeps(d, q, c);
  }

  lemma ClearFailedKeeps(d: Disk, q: Proc, c: Choice)
    requires HolderInvariant(d, q) && q.pc == Closing(ClearFailed)
    ensures Kept(AttemptClear(d, q, c, FAIL, FAIL))
  {
  }

  lemma ClearFinishedKeeps(d: Disk, q: Proc, c: Choice)
    requires HolderInvariant(d, q) && q.pc == Closing(ClearFinished)
    ensures Kept(AttemptClear(d, q, c, Closing(Release(true)), FAIL))
  {
    var e := AttemptClear(d, q, c, Closing(Release(true)), FAIL);
    if e.proc.pc == FAIL {
      KeptFailing(e);
    } else {
      KeptClosing(e, Release(true));
    }
  }

  /** Every step of the lock holder keeps its invariant; releasing leaves the disk invariant. */
  lemma HolderStepKeeps(d: Disk, q: Proc, c: Choice)
    requires HolderInvariant(d, q) && HoldsLock(q)
    ensures DiskInvariant(Step(d, q, c).disk)
    ensures HoldsLock(Step(d, q, c).proc) ==> Kept(Step(d, q, c))
  {
    match q.pc
    case Recovering(_) => RecoveringKeeps(d, q, c);
    case Adding(_) => AddingKeeps(d, q, c);
    case Removing(_) => RemovingKeeps(d, q, c);
    case Closing(pc) =>
      match pc
      case ClearFailed => ClearFailedKeeps(d, q, c);
      case ClearFinished => ClearFinishedKeeps(d, q, c);
      case Release(_) =>
  }
}
