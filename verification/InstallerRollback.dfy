/** Uninstall and recovery over whole runs: what is deleted, what is put back, what is left. */
module InstallerRollback {
  import opened Wrappers
  import opened InstallerDisk
  import opened InstallerMachine
  import opened InstallerInvariant
  import opened InstallerSystem
  import opened InstallerCommands

  // ---- when the deletion of a moved tree is final ----

  /** A recovery has decided to delete the moved tree `n` and has yet to do so. */
  predicate Pruned(s: System, n: Name)
    requires n in s.disk.removed
  {
    s.disk.removed[n].trees != map[] && exists p | p in s.procs :: s.procs[p].pc == Recovering(PruneRemoved)
  }

  /** The deletion of the moved tree `n` has begun or is about to begin. */
  predicate Doomed(s: System, n: Name)
    requires n in s.disk.removed
  {
    s.disk.removed[n].touched || Pruned(s, n)
  }

  /** Deleting a tree whose deletion has begun is allowed. */
  predicate TouchedAllowed(d: Disk) {
    forall n | n in d.removed && d.removed[n].touched :: DeletionAllowed(d)
  }

  /** A recovery that decided to delete may, and one that decided to restore restores all that was moved. */
  predicate DecidedWell(d: Disk, q: Proc) {
    && (q.pc == Recovering(PruneRemoved) ==> forall n | n in d.removed && d.removed[n].trees != map[] :: DeletionAllowed(d))
    && (q.pc == Recovering(Restore) ==> forall n | n in d.removed :: !d.removed[n].touched)
  }

  /** No recovery would restore a tree whose deletion has begun, and none is about to. */
  predicate DeletionFinal(s: System) {
    TouchedAllowed(s.disk) && forall p | p in s.procs :: DecidedWell(s.disk, s.procs[p])
  }

  /** Another program puts a command where the journal of a doomed tree expects none, while nothing
      else, a committed journal or a `versions` directory, speaks for the deletion. */
  predicate Intrusion(s: System, l: Label) {
    && l.Meddle? && !l.command.Absent?
    && s.disk.journal.Some? && s.disk.journal.value.Uninstalling? && s.disk.journal.value.dir == l.dir
    && !s.disk.journal.value.committed && s.disk.versions.None?
    && exists n | n in s.disk.removed :: Doomed(s, n)
  }

  // ---- a moved tree is put back whole or not at all ----

  /** What may become of the moved tree `n` in one step: it stays, or shrinks once its deletion has
      begun; or nothing of it is left and it goes; or what there is of it stands in `versions` again. */
  predicate MovedTreeStep(d: Disk, d': Disk, n: Name)
    requires n in d.removed
  {
    var r := d.removed[n];
    if n in d'.removed then
      var r' := d'.removed[n];
      && r'.original == r.original && (r.touched ==> r'.touched)
      && Part(r'.trees, r.trees) && (r'.trees != r.trees ==> r'.touched)
    else
      || (r.trees == map[] && d'.versions == d.versions)
      || d'.versions == Some(r.trees)
  }

  lemma PrunedPart(trees: Trees, n: Name, file: Name)
    requires n in trees
    ensures Part(PruneAt(trees, n, file), trees)
  {
  }

  lemma PruneMovedStep(d: Disk, q: Proc, c: Choice, n: Name, gone: Pc)
    requires n in d.removed
    ensures MovedTreeStep(d, PruneMoved(d, q, c, n, gone).disk, n)
  {
    if c.tree in d.removed[n].trees {
      PrunedPart(d.removed[n].trees, c.tree, c.file);
    }
  }

  lemma RestoreMovedStep(d: Disk, n: Name)
    requires n in d.removed
    ensures MovedTreeStep(d, RestoreMoved(d, n), n)
  {
  }

  lemma RecoveryMovedTree(d: Disk, q: Proc, c: Choice, n: Name)
    requires HolderInvariant(d, q) && q.pc.Recovering? && n in d.removed
    ensures MovedTreeStep(d, Step(d, q, c).disk, n)
  {
    assert MovedTreeSafe(d, n);
    match q.pc.recovery
    case Recover =>
    case PruneStaging =>
    case PruneRemoved => PruneMovedStep(d, q, c, n, Recovering(ClearRecovered));
    case Restore => RestoreMovedStep(d, n);
    case ClearRecovered =>
  }

  lemma UninstallMovedTree(d: Disk, q: Proc, c: Choice, n: Name)
    requires HolderInvariant(d, q) && q.pc.Removing? && n in d.removed
    ensures MovedTreeStep(d, Step(d, q, c).disk, n)
  {
    assert MovedTreeSafe(d, n);
    var pc := q.pc.removing;
    if pc.DropRemoved? {
      PruneMovedStep(d, q, c, n, Removing(DropAuthority));
    } else if pc.MoveBack? {
      RestoreMovedStep(d, n);
    } else if !pc.MoveVersions? {
      UninstallLeavesTrees(d, q, pc, c);
    }
  }

  lemma HolderMovedTree(d: Disk, q: Proc, c: Choice, n: Name)
    requires HolderInvariant(d, q) && HoldsLock(q) && n in d.removed
    ensures MovedTreeStep(d, Step(d, q, c).disk, n)
  {
    match q.pc
    case Recovering(_) => RecoveryMovedTree(d, q, c, n);
    case Adding(_) => InstallHasNoMovedTree(d, q);
    case Removing(_) => UninstallMovedTree(d, q, c, n);
    case Closing(pc) => ClosingMovesNothing(d, q, pc, c);
  }

  /** An install has no moved tree to change. */
  lemma InstallHasNoMovedTree(d: Disk, q: Proc)
    requires HolderInvariant(d, q) && q.pc.Adding?
    ensures d.removed == map[] && q.op.Install?
  {
  }

  lemma ClosingMovesNothing(d: Disk, q: Proc, pc: ClosePc, c: Choice)
    ensures CloseStep(d, q, pc, c).disk.removed == d.removed
  {
  }

  lemma RecoveryShrinks(d: Disk, q: Proc, c: Choice, n: Name)
    requires HolderInvariant(d, q) && q.pc.Recovering? && n in d.removed && n in Step(d, q, c).disk.removed
    requires Step(d, q, c).disk.removed[n] != d.removed[n]
    ensures d.removed[n].trees != map[] && q.pc == Recovering(PruneRemoved)
  {
  }

  /** Apart from three steps, an uninstall leaves `versions` and the moved trees alone. */
  lemma UninstallLeavesTrees(d: Disk, q: Proc, pc: UninstallPc, c: Choice)
    requires !pc.MoveVersions? && !pc.MoveBack? && !pc.DropRemoved?
    ensures UninstallStep(d, q, pc, c).disk.removed == d.removed
  {
  }

  lemma UninstallShrinks(d: Disk, q: Proc, c: Choice, n: Name)
    requires HolderInvariant(d, q) && q.pc.Removing? && n in d.removed && n in Step(d, q, c).disk.removed
    requires Step(d, q, c).disk.removed[n] != d.removed[n]
    ensures d.removed[n].trees != map[] && q.pc == Removing(DropRemoved)
  {
    var pc := q.pc.removing;
    if !pc.MoveVersions? && !pc.MoveBack? && !pc.DropRemoved? {
      UninstallLeavesTrees(d, q, pc, c);
    }
  }

  /** The steps that take something from a moved tree: a recovery's that decided to, and those of the
      uninstall that committed to it. */
  lemma HolderShrinks(d: Disk, q: Proc, c: Choice, n: Name)
    requires HolderInvariant(d, q) && HoldsLock(q) && n in d.removed && n in Step(d, q, c).disk.removed
    requires Step(d, q, c).disk.removed[n] != d.removed[n]
    ensures d.removed[n].trees != map[]
    ensures q.pc == Recovering(PruneRemoved) || DeletionAllowed(d)
  {
    match q.pc
    case Recovering(_) => RecoveryShrinks(d, q, c, n);
    case Adding(_) => InstallHasNoMovedTree(d, q);
    case Removing(_) => UninstallShrinks(d, q, c, n);
    case Closing(pc) => ClosingMovesNothing(d, q, pc, c);
  }

  /** How the moved tree `n` goes: nothing was left of it, or it is put back. */
  predicate Leaves(d: Disk, q: Proc, d': Disk, n: Name)
    requires n in d.removed
  {
    || (d.removed[n].trees == map[] && d'.versions == d.versions)
    || (d'.versions == Some(d.removed[n].trees) && (d.removed[n].touched ==> q.pc == Recovering(Restore)))
  }

  lemma RecoveryRestores(d: Disk, q: Proc, c: Choice, n: Name)
    requires HolderInvariant(d, q) && q.pc.Recovering? && n in d.removed && n !in Step(d, q, c).disk.removed
    ensures Leaves(d, q, Step(d, q, c).disk, n)
  {
    match q.pc.recovery
    case Recover =>
    case PruneStaging =>
    case PruneRemoved =>
    case Restore =>
    case ClearRecovered =>
  }

  lemma UninstallRestores(d: Disk, q: Proc, c: Choice, n: Name)
    requires HolderInvariant(d, q) && q.pc.Removing? && n in d.removed && n !in Step(d, q, c).disk.removed
    ensures Leaves(d, q, Step(d, q, c).disk, n)
  {
    var pc := q.pc.removing;
    if !pc.MoveVersions? && !pc.MoveBack? && !pc.DropRemoved? {
      UninstallLeavesTrees(d, q, pc, c);
    }
  }

  /** The steps that put a moved tree back: a recovery's that decided to, and those of the uninstall
      that moved it and could not unlink the command. */
  lemma HolderRestores(d: Disk, q: Proc, c: Choice, n: Name)
    requires HolderInvariant(d, q) && HoldsLock(q) && n in d.removed && n !in Step(d, q, c).disk.removed
    ensures Leaves(d, q, Step(d, q, c).disk, n)
  {
    match q.pc
    case Recovering(_) => RecoveryRestores(d, q, c, n);
    case Adding(_) => InstallHasNoMovedTree(d, q);
    case Removing(_) => UninstallRestores(d, q, c, n);
    case Closing(pc) => ClosingMovesNothing(d, q, pc, c);
  }

  /** As long as deletions are final, a moved tree shrinks only while its deletion is allowed, and one
      whose deletion has begun is not put back. */
  lemma MovedTreeFate(s: System, l: Label, n: Name)
    requires Invariant(s) && Enabled(s, l) && n in s.disk.removed
    ensures MovedTreeStep(s.disk, Next(s, l).disk, n)
    ensures var d, d' := s.disk, Next(s, l).disk;
            DeletionFinal(s) ==>
              if n in d'.removed then d'.removed[n].trees != d.removed[n].trees ==> DeletionAllowed(d)
              else d.removed[n].touched ==> d.removed[n].trees == map[] && d'.versions == d.versions
  {
    if l.Run? {
      var q := s.procs[l.pid];
      assert ProcInvariant(s.disk, q);
      if HoldsLock(q) {
        HolderMovedTree(s.disk, q, l.choice, n);
        if n !in Next(s, l).disk.removed {
          HolderRestores(s.disk, q, l.choice, n);
        } else if Next(s, l).disk.removed[n] != s.disk.removed[n] {
          HolderShrinks(s.disk, q, l.choice, n);
        }
      } else {
        OutsideTheLock(s.disk, q, l.choice);
      }
    }
  }

  lemma RecoveryMovesNothing(d: Disk, q: Proc, pc: RecoveryPc, c: Choice)
    ensures RecoveryStep(d, q, pc, c).disk.removed.Keys <= d.removed.Keys
  {
  }

  lemma InstallMovesNothing(d: Disk, q: Proc, pc: InstallPc, c: Choice)
    requires q.op.Install?
    ensures InstallStep(d, q, pc, c).disk.removed == d.removed
  {
  }

  lemma UninstallMovesNothing(d: Disk, q: Proc, pc: UninstallPc, c: Choice)
    requires pc != MoveVersions
    ensures UninstallStep(d, q, pc, c).disk.removed.Keys <= d.removed.Keys
  {
  }

  lemma OnlyMoveVersionsMoves(d: Disk, q: Proc, c: Choice)
    requires q.pc != Removing(MoveVersions)
    ensures Step(d, q, c).disk.removed.Keys <= d.removed.Keys
  {
    match q.pc
    case Recovering(pc) => RecoveryMovesNothing(d, q, pc, c);
    case Adding(pc) => if q.op.Install? { InstallMovesNothing(d, q, pc, c); }
    case Removing(pc) => UninstallMovesNothing(d, q, pc, c);
    case _ =>
  }

  /** The only step that moves `versions` aside records exactly what stood there. */
  lemma MovingRecordsWhole(d: Disk, q: Proc, c: Choice, n: Name)
    requires n !in d.removed && n in Step(d, q, c).disk.removed
    ensures d.versions.Some? && Step(d, q, c).disk.removed[n] == Removed(d.versions.value, d.versions.value, false)
  {
    if q.pc != Removing(MoveVersions) {
      OnlyMoveVersionsMoves(d, q, c);
    }
  }

  /** The tree `n` exists at every instant of the run. */
  predicate StaysMoved(s: System, ls: seq<Label>, n: Name)
    requires Possible(s, ls)
    decreases |ls|
  {
    n in s.disk.removed && (ls != [] ==> StaysMoved(Next(s, ls[0]), ls[1..], n))
  }

  lemma RecoveringDecides(d: Disk, q: Proc, c: Choice)
    requires HolderInvariant(d, q) && q.pc.Recovering? && TouchedAllowed(d) && DecidedWell(d, q)
    ensures TouchedAllowed(Step(d, q, c).disk) && DecidedWell(Step(d, q, c).disk, Step(d, q, c).proc)
  {
    match q.pc.recovery
    case Recover => RecoverDecides(d, q, c);
    case PruneStaging =>
    case PruneRemoved => PruneDecides(d, q, c);
    case Restore =>
    case ClearRecovered =>
  }

  /** The decision itself. */
  lemma RecoverDecides(d: Disk, q: Proc, c: Choice)
    requires HolderInvariant(d, q) && q.pc == Recovering(Recover) && TouchedAllowed(d)
    ensures TouchedAllowed(RecoverStep(d, q, c).disk) && DecidedWell(RecoverStep(d, q, c).disk, RecoverStep(d, q, c).proc)
  {
  }

  lemma PruneDecides(d: Disk, q: Proc, c: Choice)
    requires HolderInvariant(d, q) && q.pc == Recovering(PruneRemoved) && TouchedAllowed(d) && DecidedWell(d, q)
    ensures TouchedAllowed(PruneRemovedStep(d, q, c).disk)
    ensures DecidedWell(PruneRemovedStep(d, q, c).disk, PruneRemovedStep(d, q, c).proc)
  {
  }

  /** An uninstall touches the tree it moved only after it has committed to that. */
  lemma UninstallTouches(d: Disk, q: Proc, n: Name)
    requires HolderInvariant(d, q) && q.pc.Removing? && n in d.removed
    ensures q.pc == Removing(DropRemoved) || !d.removed[n].touched
  {
  }

  lemma UninstallDecides(d: Disk, q: Proc, c: Choice)
    requires HolderInvariant(d, q) && q.pc.Removing? && TouchedAllowed(d)
    ensures TouchedAllowed(Step(d, q, c).disk)
  {
    forall n | n in d.removed
      ensures q.pc == Removing(DropRemoved) || !d.removed[n].touched
    {
      UninstallTouches(d, q, n);
    }
    var pc := q.pc.removing;
    if !pc.MoveVersions? && !pc.MoveBack? && !pc.DropRemoved? {
      UninstallLeavesTrees(d, q, pc, c);
    }
  }

  lemma UninstallRecoversNothing(d: Disk, q: Proc, pc: UninstallPc, c: Choice)
    requires q.pc == Removing(pc)
    ensures !UninstallStep(d, q, pc, c).proc.pc.Recovering?
  {
  }

  lemma ClosingDecides(d: Disk, q: Proc, c: Choice)
    requires HolderInvariant(d, q) && q.pc.Closing? && TouchedAllowed(d)
    ensures TouchedAllowed(Step(d, q, c).disk) && !Step(d, q, c).proc.pc.Recovering?
  {
  }

  lemma InstallDecidesNothing(d: Disk, q: Proc, pc: InstallPc, c: Choice)
    requires q.op.Install? && q.pc == Adding(pc)
    ensures !InstallStep(d, q, pc, c).proc.pc.Recovering?
  {
  }

  lemma OthersDecideNothing(d: Disk, q: Proc, c: Choice)
    requires HolderInvariant(d, q) && HoldsLock(q) && !q.pc.Recovering? && TouchedAllowed(d)
    ensures TouchedAllowed(Step(d, q, c).disk) && DecidedWell(Step(d, q, c).disk, Step(d, q, c).proc)
  {
    match q.pc
    case Adding(pc) =>
      InstallHasNoMovedTree(d, q);
      InstallMovesNothing(d, q, pc, c);
      InstallDecidesNothing(d, q, pc, c);
    case Removing(pc) =>
      UninstallDecides(d, q, c);
      UninstallRecoversNothing(d, q, pc, c);
    case Closing(_) => ClosingDecides(d, q, c);
  }

  /** Outside the lock no recovery is decided. */
  lemma EntryLeads(d: Disk, q: Proc, c: Choice)
    requires !HoldsLock(q)
    ensures var pc := Step(d, q, c).proc.pc; pc.Entry? || pc.Done? || pc == Recovering(Recover)
  {
  }

  lemma EntryDecides(d: Disk, e: Effect)
    requires TouchedAllowed(d) && (e.proc.pc.Entry? || e.proc.pc.Done? || e.proc.pc == Recovering(Recover))
    requires e.disk == d.(prefix := e.disk.prefix, versions := e.disk.versions, lock := e.disk.lock)
    requires e.disk.versions == d.versions || e.disk.versions.Some?
    ensures DeletionAllowed(d) ==> DeletionAllowed(e.disk)
    ensures TouchedAllowed(e.disk) && DecidedWell(e.disk, e.proc)
  {
  }

  lemma RunDecides(d: Disk, q: Proc, c: Choice, e: Effect)
    requires ProcInvariant(d, q) && TouchedAllowed(d) && DecidedWell(d, q) && e == Step(d, q, c)
    ensures TouchedAllowed(e.disk) && DecidedWell(e.disk, e.proc)
    ensures !HoldsLock(q) ==> e.disk.removed == d.removed && (DeletionAllowed(d) ==> DeletionAllowed(e.disk))
  {
    if !HoldsLock(q) {
      OutsideTheLock(d, q, c);
      EntryLeads(d, q, c);
      EntryDecides(d, e);
    } else if q.pc.Recovering? {
      RecoveringDecides(d, q, c);
    } else {
      OthersDecideNothing(d, q, c);
    }
  }

  lemma OthersStayDecided(s: System, p: nat, e: Effect)
    requires AtMostOneHolds(s) && DeletionFinal(s) && p in s.procs && TouchedAllowed(e.disk) && DecidedWell(e.disk, e.proc)
    requires !HoldsLock(s.procs[p]) ==>
      e.disk.removed == s.disk.removed && (DeletionAllowed(s.disk) ==> DeletionAllowed(e.disk))
    ensures DeletionFinal(System(e.disk, s.procs[p := e.proc]))
  {
    forall r | r in s.procs && r != p
      ensures DecidedWell(e.disk, s.procs[r])
    {
      assert DecidedWell(s.disk, s.procs[r]);
    }
  }

  lemma RunStaysFinal(s: System, p: nat, c: Choice)
    requires Invariant(s) && p in s.procs && DeletionFinal(s)
    ensures DeletionFinal(Next(s, Run(p, c)))
  {
    var q := s.procs[p];
    var e := Step(s.disk, q, c);
    assert ProcInvariant(s.disk, q) && DecidedWell(s.disk, q);
    RunDecides(s.disk, q, c, e);
    OthersStayDecided(s, p, e);
  }

  /** An intrusion is exactly what makes the deletion of a moved tree revocable. */
  lemma DeletionStaysFinal(s: System, l: Label)
    requires Invariant(s) && Enabled(s, l) && DeletionFinal(s)
    ensures DeletionFinal(Next(s, l)) <==> !Intrusion(s, l)
  {
    match l
    case Run(p, c) => RunStaysFinal(s, p, c);
    case Meddle(dir, command) => MeddlingStaysFinal(s, dir, command);
    case _ =>
      forall r | r in Next(s, l).procs
        ensures DecidedWell(Next(s, l).disk, Next(s, l).procs[r])
      {
        assert r in s.procs ==> DecidedWell(s.disk, s.procs[r]);
      }
  }

  lemma MeddlingStaysFinal(s: System, dir: Dir, command: Command)
    requires Invariant(s) && DeletionFinal(s)
    ensures DeletionFinal(Next(s, Meddle(dir, command))) <==> !Intrusion(s, Meddle(dir, command))
  {
    var l := Meddle(dir, command);
    var t := Next(s, l);
    if Intrusion(s, l) {
      var n :| n in s.disk.removed && Doomed(s, n);
      assert !DeletionAllowed(t.disk);
      if !s.disk.removed[n].touched {
        var p :| p in s.procs && s.procs[p].pc == Recovering(PruneRemoved);
        assert !DecidedWell(t.disk, t.procs[p]);
      }
    } else {
      forall n | n in s.disk.removed && Doomed(s, n)
        ensures DeletionAllowed(t.disk)
      {
        assert MovedTreeSafe(s.disk, n);
      }
      forall r | r in t.procs
        ensures DecidedWell(t.disk, t.procs[r])
      {
        assert DecidedWell(s.disk, s.procs[r]);
        assert s.procs[r].pc == Recovering(PruneRemoved) ==> forall n | n in s.disk.removed && s.disk.removed[n].trees != map[] :: Doomed(s, n);
      }
    }
  }

  /** No step of the run is an intrusion. */
  predicate Undisturbed(s: System, ls: seq<Label>)
    requires Possible(s, ls)
    decreases |ls|
  {
    ls != [] ==> !Intrusion(s, ls[0]) && Undisturbed(Next(s, ls[0]), ls[1..])
  }

  /** Over any run without an intrusion, with any number of crashes and recoveries, a moved tree that
      disappears was either deleted to its last entry or restored exactly as it was moved; once its
      deletion has begun it is never restored. */
  lemma {:induction false} RollbackRestoresWhole(s: System, ls: seq<Label>, l: Label, n: Name)
    requires Invariant(s) && DeletionFinal(s) && Possible(s, ls) && Undisturbed(s, ls) && StaysMoved(s, ls, n)
    requires Enabled(End(s, ls), l) && n !in Next(End(s, ls), l).disk.removed
    ensures n in End(s, ls).disk.removed
    ensures var d, d' := End(s, ls).disk, Next(End(s, ls), l).disk;
            || (d.removed[n].trees == map[] && d'.versions == d.versions)
            || (!s.disk.removed[n].touched && d'.versions == Some(s.disk.removed[n].original))
    decreases |ls|
  {
    if ls == [] {
      MovedTreeFate(s, l, n);
      assert MovedTreeSafe(s.disk, n);
    } else {
      MovedTreeFate(s, ls[0], n);
      NextKeeps(s, ls[0]);
      DeletionStaysFinal(s, ls[0]);
      RollbackRestoresWhole(Next(s, ls[0]), ls[1..], l, n);
    }
  }

  // ---- staging and published versions ----

  lemma StagedContentIsJournaled(d: Disk, ls: seq<Label>, n: Name)
    requires DiskInvariant(d) && Possible(System(d, map[]), ls)
    requires var v := End(System(d, map[]), ls).disk.versions;
             v.Some? && n in v.value && !ValidHash(n) && !Empty(v.value[n])
    ensures var j := End(System(d, map[]), ls).disk.journal;
            j.Some? && j.value.Installing? && j.value.staging == n
  {
    RunsKeep(System(d, map[]), ls);
    assert VersionSafe(End(System(d, map[]), ls).disk, n);
  }

  /** Recovery takes away staging and moved trees only: every published version inside `versions`
      is still there, untouched, and the command and `current` are as before. */
  lemma RecoveryDeletesOnlyScratch(s: System, p: nat, c: Choice)
    requires Invariant(s) && p in s.procs && s.procs[p].pc.Recovering?
    ensures var d, d' := s.disk, Next(s, Run(p, c)).disk;
            && d'.current == d.current && d'.commands == d.commands && d'.authority == d.authority
            && (d.versions.Some? ==> d'.versions.Some?)
            && forall n | d.versions.Some? && n in d.versions.value && ValidHash(n) ::
                 n in d'.versions.value && d'.versions.value[n] == d.versions.value[n]
  {
    assert ProcInvariant(s.disk, s.procs[p]);
    match s.procs[p].pc.recovery
    case Recover =>
    case PruneStaging =>
    case PruneRemoved =>
    case Restore =>
    case ClearRecovered =>
  }

  // ---- a successful uninstall ----

  /** No version, moved tree, `current` or journal is left. */
  predicate Cleared(d: Disk) {
    d.journal.None? && d.removed == map[] && Erased(d)
  }

  /** Nothing the installer made is left for `dir`, and no version at all. */
  predicate Uninstalled(d: Disk, dir: Dir) {
    Cleared(d) && CommandAt(d, dir).Absent?
  }

  /** An uninstall that has unlinked its command. */
  predicate PastUnlink(q: Proc) {
    && q.op.Uninstall?
    && match q.pc
       case Removing(pc) => pc.WriteCommitted? || pc.DropRemoved? || pc.DropAuthority? || pc.DropCurrent?
       case Closing(pc) => pc.ClearFinished? || pc == Release(true)
       case _ => false
  }

  predicate CommandsGone(s: System) {
    forall p | p in s.procs && PastUnlink(s.procs[p]) :: CommandAt(s.disk, s.procs[p].op.dir).Absent?
  }

  /** Another program puts a command where a running uninstall has already unlinked its own. */
  predicate PutsBehind(s: System, l: Label) {
    l.Meddle? && !l.command.Absent? && exists p | p in s.procs :: PastUnlink(s.procs[p]) && s.procs[p].op.dir == l.dir
  }

  predicate NothingBehind(s: System, ls: seq<Label>)
    requires Possible(s, ls)
    decreases |ls|
  {
    ls != [] ==> !PutsBehind(s, ls[0]) && NothingBehind(Next(s, ls[0]), ls[1..])
  }

  /** An uninstall past its unlinking has unlinked. */
  predicate UnlinkedIfPast(d: Disk, q: Proc) {
    PastUnlink(q) ==> CommandAt(d, q.op.dir).Absent?
  }

  lemma UninstallUnlinks(d: Disk, q: Proc, c: Choice)
    requires q.pc.Removing? && UnlinkedIfPast(d, q)
    ensures UnlinkedIfPast(Step(d, q, c).disk, Step(d, q, c).proc)
  {
    if !q.pc.removing.Unlink? {
      UninstallLeavesCommands(d, q, q.pc.removing, c);
    }
  }

  lemma ClosingUnlinksNothing(d: Disk, q: Proc, pc: ClosePc, c: Choice)
    requires q.pc == Closing(pc) && UnlinkedIfPast(d, q)
    ensures UnlinkedIfPast(CloseStep(d, q, pc, c).disk, CloseStep(d, q, pc, c).proc)
  {
  }

  lemma RecoveryUnlinksNothing(d: Disk, q: Proc, pc: RecoveryPc, c: Choice)
    requires q.pc == Recovering(pc)
    ensures !PastUnlink(RecoveryStep(d, q, pc, c).proc)
  {
  }

  lemma InstallUnlinksNothing(d: Disk, q: Proc, pc: InstallPc, c: Choice)
    requires q.op.Install?
    ensures InstallStep(d, q, pc, c).proc.op.Install?
  {
  }

  lemma HolderUnlinks(d: Disk, q: Proc, c: Choice)
    requires HolderInvariant(d, q) && HoldsLock(q) && UnlinkedIfPast(d, q)
    ensures UnlinkedIfPast(Step(d, q, c).disk, Step(d, q, c).proc)
  {
    match q.pc
    case Recovering(pc) => RecoveryUnlinksNothing(d, q, pc, c);
    case Adding(pc) =>
      InstallHasNoMovedTree(d, q);
      InstallUnlinksNothing(d, q, pc, c);
    case Removing(_) => UninstallUnlinks(d, q, c);
    case Closing(pc) => ClosingUnlinksNothing(d, q, pc, c);
  }

  lemma CommandsStayGone(s: System, l: Label)
    requires Invariant(s) && Enabled(s, l) && CommandsGone(s)
    ensures CommandsGone(Next(s, l)) <==> !PutsBehind(s, l)
  {
    if l.Run? {
      var q := s.procs[l.pid];
      assert ProcInvariant(s.disk, q);
      if HoldsLock(q) {
        HolderUnlinks(s.disk, q, l.choice);
        assert forall p | p in s.procs && PastUnlink(s.procs[p]) :: HoldsLock(s.procs[p]);
      } else {
        OutsideTheLock(s.disk, q, l.choice);
      }
    } else if PutsBehind(s, l) {
      var p :| p in s.procs && PastUnlink(s.procs[p]) && s.procs[p].op.dir == l.dir;
      assert PastUnlink(Next(s, l).procs[p]);
    }
  }

  /** What a successful uninstall leaves: nothing of its own. */
  lemma UninstallErases(s: System, p: nat)
    requires Invariant(s) && p in s.procs && s.procs[p].op.Uninstall?
    requires s.procs[p].pc == Closing(Release(true))
    ensures Cleared(s.disk)
    ensures CommandsGone(s) ==> Uninstalled(s.disk, s.procs[p].op.dir)
  {
    assert ProcInvariant(s.disk, s.procs[p]);
  }

  /** Past the point where an uninstall has nothing left in `versions`. */
  predicate PastMove(q: Proc) {
    && q.op.Uninstall?
    && match q.pc
       case Removing(pc) => !pc.Validate? && !pc.WritePrepared? && !pc.MoveVersions?
       case Closing(pc) => pc.ClearFinished? || pc == Release(true)
       case _ => false
  }

  lemma RecoveringVersionsStayGone(d: Disk, q: Proc, c: Choice)
    requires HolderInvariant(d, q) && q.op.Uninstall? && q.pc.Recovering?
    requires PastMove(q) ==> d.versions.None?
    ensures PastMove(Step(d, q, c).proc) ==> Step(d, q, c).disk.versions.None?
  {
  }

  lemma RemovingVersionsStayGone(d: Disk, q: Proc, c: Choice)
    requires HolderInvariant(d, q) && q.op.Uninstall? && q.pc.Removing?
    requires PastMove(q) ==> d.versions.None?
    ensures PastMove(Step(d, q, c).proc) ==> Step(d, q, c).disk.versions.None?
  {
  }

  lemma ClosingVersionsStayGone(d: Disk, q: Proc, c: Choice)
    requires HolderInvariant(d, q) && q.op.Uninstall? && q.pc.Closing?
    requires PastMove(q) ==> d.versions.None?
    ensures PastMove(Step(d, q, c).proc) ==> Step(d, q, c).disk.versions.None?
  {
  }

  lemma HolderVersionsStayGone(d: Disk, q: Proc, c: Choice)
    requires HolderInvariant(d, q) && q.op.Uninstall? && HoldsLock(q)
    requires PastMove(q) ==> d.versions.None?
    ensures PastMove(Step(d, q, c).proc) ==> Step(d, q, c).disk.versions.None?
  {
    match q.pc
    case Recovering(_) => RecoveringVersionsStayGone(d, q, c);
    case Adding(_) =>
    case Removing(_) => RemovingVersionsStayGone(d, q, c);
    case Closing(_) => ClosingVersionsStayGone(d, q, c);
  }

  lemma VersionsStayGone(d: Disk, q: Proc, c: Choice)
    requires EntryInvariant(q) && (HoldsLock(q) ==> HolderInvariant(d, q)) && q.op.Uninstall?
    requires PastMove(q) ==> d.versions.None?
    ensures PastMove(Step(d, q, c).proc) ==> Step(d, q, c).disk.versions.None?
    ensures !HoldsLock(q) ==> Step(d, q, c).disk.versions == d.versions
  {
    if HoldsLock(q) {
      HolderVersionsStayGone(d, q, c);
    }
  }

  predicate UninstallsOnly(s: System, ls: seq<Label>)
    requires Possible(s, ls)
    decreases |ls|
  {
    ls != [] ==>
      && (ls[0].Run? ==> s.procs[ls[0].pid].op.Uninstall?)
      && UninstallsOnly(Next(s, ls[0]), ls[1..])
  }

  predicate GonePastMove(s: System) {
    forall p | p in s.procs && PastMove(s.procs[p]) :: s.disk.versions.None?
  }

  lemma GonePastMoveKept(s: System, l: Label)
    requires Invariant(s) && Enabled(s, l) && GonePastMove(s)
    requires l.Run? ==> s.procs[l.pid].op.Uninstall?
    ensures GonePastMove(Next(s, l))
  {
    if l.Run? {
      assert ProcInvariant(s.disk, s.procs[l.pid]);
      VersionsStayGone(s.disk, s.procs[l.pid], l.choice);
      assert forall p | p in s.procs && PastMove(s.procs[p]) :: HoldsLock(s.procs[p]);
    }
  }

  /** Whatever an uninstall, or anything else, left behind when it was killed: once nobody holds
      the lock, an uninstall that succeeds leaves no `versions`, no moved tree, no `current` and no
      journal, however many uninstalls are tried and killed on the way; and no command, unless another
      program put one there after it was unlinked. */
  lemma {:induction false} UninstallLeavesNothing(s: System, ls: seq<Label>, p: nat)
    requires Invariant(s) && Possible(s, ls) && UninstallsOnly(s, ls) && GonePastMove(s)
    requires p in End(s, ls).procs && End(s, ls).procs[p].op.Uninstall?
    requires End(s, ls).procs[p].pc == Closing(Release(true))
    ensures Cleared(End(s, ls).disk) && End(s, ls).disk.versions.None?
    ensures CommandsGone(s) && NothingBehind(s, ls) ==> Uninstalled(End(s, ls).disk, End(s, ls).procs[p].op.dir)
    decreases |ls|
  {
    if ls == [] {
      UninstallErases(s, p);
      assert PastMove(s.procs[p]);
    } else {
      GonePastMoveKept(s, ls[0]);
      NextKeeps(s, ls[0]);
      if CommandsGone(s) {
        CommandsStayGone(s, ls[0]);
      }
      UninstallLeavesNothing(Next(s, ls[0]), ls[1..], p);
    }
  }
}
