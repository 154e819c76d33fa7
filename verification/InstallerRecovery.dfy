/** Recovery in one big step, and why crashing on the way to it does not matter. */
module InstallerRecovery {
  import opened Wrappers
  import opened InstallerDisk
  import opened InstallerMachine
  import opened InstallerInvariant
  import opened InstallerSystem

  function Without(v: Option<Trees>, n: Name): Option<Trees> {
    if v.None? then None else Some(v.value - {n})
  }

  /** Where a recovery for the command directory `dir` ends when nothing goes wrong. */
  function Recovered(d: Disk, dir: Dir): Disk {
    if d.journal.None? then d
    else
      match d.journal.value
      case Installing(_, staging) => ClearJournal(d.(versions := Without(d.versions, staging)))
      case Uninstalling(_, n, dir') =>
        if dir' != dir then d
        else if n in d.removed && !DeletionAllowed(d) then ClearJournal(RestoreMoved(d, n))
        else ClearJournal(d.(removed := d.removed - {n}))
  }

  /** The disk apart from the lock and the prefix directory itself. */
  function Core(d: Disk): Disk {
    d.(lock := false, prefix := false)
  }

  /** A step that only takes or gives up the lock, or recovers for `dir`. Where `versions` exists, the
      steps of an install up to there are such steps too. */
  predicate RecoverySteps(d: Disk, q: Proc, dir: Dir) {
    && q.op.dir == dir
    && match q.pc
       case Entry(pc) => pc.MakeVersions? ==> d.versions.Some?
       case Recovering(_) => true
       case Closing(_) => true
       case Done(_) => true
       case _ => false
  }

  /** How far a process that recovers for `dir` has come inside the lock. */
  predicate OnlyRecovered(d: Disk, q: Proc, dir: Dir) {
    HoldsLock(q) ==>
      && q.op.dir == dir
      && (q.pc.Recovering? || q.pc == AfterRecovery(q.op) || q.pc == FAIL)
      && (q.pc == Recovering(PruneRemoved) ==> DeletionAllowed(d))
      && (q.pc == Recovering(Restore) ==> !DeletionAllowed(d))
  }

  lemma PruneStagingConverges(d: Disk, q: Proc, c: Choice)
    requires d.journal.Some? && d.journal.value.Installing?
    ensures Recovered(PruneStagingStep(d, q, c).disk, q.op.dir) == Recovered(d, q.op.dir)
  {
    if d.versions.Some? && d.journal.value.staging in d.versions.value {
      var n, v := d.journal.value.staging, d.versions.value;
      assert PruneAt(v, n, c.file) - {n} == v - {n};
    }
  }

  lemma PruneRemovedConverges(d: Disk, q: Proc, c: Choice)
    requires DeletionAllowed(d) && d.journal.value.dir == q.op.dir
    ensures Recovered(PruneRemovedStep(d, q, c).disk, q.op.dir) == Recovered(d, q.op.dir)
  {
    var n := d.journal.value.removed;
    if n in d.removed && c.tree in d.removed[n].trees {
      assert d.removed[n := PruneRemovedAt(d.removed[n], c)] - {n} == d.removed - {n};
    } else if n in d.removed {
      assert (d.removed - {n}) - {n} == d.removed - {n};
    }
  }

  lemma RestoreConverges(d: Disk, q: Proc, c: Choice)
    requires Restoring(d, q) && !DeletionAllowed(d)
    ensures Recovered(RestoreStep(d, q, c).disk, q.op.dir) == Recovered(d, q.op.dir)
  {
    var n := d.journal.value.removed;
    assert (d.removed - {n}) - {n} == d.removed - {n};
  }

  lemma ClearConverges(d: Disk, q: Proc, c: Choice)
    requires Handled(d, q)
    ensures Recovered(d, q.op.dir) == ClearJournal(d)
    ensures Recovered(AttemptClear(d, q, c, AfterRecovery(q.op), FAIL).disk, q.op.dir) == Recovered(d, q.op.dir)
  {
    match d.journal.value
    case Installing(_, staging) =>
      if d.versions.Some? {
        assert d.versions.value - {staging} == d.versions.value;
      }
    case Uninstalling(_, n, _) =>
      assert d.removed - {n} == d.removed;
  }

  lemma RecoveryStepConverges(d: Disk, q: Proc, c: Choice)
    requires HolderInvariant(d, q) && q.pc.Recovering? && OnlyRecovered(d, q, q.op.dir)
    ensures Recovered(Step(d, q, c).disk, q.op.dir) == Recovered(d, q.op.dir)
  {
    match q.pc.recovery
    case Recover =>
    case PruneStaging => PruneStagingConverges(d, q, c);
    case PruneRemoved => PruneRemovedConverges(d, q, c);
    case Restore => RestoreConverges(d, q, c);
    case ClearRecovered => ClearConverges(d, q, c);
  }

  lemma RecoveryStepRecovers(d: Disk, q: Proc, c: Choice)
    requires HolderInvariant(d, q) && q.pc.Recovering? && OnlyRecovered(d, q, q.op.dir)
    ensures OnlyRecovered(Step(d, q, c).disk, Step(d, q, c).proc, q.op.dir)
    ensures Step(d, q, c).proc.pc == AfterRecovery(q.op) ==> Step(d, q, c).disk.journal.None?
  {
    match q.pc.recovery
    case Recover =>
    case PruneStaging =>
    case PruneRemoved =>
    case Restore =>
    case ClearRecovered =>
  }

  /** Recovery looks at neither the lock nor the prefix directory. */
  lemma CoreDecides(d: Disk, d': Disk, dir: Dir)
    requires Core(d) == Core(d')
    ensures Core(Recovered(d, dir)) == Core(Recovered(d', dir))
  {
    assert d' == d.(lock := d'.lock, prefix := d'.prefix);
    if d.journal.Some? {
      match d.journal.value
      case Installing(_, _) =>
      case Uninstalling(_, n, _) =>
        if n in d.removed && !DeletionAllowed(d) {
          assert Core(RestoreMoved(d', n)) == Core(RestoreMoved(d, n));
        }
    }
  }

  predicate RecoveryOnly(s: System, ls: seq<Label>, dir: Dir)
    requires Possible(s, ls)
    decreases |ls|
  {
    ls != [] ==>
      && (ls[0].Run? ==> RecoverySteps(s.disk, s.procs[ls[0].pid], dir))
      && !ls[0].Meddle?
      && RecoveryOnly(Next(s, ls[0]), ls[1..], dir)
  }

  /** Every process inside the lock recovers for `dir`; past recovery no journal is left. */
  predicate AllRecovering(s: System, dir: Dir) {
    forall p | p in s.procs :: RecoversOnly(s.disk, s.procs[p], dir)
  }

  lemma OtherStepConverges(d: Disk, q: Proc, c: Choice, dir: Dir)
    requires EntryInvariant(q) && RecoverySteps(d, q, dir) && !q.pc.Recovering?
    requires q.pc.Closing? ==> q.pc == FAIL
    ensures Core(Step(d, q, c).disk) == Core(d)
    ensures OnlyRecovered(Step(d, q, c).disk, Step(d, q, c).proc, dir)
    ensures HoldsLock(Step(d, q, c).proc) ==> Step(d, q, c).proc.pc == Recovering(Recover)
  {
  }

  /** What holds of a process while every process inside the lock recovers for `dir`. */
  predicate RecoversOnly(d: Disk, q: Proc, dir: Dir) {
    && OnlyRecovered(d, q, dir)
    && (HoldsLock(q) && q.pc == AfterRecovery(q.op) ==> d.journal.None?)
  }

  lemma RunConverges(d: Disk, q: Proc, c: Choice, dir: Dir, e: Effect)
    requires ProcInvariant(d, q) && RecoversOnly(d, q, dir) && RecoverySteps(d, q, dir) && e == Step(d, q, c)
    ensures Core(Recovered(e.disk, dir)) == Core(Recovered(d, dir))
    ensures RecoversOnly(e.disk, e.proc, dir)
    ensures !HoldsLock(q) ==> Core(e.disk) == Core(d)
  {
    if q.pc.Recovering? {
      RecoveryStepConverges(d, q, c);
      RecoveryStepRecovers(d, q, c);
    } else {
      OtherStepConverges(d, q, c, dir);
      CoreDecides(e.disk, d, dir);
    }
  }

  lemma OthersRecover(s: System, p: nat, e: Effect, dir: Dir)
    requires AllRecovering(s, dir) && AtMostOneHolds(s) && p in s.procs && RecoversOnly(e.disk, e.proc, dir)
    requires !HoldsLock(s.procs[p]) ==> Core(e.disk) == Core(s.disk)
    ensures AllRecovering(System(e.disk, s.procs[p := e.proc]), dir)
  {
    forall r | r in s.procs && r != p
      ensures RecoversOnly(e.disk, s.procs[r], dir)
    {
      assert RecoversOnly(s.disk, s.procs[r], dir);
      if HoldsLock(s.procs[r]) {
        SameCore(e.disk, s.disk, s.procs[r], dir);
      }
    }
  }

  lemma SameCore(d: Disk, d': Disk, q: Proc, dir: Dir)
    requires Core(d) == Core(d') && RecoversOnly(d', q, dir)
    ensures RecoversOnly(d, q, dir)
  {
    assert d' == d.(lock := d'.lock, prefix := d'.prefix);
  }

  lemma StepConverges(s: System, l: Label, dir: Dir)
    requires Invariant(s) && Enabled(s, l) && AllRecovering(s, dir)
    requires !l.Meddle? && (l.Run? ==> RecoverySteps(s.disk, s.procs[l.pid], dir))
    ensures Core(Recovered(Next(s, l).disk, dir)) == Core(Recovered(s.disk, dir))
    ensures AllRecovering(Next(s, l), dir)
  {
    if l.Run? {
      var q := s.procs[l.pid];
      var e := Step(s.disk, q, l.choice);
      assert ProcInvariant(s.disk, q) && RecoversOnly(s.disk, q, dir);
      RunConverges(s.disk, q, l.choice, dir, e);
      OthersRecover(s, l.pid, e, dir);
    } else {
      OtherLabelConverges(s, l, dir);
    }
  }

  lemma OtherLabelConverges(s: System, l: Label, dir: Dir)
    requires Enabled(s, l) && AllRecovering(s, dir) && !l.Run? && !l.Meddle?
    ensures Core(Recovered(Next(s, l).disk, dir)) == Core(Recovered(s.disk, dir))
    ensures AllRecovering(Next(s, l), dir)
  {
    CoreDecides(Next(s, l).disk, s.disk, dir);
    forall r | r in Next(s, l).procs
      ensures RecoversOnly(Next(s, l).disk, Next(s, l).procs[r], dir)
    {
      if r in s.procs && Next(s, l).procs[r] == s.procs[r] {
        assert RecoversOnly(s.disk, s.procs[r], dir);
        SameCore(Next(s, l).disk, s.disk, s.procs[r], dir);
      }
    }
  }

  /** Any number of recoveries for `dir`, killed or failing at any point, never changes where
      recovery ends; and the one that gets through leaves exactly that disk. */
  lemma {:induction false} RecoveryConverges(s: System, ls: seq<Label>, dir: Dir)
    requires Invariant(s) && AllRecovering(s, dir) && Possible(s, ls) && RecoveryOnly(s, ls, dir)
    ensures Core(Recovered(End(s, ls).disk, dir)) == Core(Recovered(s.disk, dir))
    ensures forall p | p in End(s, ls).procs && End(s, ls).procs[p].pc == AfterRecovery(End(s, ls).procs[p].op) ::
              Core(End(s, ls).disk) == Core(Recovered(s.disk, dir))
    decreases |ls|
  {
    if ls != [] {
      StepConverges(s, ls[0], dir);
      NextKeeps(s, ls[0]);
      RecoveryConverges(Next(s, ls[0]), ls[1..], dir);
    }
  }
}
