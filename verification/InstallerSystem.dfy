/** Any number of installers and uninstallers on one prefix. Each may be killed between any two
    steps; a lock left by a killed process goes away only when somebody clears it. Between any two
    steps another program may put any command at `into-md` in a command directory, or take it away. */
module InstallerSystem {
  import opened Wrappers
  import opened InstallerDisk
  import opened InstallerMachine
  import opened InstallerInvariant
  import opened InstallerSteps

  /** `procs` holds the live processes by process id; ids are reused once a process is gone. */
  datatype System = System(disk: Disk, procs: map<nat, Proc>)

  datatype Label =
    | Spawn(pid: nat, op: Op)
    | Run(pid: nat, choice: Choice)
    | Kill(pid: nat)
    | ClearLock
    | Meddle(dir: Dir, command: Command)

  predicate NobodyHolds(s: System) {
    forall p | p in s.procs :: !HoldsLock(s.procs[p])
  }

  predicate Enabled(s: System, l: Label) {
    match l
    case Spawn(p, _) => p !in s.procs
    case Run(p, _) => p in s.procs
    case Kill(p) => p in s.procs
    case ClearLock => NobodyHolds(s)
    case Meddle(_, _) => true
  }

  function SetCommand(d: Disk, dir: Dir, command: Command): Disk {
    d.(commands := d.commands[dir := command])
  }

  function Next(s: System, l: Label): System
    requires Enabled(s, l)
  {
    match l
    case Spawn(p, op) => s.(procs := s.procs[p := Start(op, p)])
    case Run(p, c) =>
      var e := Step(s.disk, s.procs[p], c);
      System(e.disk, s.procs[p := e.proc])
    case Kill(p) => s.(procs := s.procs - {p})
    case ClearLock => s.(disk := s.disk.(lock := false))
    case Meddle(dir, command) => s.(disk := SetCommand(s.disk, dir, command))
  }

  predicate Possible(s: System, ls: seq<Label>)
    decreases |ls|
  {
    ls == [] || (Enabled(s, ls[0]) && Possible(Next(s, ls[0]), ls[1..]))
  }

  function End(s: System, ls: seq<Label>): System
    requires Possible(s, ls)
    decreases |ls|
  {
    if ls == [] then s else End(Next(s, ls[0]), ls[1..])
  }

  lemma {:induction false} EndAppend(s: System, ls: seq<Label>, l: Label)
    requires Possible(s, ls) && Enabled(End(s, ls), l)
    ensures Possible(s, ls + [l]) && End(s, ls + [l]) == Next(End(s, ls), l)
    decreases |ls|
  {
    if ls == [] {
      assert ls + [l] == [l] && [l][1..] == [];
    } else {
      EndAppend(Next(s, ls[0]), ls[1..], l);
      assert (ls + [l])[1..] == ls[1..] + [l];
    }
  }

  /** What a process outside the lock carries with it into the lock. */
  predicate EntryInvariant(q: Proc) {
    q.pc.Entry? ==>
      && !q.isNew && !q.moved
      && (q.pc.entry.MakeVersions? ==> q.op.Install?)
      && (q.op.Install? ==> !ValidHash(q.scratch))
      && (q.op.Install? && !q.pc.entry.Prepare? ==> ValidHash(q.op.id))
  }

  predicate ProcInvariant(d: Disk, q: Proc) {
    EntryInvariant(q) && (HoldsLock(q) ==> HolderInvariant(d, q))
  }

  predicate AtMostOneHolds(s: System) {
    forall p, q | p in s.procs && q in s.procs && HoldsLock(s.procs[p]) && HoldsLock(s.procs[q]) :: p == q
  }

  predicate Invariant(s: System) {
    && DiskInvariant(s.disk)
    && (forall p | p in s.procs :: ProcInvariant(s.disk, s.procs[p]))
    && AtMostOneHolds(s)
  }

  /** Outside the lock a process can only create the prefix, an empty `versions`, and the lock. */
  lemma OutsideTheLock(d: Disk, q: Proc, c: Choice)
    requires !HoldsLock(q)
    ensures var d' := Step(d, q, c).disk;
            && d' == d.(prefix := d'.prefix, versions := d'.versions, lock := d'.lock)
            && (d'.versions == d.versions || (d.versions.None? && d'.versions == Some(map[])))
            && (d'.lock != d.lock ==> !d.lock && HoldsLock(Step(d, q, c).proc))
  {
  }

  /** What a process that waits for the lock may change. */
  predicate Bystanding(d: Disk, d': Disk) {
    && d' == d.(prefix := d'.prefix, versions := d'.versions)
    && (d'.versions == d.versions || (d.versions.None? && d'.versions == Some(map[])))
  }

  lemma BystanderRecovering(d: Disk, q: Proc, d': Disk)
    requires HolderInvariant(d, q) && q.pc.Recovering? && Bystanding(d, d')
    ensures HolderInvariant(d', q)
  {
  }

  lemma BystanderAdding(d: Disk, q: Proc, d': Disk)
    requires HolderInvariant(d, q) && q.pc.Adding? && Bystanding(d, d')
    ensures HolderInvariant(d', q)
  {
  }

  lemma BystanderRemoving(d: Disk, q: Proc, d': Disk)
    requires HolderInvariant(d, q) && q.pc.Removing? && Bystanding(d, d')
    ensures HolderInvariant(d', q)
  {
  }

  lemma BystanderClosing(d: Disk, q: Proc, d': Disk)
    requires HolderInvariant(d, q) && q.pc.Closing? && Bystanding(d, d')
    ensures HolderInvariant(d', q)
  {
  }

  /** A process waiting for the lock cannot disturb the one that holds it. */
  lemma BystanderHarmless(d: Disk, q: Proc, d': Disk)
    requires HolderInvariant(d, q) && HoldsLock(q) && Bystanding(d, d')
    ensures HolderInvariant(d', q)
  {
    match q.pc
    case Recovering(_) => BystanderRecovering(d, q, d');
    case Adding(_) => BystanderAdding(d, q, d');
    case Removing(_) => BystanderRemoving(d, q, d');
    case Closing(_) => BystanderClosing(d, q, d');
  }

  lemma MeddlingWithRecovery(d: Disk, q: Proc, d': Disk)
    requires HolderInvariant(d, q) && q.pc.Recovering? && d' == d.(commands := d'.commands)
    ensures HolderInvariant(d', q)
  {
  }

  lemma MeddlingWithInstall(d: Disk, q: Proc, d': Disk)
    requires HolderInvariant(d, q) && q.pc.Adding? && d' == d.(commands := d'.commands)
    ensures HolderInvariant(d', q)
  {
  }

  lemma MeddlingWithUninstall(d: Disk, q: Proc, d': Disk)
    requires HolderInvariant(d, q) && q.pc.Removing? && d' == d.(commands := d'.commands)
    ensures HolderInvariant(d', q)
  {
  }

  lemma MeddlingWithClose(d: Disk, q: Proc, d': Disk)
    requires HolderInvariant(d, q) && q.pc.Closing? && d' == d.(commands := d'.commands)
    ensures HolderInvariant(d', q)
  {
  }

  /** The lock holder does not rely on what stands in a command directory. */
  lemma MeddlingHarmless(d: Disk, q: Proc, dir: Dir, command: Command)
    requires HolderInvariant(d, q) && HoldsLock(q)
    ensures HolderInvariant(SetCommand(d, dir, command), q)
  {
    match q.pc
    case Recovering(_) => MeddlingWithRecovery(d, q, SetCommand(d, dir, command));
    case Adding(_) => MeddlingWithInstall(d, q, SetCommand(d, dir, command));
    case Removing(_) => MeddlingWithUninstall(d, q, SetCommand(d, dir, command));
    case Closing(_) => MeddlingWithClose(d, q, SetCommand(d, dir, command));
  }

  lemma LockKeeps(d: Disk, q: Proc, c: Choice)
    requires DiskInvariant(d) && EntryInvariant(q) && q.pc == Entry(Lock)
    ensures DiskInvariant(LockStep(d, q, c).disk)
    ensures HoldsLock(LockStep(d, q, c).proc) ==> Kept(LockStep(d, q, c))
  {
  }

  lemma PrepareKeeps(d: Disk, q: Proc, c: Choice)
    requires DiskInvariant(d) && EntryInvariant(q) && q.pc == Entry(Prepare)
    ensures DiskInvariant(PrepareStep(d, q, c).disk)
    ensures EntryInvariant(PrepareStep(d, q, c).proc) && !HoldsLock(PrepareStep(d, q, c).proc)
  {
  }

  lemma MakeVersionsKeeps(d: Disk, q: Proc, c: Choice)
    requires DiskInvariant(d) && EntryInvariant(q) && q.pc == Entry(MakeVersions)
    ensures DiskInvariant(MakeVersionsStep(d, q, c).disk)
    ensures EntryInvariant(MakeVersionsStep(d, q, c).proc) && !HoldsLock(MakeVersionsStep(d, q, c).proc)
  {
  }

  lemma EntryKeeps(d: Disk, q: Proc, c: Choice)
    requires DiskInvariant(d) && EntryInvariant(q) && !HoldsLock(q)
    ensures DiskInvariant(Step(d, q, c).disk)
    ensures ProcInvariant(Step(d, q, c).disk, Step(d, q, c).proc)
  {
    match q.pc
    case Entry(pc) =>
      match pc {
        case Prepare => PrepareKeeps(d, q, c);
        case MakeVersions => MakeVersionsKeeps(d, q, c);
        case Lock => LockKeeps(d, q, c);
      }
    case Done(_) =>
  }

  lemma StepLeavesEntry(d: Disk, q: Proc, c: Choice)
    requires HoldsLock(q)
    ensures !Step(d, q, c).proc.pc.Entry?
  {
    match q.pc
    case Recovering(_) =>
    case Adding(_) =>
    case Removing(_) =>
    case Closing(_) =>
  }

  lemma RunKeeps(s: System, p: nat, c: Choice)
    requires Invariant(s) && p in s.procs
    ensures Invariant(Next(s, Run(p, c)))
  {
    var q := s.procs[p];
    var e := Step(s.disk, q, c);
    assert ProcInvariant(s.disk, q);
    if HoldsLock(q) {
      HolderStepKeeps(s.disk, q, c);
      StepLeavesEntry(s.disk, q, c);
    } else {
      EntryKeeps(s.disk, q, c);
      OutsideTheLock(s.disk, q, c);
      forall r | r in s.procs && HoldsLock(s.procs[r])
        ensures HolderInvariant(e.disk, s.procs[r]) && !HoldsLock(e.proc)
      {
        assert ProcInvariant(s.disk, s.procs[r]);
        BystanderHarmless(s.disk, s.procs[r], e.disk);
      }
    }
  }

  lemma NextKeeps(s: System, l: Label)
    requires Invariant(s) && Enabled(s, l)
    ensures Invariant(Next(s, l))
  {
    match l
    case Spawn(p, op) =>
      if op.Install? { StagingIsNotPublished(op.id, p); }
    case Run(p, c) => RunKeeps(s, p, c);
    case Kill(_) =>
    case ClearLock =>
    case Meddle(dir, command) =>
      forall p | p in s.procs
        ensures ProcInvariant(Next(s, l).disk, s.procs[p])
      {
        if HoldsLock(s.procs[p]) { MeddlingHarmless(s.disk, s.procs[p], dir, command); }
      }
  }

  /** The invariant holds after any run: any interleaving, any faults, any kills, any meddling. */
  lemma {:induction false} RunsKeep(s: System, ls: seq<Label>)
    requires Invariant(s) && Possible(s, ls)
    ensures Invariant(End(s, ls))
    decreases |ls|
  {
    if ls != [] {
      NextKeeps(s, ls[0]);
      RunsKeep(Next(s, ls[0]), ls[1..]);
    }
  }
}
