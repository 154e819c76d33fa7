/** What the installer promises over whole runs. */
module InstallerTheorems {
  import opened Wrappers
  import opened InstallerDisk
  import opened InstallerMachine
  import opened InstallerInvariant
  import opened InstallerSystem

  /** Before the first installation: at most foreign commands are there. */
  predicate Untouched(d: Disk) {
    && !d.lock && d.journal.None? && d.versions.None? && d.removed == map[] && d.current.None?
  }

  // ---- the lock ----

  lemma MutualExclusion(s: System, ls: seq<Label>)
    requires s.procs == map[] && DiskInvariant(s.disk) && Possible(s, ls)
    ensures AtMostOneHolds(End(s, ls))
    ensures forall p | p in End(s, ls).procs && HoldsLock(End(s, ls).procs[p]) :: End(s, ls).disk.lock
    ensures forall p, c: Choice | p in End(s, ls).procs && !HoldsLock(End(s, ls).procs[p]) ::
              OnlyEntered(End(s, ls).disk, Step(End(s, ls).disk, End(s, ls).procs[p], c).disk)
  {
    RunsKeep(s, ls);
    forall p | p in End(s, ls).procs && HoldsLock(End(s, ls).procs[p])
      ensures End(s, ls).disk.lock
    {
      assert ProcInvariant(End(s, ls).disk, End(s, ls).procs[p]);
    }
    forall p, c: Choice | p in End(s, ls).procs && !HoldsLock(End(s, ls).procs[p])
      ensures OnlyEntered(End(s, ls).disk, Step(End(s, ls).disk, End(s, ls).procs[p], c).disk)
    {
      OutsideTheLock(End(s, ls).disk, End(s, ls).procs[p], c);
    }
  }

  /** No journal, version, moved tree, link or command has changed: at most the prefix, an empty `versions`
      and the lock are new. */
  predicate OnlyEntered(d: Disk, d': Disk) {
    && d' == d.(prefix := d'.prefix, versions := d'.versions, lock := d'.lock)
    && (d'.versions == d.versions || (d.versions.None? && d'.versions == Some(map[])))
    && (d.lock ==> d'.lock)
  }

  /** A lock whose holder was killed excludes everybody: until somebody clears it nothing on the
      disk changes but the prefix, an empty `versions` and what other programs do to commands. */
  lemma {:induction false} StaleLockExcludes(s: System, ls: seq<Label>)
    requires Possible(s, ls) && NobodyHolds(s) && s.disk.lock && ClearLock !in ls
    ensures NobodyHolds(End(s, ls))
    ensures var d := End(s, ls).disk;
            && d == s.disk.(prefix := d.prefix, versions := d.versions, commands := d.commands)
            && ((forall l | l in ls :: !l.Meddle?) ==> d.commands == s.disk.commands)
            && (d.versions == s.disk.versions || (s.disk.versions.None? && d.versions == Some(map[])))
    decreases |ls|
  {
    if ls != [] {
      if ls[0].Run? {
        OutsideTheLock(s.disk, s.procs[ls[0].pid], ls[0].choice);
      }
      assert ClearLock != ls[0];
      StaleLockExcludes(Next(s, ls[0]), ls[1..]);
    }
  }

  // ---- a working command keeps working ----

  /** The current version is the one this process published but has not yet made current. */
  predicate Exposed(d: Disk, q: Proc) {
    && q.pc.Adding? && q.isNew && q.op.Install? && d.current == Some(q.op.id)
    && (q.pc.adding.LinkCommand? || q.pc.adding.WriteAuthority? || q.pc.adding.LinkCurrent? || q.pc.adding.Unpublish?)
  }

  /** The directory sync that fails although the new `current` link is in place. */
  predicate LosesSync(q: Proc, c: Choice) {
    q.pc == Adding(LinkCurrent) && q.isNew && c.fault.After?
  }

  /** The version that is current stays current and untouched; no command goes away. */
  predicate SameCurrent(d: Disk, d': Disk) {
    && CurrentComplete(d) && CurrentComplete(d')
    && d'.current == d.current
    && d'.versions.value[d.current.value] == d.versions.value[d.current.value]
    && d'.commands == d.commands
  }

  lemma RecoveryKeepsCurrent(d: Disk, q: Proc, c: Choice)
    requires HolderInvariant(d, q) && q.pc.Recovering? && CurrentComplete(d)
    ensures SameCurrent(d, Step(d, q, c).disk)
    ensures !Exposed(Step(d, q, c).disk, Step(d, q, c).proc)
  {
    match q.pc.recovery
    case Recover =>
    case PruneStaging =>
    case PruneRemoved =>
    case Restore =>
    case ClearRecovered =>
  }

  /** Deleting a directory that is not the current version. */
  lemma PruningKeepsCurrent(d: Disk, q: Proc, c: Choice, n: Name, gone: Pc)
    requires CurrentComplete(d) && d.current != Some(n)
    ensures SameCurrent(d, PruneVersion(d, q, c, n, gone).disk)
  {
  }

  lemma PublishKeepsCurrent(d: Disk, q: Proc, c: Choice)
    requires HolderInvariant(d, q) && q.pc == Adding(Publish) && CurrentComplete(d)
    ensures SameCurrent(d, PublishStep(d, q, c).disk)
    ensures !Exposed(PublishStep(d, q, c).disk, PublishStep(d, q, c).proc)
  {
  }

  lemma MakeStagingKeepsCurrent(d: Disk, q: Proc, c: Choice)
    requires HolderInvariant(d, q) && q.pc == Adding(MakeStaging) && CurrentComplete(d)
    ensures SameCurrent(d, MakeStagingStep(d, q, c).disk)
  {
  }

  lemma CopyKeepsCurrent(d: Disk, q: Proc, c: Choice)
    requires HolderInvariant(d, q) && q.pc == Adding(Copy) && CurrentComplete(d)
    ensures SameCurrent(d, CopyStep(d, q, c).disk)
  {
  }

  predicate Links(q: Proc) {
    q.pc == Adding(LinkCommand) || q.pc == Adding(WriteAuthority) || q.pc == Adding(LinkCurrent)
  }

  /** The steps that change neither versions nor links. */
  lemma PlainKeepsCurrent(d: Disk, q: Proc, c: Choice)
    requires HolderInvariant(d, q) && CurrentComplete(d) && !Exposed(d, q)
    requires q.pc == Adding(Inspect) || q.pc == Adding(WriteInstalling) || q.pc == Adding(Check) || q.pc == Adding(ClearRollback)
    ensures SameCurrent(d, Step(d, q, c).disk)
    ensures !Exposed(Step(d, q, c).disk, Step(d, q, c).proc)
  {
  }

  lemma StagingKeepsCurrent(d: Disk, q: Proc, c: Choice)
    requires HolderInvariant(d, q) && CurrentComplete(d) && !Exposed(d, q) && q.pc.Adding? && !Links(q)
    ensures SameCurrent(d, Step(d, q, c).disk)
    ensures !Exposed(Step(d, q, c).disk, Step(d, q, c).proc)
  {
    match q.pc.adding
    case PruneOrphan => PruningKeepsCurrent(d, q, c, q.scratch, Adding(MakeStaging));
    case Publish => PublishKeepsCurrent(d, q, c);
    case Rollback => PruningKeepsCurrent(d, q, c, q.scratch, Adding(ClearRollback));
    case Unpublish => PruningKeepsCurrent(d, q, c, q.op.id, Closing(ClearFailed));
    case MakeStaging => MakeStagingKeepsCurrent(d, q, c);
    case Copy => CopyKeepsCurrent(d, q, c);
    case _ => PlainKeepsCurrent(d, q, c);
  }

  /** A linking step keeps the version that is current, or makes its own current. */
  ghost predicate LinksWell(d: Disk, e: Effect, id: Name) {
    && CurrentComplete(e.disk) && !Exposed(e.disk, e.proc) && e.disk.versions == d.versions
    && e.disk.current in {d.current, Some(id)}
    && forall dir | CommandAt(d, dir).Owned? :: CommandAt(e.disk, dir).Owned?
  }

  lemma CommandLinksWell(d: Disk, q: Proc, c: Choice)
    requires HolderInvariant(d, q) && CurrentComplete(d) && !Exposed(d, q) && q.pc == Adding(LinkCommand)
    ensures LinksWell(d, LinkCommandStep(d, q, c), q.op.id)
  {
  }

  lemma AuthorityLinksWell(d: Disk, q: Proc, c: Choice)
    requires HolderInvariant(d, q) && CurrentComplete(d) && !Exposed(d, q) && q.pc == Adding(WriteAuthority)
    ensures LinksWell(d, WriteAuthorityStep(d, q, c), q.op.id)
  {
  }

  lemma CurrentLinksWell(d: Disk, q: Proc, c: Choice)
    requires HolderInvariant(d, q) && CurrentComplete(d) && !Exposed(d, q) && !LosesSync(q, c) && q.pc == Adding(LinkCurrent)
    ensures LinksWell(d, LinkCurrentStep(d, q, c), q.op.id)
  {
  }

  lemma LinkingKeepsCurrent(d: Disk, q: Proc, c: Choice)
    requires HolderInvariant(d, q) && CurrentComplete(d) && !Exposed(d, q) && !LosesSync(q, c) && Links(q)
    ensures LinksWell(d, Step(d, q, c), q.op.id)
  {
    match q.pc.adding
    case LinkCommand => CommandLinksWell(d, q, c);
    case WriteAuthority => AuthorityLinksWell(d, q, c);
    case LinkCurrent => CurrentLinksWell(d, q, c);
    case _ =>
  }

  predicate NoneExposed(s: System) {
    forall p | p in s.procs :: !Exposed(s.disk, s.procs[p])
  }

  /** Steps of installs alone, without the one lost sync, while nobody else takes away a command that
      is the installation's own. */
  predicate SafeInstallStep(s: System, l: Label)
    requires Enabled(s, l)
  {
    && (l.Run? ==> s.procs[l.pid].op.Install? && !LosesSync(s.procs[l.pid], l.choice))
    && (l.Meddle? && CommandAt(s.disk, l.dir).Owned? ==> l.command.Owned?)
  }

  predicate SafeInstalls(s: System, ls: seq<Label>)
    requires Possible(s, ls)
    decreases |ls|
  {
    ls != [] ==> SafeInstallStep(s, ls[0]) && SafeInstalls(Next(s, ls[0]), ls[1..])
  }

  /** The identities that the installs of a run, started or still to be spawned, carry. */
  predicate Offers(s: System, ls: seq<Label>, ids: set<Name>) {
    && (forall p | p in s.procs && s.procs[p].op.Install? :: s.procs[p].op.id in ids)
    && (forall l | l in ls && l.Spawn? && l.op.Install? :: l.op.id in ids)
  }

  /** A step keeps a working version current: the same one untouched, or that of the installing process. */
  ghost predicate KeepsCommand(d: Disk, d': Disk, q: Proc) {
    && CurrentComplete(d) && CurrentComplete(d')
    && (forall dir | CommandAt(d, dir).Owned? :: CommandAt(d', dir).Owned?)
    && (|| (d'.current == d.current && d'.versions.value[d.current.value] == d.versions.value[d.current.value])
        || (q.op.Install? && d'.current == Some(q.op.id)))
  }

  lemma RunKeepsCommand(d: Disk, q: Proc, c: Choice, e: Effect)
    requires ProcInvariant(d, q) && q.op.Install? && !LosesSync(q, c) && e == Step(d, q, c)
    requires CurrentComplete(d) && !Exposed(d, q)
    ensures KeepsCommand(d, e.disk, q) && !Exposed(e.disk, e.proc)
    ensures !HoldsLock(q) ==> e.disk.current == d.current
  {
    if !HoldsLock(q) {
      OutsideTheLock(d, q, c);
    } else if q.pc.Recovering? {
      RecoveryKeepsCurrent(d, q, c);
    } else if q.pc.Adding? && Links(q) {
      LinkingKeepsCurrent(d, q, c);
    } else if q.pc.Adding? {
      StagingKeepsCurrent(d, q, c);
    }
  }

  lemma OthersUnexposed(s: System, p: nat, e: Effect)
    requires AtMostOneHolds(s) && NoneExposed(s) && p in s.procs && !Exposed(e.disk, e.proc)
    requires !HoldsLock(s.procs[p]) ==> e.disk.current == s.disk.current
    ensures NoneExposed(System(e.disk, s.procs[p := e.proc]))
  {
    forall r | r in s.procs && r != p
      ensures !Exposed(e.disk, s.procs[r])
    {
      assert !Exposed(s.disk, s.procs[r]);
    }
  }

  lemma SafeStepKeepsCommand(s: System, l: Label)
    requires Invariant(s) && Enabled(s, l) && SafeInstallStep(s, l)
    requires CurrentComplete(s.disk) && NoneExposed(s)
    ensures CurrentComplete(Next(s, l).disk) && NoneExposed(Next(s, l))
    ensures forall dir | CommandAt(s.disk, dir).Owned? :: CommandAt(Next(s, l).disk, dir).Owned?
    ensures (&& Next(s, l).disk.current == s.disk.current
             && Next(s, l).disk.versions.value[s.disk.current.value] == s.disk.versions.value[s.disk.current.value])
            || (l.Run? && s.procs[l.pid].op.Install? && Next(s, l).disk.current == Some(s.procs[l.pid].op.id))
  {
    if l.Run? {
      var q := s.procs[l.pid];
      var e := Step(s.disk, q, l.choice);
      assert ProcInvariant(s.disk, q) && !Exposed(s.disk, q);
      RunKeepsCommand(s.disk, q, l.choice, e);
      OthersUnexposed(s, l.pid, e);
    }
  }

  lemma StepKeepsOp(d: Disk, q: Proc, c: Choice)
    ensures Step(d, q, c).proc.op == q.op
  {
    match q.pc
    case Entry(_) =>
    case Recovering(_) =>
    case Adding(_) =>
    case Removing(_) =>
    case Closing(_) =>
    case Done(_) =>
  }

  lemma OffersNext(s: System, ls: seq<Label>, ids: set<Name>)
    requires ls != [] && Enabled(s, ls[0]) && Offers(s, ls, ids)
    ensures Offers(Next(s, ls[0]), ls[1..], ids)
  {
    if ls[0].Run? {
      StepKeepsOp(s.disk, s.procs[ls[0].pid], ls[0].choice);
    }
  }

  /** A command that runs a complete version runs a complete version after every run of installs,
      wherever they fail or are killed: the old version untouched, or one of the new ones. */
  lemma {:induction false} InstallsKeepCommandWorking(s: System, ls: seq<Label>, dir: Dir, id: Name, ids: set<Name>)
    requires Invariant(s) && Possible(s, ls) && SafeInstalls(s, ls)
    requires Runs(s.disk, dir, id) && NoneExposed(s) && Offers(s, ls, ids)
    ensures exists id' | id' in ids + {id} :: Runs(End(s, ls).disk, dir, id')
    ensures End(s, ls).disk.current == Some(id)
            ==> id in ids || End(s, ls).disk.versions.value[id] == s.disk.versions.value[id]
    decreases |ls|
  {
    if ls == [] {
      assert Runs(End(s, ls).disk, dir, id);
    } else {
      SafeStepKeepsCommand(s, ls[0]);
      NextKeeps(s, ls[0]);
      OffersNext(s, ls, ids);
      var t := Next(s, ls[0]);
      var id1 := t.disk.current.value;
      assert id1 in ids + {id};
      InstallsKeepCommandWorking(t, ls[1..], dir, id1, ids);
      var id' :| id' in ids + {id1} && Runs(End(t, ls[1..]).disk, dir, id');
      assert id' in ids + {id} && Runs(End(s, ls).disk, dir, id');
    }
  }

  /** From an untouched prefix, `current` never names an incomplete version. */
  predicate CurrentSound(s: System) {
    s.disk.current.None? || (CurrentComplete(s.disk) && NoneExposed(s))
  }

  lemma StagingLinksNothing(d: Disk, q: Proc, pc: InstallPc, c: Choice)
    requires q.op.Install? && pc != LinkCurrent
    ensures InstallStep(d, q, pc, c).disk.current == d.current
  {
  }

  lemma FirstCurrent(d: Disk, q: Proc, c: Choice)
    requires EntryInvariant(q) && (HoldsLock(q) ==> HolderInvariant(d, q))
    requires d.current.None? && q.op.Install? && !LosesSync(q, c)
    ensures Step(d, q, c).disk.current.None? || (CurrentComplete(Step(d, q, c).disk) && Step(d, q, c).proc.pc.Closing?)
  {
    match q.pc
    case Recovering(_) =>
    case Adding(pc) =>
      if pc == LinkCurrent {
      } else {
        StagingLinksNothing(d, q, pc, c);
      }
    case _ =>
  }

  lemma SafeStepKeepsSound(s: System, l: Label)
    requires Invariant(s) && Enabled(s, l) && SafeInstallStep(s, l) && CurrentSound(s)
    ensures CurrentSound(Next(s, l))
  {
    if CurrentComplete(s.disk) {
      SafeStepKeepsCommand(s, l);
    } else if l.Run? {
      FirstCurrent(s.disk, s.procs[l.pid], l.choice);
    }
  }

  lemma {:induction false} InstallsKeepCurrentSound(s: System, ls: seq<Label>)
    requires Invariant(s) && Possible(s, ls) && SafeInstalls(s, ls) && CurrentSound(s)
    ensures CurrentSound(End(s, ls))
    decreases |ls|
  {
    if ls != [] {
      SafeStepKeepsSound(s, ls[0]);
      NextKeeps(s, ls[0]);
      InstallsKeepCurrentSound(Next(s, ls[0]), ls[1..]);
    }
  }

  /** On any history of installs that starts on an untouched prefix. */
  lemma InstallHistoryIsSound(d: Disk, ls: seq<Label>)
    requires Untouched(d) && Possible(System(d, map[]), ls) && SafeInstalls(System(d, map[]), ls)
    ensures End(System(d, map[]), ls).disk.current.None? || CurrentComplete(End(System(d, map[]), ls).disk)
  {
    InstallsKeepCurrentSound(System(d, map[]), ls);
  }

  // ---- a successful install ----

  /** An install that has found or published its command. */
  predicate PastLink(q: Proc) {
    && q.op.Install?
    && match q.pc
       case Adding(pc) => pc.WriteAuthority? || pc.LinkCurrent?
       case Closing(pc) => pc.ClearFinished? || pc == Release(true)
       case _ => false
  }

  predicate LinkedIfPast(d: Disk, q: Proc) {
    PastLink(q) ==> CommandAt(d, q.op.dir).Owned?
  }

  predicate CommandsLinked(s: System) {
    forall p | p in s.procs :: LinkedIfPast(s.disk, s.procs[p])
  }

  /** Another program takes away the command that a running install has found or published. */
  predicate TakesBehind(s: System, l: Label) {
    l.Meddle? && !l.command.Owned? && exists p | p in s.procs :: PastLink(s.procs[p]) && s.procs[p].op.dir == l.dir
  }

  predicate NothingTaken(s: System, ls: seq<Label>)
    requires Possible(s, ls)
    decreases |ls|
  {
    ls != [] ==> !TakesBehind(s, ls[0]) && NothingTaken(Next(s, ls[0]), ls[1..])
  }

  lemma InstallLinks(d: Disk, q: Proc, pc: InstallPc, c: Choice)
    requires q.op.Install? && q.pc == Adding(pc) && LinkedIfPast(d, q)
    ensures LinkedIfPast(InstallStep(d, q, pc, c).disk, InstallStep(d, q, pc, c).proc)
  {
  }

  lemma RecoveryLinksNothing(d: Disk, q: Proc, pc: RecoveryPc, c: Choice)
    requires q.pc == Recovering(pc)
    ensures !PastLink(RecoveryStep(d, q, pc, c).proc)
  {
  }

  lemma HolderLinks(d: Disk, q: Proc, c: Choice)
    requires HolderInvariant(d, q) && HoldsLock(q) && LinkedIfPast(d, q)
    ensures LinkedIfPast(Step(d, q, c).disk, Step(d, q, c).proc)
  {
    StepKeepsOp(d, q, c);
    if q.op.Install? {
      match q.pc
      case Recovering(pc) => RecoveryLinksNothing(d, q, pc, c);
      case Adding(pc) => InstallLinks(d, q, pc, c);
      case Removing(_) => RemovingUninstalls(d, q);
      case Closing(pc) => ClosingLinksNothing(d, q, pc, c);
    }
  }

  lemma ClosingLinksNothing(d: Disk, q: Proc, pc: ClosePc, c: Choice)
    requires q.pc == Closing(pc) && LinkedIfPast(d, q)
    ensures LinkedIfPast(CloseStep(d, q, pc, c).disk, CloseStep(d, q, pc, c).proc)
  {
  }

  lemma EntryLinksNothing(d: Disk, q: Proc, c: Choice)
    requires !HoldsLock(q)
    ensures Step(d, q, c).disk.commands == d.commands && !PastLink(Step(d, q, c).proc)
  {
  }

  lemma RemovingUninstalls(d: Disk, q: Proc)
    requires HolderInvariant(d, q) && q.pc.Removing?
    ensures q.op.Uninstall?
  {
  }

  lemma CommandsStayLinked(s: System, l: Label)
    requires Invariant(s) && Enabled(s, l) && CommandsLinked(s)
    ensures CommandsLinked(Next(s, l)) <==> !TakesBehind(s, l)
  {
    if l.Run? {
      RunStaysLinked(s, l.pid, l.choice);
    } else if TakesBehind(s, l) {
      var p :| p in s.procs && PastLink(s.procs[p]) && s.procs[p].op.dir == l.dir;
      assert !LinkedIfPast(Next(s, l).disk, s.procs[p]);
    } else {
      forall r | r in Next(s, l).procs
        ensures LinkedIfPast(Next(s, l).disk, Next(s, l).procs[r])
      {
        assert r in s.procs ==> LinkedIfPast(s.disk, s.procs[r]);
      }
    }
  }

  lemma RunStaysLinked(s: System, p: nat, c: Choice)
    requires Invariant(s) && p in s.procs && CommandsLinked(s)
    ensures CommandsLinked(Next(s, Run(p, c)))
  {
    var q := s.procs[p];
    assert LinkedIfPast(s.disk, q) && ProcInvariant(s.disk, q);
    if HoldsLock(q) {
      HolderLinks(s.disk, q, c);
    } else {
      EntryLinksNothing(s.disk, q, c);
    }
    OthersStayLinked(s, p, System(Step(s.disk, q, c).disk, s.procs[p := Step(s.disk, q, c).proc]));
  }

  lemma OthersStayLinked(s: System, p: nat, t: System)
    requires AtMostOneHolds(s) && p in s.procs && CommandsLinked(s)
    requires p in t.procs && t.procs == s.procs[p := t.procs[p]] && LinkedIfPast(t.disk, t.procs[p])
    requires !HoldsLock(s.procs[p]) ==> t.disk.commands == s.disk.commands
    ensures CommandsLinked(t)
  {
    forall r | r in t.procs
      ensures LinkedIfPast(t.disk, t.procs[r])
    {
      if r != p {
        assert LinkedIfPast(s.disk, s.procs[r]);
        assert HoldsLock(s.procs[p]) ==> !HoldsLock(s.procs[r]);
      }
    }
  }

  /** An install that fails takes away what it staged, and what it published for the first time, before it forgets
      its journal. */
  lemma FailedInstallWithdraws(s: System, ls: seq<Label>, p: nat)
    requires Invariant(s) && Possible(s, ls) && p in End(s, ls).procs && End(s, ls).procs[p].op.Install?
    ensures var d, q := End(s, ls).disk, End(s, ls).procs[p];
            && (q.pc == Adding(ClearRollback) && d.versions.Some? ==> q.scratch !in d.versions.value)
            && (q.pc == Closing(ClearFailed) && q.isNew && d.versions.Some? ==> q.op.id !in d.versions.value)
  {
    RunsKeep(s, ls);
    assert ProcInvariant(End(s, ls).disk, End(s, ls).procs[p]);
  }

  /** Whatever crashes, failures and other processes went before, an install that succeeds leaves its version
      current and complete and nothing in progress; and its command runs that version, unless another program
      took the command away behind it. */
  lemma {:induction false} InstallPublishesCommand(s: System, ls: seq<Label>, p: nat)
    requires Invariant(s) && Possible(s, ls) && p in End(s, ls).procs && End(s, ls).procs[p].op.Install?
    requires End(s, ls).procs[p].pc == Closing(Release(true))
    ensures var d, op := End(s, ls).disk, End(s, ls).procs[p].op;
            && d.current == d.authority == Some(op.id) && CurrentComplete(d) && Settled(d)
            && (CommandsLinked(s) && NothingTaken(s, ls) ==> Runs(d, op.dir, op.id))
    decreases |ls|
  {
    if ls == [] {
      assert ProcInvariant(s.disk, s.procs[p]);
      assert CommandsLinked(s) ==> LinkedIfPast(s.disk, s.procs[p]);
    } else {
      NextKeeps(s, ls[0]);
      if CommandsLinked(s) {
        CommandsStayLinked(s, ls[0]);
      }
      InstallPublishesCommand(Next(s, ls[0]), ls[1..], p);
    }
  }

  // ---- both exclusions are needed ----

  predicate Breaks(s: System, ls: seq<Label>, id: Name) {
    Possible(s, ls) && End(s, ls).disk.current == Some(id) && !CurrentComplete(End(s, ls).disk)
  }

  lemma UnpublishBreaksCurrent(s: System, p: nat, l: Label, t: System, q: Proc)
    requires p in s.procs && l.Run? && l.pid == p && t == Next(s, l) && q == t.procs[p]
    requires q.pc == Adding(Unpublish) && q.op.Install? && q.op == s.procs[p].op
    requires CurrentComplete(t.disk) && t.disk.current == Some(q.op.id)
    ensures exists c :: Breaks(s, [l, Run(p, c)], q.op.id)
  {
    var id := q.op.id;
    var file :| file in t.disk.versions.value[id].have;
    var l' := Run(p, Choice(NoFault, "", file));
    var u := Next(t, l');
    assert file !in u.disk.versions.value[id].have && u.disk.versions.value[id].want == t.disk.versions.value[id].want;
    var ls := [l, l'];
    assert ls[1..] == [l'] && ls[1..][1..] == [];
    assert Possible(u, []) && Possible(t, ls[1..]) && Possible(s, ls);
    assert End(s, ls) == End(t, ls[1..]) == End(u, []) == u;
    assert Breaks(s, [l, Run(p, l'.choice)], id);
  }

  /** Whenever the sync after the new `current` link is lost, the clean-up can leave `current`
      naming an incomplete version. */
  lemma LostSyncBreaksCurrent(s: System, p: nat, c: Choice)
    requires Invariant(s) && p in s.procs && LosesSync(s.procs[p], c)
    ensures exists c' :: Breaks(s, [Run(p, c), Run(p, c')], s.procs[p].op.id)
  {
    assert ProcInvariant(s.disk, s.procs[p]);
    var t := Next(s, Run(p, c));
    UnpublishBreaksCurrent(s, p, Run(p, c), t, t.procs[p]);
  }

  /** A dangling `current` that a new publication happens to complete can be broken again by a
      failure every run may have. */
  lemma ExposureBreaksCurrent(s: System, p: nat)
    requires Invariant(s) && p in s.procs && Exposed(s.disk, s.procs[p]) && Links(s.procs[p])
    ensures CurrentComplete(s.disk)
    ensures exists c' :: Breaks(s, [Run(p, Choice(Before, "", "")), Run(p, c')], s.procs[p].op.id)
  {
    assert ProcInvariant(s.disk, s.procs[p]);
    var l := Run(p, Choice(Before, "", ""));
    UnpublishBreaksCurrent(s, p, l, Next(s, l), Next(s, l).procs[p]);
  }
}
