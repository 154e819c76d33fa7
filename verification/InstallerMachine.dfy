/** The Unix installer as atomic steps: any number of processes on one prefix, each able to
    fail or be killed between any two steps. */
module InstallerMachine {
  import opened Wrappers
  import opened InstallerDisk

  /** An installation copies the `files` of a distribution whose manifest lists `want`. */
  datatype Op =
    | Install(id: Name, dir: Dir, want: set<Name>, files: set<Name>)
    | Uninstall(dir: Dir)

  /** The next thing a process does. */
  datatype EntryPc = Prepare | MakeVersions | Lock

  datatype RecoveryPc = Recover | PruneStaging | PruneRemoved | Restore | ClearRecovered

  datatype InstallPc =
    | Inspect | PruneOrphan | MakeStaging | WriteInstalling | Copy | Check | Publish
    | Rollback | ClearRollback | LinkCommand | WriteAuthority | LinkCurrent | Unpublish

  datatype UninstallPc =
    | Validate | WritePrepared | MoveVersions | Unlink | MoveBack | WriteCommitted
    | DropRemoved | DropAuthority | DropCurrent

  datatype ClosePc = ClearFailed | ClearFinished | Release(ok: bool)

  /** Only `Entry` and `Done` lie outside the lock. */
  datatype Pc =
    | Entry(entry: EntryPc)
    | Recovering(recovery: RecoveryPc)
    | Adding(adding: InstallPc)
    | Removing(removing: UninstallPc)
    | Closing(closing: ClosePc)
    | Done(success: bool)

  /** `scratch` is the local `temporary` of an install and `removed` of an uninstall. `isNew` is
      the local `installed_new`; `moved` says that `removed_versions` is set. */
  datatype Proc = Proc(op: Op, scratch: Name, pc: Pc, isNew: bool, moved: bool)

  /** How one file-system call ends. `Before`: it failed and changed nothing. `After`: the
      change reached the disk but the call, or the directory sync after it, reported failure. */
  datatype Fault = NoFault | Before | After

  /** Everything a step does not decide itself: its fault and which entry of a tree it visits. */
  datatype Choice = Choice(fault: Fault, tree: Name, file: Name)

  /** The call succeeds, and visits no entry. */
  const CALM := Choice(NoFault, "", "")

  datatype Effect = Effect(disk: Disk, proc: Proc)

  const FAIL := Closing(Release(false))

  function ScratchName(op: Op, pid: nat): Name {
    match op
    case Install(id, _, _, _) => StagingName(id, pid)
    case Uninstall(_) => RemovedName(pid)
  }

  function Start(op: Op, pid: nat): Proc {
    Proc(op, ScratchName(op, pid), Entry(Prepare), false, false)
  }

  function Goto(d: Disk, q: Proc, pc: Pc): Effect {
    Effect(d, q.(pc := pc))
  }

  /** The error path out of a call: `fault` decides whether the change is on disk. */
  function Attempt(before: Disk, after: Disk, q: Proc, c: Choice, good: Pc, bad: Pc): Effect {
    match c.fault
    case NoFault => Goto(after, q, good)
    case Before => Goto(before, q, bad)
    case After => Goto(after, q, bad)
  }

  predicate HoldsLock(q: Proc) {
    !q.pc.Entry? && !q.pc.Done?
  }

  function WithoutFile(t: Tree, file: Name): Tree {
    t.(have := t.have - {file}, torn := t.torn - {file})
  }

  function Entries(t: Tree): set<Name> {
    t.have + t.torn
  }

  lemma PruneShrinks(trees: Trees, n: Name, file: Name)
    requires n in trees && file in Entries(trees[n])
    ensures Entries(WithoutFile(trees[n], file)) < Entries(trees[n])
    ensures trees[n := WithoutFile(trees[n], file)] - {n} == trees - {n}
  {
    assert file !in Entries(WithoutFile(trees[n], file));
  }

  /** One call of a recursive deletion on `trees[n]`: a file goes, or the emptied directory. */
  function PruneAt(trees: Trees, n: Name, file: Name): Trees
    requires n in trees
  {
    if Empty(trees[n]) then trees - {n} else trees[n := WithoutFile(trees[n], file)]
  }

  function SetVersions(d: Disk, trees: Trees): Disk {
    d.(versions := Some(trees))
  }

  /** A deletion loop over one directory inside `versions`. */
  function PruneVersion(d: Disk, q: Proc, c: Choice, n: Name, gone: Pc): Effect {
    if d.versions.None? || n !in d.versions.value then Goto(d, q, gone)
    else if c.fault.Before? then Goto(d, q, FAIL)
    else
      var d' := SetVersions(d, PruneAt(d.versions.value, n, c.file));
      Goto(d', q, if n in d'.versions.value then q.pc else gone)
  }

  function PruneRemovedAt(r: Removed, c: Choice): Removed
    requires c.tree in r.trees
  {
    r.(trees := PruneAt(r.trees, c.tree, c.file), touched := true)
  }

  /** A deletion loop over a moved `versions` directory. */
  function PruneMoved(d: Disk, q: Proc, c: Choice, n: Name, gone: Pc): Effect {
    if n !in d.removed then Goto(d, q, gone)
    else if c.fault.Before? then Goto(d, q, FAIL)
    else
      var r := d.removed[n];
      if r.trees == map[] then Goto(d.(removed := d.removed - {n}), q, gone)
      else if c.tree in r.trees then
        Goto(d.(removed := d.removed[n := PruneRemovedAt(r, c)]), q, q.pc)
      else Goto(d, q, q.pc)
  }

  /** `rename` onto an existing directory works exactly when that directory is empty. */
  predicate Replaceable(versions: Option<Trees>) {
    versions.None? || versions.value == map[]
  }

  function RestoreMoved(d: Disk, n: Name): Disk
    requires n in d.removed
  {
    d.(versions := Some(d.removed[n].trees), removed := d.removed - {n})
  }

  function ClearJournal(d: Disk): Disk {
    d.(journal := None)
  }

  /** Clearing looks for the journal first, so without one there is no call that can fail. */
  function AttemptClear(d: Disk, q: Proc, c: Choice, good: Pc, bad: Pc): Effect {
    if d.journal.None? then Goto(d, q, good) else Attempt(d, ClearJournal(d), q, c, good, bad)
  }

  function AfterRecovery(op: Op): Pc {
    if op.Install? then Adding(Inspect) else Removing(Validate)
  }

  // ---- before the lock ----

  function PrepareStep(d: Disk, q: Proc, c: Choice): Effect {
    if q.op.Uninstall? then Goto(d, q, if d.prefix then Entry(Lock) else Done(true))
    else if !ValidHash(q.op.id) then Goto(d, q, Done(false))
    else Attempt(d, d.(prefix := true), q, c, Entry(MakeVersions), Done(false))
  }

  /** `versions` is created before the lock is taken. */
  function MakeVersionsStep(d: Disk, q: Proc, c: Choice): Effect {
    Attempt(d, if d.versions.None? then SetVersions(d, map[]) else d, q, c, Entry(Lock), Done(false))
  }

  function LockStep(d: Disk, q: Proc, c: Choice): Effect {
    if d.lock || c.fault.Before? then Goto(d, q, Done(false)) else Goto(d.(lock := true), q, Recovering(Recover))
  }

  function EntryStep(d: Disk, q: Proc, pc: EntryPc, c: Choice): Effect {
    match pc
    case Prepare => PrepareStep(d, q, c)
    case MakeVersions => MakeVersionsStep(d, q, c)
    case Lock => LockStep(d, q, c)
  }

  // ---- recovery ----

  function RecoverStep(d: Disk, q: Proc, c: Choice): Effect {
    if d.journal.None? then Goto(d, q, AfterRecovery(q.op))
    else if c.fault.Before? then Goto(d, q, FAIL)
    else
      match d.journal.value
      case Installing(_, _) => Goto(d, q, Recovering(PruneStaging))
      case Uninstalling(committed, n, dir) =>
        if dir != q.op.dir then Goto(d, q, FAIL)
        else if n !in d.removed then Goto(d, q, Recovering(ClearRecovered))
        else if !committed && !CommandAt(d, dir).Absent? && d.versions.None? then Goto(d, q, Recovering(Restore))
        else Goto(d, q, Recovering(PruneRemoved))
  }

  function PruneStagingStep(d: Disk, q: Proc, c: Choice): Effect {
    if d.journal.Some? && d.journal.value.Installing?
    then PruneVersion(d, q, c, d.journal.value.staging, Recovering(ClearRecovered))
    else Goto(d, q, FAIL)
  }

  function PruneRemovedStep(d: Disk, q: Proc, c: Choice): Effect {
    if d.journal.Some? && d.journal.value.Uninstalling?
    then PruneMoved(d, q, c, d.journal.value.removed, Recovering(ClearRecovered))
    else Goto(d, q, FAIL)
  }

  function RestoreStep(d: Disk, q: Proc, c: Choice): Effect {
    if d.journal.Some? && d.journal.value.Uninstalling? && d.journal.value.removed in d.removed
       && Replaceable(d.versions)
    then Attempt(d, RestoreMoved(d, d.journal.value.removed), q, c, Recovering(ClearRecovered), FAIL)
    else Goto(d, q, FAIL)
  }

  // ---- install ----

  function InspectStep(d: Disk, q: Proc, c: Choice): Effect
    requires q.op.Install?
  {
    if d.versions.Some? && q.op.id in d.versions.value then
      Goto(d, q, if c.fault.NoFault? && Complete(d.versions.value[q.op.id]) then Adding(LinkCommand) else FAIL)
    else Goto(d, q, Adding(PruneOrphan))
  }

  function MakeStagingStep(d: Disk, q: Proc, c: Choice): Effect
    requires q.op.Install?
  {
    if d.versions.None? || q.scratch in d.versions.value then Goto(d, q, FAIL)
    else
      var d' := SetVersions(d, d.versions.value[q.scratch := Tree(q.op.want, {}, {})]);
      Attempt(d, d', q, c, Adding(WriteInstalling), FAIL)
  }

  function WriteInstallingStep(d: Disk, q: Proc, c: Choice): Effect
    requires q.op.Install?
  {
    Attempt(d, d.(journal := Some(Installing(q.op.id, q.scratch))), q, c, Adding(Copy), FAIL)
  }

  /** A file of the copy is first created, then filled. */
  function CopyFile(t: Tree, file: Name): Tree {
    if file in t.have then t
    else if file in t.torn then t.(have := t.have + {file}, torn := t.torn - {file})
    else t.(torn := t.torn + {file})
  }

  function CopyStep(d: Disk, q: Proc, c: Choice): Effect
    requires q.op.Install?
  {
    if d.versions.None? || q.scratch !in d.versions.value || c.fault.Before? then Goto(d, q, Adding(Rollback))
    else
      var t := d.versions.value[q.scratch];
      if t.have == q.op.files && t.torn == {} then Goto(d, q, Adding(Check))
      else if c.file !in q.op.files then Goto(d, q, Adding(Copy))
      else
        var d' := SetVersions(d, d.versions.value[q.scratch := CopyFile(t, c.file)]);
        Goto(d', q, if c.fault.After? then Adding(Rollback) else Adding(Copy))
  }

  function CheckStep(d: Disk, q: Proc, c: Choice): Effect {
    var passes := d.versions.Some? && q.scratch in d.versions.value && Complete(d.versions.value[q.scratch]);
    Goto(d, q, if passes && c.fault.NoFault? then Adding(Publish) else Adding(Rollback))
  }

  function PublishStep(d: Disk, q: Proc, c: Choice): Effect
    requires q.op.Install?
  {
    if d.versions.None? || q.scratch !in d.versions.value || q.op.id in d.versions.value
       || c.fault.Before? then Goto(d, q, Adding(Rollback))
    else
      var v := d.versions.value;
      var d' := SetVersions(d, (v - {q.scratch})[q.op.id := v[q.scratch]]);
      if c.fault.After? then Goto(d', q, FAIL) else Effect(d', q.(pc := Adding(LinkCommand), isNew := true))
  }

  /** Where a failed command publication goes: a version that is new is taken away again. */
  function CommandFailed(q: Proc): Pc {
    if q.isNew then Adding(Unpublish) else Closing(ClearFailed)
  }

  function LinkCommandStep(d: Disk, q: Proc, c: Choice): Effect {
    match CommandAt(d, q.op.dir)
    case Foreign => Goto(d, q, CommandFailed(q))
    case Owned => Goto(d, q, if c.fault.Before? then CommandFailed(q) else Adding(WriteAuthority))
    case Absent =>
      var d' := d.(commands := d.commands[q.op.dir := Owned]);
      Attempt(d, d', q, c, Adding(WriteAuthority), CommandFailed(q))
  }

  function WriteAuthorityStep(d: Disk, q: Proc, c: Choice): Effect
    requires q.op.Install?
  {
    Attempt(d, d.(authority := Some(q.op.id)), q, c, Adding(LinkCurrent), CommandFailed(q))
  }

  function LinkCurrentStep(d: Disk, q: Proc, c: Choice): Effect
    requires q.op.Install?
  {
    Attempt(d, d.(current := Some(q.op.id)), q, c, Closing(ClearFinished), CommandFailed(q))
  }

  // ---- uninstall ----

  function ValidateStep(d: Disk, q: Proc, c: Choice): Effect {
    if CommandAt(d, q.op.dir).Foreign? then Goto(d, q, FAIL)
    else Goto(d, q, if d.versions.Some? then Removing(WritePrepared) else Removing(Unlink))
  }

  function WriteUninstallingStep(d: Disk, q: Proc, c: Choice, j: Journal, next: Pc): Effect {
    Attempt(d, d.(journal := Some(j)), q, c, next, FAIL)
  }

  function MoveVersionsStep(d: Disk, q: Proc, c: Choice): Effect {
    if d.versions.None? || q.scratch in d.removed || c.fault.Before? then Goto(d, q, FAIL)
    else
      var v := d.versions.value;
      var d' := d.(versions := None, removed := d.removed[q.scratch := Removed(v, v, false)]);
      if c.fault.After? then Goto(d', q, FAIL) else Effect(d', q.(pc := Removing(Unlink), moved := true))
  }

  /** Where a failed command removal goes: a moved `versions` is put back. */
  function UnlinkFailed(q: Proc): Pc {
    if q.moved then Removing(MoveBack) else Closing(ClearFailed)
  }

  function Unlinked(q: Proc): Pc {
    if q.moved then Removing(WriteCommitted) else Removing(DropAuthority)
  }

  function UnlinkStep(d: Disk, q: Proc, c: Choice): Effect {
    match CommandAt(d, q.op.dir)
    case Foreign => Goto(d, q, UnlinkFailed(q))
    case Absent => Goto(d, q, Unlinked(q))
    case Owned =>
      var d' := d.(commands := d.commands[q.op.dir := Absent]);
      Attempt(d, d', q, c, Unlinked(q), UnlinkFailed(q))
  }

  function MoveBackStep(d: Disk, q: Proc, c: Choice): Effect {
    if q.scratch !in d.removed || !Replaceable(d.versions) || c.fault.Before? then Goto(d, q, FAIL)
    else Goto(RestoreMoved(d, q.scratch), q, Closing(ClearFailed))
  }

  function DropAuthorityStep(d: Disk, q: Proc, c: Choice): Effect {
    if d.authority.None? then Goto(d, q, Removing(DropCurrent))
    else Attempt(d, d.(authority := None), q, c, Removing(DropCurrent), FAIL)
  }

  function DropCurrentStep(d: Disk, q: Proc, c: Choice): Effect {
    if d.current.None? then Goto(d, q, Closing(ClearFinished))
    else Attempt(d, d.(current := None), q, c, Closing(ClearFinished), FAIL)
  }

  function RecoveryStep(d: Disk, q: Proc, pc: RecoveryPc, c: Choice): Effect {
    match pc
    case Recover => RecoverStep(d, q, c)
    case PruneStaging => PruneStagingStep(d, q, c)
    case PruneRemoved => PruneRemovedStep(d, q, c)
    case Restore => RestoreStep(d, q, c)
    case ClearRecovered => AttemptClear(d, q, c, AfterRecovery(q.op), FAIL)
  }

  function InstallStep(d: Disk, q: Proc, pc: InstallPc, c: Choice): Effect
    requires q.op.Install?
  {
    match pc
    case Inspect => InspectStep(d, q, c)
    case PruneOrphan => PruneVersion(d, q, c, q.scratch, Adding(MakeStaging))
    case MakeStaging => MakeStagingStep(d, q, c)
    case WriteInstalling => WriteInstallingStep(d, q, c)
    case Copy => CopyStep(d, q, c)
    case Check => CheckStep(d, q, c)
    case Publish => PublishStep(d, q, c)
    case Rollback => PruneVersion(d, q, c, q.scratch, Adding(ClearRollback))
    case ClearRollback => AttemptClear(d, q, c, FAIL, FAIL)
    case LinkCommand => LinkCommandStep(d, q, c)
    case WriteAuthority => WriteAuthorityStep(d, q, c)
    case LinkCurrent => LinkCurrentStep(d, q, c)
    case Unpublish => PruneVersion(d, q, c, q.op.id, Closing(ClearFailed))
  }

  function UninstallStep(d: Disk, q: Proc, pc: UninstallPc, c: Choice): Effect {
    match pc
    case Validate => ValidateStep(d, q, c)
    case WritePrepared => WriteUninstallingStep(d, q, c, Uninstalling(false, q.scratch, q.op.dir), Removing(MoveVersions))
    case MoveVersions => MoveVersionsStep(d, q, c)
    case Unlink => UnlinkStep(d, q, c)
    case MoveBack => MoveBackStep(d, q, c)
    case WriteCommitted => WriteUninstallingStep(d, q, c, Uninstalling(true, q.scratch, q.op.dir), Removing(DropRemoved))
    case DropRemoved => PruneMoved(d, q, c, q.scratch, Removing(DropAuthority))
    case DropAuthority => DropAuthorityStep(d, q, c)
    case DropCurrent => DropCurrentStep(d, q, c)
  }

  function CloseStep(d: Disk, q: Proc, pc: ClosePc, c: Choice): Effect {
    match pc
    case ClearFailed => AttemptClear(d, q, c, FAIL, FAIL)
    case ClearFinished => AttemptClear(d, q, c, Closing(Release(true)), FAIL)
    case Release(ok) => Goto(if c.fault.Before? then d else d.(lock := false), q, Done(ok))
  }

  /** One step of a process. Install control points belong to install operations; no run
      reaches one with an uninstall. */
  function Step(d: Disk, q: Proc, c: Choice): Effect {
    match q.pc
    case Entry(pc) => EntryStep(d, q, pc, c)
    case Recovering(pc) => RecoveryStep(d, q, pc, c)
    case Adding(pc) =>
      if q.op.Install? then InstallStep(d, q, pc, c) else Effect(d, q)
    case Removing(pc) => UninstallStep(d, q, pc, c)
    case Closing(pc) => CloseStep(d, q, pc, c)
    case Done(_) => Effect(d, q)
  }
}
