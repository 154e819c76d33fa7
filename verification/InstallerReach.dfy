/** Runs that exist: what the installer can be made to do from a disk, step by step. */
module InstallerReach {
  import opened Wrappers
  import opened InstallerDisk
  import opened InstallerMachine
  import opened InstallerSystem
  import opened InstallerTheorems

  /** What a run may be made of: anything; anything but other programs' meddling; or safe installs. */
  datatype Kind = AnyRun | Calm | SafeOnly

  predicate Allowed(kind: Kind, s: System, l: Label)
    requires Enabled(s, l)
  {
    match kind
    case AnyRun => true
    case Calm => !l.Meddle?
    case SafeOnly => SafeInstallStep(s, l)
  }

  predicate Fits(kind: Kind, s: System, ls: seq<Label>)
    requires Possible(s, ls)
    decreases |ls|
  {
    ls != [] ==> Allowed(kind, s, ls[0]) && Fits(kind, Next(s, ls[0]), ls[1..])
  }

  predicate Leads(kind: Kind, s: System, ls: seq<Label>, t: System) {
    Possible(s, ls) && Fits(kind, s, ls) && End(s, ls) == t
  }

  ghost predicate Reaches(kind: Kind, s: System, t: System) {
    exists ls :: Leads(kind, s, ls, t)
  }

  lemma {:induction false} FitsAppend(kind: Kind, s: System, ls: seq<Label>, l: Label)
    requires Possible(s, ls) && Fits(kind, s, ls) && Enabled(End(s, ls), l) && Allowed(kind, End(s, ls), l)
    ensures Possible(s, ls + [l]) && Fits(kind, s, ls + [l])
    decreases |ls|
  {
    if ls == [] {
      assert ls + [l] == [l] && [l][1..] == [];
    } else {
      FitsAppend(kind, Next(s, ls[0]), ls[1..], l);
      assert (ls + [l])[1..] == ls[1..] + [l];
    }
  }

  lemma ReachesItself(kind: Kind, s: System)
    ensures Reaches(kind, s, s)
  {
    assert Leads(kind, s, [], s);
  }

  lemma ReachesNext(kind: Kind, s: System, t: System, l: Label)
    requires Reaches(kind, s, t) && Enabled(t, l) && Allowed(kind, t, l)
    ensures Reaches(kind, s, Next(t, l))
  {
    var ls :| Leads(kind, s, ls, t);
    EndAppend(s, ls, l);
    FitsAppend(kind, s, ls, l);
    assert Leads(kind, s, ls + [l], Next(t, l));
  }

  lemma {:induction false} SafeRun(s: System, ls: seq<Label>)
    requires Possible(s, ls)
    ensures Fits(SafeOnly, s, ls) <==> SafeInstalls(s, ls)
    decreases |ls|
  {
    if ls != [] {
      SafeRun(Next(s, ls[0]), ls[1..]);
    }
  }

  // ---- one process among others that stand still ----

  /** The process `p` is at `q`; the other live processes are those of `others`. */
  function With(d: Disk, others: map<nat, Proc>, p: nat, q: Proc): System {
    System(d, others[p := q])
  }

  function Idle(d: Disk): System {
    System(d, map[])
  }

  /** A step of `q` that a run of this kind may take. */
  predicate MayTake(kind: Kind, q: Proc, c: Choice) {
    kind.SafeOnly? ==> q.op.Install? && !LosesSync(q, c)
  }

  lemma Advance(kind: Kind, s: System, d: Disk, others: map<nat, Proc>, p: nat, q: Proc, c: Choice, e: Effect)
    requires Reaches(kind, s, With(d, others, p, q)) && MayTake(kind, q, c) && e == Step(d, q, c)
    ensures Reaches(kind, s, With(e.disk, others, p, e.proc))
  {
    var t := With(d, others, p, q);
    ReachesNext(kind, s, t, Run(p, c));
    assert others[p := q][p := e.proc] == others[p := e.proc];
  }

  lemma Begin(kind: Kind, s: System, t: System, p: nat, op: Op)
    requires Reaches(kind, s, t) && p !in t.procs
    ensures Reaches(kind, s, With(t.disk, t.procs, p, Start(op, p)))
  {
    ReachesNext(kind, s, t, Spawn(p, op));
  }

  lemma Unlock(kind: Kind, s: System, t: System)
    requires Reaches(kind, s, t) && NobodyHolds(t)
    ensures Reaches(kind, s, t.(disk := t.disk.(lock := false)))
  {
    ReachesNext(kind, s, t, ClearLock);
  }

  /** A lone process is killed and its lock cleared. */
  lemma KillAlone(kind: Kind, s: System, d: Disk, p: nat, q: Proc)
    requires Reaches(kind, s, With(d, map[], p, q))
    ensures Reaches(kind, s, Idle(d.(lock := false)))
  {
    ReachesNext(kind, s, With(d, map[], p, q), Kill(p));
    assert map[p := q] - {p} == map[];
    Unlock(kind, s, Idle(d));
  }

  /** An uninstall gets as far as its decision how to recover. */
  lemma UninstallEnters(kind: Kind, s: System, d: Disk, others: map<nat, Proc>, p: nat, dir: Dir)
    requires Reaches(kind, s, System(d, others)) && p !in others && d.prefix && !d.lock && !kind.SafeOnly?
    ensures var q := Start(Op.Uninstall(dir), p);
            Reaches(kind, s, With(d.(lock := true), others, p, q.(pc := Recovering(Recover))))
  {
    var q := Start(Op.Uninstall(dir), p);
    Begin(kind, s, System(d, others), p, q.op);
    Advance(kind, s, d, others, p, q, CALM, Effect(d, q.(pc := Entry(Lock))));
    Advance(kind, s, d, others, p, q.(pc := Entry(Lock)), CALM, Effect(d.(lock := true), q.(pc := Recovering(Recover))));
  }

  /** An install gets as far as its decision how to recover. */
  lemma InstallEnters(kind: Kind, s: System, d: Disk, p: nat, op: Op)
    requires Reaches(kind, s, Idle(d)) && !d.lock && op.Install? && ValidHash(op.id)
    ensures var d' := d.(prefix := true, lock := true, versions := if d.versions.None? then Some(map[]) else d.versions);
            Reaches(kind, s, With(d', map[], p, Start(op, p).(pc := Recovering(Recover))))
  {
    var q := Start(op, p);
    Begin(kind, s, Idle(d), p, op);
    var d1 := d.(prefix := true);
    Advance(kind, s, d, map[], p, q, CALM, Effect(d1, q.(pc := Entry(MakeVersions))));
    var d2 := if d.versions.None? then SetVersions(d1, map[]) else d1;
    Advance(kind, s, d1, map[], p, q.(pc := Entry(MakeVersions)), CALM, Effect(d2, q.(pc := Entry(Lock))));
    Advance(kind, s, d2, map[], p, q.(pc := Entry(Lock)), CALM, Effect(d2.(lock := true), q.(pc := Recovering(Recover))));
  }

  // ---- deletions come to an end ----

  /** At `q` the machine deletes the directory `n` inside `versions` and then goes to `gone`. */
  ghost predicate Prunes(journal: Option<Journal>, q: Proc, n: Name, gone: Pc) {
    forall d: Disk, c | d.journal == journal :: Step(d, q, c) == PruneVersion(d, q, c, n, gone)
  }

  lemma PruneOnce(kind: Kind, s: System, d: Disk, p: nat, q: Proc, n: Name, c: Choice, e: Effect, gone: Pc)
    requires Reaches(kind, s, With(d, map[], p, q)) && MayTake(kind, q, c) && Prunes(d.journal, q, n, gone)
    requires e == PruneVersion(d, q, c, n, gone)
    ensures Reaches(kind, s, With(e.disk, map[], p, e.proc))
  {
    assert e == Step(d, q, c);
    Advance(kind, s, d, map[], p, q, c, e);
  }

  /** One file goes. */
  lemma PruneFile(kind: Kind, s: System, d: Disk, p: nat, q: Proc, n: Name, file: Name, gone: Pc)
    requires Reaches(kind, s, With(d, map[], p, q)) && MayTake(kind, q, CALM) && Prunes(d.journal, q, n, gone)
    requires d.versions.Some? && n in d.versions.value && file in Entries(d.versions.value[n])
    ensures var v := d.versions.value;
            Reaches(kind, s, With(SetVersions(d, v[n := WithoutFile(v[n], file)]), map[], p, q))
  {
    var v := d.versions.value;
    PruneOnce(kind, s, d, p, q, n, Choice(NoFault, "", file), Effect(SetVersions(d, v[n := WithoutFile(v[n], file)]), q), gone);
  }

  lemma {:induction false} PruneToEnd(kind: Kind, s: System, d: Disk, p: nat, q: Proc, n: Name, gone: Pc)
    requires Reaches(kind, s, With(d, map[], p, q)) && MayTake(kind, q, CALM) && Prunes(d.journal, q, n, gone)
    requires d.versions.Some? && gone != q.pc
    ensures Reaches(kind, s, With(SetVersions(d, d.versions.value - {n}), map[], p, q.(pc := gone)))
    decreases if d.versions.Some? && n in d.versions.value then Entries(d.versions.value[n]) else {}
  {
    var v := d.versions.value;
    if n !in v {
      assert v - {n} == v;
      PruneOnce(kind, s, d, p, q, n, CALM, Effect(d, q.(pc := gone)), gone);
    } else if Empty(v[n]) {
      PruneOnce(kind, s, d, p, q, n, CALM, Effect(SetVersions(d, v - {n}), q.(pc := gone)), gone);
    } else {
      var file :| file in Entries(v[n]);
      PruneShrinks(v, n, file);
      PruneFile(kind, s, d, p, q, n, file, gone);
      PruneToEnd(kind, s, SetVersions(d, v[n := WithoutFile(v[n], file)]), p, q, n, gone);
    }
  }

  /** At `q` the machine deletes the moved tree `n` and then goes to `gone`. */
  ghost predicate PrunesMoved(journal: Option<Journal>, q: Proc, n: Name, gone: Pc) {
    forall d: Disk, c | d.journal == journal :: Step(d, q, c) == PruneMoved(d, q, c, n, gone)
  }

  lemma PruneMovedOnce(kind: Kind, s: System, d: Disk, p: nat, q: Proc, n: Name, c: Choice, e: Effect, gone: Pc)
    requires Reaches(kind, s, With(d, map[], p, q)) && MayTake(kind, q, c) && PrunesMoved(d.journal, q, n, gone)
    requires e == PruneMoved(d, q, c, n, gone)
    ensures Reaches(kind, s, With(e.disk, map[], p, e.proc))
  {
    assert e == Step(d, q, c);
    Advance(kind, s, d, map[], p, q, c, e);
  }

  /** The moved tree `n` with `trees` left of it. */
  function Left(d: Disk, n: Name, trees: Trees): Disk
    requires n in d.removed
  {
    d.(removed := d.removed[n := d.removed[n].(trees := trees, touched := true)])
  }

  lemma LeftTwice(d: Disk, n: Name, trees: Trees, fewer: Trees)
    requires n in d.removed
    ensures Left(Left(d, n, trees), n, fewer) == Left(d, n, fewer)
    ensures Left(d, n, trees).removed - {n} == d.removed - {n}
  {
  }

  lemma {:induction false} PruneMovedEntry(kind: Kind, s: System, d: Disk, p: nat, q: Proc, n: Name, tree: Name, gone: Pc)
    requires Reaches(kind, s, With(d, map[], p, q)) && MayTake(kind, q, CALM) && PrunesMoved(d.journal, q, n, gone)
    requires n in d.removed && tree in d.removed[n].trees
    ensures Reaches(kind, s, With(Left(d, n, d.removed[n].trees - {tree}), map[], p, q))
    decreases if n in d.removed && tree in d.removed[n].trees then Entries(d.removed[n].trees[tree]) else {}
  {
    var trees := d.removed[n].trees;
    if Empty(trees[tree]) {
      PruneMovedOnce(kind, s, d, p, q, n, Choice(NoFault, tree, ""), Effect(Left(d, n, trees - {tree}), q), gone);
    } else {
      var file :| file in Entries(trees[tree]);
      PruneShrinks(trees, tree, file);
      var less := trees[tree := WithoutFile(trees[tree], file)];
      PruneMovedOnce(kind, s, d, p, q, n, Choice(NoFault, tree, file), Effect(Left(d, n, less), q), gone);
      PruneMovedEntry(kind, s, Left(d, n, less), p, q, n, tree, gone);
      LeftTwice(d, n, less, trees - {tree});
    }
  }

  lemma {:induction false} PruneMovedToEnd(kind: Kind, s: System, d: Disk, p: nat, q: Proc, n: Name, gone: Pc)
    requires Reaches(kind, s, With(d, map[], p, q)) && MayTake(kind, q, CALM) && PrunesMoved(d.journal, q, n, gone)
    requires n in d.removed
    ensures Reaches(kind, s, With(d.(removed := d.removed - {n}), map[], p, q.(pc := gone)))
    decreases if n in d.removed then |d.removed[n].trees| else 0
  {
    var trees := d.removed[n].trees;
    if trees == map[] {
      PruneMovedOnce(kind, s, d, p, q, n, CALM, Effect(d.(removed := d.removed - {n}), q.(pc := gone)), gone);
    } else {
      var tree :| tree in trees;
      PruneMovedEntry(kind, s, d, p, q, n, tree, gone);
      assert (trees - {tree}).Keys == trees.Keys - {tree};
      assert |trees - {tree}| < |trees|;
      PruneMovedToEnd(kind, s, Left(d, n, trees - {tree}), p, q, n, gone);
      LeftTwice(d, n, trees - {tree}, trees - {tree});
    }
  }
}
