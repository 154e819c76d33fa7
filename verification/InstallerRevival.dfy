/** A moved tree whose deletion has begun comes back exactly when another program intrudes. */
module InstallerRevival {
  import opened Wrappers
  import opened InstallerDisk
  import opened InstallerMachine
  import opened InstallerSystem
  import opened InstallerRollback
  import opened InstallerReach

  /** The step puts what is left of `n` back under `versions` although its deletion has begun. */
  predicate Revives(s: System, l: Label, n: Name) {
    && Enabled(s, l)
    && n in s.disk.removed && s.disk.removed[n].touched && n !in Next(s, l).disk.removed
    && Next(s, l).disk.versions == Some(s.disk.removed[n].trees) != s.disk.versions
  }

  predicate EndsInRevival(s: System, ls: seq<Label>, l: Label, n: Name) {
    Possible(s, ls) && Undisturbed(s, ls) && Revives(End(s, ls), l, n)
  }

  /** Without another intrusion, some run puts a tree back whose deletion has begun. */
  ghost predicate Revivable(s: System) {
    exists ls, l, n :: EndsInRevival(s, ls, l, n)
  }

  // ---- without an intrusion ----

  lemma {:induction false} UndisturbedStaysFinal(s: System, ls: seq<Label>)
    requires Invariant(s) && DeletionFinal(s) && Possible(s, ls) && Undisturbed(s, ls)
    ensures Invariant(End(s, ls)) && DeletionFinal(End(s, ls))
    decreases |ls|
  {
    if ls != [] {
      NextKeeps(s, ls[0]);
      DeletionStaysFinal(s, ls[0]);
      UndisturbedStaysFinal(Next(s, ls[0]), ls[1..]);
    }
  }

  lemma FinalIsNotRevivable(s: System)
    requires Invariant(s) && DeletionFinal(s)
    ensures !Revivable(s)
  {
    if Revivable(s) {
      var ls, l, n :| EndsInRevival(s, ls, l, n);
      UndisturbedStaysFinal(s, ls);
      MovedTreeFate(End(s, ls), l, n);
    }
  }

  // ---- after an intrusion ----

  lemma {:induction false} CalmIsUndisturbed(s: System, ls: seq<Label>)
    requires Possible(s, ls) && Fits(Calm, s, ls)
    ensures Undisturbed(s, ls)
    decreases |ls|
  {
    if ls != [] {
      CalmIsUndisturbed(Next(s, ls[0]), ls[1..]);
    }
  }

  /** Recovery would put back the tree `n`, whose deletion has begun. */
  predicate Revocable(d: Disk, n: Name) {
    && d.prefix && d.versions.None? && n in d.removed && d.removed[n].touched
    && d.journal.Some? && d.journal.value.Uninstalling? && d.journal.value.removed == n
    && !d.journal.value.committed && !CommandAt(d, d.journal.value.dir).Absent?
  }

  lemma FreshPid(pids: set<nat>) returns (p: nat)
    ensures p !in pids
  {
    p := PidBound(pids);
  }

  lemma {:induction false} PidBound(pids: set<nat>) returns (bound: nat)
    ensures forall p | p in pids :: p < bound
    decreases pids
  {
    if pids == {} {
      bound := 0;
    } else {
      var p :| p in pids;
      var rest := PidBound(pids - {p});
      assert pids == pids - {p} + {p};
      bound := if p < rest then rest else p + 1;
    }
  }

  /** An uninstall that finds the lock free gets as far as the revival. */
  lemma NextUninstallRevives(s: System, t: System, n: Name)
    requires Reaches(Calm, s, t) && NobodyHolds(t) && Revocable(t.disk, n)
    ensures Revivable(s)
  {
    var d, dir := t.disk.(lock := false), t.disk.journal.value.dir;
    var p := FreshPid(t.procs.Keys);
    Unlock(Calm, s, t);
    UninstallEnters(Calm, s, d, t.procs, p, dir);
    var d1, q := d.(lock := true), Start(Op.Uninstall(dir), p).(pc := Recovering(Recover));
    var q1 := q.(pc := Recovering(Restore));
    Advance(Calm, s, d1, t.procs, p, q, CALM, Effect(d1, q1));
    var ls :| Leads(Calm, s, ls, With(d1, t.procs, p, q1));
    CalmIsUndisturbed(s, ls);
    RestoreRevives(d1, t.procs, p, q1, n);
    assert EndsInRevival(s, ls, Run(p, CALM), n);
  }

  lemma RestoreRevives(d: Disk, others: map<nat, Proc>, p: nat, q: Proc, n: Name)
    requires Revocable(d, n) && q.pc == Recovering(Restore)
    ensures Revives(With(d, others, p, q), Run(p, CALM), n)
  {
  }

  /** The lock holder, if there is one, is killed. */
  lemma KillHolder(s: System, t: System, n: Name)
    requires Reaches(Calm, s, t) && Invariant(t) && Revocable(t.disk, n)
    ensures Revivable(s)
  {
    if NobodyHolds(t) {
      NextUninstallRevives(s, t, n);
    } else {
      var p :| p in t.procs && HoldsLock(t.procs[p]);
      ReachesNext(Calm, s, t, Kill(p));
      assert NobodyHolds(Next(t, Kill(p)));
      NextUninstallRevives(s, Next(t, Kill(p)), n);
    }
  }

  /** A recovery that had decided to delete goes on to do so. */
  lemma PrunerTouches(s: System, p: nat, n: Name)
    requires Invariant(s) && p in s.procs && s.procs[p].pc == Recovering(PruneRemoved)
    requires n in s.disk.removed && s.disk.removed[n].trees != map[] && s.disk.prefix && s.disk.versions.None?
    requires s.disk.journal.Some? && s.disk.journal.value.Uninstalling? && !s.disk.journal.value.committed
    requires !CommandAt(s.disk, s.disk.journal.value.dir).Absent?
    ensures exists c :: Revocable(Next(s, Run(p, c)).disk, n)
  {
    assert MovedTreeSafe(s.disk, n);
    var tree :| tree in s.disk.removed[n].trees;
    assert Revocable(Next(s, Run(p, Choice(NoFault, tree, ""))).disk, n);
  }

  lemma IntrusionRevives(s: System, l: Label)
    requires Invariant(s) && Intrusion(s, l) && s.disk.prefix
    ensures Revivable(Next(s, l))
  {
    var t := Next(s, l);
    NextKeeps(s, l);
    ReachesItself(Calm, t);
    var n :| n in s.disk.removed && Doomed(s, n);
    assert MovedTreeSafe(s.disk, n);
    if s.disk.removed[n].touched {
      KillHolder(t, t, n);
    } else {
      var p :| p in s.procs && s.procs[p].pc == Recovering(PruneRemoved);
      PrunerTouches(t, p, n);
      var c :| Revocable(Next(t, Run(p, c)).disk, n);
      NextKeeps(t, Run(p, c));
      ReachesNext(Calm, t, t, Run(p, c));
      KillHolder(t, Next(t, Run(p, c)), n);
    }
  }

  /** After a step, a tree whose deletion has begun can come back exactly when the step was another
      program's putting a command into the journaled directory while a tree was being deleted, the
      journal was still prepared and there was no `versions`. */
  lemma RevivalExactly(s: System, l: Label)
    requires Invariant(s) && DeletionFinal(s) && Enabled(s, l) && s.disk.prefix
    ensures Revivable(Next(s, l)) <==> Intrusion(s, l)
  {
    if Intrusion(s, l) {
      IntrusionRevives(s, l);
    } else {
      NextKeeps(s, l);
      DeletionStaysFinal(s, l);
      FinalIsNotRevivable(Next(s, l));
    }
  }
}
