/** What a reconciliation conserves, and reconciling in one stage or in two. */
module ReconcileTheorems {
  import opened Wrappers
  import opened OrderedDict
  import opened Corpus
  import opened Reconcile

  // ---- what the ledger holds ----

  /** Every kept case lies under its own key and is in the inventory with its source. */
  ghost predicate Sound(inventory: Dict<Key, Digest>, kept: Dict<Key, Kept>) {
    && Unique(kept)
    && forall i | 0 <= i < |kept| ::
         KeyOf(kept[i].1.result) == kept[i].0 && Find(inventory, kept[i].0) == Some(kept[i].1.result.source)
  }

  lemma {:induction false} PutSound(inventory: Dict<Key, Digest>, kept: Dict<Key, Kept>, k: Kept)
    requires Sound(inventory, kept) && Find(inventory, KeyOf(k.result)) == Some(k.result.source)
    ensures Sound(inventory, Put(kept, KeyOf(k.result), k))
  {
    PutUnique(kept, KeyOf(k.result), k);
    PutEntries(kept, KeyOf(k.result), k);
  }

  lemma {:induction false} PutEntries<K, V>(d: Dict<K, V>, key: K, value: V)
    ensures forall i | 0 <= i < |Put(d, key, value)| :: Put(d, key, value)[i] == (key, value) || Put(d, key, value)[i] in d
  {
    if d != [] && d[0].0 != key {
      PutEntries(d[1..], key, value);
    }
  }

  lemma {:induction false} RunKeeps(inventory: Dict<Key, Digest>, l: Ledger, r: Report, run: nat, seen: set<Key>, cases: seq<Case>)
    requires Sound(inventory, l.kept) && RunKept(inventory, l, r, run, seen, cases).Ok?
    ensures var after := RunKept(inventory, l, r, run, seen, cases).value;
      && Sound(inventory, after.kept)
      && |after.kept| + |after.replacements| == |l.kept| + |l.replacements| + |cases|
    decreases |cases|
  {
    if cases != [] {
      var c := cases[0];
      var k := Kept(c, ExecutableOf(r, c), r.digest, run);
      PutSound(inventory, l.kept, k);
      FindPut(l.kept, KeyOf(c), k, KeyOf(c));
      RunKeeps(inventory, CaseKept(l, r, run, c), r, run, seen + {KeyOf(c)}, cases[1..]);
    }
  }

  function TotalCases(reports: seq<Report>): nat {
    if reports == [] then 0 else |reports[0].cases| + TotalCases(reports[1..])
  }

  lemma {:induction false} RunsKeep(inventory: Dict<Key, Digest>, l: Ledger, run: nat, reports: seq<Report>)
    requires Sound(inventory, l.kept) && RunsKept(inventory, l, run, reports).Ok?
    ensures var after := RunsKept(inventory, l, run, reports).value;
      && Sound(inventory, after.kept)
      && |after.kept| + |after.replacements| == |l.kept| + |l.replacements| + TotalCases(reports)
    decreases |reports|
  {
    if reports != [] {
      RunKeeps(inventory, l, reports[0], run, {}, reports[0].cases);
      RunsKeep(inventory, RunKept(inventory, l, reports[0], run, {}, reports[0].cases).value, run + 1, reports[1..]);
    }
  }

  // ---- kept and missing keys ----

  lemma {:induction false} BaseUnique(inventory: Dict<Key, Digest>, listed: bool, seen: set<Key>, cases: seq<Case>)
    requires Unique(inventory) && BaseAdded(inventory, listed, seen, cases).Ok?
    ensures Unique(BaseAdded(inventory, listed, seen, cases).value)
    decreases |cases|
  {
    if cases != [] {
      PutUnique(inventory, KeyOf(cases[0]), cases[0].source);
      BaseUnique(Put(inventory, KeyOf(cases[0]), cases[0].source), listed, seen + {KeyOf(cases[0])}, cases[1..]);
    }
  }

  lemma InventoryUnique(base: Report, manifest: Option<Manifest>)
    requires Inventory(base, manifest).Ok?
    ensures Unique(Inventory(base, manifest).value)
  {
    var listed := if manifest.Some? then Listed([], manifest.value.papers, base.modes, PaperSource) else [];
    if manifest.Some? {
      ListedUnique<Digest>([], manifest.value.papers, base.modes, PaperSource);
    }
    BaseUnique(listed, manifest.Some?, {}, base.cases);
  }

  /** The cases of all runs are the kept ones and those replaced; every key of the inventory is kept or missing,
      not both; and every kept case passed or failed. */
  lemma Conserved(reports: seq<Report>, manifest: Option<Manifest>)
    requires reports != [] && Reconciled(reports, manifest).Ok?
    ensures var o := Reconciled(reports, manifest).value; var inventory := Inventory(reports[0], manifest).value;
      && TotalCases(reports) == |o.ledger.kept| + |o.ledger.replacements|
      && o.passed + o.failed == |o.ledger.kept|
      && Partitioned(inventory, o.ledger.kept, o.missing)
      && (o.complete <==> o.missing == [])
      && Sound(inventory, o.ledger.kept)
  {
    var o, inventory := Reconciled(reports, manifest).value, Inventory(reports[0], manifest).value;
    RunsKeep(inventory, Ledger([], []), 0, reports);
    InventoryUnique(reports[0], manifest);
    PassedAndFailed(o.ledger.kept);
    KeptOrMissing(inventory, o.ledger.kept);
  }

  // ---- the last run wins ----

  type Verdict = (bool, Digest)

  function VerdictOf(kept: Dict<Key, Kept>, key: Key): Option<Verdict> {
    match Find(kept, key)
    case None => None
    case Some(k) => Some((k.result.passed, k.executable))
  }

  /** The verdict of a run's own case. */
  function RunVerdict(r: Report, cases: seq<Case>, key: Key): Option<Verdict> {
    if cases == [] then None
    else if KeyOf(cases[0]) == key then Some((cases[0].passed, ExecutableOf(r, cases[0])))
    else RunVerdict(r, cases[1..], key)
  }

  /** The verdict of the last run that has the case. */
  function LastVerdict(reports: seq<Report>, key: Key): Option<Verdict> {
    if reports == [] then None
    else
      match LastVerdict(reports[1..], key)
      case Some(v) => Some(v)
      case None => RunVerdict(reports[0], reports[0].cases, key)
  }

  lemma {:induction false} RunWins(inventory: Dict<Key, Digest>, l: Ledger, r: Report, run: nat, seen: set<Key>, cases: seq<Case>, key: Key)
    requires RunKept(inventory, l, r, run, seen, cases).Ok?
    ensures key in seen ==> RunVerdict(r, cases, key).None?
    ensures VerdictOf(RunKept(inventory, l, r, run, seen, cases).value.kept, key)
         == if RunVerdict(r, cases, key).Some? then RunVerdict(r, cases, key) else VerdictOf(l.kept, key)
    decreases |cases|
  {
    if cases != [] {
      var c := cases[0];
      FindPut(l.kept, KeyOf(c), Kept(c, ExecutableOf(r, c), r.digest, run), key);
      RunWins(inventory, CaseKept(l, r, run, c), r, run, seen + {KeyOf(c)}, cases[1..], key);
    }
  }

  lemma {:induction false} RunsWin(inventory: Dict<Key, Digest>, l: Ledger, run: nat, reports: seq<Report>, key: Key)
    requires RunsKept(inventory, l, run, reports).Ok?
    ensures VerdictOf(RunsKept(inventory, l, run, reports).value.kept, key)
         == if LastVerdict(reports, key).Some? then LastVerdict(reports, key) else VerdictOf(l.kept, key)
    decreases |reports|
  {
    if reports != [] {
      RunWins(inventory, l, reports[0], run, {}, reports[0].cases, key);
      RunsWin(inventory, RunKept(inventory, l, reports[0], run, {}, reports[0].cases).value, run + 1, reports[1..], key);
    }
  }

  /** The verdict and the executable kept for a case are those of the last run that has it. */
  lemma LastRunWins(reports: seq<Report>, manifest: Option<Manifest>, key: Key)
    requires reports != [] && Reconciled(reports, manifest).Ok?
    ensures VerdictOf(Reconciled(reports, manifest).value.ledger.kept, key) == LastVerdict(reports, key)
  {
    RunsWin(Inventory(reports[0], manifest).value, Ledger([], []), 0, reports, key);
  }
}
