/** Reconciling in one stage or in two. */
module ReconcileStages {
  import opened Wrappers
  import opened OrderedDict
  import opened Corpus
  import opened Reconcile
  import opened ReconcileTheorems

  // ---- when the cases are accepted ----

  /** No key twice, none already seen, and each in the inventory with its source. */
  ghost predicate RunFits(inventory: Dict<Key, Digest>, seen: set<Key>, cases: seq<Case>) {
    && (forall i | 0 <= i < |cases| :: KeyOf(cases[i]) !in seen && Find(inventory, KeyOf(cases[i])) == Some(cases[i].source))
    && forall i, j | 0 <= i < j < |cases| :: KeyOf(cases[i]) != KeyOf(cases[j])
  }

  lemma RunFitsFirst(inventory: Dict<Key, Digest>, seen: set<Key>, cases: seq<Case>)
    requires cases != []
    ensures RunFits(inventory, seen, cases)
       <==> KeyOf(cases[0]) !in seen && Find(inventory, KeyOf(cases[0])) == Some(cases[0].source)
            && RunFits(inventory, seen + {KeyOf(cases[0])}, cases[1..])
  {
    assert forall i | 0 < i < |cases| :: cases[i] == cases[1..][i - 1];
  }

  lemma {:induction false} RunAccepted(inventory: Dict<Key, Digest>, l: Ledger, r: Report, run: nat, seen: set<Key>, cases: seq<Case>)
    ensures RunKept(inventory, l, r, run, seen, cases).Ok? <==> RunFits(inventory, seen, cases)
    decreases |cases|
  {
    if cases != [] {
      RunFitsFirst(inventory, seen, cases);
      RunAccepted(inventory, CaseKept(l, r, run, cases[0]), r, run, seen + {KeyOf(cases[0])}, cases[1..]);
    }
  }

  ghost predicate RunsFit(inventory: Dict<Key, Digest>, reports: seq<Report>) {
    forall i | 0 <= i < |reports| :: RunFits(inventory, {}, reports[i].cases)
  }

  lemma {:induction false} RunsAccepted(inventory: Dict<Key, Digest>, l: Ledger, run: nat, reports: seq<Report>)
    ensures RunsKept(inventory, l, run, reports).Ok? <==> RunsFit(inventory, reports)
    decreases |reports|
  {
    if reports != [] {
      RunAccepted(inventory, l, reports[0], run, {}, reports[0].cases);
      assert forall i | 0 < i < |reports| :: reports[i] == reports[1..][i - 1];
      assert RunsFit(inventory, reports) <==> RunFits(inventory, {}, reports[0].cases) && RunsFit(inventory, reports[1..]);
      match RunKept(inventory, l, reports[0], run, {}, reports[0].cases) {
        case Err =>
        case Ok(next) => RunsAccepted(inventory, next, run + 1, reports[1..]);
      }
    }
  }

  // ---- the inventory of a base ----

  function SourceOf(cases: seq<Case>, key: Key): Option<Digest> {
    if cases == [] then None else if KeyOf(cases[0]) == key then Some(cases[0].source) else SourceOf(cases[1..], key)
  }

  ghost predicate BaseFits(inventory: Dict<Key, Digest>, listed: bool, seen: set<Key>, cases: seq<Case>) {
    && (forall i | 0 <= i < |cases| ::
          KeyOf(cases[i]) !in seen && (listed ==> Find(inventory, KeyOf(cases[i])) == Some(cases[i].source)))
    && forall i, j | 0 <= i < j < |cases| :: KeyOf(cases[i]) != KeyOf(cases[j])
  }

  lemma BaseFitsFirst(inventory: Dict<Key, Digest>, listed: bool, seen: set<Key>, cases: seq<Case>)
    requires cases != []
    ensures var c := cases[0];
      BaseFits(inventory, listed, seen, cases)
      <==> KeyOf(c) !in seen && (listed ==> Find(inventory, KeyOf(c)) == Some(c.source))
           && BaseFits(Put(inventory, KeyOf(c), c.source), listed, seen + {KeyOf(c)}, cases[1..])
  {
    assert forall i | 0 < i < |cases| :: cases[i] == cases[1..][i - 1];
    forall i | 0 < i < |cases|
      ensures Find(Put(inventory, KeyOf(cases[0]), cases[0].source), KeyOf(cases[i]))
           == if KeyOf(cases[i]) == KeyOf(cases[0]) then Some(cases[0].source) else Find(inventory, KeyOf(cases[i]))
    {
      FindPut(inventory, KeyOf(cases[0]), cases[0].source, KeyOf(cases[i]));
    }
  }

  lemma {:induction false} BaseAccepted(inventory: Dict<Key, Digest>, listed: bool, seen: set<Key>, cases: seq<Case>)
    ensures BaseAdded(inventory, listed, seen, cases).Ok? <==> BaseFits(inventory, listed, seen, cases)
    decreases |cases|
  {
    if cases != [] {
      BaseFitsFirst(inventory, listed, seen, cases);
      BaseAccepted(Put(inventory, KeyOf(cases[0]), cases[0].source), listed, seen + {KeyOf(cases[0])}, cases[1..]);
    }
  }

  lemma {:induction false} BaseFinds(inventory: Dict<Key, Digest>, listed: bool, seen: set<Key>, cases: seq<Case>, key: Key)
    requires BaseAdded(inventory, listed, seen, cases).Ok?
    ensures key in seen ==> SourceOf(cases, key).None?
    ensures Find(BaseAdded(inventory, listed, seen, cases).value, key)
         == if SourceOf(cases, key).Some? then SourceOf(cases, key) else Find(inventory, key)
    ensures listed ==> Find(BaseAdded(inventory, listed, seen, cases).value, key) == Find(inventory, key)
    decreases |cases|
  {
    if cases != [] {
      FindPut(inventory, KeyOf(cases[0]), cases[0].source, key);
      BaseFinds(Put(inventory, KeyOf(cases[0]), cases[0].source), listed, seen + {KeyOf(cases[0])}, cases[1..], key);
    }
  }

  // ---- a reconciliation as the base of another ----

  function CasesOf(kept: Dict<Key, Kept>): (cases: seq<Case>)
    ensures |cases| == |kept|
    ensures forall i | 0 <= i < |kept| :: cases[i] == kept[i].1.result.(binary := Some(kept[i].1.executable))
  {
    seq(|kept|, i requires 0 <= i < |kept| => kept[i].1.result.(binary := Some(kept[i].1.executable)))
  }

  /** The report a reconciliation writes; `digest` is that of its file. */
  function AsReport(o: Outcome, base: Report, digest: Digest): Report {
    Report(digest, o.binary, true, base.manifest, base.modes, o.complete, CasesOf(o.ledger.kept))
  }

  lemma {:induction false} LastJoin(a: seq<Report>, b: seq<Report>, key: Key)
    ensures LastVerdict(a + b, key) == if LastVerdict(b, key).Some? then LastVerdict(b, key) else LastVerdict(a, key)
  {
    if a == [] {
      assert a + b == b;
    } else {
      assert (a + b)[1..] == a[1..] + b;
      LastJoin(a[1..], b, key);
    }
  }

  lemma {:induction false} ReportVerdict(r: Report, kept: Dict<Key, Kept>, key: Key)
    requires forall i | 0 <= i < |kept| :: KeyOf(kept[i].1.result) == kept[i].0
    ensures RunVerdict(r, CasesOf(kept), key) == VerdictOf(kept, key)
  {
    if kept != [] {
      assert CasesOf(kept)[1..] == CasesOf(kept[1..]);
      ReportVerdict(r, kept[1..], key);
    }
  }

  lemma {:induction false} ReportSource(kept: Dict<Key, Kept>, key: Key)
    requires forall i | 0 <= i < |kept| :: KeyOf(kept[i].1.result) == kept[i].0
    ensures SourceOf(CasesOf(kept), key)
         == match Find(kept, key) { case None => None case Some(k) => Some(k.result.source) }
  {
    if kept != [] {
      assert CasesOf(kept)[1..] == CasesOf(kept[1..]);
      ReportSource(kept[1..], key);
    }
  }

  // ---- executables ----

  ghost predicate KeptFrom(kept: Dict<Key, Kept>, s: set<Digest>) {
    forall i | 0 <= i < |kept| :: kept[i].1.executable in s
  }

  lemma {:induction false} RunFrom(inventory: Dict<Key, Digest>, l: Ledger, r: Report, run: nat, seen: set<Key>, cases: seq<Case>, s: set<Digest>)
    requires KeptFrom(l.kept, s) && RunKept(inventory, l, r, run, seen, cases).Ok?
    requires forall c | c in cases :: ExecutableOf(r, c) in s
    ensures KeptFrom(RunKept(inventory, l, r, run, seen, cases).value.kept, s)
    decreases |cases|
  {
    if cases != [] {
      PutEntries(l.kept, KeyOf(cases[0]), Kept(cases[0], ExecutableOf(r, cases[0]), r.digest, run));
      assert cases[0] in cases;
      RunFrom(inventory, CaseKept(l, r, run, cases[0]), r, run, seen + {KeyOf(cases[0])}, cases[1..], s);
    }
  }

  lemma {:induction false} RunsFrom(inventory: Dict<Key, Digest>, l: Ledger, run: nat, reports: seq<Report>, s: set<Digest>)
    requires KeptFrom(l.kept, s) && AllExecutables(reports) <= s && RunsKept(inventory, l, run, reports).Ok?
    ensures KeptFrom(RunsKept(inventory, l, run, reports).value.kept, s)
    decreases |reports|
  {
    if reports != [] {
      RunFrom(inventory, l, reports[0], run, {}, reports[0].cases, s);
      RunsFrom(inventory, RunKept(inventory, l, reports[0], run, {}, reports[0].cases).value, run + 1, reports[1..], s);
    }
  }

  /** A reconciliation's report names its executables unless it has no case and none common to all runs. */
  lemma ReportIdentified(reports: seq<Report>, manifest: Option<Manifest>, digest: Digest)
    requires reports != [] && Reconciled(reports, manifest).Ok?
    ensures var o := Reconciled(reports, manifest).value;
      Identified(AsReport(o, reports[0], digest)) <==> o.binary.Some? || o.ledger.kept != []
  {
    var o := Reconciled(reports, manifest).value;
    var r := AsReport(o, reports[0], digest);
    RunsFrom(Inventory(reports[0], manifest).value, Ledger([], []), 0, reports, AllExecutables(reports));
    forall i | 0 <= i < |r.cases|
      ensures CaseIdentified(r.binary, r.cases[i])
    {
      assert o.ledger.kept[i].1.executable in AllExecutables(reports);
    }
  }

  // ---- the second stage ----

  ghost predicate SameFinds(a: Dict<Key, Digest>, b: Dict<Key, Digest>) {
    forall key :: Find(a, key) == Find(b, key)
  }

  lemma {:induction false} SourceAndVerdict(r: Report, cases: seq<Case>, key: Key)
    ensures SourceOf(cases, key).Some? <==> RunVerdict(r, cases, key).Some?
  {
    if cases != [] {
      SourceAndVerdict(r, cases[1..], key);
    }
  }

  /** Whatever the base has is kept. */
  lemma BaseIsKept(reports: seq<Report>, manifest: Option<Manifest>, key: Key)
    requires reports != [] && Reconciled(reports, manifest).Ok?
    ensures SourceOf(reports[0].cases, key).Some? ==> Find(Reconciled(reports, manifest).value.ledger.kept, key).Some?
  {
    LastRunWins(reports, manifest, key);
    SourceAndVerdict(reports[0], reports[0].cases, key);
  }

  lemma ReportFits(inventory: Dict<Key, Digest>, kept: Dict<Key, Kept>)
    requires Sound(inventory, kept)
    ensures RunFits(inventory, {}, CasesOf(kept))
    ensures forall listed :: BaseFits(inventory, listed, {}, CasesOf(kept))
  {
  }

  lemma SameBaseFits(a: Dict<Key, Digest>, b: Dict<Key, Digest>, listed: bool, cases: seq<Case>)
    requires SameFinds(a, b) && BaseFits(a, listed, {}, cases)
    ensures BaseFits(b, listed, {}, cases)
  {
  }

  /** The report of the first stage gives the second stage the same inventory. */
  lemma SecondInventory(reports: seq<Report>, manifest: Option<Manifest>, digest: Digest)
    requires reports != [] && Reconciled(reports, manifest).Ok?
    ensures var a := AsReport(Reconciled(reports, manifest).value, reports[0], digest);
      Inventory(a, manifest).Ok? && SameFinds(Inventory(reports[0], manifest).value, Inventory(a, manifest).value)
  {
    var o, base := Reconciled(reports, manifest).value, reports[0];
    var inventory, kept := Inventory(base, manifest).value, o.ledger.kept;
    var listed := if manifest.Some? then Listed([], manifest.value.papers, base.modes, PaperSource) else [];
    Conserved(reports, manifest);
    ReportFits(inventory, kept);
    if manifest.Some? {
      forall key
        ensures Find(inventory, key) == Find(listed, key)
      {
        BaseFinds(listed, true, {}, base.cases, key);
      }
      SameBaseFits(inventory, listed, true, CasesOf(kept));
    }
    BaseAccepted(listed, manifest.Some?, {}, CasesOf(kept));
    forall key
      ensures Find(inventory, key) == Find(BaseAdded(listed, manifest.Some?, {}, CasesOf(kept)).value, key)
    {
      BaseFinds(listed, manifest.Some?, {}, base.cases, key);
      BaseFinds(listed, manifest.Some?, {}, CasesOf(kept), key);
      ReportSource(kept, key);
      BaseIsKept(reports, manifest, key);
      if Find(kept, key).Some? {
        KeptSource(inventory, kept, key);
      }
    }
  }

  lemma KeptSource(inventory: Dict<Key, Digest>, kept: Dict<Key, Kept>, key: Key)
    requires Sound(inventory, kept) && Find(kept, key).Some?
    ensures Find(inventory, key) == Some(Find(kept, key).value.result.source)
  {
    FindSome(kept, key);
    var i :| 0 <= i < |kept| && kept[i].0 == key;
    FindAt(kept, i);
  }

  /** Without a manifest nothing is missing. */
  lemma CompleteWithout(reports: seq<Report>)
    requires reports != [] && Reconciled(reports, None).Ok?
    ensures Reconciled(reports, None).value.complete
  {
    var o := Reconciled(reports, None).value;
    Conserved(reports, None);
    if o.missing != [] {
      var key := o.missing[0];
      BaseFinds([], false, {}, reports[0].cases, key);
      BaseIsKept(reports, None, key);
      assert false;
    }
  }

  lemma RunsFitSame(a: Dict<Key, Digest>, b: Dict<Key, Digest>, reports: seq<Report>)
    requires SameFinds(a, b)
    ensures RunsFit(a, reports) <==> RunsFit(b, reports)
  {
    forall i | 0 <= i < |reports|
      ensures RunFits(a, {}, reports[i].cases) <==> RunFits(b, {}, reports[i].cases)
    {
    }
  }

  lemma RunsFitJoin(inventory: Dict<Key, Digest>, a: seq<Report>, b: seq<Report>)
    ensures RunsFit(inventory, a + b) <==> RunsFit(inventory, a) && RunsFit(inventory, b)
    ensures AllIdentified(a + b) <==> AllIdentified(a) && AllIdentified(b)
    ensures AllComplete(a + b) <==> AllComplete(a) && AllComplete(b)
  {
    assert forall i | 0 <= i < |a| :: (a + b)[i] == a[i];
    assert forall i | 0 <= i < |b| :: (a + b)[|a| + i] == b[i];
  }

  lemma Accepted(reports: seq<Report>, manifest: Option<Manifest>)
    requires reports != []
    ensures Reconciled(reports, manifest).Ok?
       <==> AllIdentified(reports) && Authorized(reports, manifest) && Inventory(reports[0], manifest).Ok?
            && RunsFit(Inventory(reports[0], manifest).value, reports)
  {
    if Inventory(reports[0], manifest).Ok? {
      RunsAccepted(Inventory(reports[0], manifest).value, Ledger([], []), 0, reports);
    }
  }

  /** The second stage accepts what one stage would accept, provided the first report names its executables. */
  lemma StagesAccept(reports: seq<Report>, second: seq<Report>, manifest: Option<Manifest>, digest: Digest)
    requires reports != [] && Reconciled(reports, manifest).Ok?
    ensures var a := AsReport(Reconciled(reports, manifest).value, reports[0], digest);
      Reconciled([a] + second, manifest).Ok? <==> Reconciled(reports + second, manifest).Ok? && Identified(a)
  {
    var o := Reconciled(reports, manifest).value;
    var a, inventory := AsReport(o, reports[0], digest), Inventory(reports[0], manifest).value;
    var again: seq<Report> := [a];
    SecondInventory(reports, manifest, digest);
    Conserved(reports, manifest);
    ReportFits(inventory, o.ledger.kept);
    if manifest.None? {
      CompleteWithout(reports);
    }
    Accepted(reports, manifest);
    Accepted(reports + second, manifest);
    Accepted(again + second, manifest);
    RunsFitJoin(inventory, reports, second);
    RunsFitJoin(inventory, again, second);
    RunsFitSame(inventory, Inventory(a, manifest).value, again + second);
  }

  /** What one stage accepts, the first of two accepts. */
  lemma FirstStageAccepts(reports: seq<Report>, second: seq<Report>, manifest: Option<Manifest>)
    requires reports != [] && Reconciled(reports + second, manifest).Ok?
    ensures Reconciled(reports, manifest).Ok?
  {
    Accepted(reports, manifest);
    Accepted(reports + second, manifest);
    RunsFitJoin(Inventory(reports[0], manifest).value, reports, second);
  }

  // ---- equal verdicts ----

  ghost predicate SameVerdicts(a: Dict<Key, Kept>, b: Dict<Key, Kept>) {
    forall key :: VerdictOf(a, key) == VerdictOf(b, key)
  }

  function PassedKeys(kept: Dict<Key, Kept>): set<Key> {
    set key | key in Keys(kept) && VerdictOf(kept, key).Some? && VerdictOf(kept, key).value.0
  }

  lemma PassedFirst(kept: Dict<Key, Kept>)
    requires Unique(kept) && kept != []
    ensures PassedKeys(kept) == (if kept[0].1.result.passed then {kept[0].0} else {}) + PassedKeys(kept[1..])
    ensures kept[0].0 !in PassedKeys(kept[1..])
  {
    var key, rest := kept[0].0, kept[1..];
    assert forall i | 0 <= i < |rest| :: rest[i] == kept[i + 1];
    FindSome(rest, key);
    KeysFound(rest, key);
    forall other
      ensures other in PassedKeys(kept) <==> (other == key && kept[0].1.result.passed) || other in PassedKeys(rest)
    {
      KeysFound(rest, other);
    }
  }

  lemma {:induction false} PassedCounted(kept: Dict<Key, Kept>)
    requires Unique(kept)
    ensures Passed(kept) == |PassedKeys(kept)|
  {
    if kept != [] {
      assert forall i | 0 <= i < |kept[1..]| :: kept[1..][i] == kept[i + 1];
      PassedFirst(kept);
      PassedCounted(kept[1..]);
    }
  }

  lemma SameCounts(a: Dict<Key, Kept>, b: Dict<Key, Kept>)
    requires Unique(a) && Unique(b) && SameVerdicts(a, b)
    ensures |a| == |b| && Passed(a) == Passed(b) && Failed(a) == Failed(b)
  {
    forall key
      ensures key in Keys(a) <==> key in Keys(b)
    {
      KeysFound(a, key);
      KeysFound(b, key);
      assert VerdictOf(a, key) == VerdictOf(b, key);
    }
    assert Keys(a) == Keys(b);
    KeysCounted(a);
    KeysCounted(b);
    assert PassedKeys(a) == PassedKeys(b);
    PassedCounted(a);
    PassedCounted(b);
    PassedAndFailed(a);
    PassedAndFailed(b);
  }

  lemma StagesAgreeOn(reports: seq<Report>, second: seq<Report>, manifest: Option<Manifest>, digest: Digest, key: Key)
    requires reports != [] && Reconciled(reports, manifest).Ok? && Reconciled(reports + second, manifest).Ok?
    requires Reconciled([AsReport(Reconciled(reports, manifest).value, reports[0], digest)] + second, manifest).Ok?
    ensures var a := AsReport(Reconciled(reports, manifest).value, reports[0], digest);
      VerdictOf(Reconciled(reports + second, manifest).value.ledger.kept, key)
      == VerdictOf(Reconciled([a] + second, manifest).value.ledger.kept, key)
  {
    var o := Reconciled(reports, manifest).value;
    var a := AsReport(o, reports[0], digest);
    var again: seq<Report> := [a];
    Conserved(reports, manifest);
    LastRunWins(reports, manifest, key);
    LastRunWins(reports + second, manifest, key);
    LastRunWins(again + second, manifest, key);
    LastJoin(reports, second, key);
    LastJoin(again, second, key);
    ReportVerdict(a, o.ledger.kept, key);
    assert again[1..] == [];
    assert LastVerdict(again[1..], key) == None;
  }

  /** Where both are accepted, reconciling in two stages and in one give every case the same verdict and
      executable, and report the same cases missing and the same counts. */
  lemma StagesAgree(reports: seq<Report>, second: seq<Report>, manifest: Option<Manifest>, digest: Digest)
    requires reports != [] && Reconciled(reports, manifest).Ok? && Reconciled(reports + second, manifest).Ok?
    requires Reconciled([AsReport(Reconciled(reports, manifest).value, reports[0], digest)] + second, manifest).Ok?
    ensures var a := AsReport(Reconciled(reports, manifest).value, reports[0], digest);
      var one, two := Reconciled(reports + second, manifest).value, Reconciled([a] + second, manifest).value;
      && SameVerdicts(one.ledger.kept, two.ledger.kept)
      && one.passed == two.passed && one.failed == two.failed && one.complete == two.complete
      && forall key :: key in one.missing <==> key in two.missing
  {
    var a := AsReport(Reconciled(reports, manifest).value, reports[0], digest);
    var again: seq<Report> := [a];
    var one, two := Reconciled(reports + second, manifest).value, Reconciled(again + second, manifest).value;
    SecondInventory(reports, manifest, digest);
    Conserved(reports + second, manifest);
    Conserved(again + second, manifest);
    forall key
      ensures VerdictOf(one.ledger.kept, key) == VerdictOf(two.ledger.kept, key)
      ensures key in one.missing <==> key in two.missing
    {
      StagesAgreeOn(reports, second, manifest, digest, key);
    }
    SameCounts(one.ledger.kept, two.ledger.kept);
    SameMissing(one.missing, two.missing);
  }

  lemma SameMissing(a: seq<Key>, b: seq<Key>)
    requires forall key :: key in a <==> key in b
    ensures a == [] <==> b == []
  {
    assert a != [] ==> a[0] in b;
    assert b != [] ==> b[0] in a;
  }

  const ONE_RUN: Report := Report("r1", Some("a"), false, "m", ["off"], true, [])
  const OTHER_RUN: Report := Report("r2", Some("b"), false, "m", ["off"], true, [])

  lemma TwoExecutables()
    ensures TotalCases([ONE_RUN, OTHER_RUN]) == 0
    ensures "a" != "b" && AllExecutables([ONE_RUN, OTHER_RUN]) == {"a", "b"}
  {
    var reports: seq<Report>, tail: seq<Report> := [ONE_RUN, OTHER_RUN], [OTHER_RUN];
    assert reports[1..] == tail && tail[1..] == [] && reports[0] == ONE_RUN;
    assert TotalCases(tail) == 0;
    assert Executables(ONE_RUN) == {"a"} && Executables(OTHER_RUN) == {"b"};
    assert AllExecutables(tail) == Executables(OTHER_RUN) + AllExecutables(tail[1..]) == {"b"};
    assert AllExecutables(reports) == Executables(ONE_RUN) + AllExecutables(tail);
    assert "a"[0] != "b"[0];
  }

  /** Without any case, runs of two executables leave a report that a second stage refuses. */
  lemma StagesCanDiffer(digest: Digest)
    ensures Reconciled([ONE_RUN, OTHER_RUN] + [ONE_RUN], None).Ok? && Reconciled([ONE_RUN, OTHER_RUN], None).Ok?
    ensures var a := AsReport(Reconciled([ONE_RUN, OTHER_RUN], None).value, ONE_RUN, digest);
      Reconciled([a] + [ONE_RUN], None).Err?
  {
    var reports: seq<Report> := [ONE_RUN, OTHER_RUN];
    assert BaseAdded([], false, {}, []) == Ok([]);
    Accepted(reports, None);
    Accepted(reports + [ONE_RUN], None);
    Conserved(reports, None);
    TwoExecutables();
    var o := Reconciled(reports, None).value;
    assert o.binary.None?;
    ReportIdentified(reports, None, digest);
    StagesAccept(reports, [ONE_RUN], None, digest);
  }
}
