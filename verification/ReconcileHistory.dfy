/** What a reconciliation keeps and reports, told by when each case occurs: which occurrence is kept, what each
    replacement says, which keys are expected, and when it is refused. */
module ReconcileHistory {
  import opened Wrappers
  import opened OrderedDict
  import opened Corpus
  import opened Reconcile
  import opened ReconcileStages

  /** One case of one run: the run's number and digest, and the executable that it names or its run does. */
  datatype Occurrence = Occurrence(run: nat, digest: Digest, executable: Digest, result: Case)

  /** The cases of a run, with its number. */
  function RunOccurrences(r: Report, run: nat, cases: seq<Case>): (os: seq<Occurrence>)
    ensures |os| == |cases|
    ensures forall i | 0 <= i < |cases| ::
      os[i].run == run && os[i].digest == r.digest && os[i].result == cases[i]
      && (cases[i].binary.Some? ==> os[i].executable == cases[i].binary.value)
      && (cases[i].binary.None? && r.binary.Some? ==> os[i].executable == r.binary.value)
  {
    seq(|cases|, i requires 0 <= i < |cases| => Occurrence(run, r.digest, ExecutableOf(r, cases[i]), cases[i]))
  }

  /** All cases of all runs, in order. */
  function Occurrences(run: nat, reports: seq<Report>): seq<Occurrence>
    decreases |reports|
  {
    if reports == [] then [] else RunOccurrences(reports[0], run, reports[0].cases) + Occurrences(run + 1, reports[1..])
  }

  predicate OccursAt(os: seq<Occurrence>, i: int, id: string, ocr: string) {
    0 <= i < |os| && os[i].result.id == id && os[i].result.ocr == ocr
  }

  /** Where the key occurs last. */
  function LastOf(os: seq<Occurrence>, key: Key): (i: int)
    ensures -1 <= i < |os|
    ensures i >= 0 ==> OccursAt(os, i, key.0, key.1)
    ensures forall k | i < k < |os| :: !OccursAt(os, k, key.0, key.1)
  {
    if os == [] then -1
    else
      var last := |os| - 1;
      assert forall k | 0 <= k < last :: OccursAt(os[..last], k, key.0, key.1) == OccursAt(os, k, key.0, key.1);
      if os[last].result.id == key.0 && os[last].result.ocr == key.1 then last else LastOf(os[..last], key)
  }

  /** What one more occurrence adds to the replacements: what it replaces, if its case occurred before. */
  function Replaces(before: seq<Occurrence>, o: Occurrence): seq<Replacement> {
    var i := LastOf(before, (o.result.id, o.result.ocr));
    if i < 0 then []
    else [Replacement((o.result.id, o.result.ocr), before[i].result.passed, o.result.passed, before[i].executable, o.executable)]
  }

  /** Every occurrence but the first of its case is a replacement of the one before. */
  function AllReplaced(os: seq<Occurrence>): seq<Replacement> {
    if os == [] then [] else AllReplaced(os[..|os| - 1]) + Replaces(os[..|os| - 1], os[|os| - 1])
  }

  /** Of the case the last occurrence is kept, with its executable and the digest and number of its run. */
  predicate KeepsLast(kept: Dict<Key, Kept>, os: seq<Occurrence>, key: Key) {
    var i := LastOf(os, key);
    Find(kept, key) == if i < 0 then None else Some(Kept(os[i].result, os[i].executable, os[i].digest, os[i].run))
  }

  /** The ledger tells the history: of each case it keeps the last occurrence, and it lists the replacements. */
  ghost predicate Tells(l: Ledger, os: seq<Occurrence>) {
    (forall key :: KeepsLast(l.kept, os, key)) && l.replacements == AllReplaced(os)
  }

  lemma OneMore(l: Ledger, os: seq<Occurrence>, r: Report, run: nat, c: Case)
    requires Tells(l, os)
    ensures Tells(CaseKept(l, r, run, c), os + RunOccurrences(r, run, [c]))
  {
    var o := RunOccurrences(r, run, [c])[0];
    var more := os + RunOccurrences(r, run, [c]);
    assert more == os + [o] && more[..|os|] == os && more[|os|] == o;
    assert KeepsLast(l.kept, os, KeyOf(c));
    forall key
      ensures KeepsLast(CaseKept(l, r, run, c).kept, more, key)
    {
      assert KeepsLast(l.kept, os, key);
      FindPut(l.kept, KeyOf(c), Kept(c, ExecutableOf(r, c), r.digest, run), key);
    }
  }

  lemma FirstOccurs(os: seq<Occurrence>, r: Report, run: nat, cases: seq<Case>)
    requires cases != []
    ensures os + RunOccurrences(r, run, [cases[0]]) + RunOccurrences(r, run, cases[1..]) == os + RunOccurrences(r, run, cases)
  {
  }

  lemma {:induction false} RunTells(inventory: Dict<Key, Digest>, l: Ledger, os: seq<Occurrence>, r: Report, run: nat, seen: set<Key>, cases: seq<Case>)
    requires Tells(l, os) && RunKept(inventory, l, r, run, seen, cases).Ok?
    ensures Tells(RunKept(inventory, l, r, run, seen, cases).value, os + RunOccurrences(r, run, cases))
    decreases |cases|
  {
    if cases == [] {
      NoneAdded(os, RunOccurrences(r, run, cases));
    } else {
      var c := cases[0];
      OneMore(l, os, r, run, c);
      RunTells(inventory, CaseKept(l, r, run, c), os + RunOccurrences(r, run, [c]), r, run, seen + {KeyOf(c)}, cases[1..]);
      FirstOccurs(os, r, run, cases);
    }
  }

  lemma NoneAdded(os: seq<Occurrence>, none: seq<Occurrence>)
    requires none == []
    ensures os + none == os
  {
  }

  lemma RunOccurs(os: seq<Occurrence>, run: nat, reports: seq<Report>)
    requires reports != []
    ensures os + RunOccurrences(reports[0], run, reports[0].cases) + Occurrences(run + 1, reports[1..]) == os + Occurrences(run, reports)
  {
  }

  lemma {:induction false} RunsTell(inventory: Dict<Key, Digest>, l: Ledger, os: seq<Occurrence>, run: nat, reports: seq<Report>)
    requires Tells(l, os) && RunsKept(inventory, l, run, reports).Ok?
    ensures Tells(RunsKept(inventory, l, run, reports).value, os + Occurrences(run, reports))
    decreases |reports|
  {
    if reports == [] {
      NoneAdded(os, Occurrences(run, reports));
    } else {
      var r := reports[0];
      RunTells(inventory, l, os, r, run, {}, r.cases);
      RunsTell(inventory, RunKept(inventory, l, r, run, {}, r.cases).value, os + RunOccurrences(r, run, r.cases), run + 1, reports[1..]);
      RunOccurs(os, run, reports);
    }
  }

  /** What is kept for a case is its last occurrence, with its executable and the digest and number of its run; and
      every other occurrence is listed as replaced by the next, with both verdicts and both executables. */
  lemma HistoryTold(reports: seq<Report>, manifest: Option<Manifest>)
    requires reports != [] && Reconciled(reports, manifest).Ok?
    ensures Tells(Reconciled(reports, manifest).value.ledger, Occurrences(0, reports))
  {
    assert Tells(Ledger([], []), []);
    RunsTell(Inventory(reports[0], manifest).value, Ledger([], []), [], 0, reports);
    assert [] + Occurrences(0, reports) == Occurrences(0, reports);
  }

  // ---- when a reconciliation is accepted ----

  /** The run names an executable for every case, its own one if it names one. */
  predicate NamesExecutables(r: Report) {
    && (r.binary.Some? || r.derived) && (r.binary.Some? || r.cases != [])
    && forall i | 0 <= i < |r.cases| ::
         (r.cases[i].binary.Some? || r.binary.Some?)
         && (r.cases[i].binary.Some? && r.binary.Some? ==> r.cases[i].binary == r.binary)
  }

  predicate DistinctCases(cases: seq<Case>) {
    forall i, j | 0 <= i < j < |cases| :: (cases[i].id, cases[i].ocr) != (cases[j].id, cases[j].ocr)
  }

  /** The manifest's last paper of that name has the source, and the base was to read it in that mode. */
  predicate InManifest(papers: seq<Paper>, modes: seq<string>, c: Case) {
    c.ocr in modes && exists i | 0 <= i < |papers| ::
      papers[i].id == c.id && papers[i].source == c.source && forall j | i < j < |papers| :: papers[j].id != c.id
  }

  predicate InBase(cases: seq<Case>, c: Case) {
    exists i | 0 <= i < |cases| :: cases[i].id == c.id && cases[i].ocr == c.ocr && cases[i].source == c.source
  }

  predicate IsExpected(reports: seq<Report>, manifest: Option<Manifest>, c: Case)
    requires reports != []
  {
    if manifest.Some? then InManifest(manifest.value.papers, reports[0].modes, c) else InBase(reports[0].cases, c)
  }

  /** Every run names its executables, has each case once, and only cases that are expected, with their source; and
      either all runs are complete or the manifest is the base's. */
  predicate AcceptedWhen(reports: seq<Report>, manifest: Option<Manifest>)
    requires reports != []
  {
    && (if manifest.Some? then manifest.value.digest == reports[0].manifest
        else forall i | 0 <= i < |reports| :: reports[i].complete)
    && (forall i | 0 <= i < |reports| :: NamesExecutables(reports[i]))
    && (forall i | 0 <= i < |reports| :: DistinctCases(reports[i].cases))
    && (forall i, k | 0 <= i < |reports| && 0 <= k < |reports[i].cases| :: IsExpected(reports, manifest, reports[i].cases[k]))
  }

  lemma NamesExactly(r: Report)
    ensures Identified(r) <==> NamesExecutables(r)
  {
    if NamesExecutables(r) {
      forall i | 0 <= i < |r.cases|
        ensures CaseIdentified(r.binary, r.cases[i])
      {
        assert r.cases[i].binary.Some? || r.binary.Some?;
      }
    }
    if Identified(r) {
      forall i | 0 <= i < |r.cases|
        ensures r.cases[i].binary.Some? || r.binary.Some?
        ensures r.cases[i].binary.Some? && r.binary.Some? ==> r.cases[i].binary == r.binary
      {
        assert CaseIdentified(r.binary, r.cases[i]);
      }
    }
  }

  lemma ManifestFinds(papers: seq<Paper>, modes: seq<string>, c: Case)
    ensures Find(Listed([], papers, modes, PaperSource), KeyOf(c)) == Some(c.source) <==> InManifest(papers, modes, c)
  {
    ListedExactly<Digest>([], papers, modes, PaperSource, KeyOf(c));
  }

  lemma {:induction false} BaseSource(cases: seq<Case>, c: Case)
    requires DistinctCases(cases)
    ensures SourceOf(cases, KeyOf(c)) == Some(c.source) <==> InBase(cases, c)
    decreases |cases|
  {
    if cases != [] {
      var rest := cases[1..];
      assert forall i | 0 < i < |cases| :: cases[i] == rest[i - 1];
      assert forall i | 0 <= i < |rest| :: rest[i] == cases[i + 1];
      BaseSource(rest, c);
    }
  }

  lemma InventoryFinds(reports: seq<Report>, manifest: Option<Manifest>, c: Case)
    requires reports != [] && Inventory(reports[0], manifest).Ok? && DistinctCases(reports[0].cases)
    ensures Find(Inventory(reports[0], manifest).value, KeyOf(c)) == Some(c.source) <==> IsExpected(reports, manifest, c)
  {
    var base := reports[0];
    var listed := if manifest.Some? then Listed([], manifest.value.papers, base.modes, PaperSource) else [];
    BaseFinds(listed, manifest.Some?, {}, base.cases, KeyOf(c));
    if manifest.Some? {
      ManifestFinds(manifest.value.papers, base.modes, c);
    } else {
      BaseSource(base.cases, c);
    }
  }

  lemma BaseExactly(reports: seq<Report>, manifest: Option<Manifest>)
    requires reports != []
    ensures Inventory(reports[0], manifest).Ok?
       <==> DistinctCases(reports[0].cases)
            && (manifest.Some? ==> forall k | 0 <= k < |reports[0].cases| :: IsExpected(reports, manifest, reports[0].cases[k]))
  {
    var base := reports[0];
    var listed := if manifest.Some? then Listed([], manifest.value.papers, base.modes, PaperSource) else [];
    BaseAccepted(listed, manifest.Some?, {}, base.cases);
    if manifest.Some? {
      forall k | 0 <= k < |base.cases|
        ensures Find(listed, KeyOf(base.cases[k])) == Some(base.cases[k].source) <==> IsExpected(reports, manifest, base.cases[k])
      {
        ManifestFinds(manifest.value.papers, base.modes, base.cases[k]);
      }
    }
  }

  lemma RunExactly(reports: seq<Report>, manifest: Option<Manifest>, cases: seq<Case>)
    requires reports != [] && Inventory(reports[0], manifest).Ok? && DistinctCases(reports[0].cases)
    ensures RunFits(Inventory(reports[0], manifest).value, {}, cases)
       <==> DistinctCases(cases) && forall k | 0 <= k < |cases| :: IsExpected(reports, manifest, cases[k])
  {
    forall k | 0 <= k < |cases|
      ensures Find(Inventory(reports[0], manifest).value, KeyOf(cases[k])) == Some(cases[k].source)
         <==> IsExpected(reports, manifest, cases[k])
    {
      InventoryFinds(reports, manifest, cases[k]);
    }
  }

  /** A reconciliation is refused exactly when one of these fails. */
  lemma AcceptedExactly(reports: seq<Report>, manifest: Option<Manifest>)
    requires reports != []
    ensures Reconciled(reports, manifest).Ok? <==> AcceptedWhen(reports, manifest)
  {
    Accepted(reports, manifest);
    BaseExactly(reports, manifest);
    forall i | 0 <= i < |reports|
      ensures Identified(reports[i]) <==> NamesExecutables(reports[i])
    {
      NamesExactly(reports[i]);
    }
    if Inventory(reports[0], manifest).Ok? {
      forall i | 0 <= i < |reports|
        ensures RunFits(Inventory(reports[0], manifest).value, {}, reports[i].cases)
           <==> DistinctCases(reports[i].cases)
                && forall k | 0 <= k < |reports[i].cases| :: IsExpected(reports, manifest, reports[i].cases[k])
      {
        RunExactly(reports, manifest, reports[i].cases);
      }
    }
  }

  /** The result names an executable exactly when all runs and cases name the same one. */
  lemma SharedExecutable(reports: seq<Report>, manifest: Option<Manifest>, x: Digest)
    requires reports != [] && Reconciled(reports, manifest).Ok?
    ensures Reconciled(reports, manifest).value.binary == Some(x)
       <==> forall i | 0 <= i < |reports| ::
              (reports[i].binary.Some? ==> reports[i].binary == Some(x))
              && forall k | 0 <= k < |reports[i].cases| :: reports[i].cases[k].binary.Some? ==> reports[i].cases[k].binary == Some(x)
  {
    AcceptedExactly(reports, manifest);
    ExecutablesNamed(reports, x);
    OnlyIs(AllExecutables(reports), x);
    assert Reconciled(reports, manifest).value.binary == TheOnly(AllExecutables(reports));
  }

  lemma OnlyIs(s: set<Digest>, x: Digest)
    requires s != {}
    ensures TheOnly(s) == Some(x) <==> s <= {x}
  {
    if s <= {x} {
      assert s == {x} && |{x}| == 1;
    }
  }

  lemma NamedBy(r: Report, x: Digest)
    requires NamesExecutables(r)
    ensures Executables(r) != {}
    ensures Executables(r) == {x}
       <==> (r.binary.Some? ==> r.binary == Some(x))
            && forall k | 0 <= k < |r.cases| :: r.cases[k].binary.Some? ==> r.cases[k].binary == Some(x)
  {
    if r.binary.None? {
      assert r.cases[0] in r.cases && ExecutableOf(r, r.cases[0]) in Executables(r);
    }
    forall k | 0 <= k < |r.cases|
      ensures r.cases[k] in r.cases && ExecutableOf(r, r.cases[k]) in Executables(r)
    {
    }
  }

  lemma {:induction false} ExecutablesNamed(reports: seq<Report>, x: Digest)
    requires forall i | 0 <= i < |reports| :: NamesExecutables(reports[i])
    ensures AllExecutables(reports) <= {x}
       <==> forall i | 0 <= i < |reports| ::
              (reports[i].binary.Some? ==> reports[i].binary == Some(x))
              && forall k | 0 <= k < |reports[i].cases| :: reports[i].cases[k].binary.Some? ==> reports[i].cases[k].binary == Some(x)
    ensures reports != [] ==> AllExecutables(reports) != {}
    decreases |reports|
  {
    if reports != [] {
      var rest := reports[1..];
      assert forall i | 0 < i < |reports| :: reports[i] == rest[i - 1];
      assert forall i | 0 <= i < |rest| :: rest[i] == reports[i + 1];
      NamedBy(reports[0], x);
      ExecutablesNamed(rest, x);
    }
  }
}
