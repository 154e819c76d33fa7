/** Reconciling runs of a corpus against its inventory, later runs over earlier ones. */
module Reconcile {
  import opened Wrappers
  import opened OrderedDict
  import opened Corpus

  /** A run's report; `derived` says that it lists constituent runs, `digest` is that of its file. */
  datatype Report = Report(
    digest: Digest, binary: Option<Digest>, derived: bool, manifest: Digest, modes: seq<string>, complete: bool, cases: seq<Case>)

  datatype Manifest = Manifest(digest: Digest, papers: seq<Paper>)

  datatype Replacement =
    Replacement(key: Key, previousPassed: bool, replayPassed: bool, previousBinary: Digest, replayBinary: Digest)

  datatype Ledger = Ledger(kept: Dict<Key, Kept>, replacements: seq<Replacement>)

  // ---- executables ----

  predicate CaseIdentified(shared: Option<Digest>, c: Case) {
    var identity := if c.binary.Some? then c.binary else shared;
    identity.Some? && (shared.Some? ==> identity == shared)
  }

  /** Every case names its executable, the report's own one if it names one. */
  predicate Identified(r: Report) {
    && (r.binary.Some? || r.derived)
    && (forall i | 0 <= i < |r.cases| :: CaseIdentified(r.binary, r.cases[i]))
    && (r.binary.Some? || r.cases != [])
  }

  function ExecutableOf(r: Report, c: Case): Digest {
    if c.binary.Some? then c.binary.value else if r.binary.Some? then r.binary.value else ""
  }

  function Executables(r: Report): set<Digest> {
    (if r.binary.Some? then {r.binary.value} else {}) + set c | c in r.cases :: ExecutableOf(r, c)
  }

  function AllExecutables(reports: seq<Report>): set<Digest> {
    if reports == [] then {} else Executables(reports[0]) + AllExecutables(reports[1..])
  }

  // ---- the inventory ----

  function PaperSource(p: Paper): Digest {
    p.source
  }

  /** The base's cases, each once, added to the inventory; with a manifest they must already be in it. */
  function BaseAdded(inventory: Dict<Key, Digest>, listed: bool, seen: set<Key>, cases: seq<Case>): Result<Dict<Key, Digest>>
    decreases |cases|
  {
    if cases == [] then Ok(inventory)
    else
      var key, source := KeyOf(cases[0]), cases[0].source;
      if key in seen || (listed && Find(inventory, key) != Some(source)) then Err
      else BaseAdded(Put(inventory, key, source), listed, seen + {key}, cases[1..])
  }

  // ---- the cases ----

  function CaseKept(l: Ledger, r: Report, run: nat, c: Case): Ledger {
    var key, executable := KeyOf(c), ExecutableOf(r, c);
    var previous := Find(l.kept, key);
    Ledger(
      Put(l.kept, key, Kept(c, executable, r.digest, run)),
      if previous.Some?
      then l.replacements + [Replacement(key, previous.value.result.passed, c.passed, previous.value.executable, executable)]
      else l.replacements)
  }

  function RunKept(inventory: Dict<Key, Digest>, l: Ledger, r: Report, run: nat, seen: set<Key>, cases: seq<Case>): Result<Ledger>
    decreases |cases|
  {
    if cases == [] then Ok(l)
    else if KeyOf(cases[0]) in seen || Find(inventory, KeyOf(cases[0])) != Some(cases[0].source) then Err
    else RunKept(inventory, CaseKept(l, r, run, cases[0]), r, run, seen + {KeyOf(cases[0])}, cases[1..])
  }

  function RunsKept(inventory: Dict<Key, Digest>, l: Ledger, run: nat, reports: seq<Report>): Result<Ledger>
    decreases |reports|
  {
    if reports == [] then Ok(l)
    else
      match RunKept(inventory, l, reports[0], run, {}, reports[0].cases)
      case Err => Err
      case Ok(next) => RunsKept(inventory, next, run + 1, reports[1..])
  }

  // ---- the whole reconciliation ----

  predicate AllComplete(reports: seq<Report>) {
    forall i | 0 <= i < |reports| :: reports[i].complete
  }

  predicate AllIdentified(reports: seq<Report>) {
    forall i | 0 <= i < |reports| :: Identified(reports[i])
  }

  /** Partial runs need the manifest, and the manifest must be the base's. */
  predicate Authorized(reports: seq<Report>, manifest: Option<Manifest>)
    requires reports != []
  {
    if manifest.None? then AllComplete(reports) else manifest.value.digest == reports[0].manifest
  }

  function Inventory(base: Report, manifest: Option<Manifest>): Result<Dict<Key, Digest>> {
    BaseAdded(if manifest.Some? then Listed([], manifest.value.papers, base.modes, PaperSource) else [], manifest.Some?, {}, base.cases)
  }

  /** What a reconciliation reports, apart from what it copies from the base. */
  datatype Outcome = Outcome(
    binary: Option<Digest>, complete: bool, missing: seq<Key>, ledger: Ledger, passed: nat, failed: nat)

  ghost predicate Only(s: set<Digest>, x: Option<Digest>) {
    if |s| == 1 then x.Some? && s == {x.value} else x.None?
  }

  function TheOnly(s: set<Digest>): (x: Option<Digest>)
    ensures Only(s, x)
  {
    if |s| == 1 then OnlyElement(s); var x :| x in s; Some(x) else None
  }

  lemma OnlyElement(s: set<Digest>)
    requires |s| == 1
    ensures forall x, y | x in s && y in s :: x == y
    ensures forall x | x in s :: s == {x}
  {
    forall x | x in s
      ensures s == {x}
    {
      var rest := s - {x};
      assert |rest| == 0;
      assert s == rest + {x};
    }
  }

  function OutcomeOf(reports: seq<Report>, inventory: Dict<Key, Digest>, l: Ledger): Outcome {
    Outcome(TheOnly(AllExecutables(reports)), |l.kept| == |inventory|, Missing(inventory, l.kept), l, Passed(l.kept), Failed(l.kept))
  }

  function Reconciled(reports: seq<Report>, manifest: Option<Manifest>): Result<Outcome>
    requires reports != []
  {
    if !AllIdentified(reports) || !Authorized(reports, manifest) then Err
    else
      match Inventory(reports[0], manifest)
      case Err => Err
      case Ok(inventory) =>
        match RunsKept(inventory, Ledger([], []), 0, reports)
        case Err => Err
        case Ok(l) => Ok(OutcomeOf(reports, inventory, l))
  }

  // ---- the loops ----

  method AddBase(listed: Dict<Key, Digest>, base: Report, withManifest: bool) returns (r: Result<Dict<Key, Digest>>)
    ensures r == BaseAdded(listed, withManifest, {}, base.cases)
  {
    var inventory, seen: set<Key> := listed, {};
    for i := 0 to |base.cases|
      invariant BaseAdded(listed, withManifest, {}, base.cases) == BaseAdded(inventory, withManifest, seen, base.cases[i..])
    {
      var c := base.cases[i];
      assert base.cases[i..][1..] == base.cases[i + 1..];
      if KeyOf(c) in seen || (withManifest && Find(inventory, KeyOf(c)) != Some(c.source)) {
        return Err;
      }
      seen := seen + {KeyOf(c)};
      inventory := Put(inventory, KeyOf(c), c.source);
    }
    return Ok(inventory);
  }

  method KeepRun(inventory: Dict<Key, Digest>, before: Ledger, r: Report, run: nat) returns (result: Result<Ledger>)
    ensures result == RunKept(inventory, before, r, run, {}, r.cases)
  {
    var cases, replacements, seen: set<Key> := before.kept, before.replacements, {};
    for i := 0 to |r.cases|
      invariant RunKept(inventory, before, r, run, {}, r.cases)
             == RunKept(inventory, Ledger(cases, replacements), r, run, seen, r.cases[i..])
    {
      var c := r.cases[i];
      assert r.cases[i..][1..] == r.cases[i + 1..];
      var key, executable := KeyOf(c), ExecutableOf(r, c);
      if key in seen || Find(inventory, key) != Some(c.source) {
        return Err;
      }
      seen := seen + {key};
      var previous := Find(cases, key);
      if previous.Some? {
        replacements := replacements
          + [Replacement(key, previous.value.result.passed, c.passed, previous.value.executable, executable)];
      }
      cases := Put(cases, key, Kept(c, executable, r.digest, run));
    }
    return Ok(Ledger(cases, replacements));
  }

  method Reconcile(base: Report, replays: seq<Report>, manifest: Option<Manifest>) returns (r: Result<Outcome>)
    ensures r == Reconciled([base] + replays, manifest)
  {
    var reports := [base] + replays;
    if !AllIdentified(reports) || !Authorized(reports, manifest) {
      return Err;
    }
    var inventory := AddBase(if manifest.Some? then Listed([], manifest.value.papers, base.modes, PaperSource) else [], base, manifest.Some?);
    if inventory.Err? {
      return Err;
    }
    var ledger := Ledger([], []);
    for index := 0 to |reports|
      invariant RunsKept(inventory.value, Ledger([], []), 0, reports) == RunsKept(inventory.value, ledger, index, reports[index..])
    {
      assert reports[index..][1..] == reports[index + 1..];
      var next := KeepRun(inventory.value, ledger, reports[index], index);
      if next.Err? {
        return Err;
      }
      ledger := next.value;
    }
    return Ok(OutcomeOf(reports, inventory.value, ledger));
  }
}
