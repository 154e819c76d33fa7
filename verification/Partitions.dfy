/** Combining runs over disjoint parts of one inventory. */
module Partitions {
  import opened Wrappers
  import opened OrderedDict
  import opened Corpus

  /** What all partitions must have in common. */
  datatype Options = Options(binary: Option<Digest>, modes: seq<string>, watchdog: Option<int>, configurations: seq<Digest>)

  datatype Partition = Partition(digest: Digest, options: Options, complete: bool, cases: seq<Case>)

  datatype Outcome = Outcome(complete: bool, missing: seq<Key>, cases: Dict<Key, Kept>, passed: nat, failed: nat)

  function PaperItself(p: Paper): Paper {
    p
  }

  /** Every paper expected in the modes that the partitions have in common. */
  function Inventory(ps: seq<Partition>, papers: seq<Paper>): Dict<Key, Paper>
    requires ps != []
  {
    Listed([], papers, ps[0].options.modes, PaperItself)
  }

  /** The case is in the inventory with its source, and with its page count where that is known. */
  predicate Expected(inventory: Dict<Key, Paper>, c: Case) {
    var paper := Find(inventory, KeyOf(c));
    paper.Some? && paper.value.source == c.source && (paper.value.pages.Some? ==> c.pages == paper.value.pages)
  }

  function CasesAdded(inventory: Dict<Key, Paper>, done: Dict<Key, Kept>, p: Partition, run: nat, cases: seq<Case>): Result<Dict<Key, Kept>>
    decreases |cases|
  {
    if cases == [] then Ok(done)
    else if Find(done, KeyOf(cases[0])).Some? || !Expected(inventory, cases[0]) || p.options.binary.None? then Err
    else
      var kept := Kept(cases[0], p.options.binary.value, p.digest, run);
      CasesAdded(inventory, Put(done, KeyOf(cases[0]), kept), p, run, cases[1..])
  }

  function PartitionsAdded(inventory: Dict<Key, Paper>, done: Dict<Key, Kept>, run: nat, ps: seq<Partition>): Result<Dict<Key, Kept>>
    decreases |ps|
  {
    if ps == [] then Ok(done)
    else
      match CasesAdded(inventory, done, ps[0], run, ps[0].cases)
      case Err => Err
      case Ok(next) => PartitionsAdded(inventory, next, run + 1, ps[1..])
  }

  /** One executable, at least one mode, and the same options everywhere. */
  predicate Uniform(ps: seq<Partition>) {
    && ps != [] && ps[0].options.binary.Some? && ps[0].options.modes != []
    && forall i | 0 <= i < |ps| :: ps[i].options == ps[0].options
  }

  function OutcomeOf(inventory: Dict<Key, Paper>, ps: seq<Partition>, cases: Dict<Key, Kept>): Outcome {
    var missing, passed := Missing(inventory, cases), Passed(cases);
    Outcome(missing == [] && forall i | 0 <= i < |ps| :: ps[i].complete, missing, cases, passed, Failed(cases))
  }

  function Combine(ps: seq<Partition>, papers: seq<Paper>): Result<Outcome> {
    if !Uniform(ps) then Err
    else
      var inventory := Inventory(ps, papers);
      if |inventory| != |papers| * |ps[0].options.modes| then Err
      else
        match PartitionsAdded(inventory, [], 0, ps)
        case Err => Err
        case Ok(cases) => Ok(OutcomeOf(inventory, ps, cases))
  }

  // ---- the loops ----

  method AddPartition(inventory: Dict<Key, Paper>, before: Dict<Key, Kept>, p: Partition, run: nat)
      returns (r: Result<Dict<Key, Kept>>)
    ensures r == CasesAdded(inventory, before, p, run, p.cases)
  {
    var done := before;
    for i := 0 to |p.cases|
      invariant CasesAdded(inventory, before, p, run, p.cases) == CasesAdded(inventory, done, p, run, p.cases[i..])
    {
      var c := p.cases[i];
      assert p.cases[i..][1..] == p.cases[i + 1..];
      if Find(done, KeyOf(c)).Some? || !Expected(inventory, c) || p.options.binary.None? {
        return Err;
      }
      done := Put(done, KeyOf(c), Kept(c, p.options.binary.value, p.digest, run));
    }
    return Ok(done);
  }

  method CombinePartitions(ps: seq<Partition>, papers: seq<Paper>) returns (r: Result<Outcome>)
    ensures r == Combine(ps, papers)
  {
    if !Uniform(ps) {
      return Err;
    }
    var inventory := Inventory(ps, papers);
    if |inventory| != |papers| * |ps[0].options.modes| {
      return Err;
    }
    var cases := [];
    for index := 0 to |ps|
      invariant PartitionsAdded(inventory, [], 0, ps) == PartitionsAdded(inventory, cases, index, ps[index..])
    {
      assert ps[index..][1..] == ps[index + 1..];
      var next := AddPartition(inventory, cases, ps[index], index);
      if next.Err? {
        return Err;
      }
      cases := next.value;
    }
    return Ok(OutcomeOf(inventory, ps, cases));
  }

  // ---- the cases of all partitions, in any order ----

  /** A case and what it is combined with, apart from the position of its partition. */
  type Tagged = (Case, Digest, Digest)

  function TagsOf(p: Partition): (tags: seq<Tagged>)
    requires p.options.binary.Some?
    ensures |tags| == |p.cases|
  {
    seq(|p.cases|, i requires 0 <= i < |p.cases| => (p.cases[i], p.options.binary.value, p.digest))
  }

  function AllTags(ps: seq<Partition>): seq<Tagged>
    requires forall i | 0 <= i < |ps| :: ps[i].options.binary.Some?
  {
    if ps == [] then [] else TagsOf(ps[0]) + AllTags(ps[1..])
  }

  function Untagged(d: Dict<Key, Kept>): (tags: seq<Tagged>)
    ensures |tags| == |d| && forall i | 0 <= i < |d| :: tags[i] == (d[i].1.result, d[i].1.executable, d[i].1.evidence)
  {
    seq(|d|, i requires 0 <= i < |d| => (d[i].1.result, d[i].1.executable, d[i].1.evidence))
  }

  ghost predicate OwnKeys(d: Dict<Key, Kept>) {
    forall i | 0 <= i < |d| :: d[i].0 == KeyOf(d[i].1.result)
  }

  ghost predicate HasKey(tags: seq<Tagged>, key: Key) {
    exists i | 0 <= i < |tags| :: KeyOf(tags[i].0) == key
  }

  /** Every case is expected, and no two have the same key. */
  ghost predicate Disjoint(inventory: Dict<Key, Paper>, tags: seq<Tagged>) {
    && (forall i | 0 <= i < |tags| :: Expected(inventory, tags[i].0))
    && forall i, j | 0 <= i < j < |tags| :: KeyOf(tags[i].0) != KeyOf(tags[j].0)
  }

  lemma DisjointFirst(inventory: Dict<Key, Paper>, done: seq<Tagged>, t: Tagged, rest: seq<Tagged>)
    requires Disjoint(inventory, done)
    ensures Disjoint(inventory, done + ([t] + rest)) ==> !HasKey(done, KeyOf(t.0)) && Expected(inventory, t.0)
    ensures !HasKey(done, KeyOf(t.0)) && Expected(inventory, t.0) ==> Disjoint(inventory, done + [t])
    ensures done + ([t] + rest) == done + [t] + rest
  {
    var all := done + ([t] + rest);
    assert all[|done|] == t;
    assert forall i | 0 <= i < |done| :: all[i] == done[i];
  }

  lemma KeyFound(d: Dict<Key, Kept>, key: Key)
    requires OwnKeys(d)
    ensures Find(d, key).Some? <==> HasKey(Untagged(d), key)
  {
    FindSome(d, key);
  }

  lemma {:induction false} CasesCombine(inventory: Dict<Key, Paper>, done: Dict<Key, Kept>, p: Partition, run: nat, cases: seq<Case>, tags: seq<Tagged>)
    requires OwnKeys(done) && Disjoint(inventory, Untagged(done)) && p.options.binary.Some? && |tags| == |cases|
    requires forall i | 0 <= i < |cases| :: tags[i] == (cases[i], p.options.binary.value, p.digest)
    ensures var r := CasesAdded(inventory, done, p, run, cases);
      && (r.Ok? <==> Disjoint(inventory, Untagged(done) + tags))
      && (r.Ok? ==> OwnKeys(r.value) && Untagged(r.value) == Untagged(done) + tags)
    decreases |cases|
  {
    if cases == [] {
      assert Untagged(done) + tags == Untagged(done);
    } else {
      var c, kept := cases[0], Kept(cases[0], p.options.binary.value, p.digest, run);
      assert tags == [tags[0]] + tags[1..];
      KeyFound(done, KeyOf(c));
      DisjointFirst(inventory, Untagged(done), tags[0], tags[1..]);
      if Find(done, KeyOf(c)).None? && Expected(inventory, c) {
        PutNew(done, KeyOf(c), kept);
        assert Untagged(done + [(KeyOf(c), kept)]) == Untagged(done) + [tags[0]];
        CasesCombine(inventory, done + [(KeyOf(c), kept)], p, run, cases[1..], tags[1..]);
      }
    }
  }

  ghost predicate AllNamed(ps: seq<Partition>) {
    forall i | 0 <= i < |ps| :: ps[i].options.binary.Some?
  }

  lemma NamedRest(ps: seq<Partition>)
    requires AllNamed(ps) && ps != []
    ensures AllNamed(ps[1..])
  {
    assert forall i | 0 <= i < |ps[1..]| :: ps[1..][i] == ps[i + 1];
  }

  /** Combining succeeds exactly when all cases together are expected and disjoint, and then lists them all. */
  lemma {:induction false} PartitionsCombine(inventory: Dict<Key, Paper>, done: Dict<Key, Kept>, run: nat, ps: seq<Partition>)
    requires OwnKeys(done) && Disjoint(inventory, Untagged(done)) && AllNamed(ps)
    ensures var r := PartitionsAdded(inventory, done, run, ps);
      && (r.Ok? <==> Disjoint(inventory, Untagged(done) + AllTags(ps)))
      && (r.Ok? ==> OwnKeys(r.value) && Untagged(r.value) == Untagged(done) + AllTags(ps))
    decreases |ps|
  {
    if ps == [] {
      assert Untagged(done) + AllTags(ps) == Untagged(done);
    } else {
      NamedRest(ps);
      var first, rest := TagsOf(ps[0]), AllTags(ps[1..]);
      assert Untagged(done) + AllTags(ps) == Untagged(done) + first + rest;
      CasesCombine(inventory, done, ps[0], run, ps[0].cases, first);
      DisjointPrefix(inventory, Untagged(done) + first, rest);
      match CasesAdded(inventory, done, ps[0], run, ps[0].cases) {
        case Err =>
        case Ok(next) => PartitionsCombine(inventory, next, run + 1, ps[1..]);
      }
    }
  }

  lemma DisjointPrefix(inventory: Dict<Key, Paper>, a: seq<Tagged>, b: seq<Tagged>)
    ensures Disjoint(inventory, a + b) ==> Disjoint(inventory, a)
  {
    assert forall i | 0 <= i < |a| :: (a + b)[i] == a[i];
  }

  // ---- permutations ----

  lemma {:induction false} TagsJoin(a: seq<Partition>, b: seq<Partition>)
    requires AllNamed(a) && AllNamed(b)
    ensures AllNamed(a + b) && AllTags(a + b) == AllTags(a) + AllTags(b)
  {
    if a == [] {
      assert a + b == b;
    } else {
      NamedRest(a);
      assert (a + b)[1..] == a[1..] + b;
      TagsJoin(a[1..], b);
    }
  }

  lemma {:induction false} TagsPermuted(ps: seq<Partition>, qs: seq<Partition>)
    requires AllNamed(ps) && multiset(ps) == multiset(qs)
    ensures AllNamed(qs) && multiset(AllTags(ps)) == multiset(AllTags(qs))
    decreases |ps|
  {
    if ps == [] {
      assert |multiset(qs)| == 0;
      assert qs == [];
    } else {
      NamedPermuted(ps, qs);
      NamedRest(ps);
      var j := FoundFirst(ps, qs);
      var x, y := qs[..j], qs[j + 1..];
      var one: seq<Partition> := [qs[j]];
      TagsPermuted(ps[1..], x + y);
      assert one[1..] == [];
      assert AllTags(one) == TagsOf(qs[j]);
      TagsJoin(x, y);
      TagsJoin(x, one);
      TagsJoin(x + one, y);
    }
  }

  lemma NamedPermuted(ps: seq<Partition>, qs: seq<Partition>)
    requires AllNamed(ps) && multiset(ps) == multiset(qs)
    ensures AllNamed(qs)
  {
    forall i | 0 <= i < |qs|
      ensures qs[i].options.binary.Some?
    {
      assert qs[i] in multiset(ps);
      assert qs[i] in ps;
    }
  }

  lemma DisjointPermuted(inventory: Dict<Key, Paper>, a: seq<Tagged>, b: seq<Tagged>)
    requires Disjoint(inventory, a) && multiset(a) == multiset(b)
    ensures Disjoint(inventory, b)
  {
    forall i | 0 <= i < |b|
      ensures Expected(inventory, b[i].0)
    {
      assert b[i] in multiset(a);
      assert b[i] in a;
    }
    forall i, j | 0 <= i < j < |b|
      ensures KeyOf(b[i].0) != KeyOf(b[j].0)
    {
      assert b[i] in multiset(a) && b[j] in multiset(a);
      assert b[i] in a && b[j] in a;
      var k :| 0 <= k < |a| && a[k] == b[i];
      var l :| 0 <= l < |a| && a[l] == b[j];
      if k == l {
        Twice(b, i, j);
        Once(a, k);
      }
    }
  }

  lemma Twice<T>(s: seq<T>, i: nat, j: nat)
    requires i < j < |s| && s[i] == s[j]
    ensures multiset(s)[s[i]] >= 2
  {
    assert s == s[..j] + s[j..];
    assert s[i] in s[..j] && s[j] in s[j..];
  }

  lemma Once<T>(s: seq<T>, k: nat)
    requires k < |s| && forall i | 0 <= i < |s| && i != k :: s[i] != s[k]
    ensures multiset(s)[s[k]] == 1
  {
    assert s == s[..k] + [s[k]] + s[k + 1..];
    assert s[k] !in s[..k] && s[k] !in s[k + 1..];
  }

  function TagsPassed(tags: seq<Tagged>): nat {
    if tags == [] then 0 else (if tags[0].0.passed then 1 else 0) + TagsPassed(tags[1..])
  }

  lemma {:induction false} TagsPassedJoin(a: seq<Tagged>, b: seq<Tagged>)
    ensures TagsPassed(a + b) == TagsPassed(a) + TagsPassed(b)
  {
    if a == [] {
      assert a + b == b;
    } else {
      assert (a + b)[1..] == a[1..] + b;
      TagsPassedJoin(a[1..], b);
    }
  }

  lemma {:induction false} TagsPassedPermuted(a: seq<Tagged>, b: seq<Tagged>)
    requires multiset(a) == multiset(b)
    ensures |a| == |b| && TagsPassed(a) == TagsPassed(b)
    decreases |a|
  {
    assert |multiset(a)| == |a| && |multiset(b)| == |b|;
    if a != [] {
      var j := FoundFirst(a, b);
      TagsPassedPermuted(a[1..], b[..j] + b[j + 1..]);
      TagsPassedJoin(b[..j], b[j + 1..]);
      TagsPassedJoin(b[..j] + [b[j]], b[j + 1..]);
      TagsPassedJoin(b[..j], [b[j]]);
      assert TagsPassed([b[j]]) == (if b[j].0.passed then 1 else 0) + TagsPassed([b[j]][1..]);
    }
  }

  lemma {:induction false} CountsOfTags(d: Dict<Key, Kept>)
    ensures Passed(d) == TagsPassed(Untagged(d))
  {
    if d != [] {
      CountsOfTags(d[1..]);
      assert Untagged(d)[1..] == Untagged(d[1..]);
    }
  }

  lemma KeyPermuted(a: seq<Tagged>, b: seq<Tagged>, key: Key)
    requires multiset(a) == multiset(b) && HasKey(a, key)
    ensures HasKey(b, key)
  {
    var i :| 0 <= i < |a| && KeyOf(a[i].0) == key;
    assert a[i] in multiset(b);
    assert a[i] in b;
  }

  lemma {:induction false} MissingPermuted(inventory: Dict<Key, Paper>, a: Dict<Key, Kept>, b: Dict<Key, Kept>)
    requires OwnKeys(a) && OwnKeys(b) && multiset(Untagged(a)) == multiset(Untagged(b))
    ensures Missing(inventory, a) == Missing(inventory, b)
  {
    if inventory != [] {
      var key := inventory[0].0;
      KeyFound(a, key);
      KeyFound(b, key);
      if HasKey(Untagged(a), key) {
        KeyPermuted(Untagged(a), Untagged(b), key);
      } else if HasKey(Untagged(b), key) {
        KeyPermuted(Untagged(b), Untagged(a), key);
      }
      MissingPermuted(inventory[1..], a, b);
    }
  }

  lemma UniformPermuted(ps: seq<Partition>, qs: seq<Partition>)
    requires multiset(ps) == multiset(qs) && Uniform(ps)
    ensures Uniform(qs) && qs[0].options == ps[0].options
    ensures (forall i | 0 <= i < |ps| :: ps[i].complete) ==> forall i | 0 <= i < |qs| :: qs[i].complete
  {
    assert |multiset(ps)| == |multiset(qs)|;
    forall i | 0 <= i < |qs|
      ensures qs[i] in ps
    {
      assert qs[i] in multiset(ps);
    }
  }

  /** Same cases with the same executables and evidence, same counts, same missing cases. */
  ghost predicate SameOutcome(a: Outcome, b: Outcome) {
    && multiset(Untagged(a.cases)) == multiset(Untagged(b.cases))
    && a.missing == b.missing && a.complete == b.complete && a.passed == b.passed && a.failed == b.failed
  }

  lemma CombinedTags(ps: seq<Partition>, papers: seq<Paper>)
    requires Uniform(ps) && |Inventory(ps, papers)| == |papers| * |ps[0].options.modes|
    ensures AllNamed(ps)
    ensures Combine(ps, papers).Ok? <==> Disjoint(Inventory(ps, papers), AllTags(ps))
    ensures Combine(ps, papers).Ok? ==>
      OwnKeys(Combine(ps, papers).value.cases) && Untagged(Combine(ps, papers).value.cases) == AllTags(ps)
  {
    assert AllNamed(ps);
    PartitionsCombine(Inventory(ps, papers), [], 0, ps);
    assert Untagged([]) + AllTags(ps) == AllTags(ps);
  }

  /** The order in which the partitions are given does not matter. */
  lemma OrderDoesNotMatter(ps: seq<Partition>, qs: seq<Partition>, papers: seq<Paper>)
    requires multiset(ps) == multiset(qs) && Combine(ps, papers).Ok?
    ensures Combine(qs, papers).Ok? && SameOutcome(Combine(ps, papers).value, Combine(qs, papers).value)
  {
    var inventory := Inventory(ps, papers);
    UniformPermuted(ps, qs);
    UniformPermuted(qs, ps);
    CombinedTags(ps, papers);
    CombinedTags(qs, papers);
    TagsPermuted(ps, qs);
    DisjointPermuted(inventory, AllTags(ps), AllTags(qs));
    var a, b := Combine(ps, papers).value.cases, Combine(qs, papers).value.cases;
    MissingPermuted(inventory, a, b);
    TagsPassedPermuted(Untagged(a), Untagged(b));
    CountsOfTags(a);
    CountsOfTags(b);
    PassedAndFailed(a);
    PassedAndFailed(b);
  }

  lemma {:induction false} PutAllUnique(inventory: Dict<Key, Paper>, done: Dict<Key, Kept>, p: Partition, run: nat, cases: seq<Case>)
    requires Unique(done) && CasesAdded(inventory, done, p, run, cases).Ok?
    ensures Unique(CasesAdded(inventory, done, p, run, cases).value)
    decreases |cases|
  {
    if cases != [] {
      var kept := Kept(cases[0], p.options.binary.value, p.digest, run);
      PutUnique(done, KeyOf(cases[0]), kept);
      PutAllUnique(inventory, Put(done, KeyOf(cases[0]), kept), p, run, cases[1..]);
    }
  }

  lemma {:induction false} CombinedUnique(inventory: Dict<Key, Paper>, done: Dict<Key, Kept>, run: nat, ps: seq<Partition>)
    requires Unique(done) && PartitionsAdded(inventory, done, run, ps).Ok?
    ensures Unique(PartitionsAdded(inventory, done, run, ps).value)
    decreases |ps|
  {
    if ps != [] {
      PutAllUnique(inventory, done, ps[0], run, ps[0].cases);
      CombinedUnique(inventory, CasesAdded(inventory, done, ps[0], run, ps[0].cases).value, run + 1, ps[1..]);
    }
  }

  /** Combining keeps every case of every partition, and each passed or failed; every case expected is combined or
      missing, not both. */
  lemma CombineConserves(ps: seq<Partition>, papers: seq<Paper>)
    requires Combine(ps, papers).Ok?
    ensures AllNamed(ps) && Untagged(Combine(ps, papers).value.cases) == AllTags(ps)
    ensures var o := Combine(ps, papers).value;
      o.passed + o.failed == |o.cases| && Partitioned(Inventory(ps, papers), o.cases, o.missing)
  {
    var cases, inventory := Combine(ps, papers).value.cases, Inventory(ps, papers);
    CombinedTags(ps, papers);
    PassedAndFailed(cases);
    ListedUnique<Paper>([], papers, ps[0].options.modes, PaperItself);
    CombinedUnique(inventory, [], 0, ps);
    forall i | 0 <= i < |cases|
      ensures Find(inventory, cases[i].0).Some?
    {
      assert Expected(inventory, Untagged(cases)[i].0);
    }
    KeptOrMissing(inventory, cases);
  }
}
