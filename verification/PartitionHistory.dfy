/** When partitions are combined, and what the result then tells of each of their cases. */
module PartitionHistory {
  import opened OrderedDict
  import opened Corpus
  import opened Partitions

  // ---- the size of the inventory ----

  function IdsOf(papers: seq<Paper>): (ids: seq<string>)
    ensures |ids| == |papers| && forall i | 0 <= i < |papers| :: ids[i] == papers[i].id
  {
    seq(|papers|, i requires 0 <= i < |papers| => papers[i].id)
  }

  function Elements<T>(s: seq<T>): set<T> {
    if s == [] then {} else {s[0]} + Elements(s[1..])
  }

  lemma {:induction false} ElementsOf<T>(s: seq<T>)
    ensures forall x :: x in Elements(s) <==> x in s
    ensures |Elements(s)| <= |s| && (|Elements(s)| == |s| <==> NoRepeat(s))
  {
    if s != [] {
      var x, rest := s[0], s[1..];
      ElementsOf(rest);
      assert s == [x] + rest;
      assert forall i | 0 < i < |s| :: s[i] == rest[i - 1];
      assert forall i | 0 <= i < |rest| :: rest[i] == s[i + 1];
      if x in rest {
        assert Elements(s) == Elements(rest);
        var j :| 0 <= j < |rest| && rest[j] == x;
        assert s[0] == s[j + 1];
      }
    }
  }

  function Pairs(ids: set<string>, modes: set<string>): set<Key> {
    set id, mode | id in ids && mode in modes :: (id, mode)
  }

  lemma {:induction false} OneColumn(id: string, modes: set<string>)
    ensures |Pairs({id}, modes)| == |modes|
    decreases |modes|
  {
    if modes == {} {
      assert Pairs({id}, modes) == {};
    } else {
      var mode :| mode in modes;
      OneColumn(id, modes - {mode});
      assert Pairs({id}, modes) == Pairs({id}, modes - {mode}) + {(id, mode)};
    }
  }

  lemma {:induction false} PairsCounted(ids: set<string>, modes: set<string>)
    ensures |Pairs(ids, modes)| == |ids| * |modes|
    decreases |ids|
  {
    if ids == {} {
      assert Pairs(ids, modes) == {};
    } else {
      var id :| id in ids;
      var rest := ids - {id};
      PairsCounted(rest, modes);
      OneColumn(id, modes);
      assert Pairs(ids, modes) == Pairs(rest, modes) + Pairs({id}, modes);
      assert Pairs(rest, modes) !! Pairs({id}, modes);
      Distributes(|rest|, |modes|);
    }
  }

  lemma Distributes(a: nat, b: nat)
    ensures (a + 1) * b == a * b + b
  {
  }

  lemma InventorySize(ps: seq<Partition>, papers: seq<Paper>)
    requires ps != []
    ensures |Inventory(ps, papers)| == |Elements(IdsOf(papers))| * |Elements(ps[0].options.modes)|
  {
    var inventory, modes := Inventory(ps, papers), ps[0].options.modes;
    var ids := IdsOf(papers);
    ListedUnique<Paper>([], papers, modes, PaperItself);
    KeysCounted(inventory);
    ElementsOf(ids);
    ElementsOf(modes);
    forall key: Key
      ensures key in Keys(inventory) <==> key in Pairs(Elements(ids), Elements(modes))
    {
      KeysFound(inventory, key);
      ListedExactly<Paper>([], papers, modes, PaperItself, key);
      assert HasPaper(papers, key.0) <==> key.0 in ids by {
        if HasPaper(papers, key.0) {
          var i :| 0 <= i < |papers| && papers[i].id == key.0;
          assert ids[i] == key.0;
        }
      }
    }
    assert Keys(inventory) == Pairs(Elements(ids), Elements(modes));
    PairsCounted(Elements(ids), Elements(modes));
  }

  lemma Product(a: nat, b: nat, c: nat, d: nat)
    requires a <= c && b <= d && d > 0
    ensures a * b == c * d <==> c == 0 || (a == c && b == d)
  {
    if a == c {
      if b < d && c > 0 {
        assert c * b < c * d;
      }
    } else {
      assert a * b <= a * d < c * d;
    }
  }

  /** The inventory has its full size exactly when no paper and no mode is listed twice, or there is no paper. */
  lemma InventoryFull(ps: seq<Partition>, papers: seq<Paper>)
    requires ps != [] && ps[0].options.modes != []
    ensures |Inventory(ps, papers)| == |papers| * |ps[0].options.modes|
       <==> papers == [] || (NoRepeat(IdsOf(papers)) && NoRepeat(ps[0].options.modes))
  {
    InventorySize(ps, papers);
    ElementsOf(IdsOf(papers));
    ElementsOf(ps[0].options.modes);
    Product(|Elements(IdsOf(papers))|, |Elements(ps[0].options.modes)|, |papers|, |ps[0].options.modes|);
  }

  // ---- when partitions are combined ----

  /** The paper of that name has the source, and the page count where it gives one. */
  predicate FitsPaper(papers: seq<Paper>, c: Case) {
    exists i | 0 <= i < |papers| ::
      papers[i].id == c.id && papers[i].source == c.source && (papers[i].pages.Some? ==> papers[i].pages == c.pages)
  }

  lemma ExpectedExactly(ps: seq<Partition>, papers: seq<Paper>, c: Case)
    requires ps != [] && NoRepeat(IdsOf(papers))
    ensures Expected(Inventory(ps, papers), c) <==> c.ocr in ps[0].options.modes && FitsPaper(papers, c)
  {
    ListedExactly<Paper>([], papers, ps[0].options.modes, PaperItself, (c.id, c.ocr));
    assert forall i | 0 <= i < |papers| :: IdsOf(papers)[i] == papers[i].id;
  }

  predicate AllFit(papers: seq<Paper>, modes: seq<string>, tags: seq<Tagged>) {
    forall i | 0 <= i < |tags| :: tags[i].0.ocr in modes && FitsPaper(papers, tags[i].0)
  }

  predicate AllApart(tags: seq<Tagged>) {
    forall i, j | 0 <= i < j < |tags| :: (tags[i].0.id, tags[i].0.ocr) != (tags[j].0.id, tags[j].0.ocr)
  }

  /** The partitions agree on executable, modes and all other options; no paper and no mode is listed twice; and every
      case of every partition is of a paper in one of the modes, no two of the same. */
  ghost predicate Combinable(ps: seq<Partition>, papers: seq<Paper>)
    requires ps != [] && AllNamed(ps)
  {
    && ps[0].options.modes != [] && (forall i | 0 <= i < |ps| :: ps[i].options == ps[0].options)
    && NoRepeat(IdsOf(papers)) && (papers == [] || NoRepeat(ps[0].options.modes))
    && AllFit(papers, ps[0].options.modes, AllTags(ps)) && AllApart(AllTags(ps))
  }

  /** Partitions are combined exactly when they are of such a kind. */
  lemma CombinedExactly(ps: seq<Partition>, papers: seq<Paper>)
    ensures Combine(ps, papers).Ok? <==> ps != [] && AllNamed(ps) && Combinable(ps, papers)
  {
    if Uniform(ps) {
      CombinedWhen(ps, papers);
      if NoRepeat(IdsOf(papers)) {
        TagsExpected(ps, papers, AllTags(ps));
      }
    } else {
      assert Combine(ps, papers).Err?;
    }
  }

  lemma CombinedWhen(ps: seq<Partition>, papers: seq<Paper>)
    requires Uniform(ps)
    ensures AllNamed(ps)
    ensures Combine(ps, papers).Ok? <==>
      && NoRepeat(IdsOf(papers)) && (papers == [] || NoRepeat(ps[0].options.modes))
      && Disjoint(Inventory(ps, papers), AllTags(ps))
  {
    assert AllNamed(ps);
    InventoryFull(ps, papers);
    if |Inventory(ps, papers)| == |papers| * |ps[0].options.modes| {
      CombinedTags(ps, papers);
    }
  }

  lemma TagsExpected(ps: seq<Partition>, papers: seq<Paper>, tags: seq<Tagged>)
    requires ps != [] && NoRepeat(IdsOf(papers))
    ensures Disjoint(Inventory(ps, papers), tags) <==> AllFit(papers, ps[0].options.modes, tags) && AllApart(tags)
  {
    forall i | 0 <= i < |tags|
      ensures Expected(Inventory(ps, papers), tags[i].0) <==> tags[i].0.ocr in ps[0].options.modes && FitsPaper(papers, tags[i].0)
    {
      ExpectedExactly(ps, papers, tags[i].0);
    }
  }

  // ---- what is kept ----

  /** Each case of a partition with the executable, the digest and the position of the partition. */
  function KeptOf(p: Partition, run: nat): (kept: seq<Kept>)
    requires p.options.binary.Some?
    ensures |kept| == |p.cases|
    ensures forall i | 0 <= i < |kept| :: kept[i] == Kept(p.cases[i], p.options.binary.value, p.digest, run)
  {
    seq(|p.cases|, i requires 0 <= i < |p.cases| => Kept(p.cases[i], p.options.binary.value, p.digest, run))
  }

  function AllKept(run: nat, ps: seq<Partition>): seq<Kept>
    requires forall i | 0 <= i < |ps| :: ps[i].options.binary.Some?
    decreases |ps|
  {
    if ps == [] then [] else KeptOf(ps[0], run) + AllKept(run + 1, ps[1..])
  }

  function Values(d: Dict<Key, Kept>): (kept: seq<Kept>)
    ensures |kept| == |d| && forall i | 0 <= i < |d| :: kept[i] == d[i].1
  {
    seq(|d|, i requires 0 <= i < |d| => d[i].1)
  }

  lemma {:induction false} CasesKept(inventory: Dict<Key, Paper>, done: Dict<Key, Kept>, p: Partition, run: nat, cases: seq<Case>)
    requires CasesAdded(inventory, done, p, run, cases).Ok? && p.options.binary.Some?
    ensures Values(CasesAdded(inventory, done, p, run, cases).value) == Values(done) + KeptOf(p.(cases := cases), run)
    decreases |cases|
  {
    var kept := KeptOf(p.(cases := cases), run);
    if cases == [] {
      assert Values(done) + kept == Values(done);
    } else {
      PutNew(done, KeyOf(cases[0]), kept[0]);
      CasesKept(inventory, done + [(KeyOf(cases[0]), kept[0])], p, run, cases[1..]);
      assert kept[1..] == KeptOf(p.(cases := cases[1..]), run);
      assert Values(done + [(KeyOf(cases[0]), kept[0])]) == Values(done) + [kept[0]];
    }
  }

  lemma Regrouped<T>(a: seq<T>, b: seq<T>, c: seq<T>)
    ensures a + b + c == a + (b + c)
  {
  }

  lemma {:induction false} PartitionsKept(inventory: Dict<Key, Paper>, done: Dict<Key, Kept>, run: nat, ps: seq<Partition>)
    requires AllNamed(ps) && PartitionsAdded(inventory, done, run, ps).Ok?
    ensures Values(PartitionsAdded(inventory, done, run, ps).value) == Values(done) + AllKept(run, ps)
    decreases |ps|
  {
    if ps == [] {
      assert Values(done) + AllKept(run, ps) == Values(done);
    } else {
      NamedRest(ps);
      var next := CasesAdded(inventory, done, ps[0], run, ps[0].cases).value;
      CasesKept(inventory, done, ps[0], run, ps[0].cases);
      assert ps[0].(cases := ps[0].cases) == ps[0];
      PartitionsKept(inventory, next, run + 1, ps[1..]);
      Regrouped(Values(done), KeptOf(ps[0], run), AllKept(run + 1, ps[1..]));
    }
  }

  /** The result lists the cases of all partitions in order, each with the executable, the digest and the position of
      its partition; it counts those that passed; and it is complete exactly when no case is missing and every
      partition is complete. */
  lemma CombinedTells(ps: seq<Partition>, papers: seq<Paper>)
    requires Combine(ps, papers).Ok?
    ensures AllNamed(ps) && Values(Combine(ps, papers).value.cases) == AllKept(0, ps)
    ensures var o := Combine(ps, papers).value;
      && (forall i | 0 <= i < |o.cases| :: o.cases[i].0 == (o.cases[i].1.result.id, o.cases[i].1.result.ocr))
      && o.passed == TagsPassed(AllTags(ps)) && o.passed + o.failed == |o.cases|
      && (o.complete <==> o.missing == [] && forall i | 0 <= i < |ps| :: ps[i].complete)
  {
    var cases := Combine(ps, papers).value.cases;
    CombineConserves(ps, papers);
    CombinedTags(ps, papers);
    CountsOfTags(cases);
    PartitionsKept(Inventory(ps, papers), [], 0, ps);
    assert Values([]) + AllKept(0, ps) == AllKept(0, ps);
  }
}
