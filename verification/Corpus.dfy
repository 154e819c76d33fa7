/** What runs over a corpus have in common: their cases, and the inventory of those expected. */
module Corpus {
  import opened Wrappers
  import opened OrderedDict

  type Digest = string

  /** A source and a mode of reading it. */
  type Key = (string, string)

  /** A case of a run: a source, read in one mode, by an executable. */
  datatype Case =
    Case(id: string, ocr: string, source: Digest, passed: bool, binary: Option<Digest>, pages: Option<int>)

  /** A source of the corpus; its page count may be unknown. */
  datatype Paper = Paper(id: string, source: Digest, pages: Option<int>)

  /** The result of a case as kept: its executable, and the run that is its evidence. */
  datatype Kept = Kept(result: Case, executable: Digest, evidence: Digest, run: nat)

  function KeyOf(c: Case): Key {
    (c.id, c.ocr)
  }

  // ---- the inventory ----

  /** The source `id`, described by `value`, expected once in every mode. */
  function ModesListed<V>(inventory: Dict<Key, V>, id: string, value: V, modes: seq<string>): Dict<Key, V>
    decreases |modes|
  {
    if modes == [] then inventory else ModesListed(Put(inventory, (id, modes[0]), value), id, value, modes[1..])
  }

  /** Every source expected in every mode, each described by its `entry`. */
  function Listed<V>(inventory: Dict<Key, V>, papers: seq<Paper>, modes: seq<string>, entry: Paper -> V): Dict<Key, V>
    decreases |papers|
  {
    if papers == [] then inventory
    else Listed(ModesListed(inventory, papers[0].id, entry(papers[0]), modes), papers[1..], modes, entry)
  }

  lemma {:induction false} ModesListedUnique<V>(inventory: Dict<Key, V>, id: string, value: V, modes: seq<string>)
    requires Unique(inventory)
    ensures Unique(ModesListed(inventory, id, value, modes))
    decreases |modes|
  {
    if modes != [] {
      PutUnique(inventory, (id, modes[0]), value);
      ModesListedUnique(Put(inventory, (id, modes[0]), value), id, value, modes[1..]);
    }
  }

  lemma {:induction false} ListedUnique<V>(inventory: Dict<Key, V>, papers: seq<Paper>, modes: seq<string>, entry: Paper -> V)
    requires Unique(inventory)
    ensures Unique(Listed(inventory, papers, modes, entry))
    decreases |papers|
  {
    if papers != [] {
      ModesListedUnique(inventory, papers[0].id, entry(papers[0]), modes);
      ListedUnique(ModesListed(inventory, papers[0].id, entry(papers[0]), modes), papers[1..], modes, entry);
    }
  }

  lemma {:induction false} ModesListedExactly<V>(inventory: Dict<Key, V>, id: string, value: V, modes: seq<string>, key: Key)
    ensures Find(ModesListed(inventory, id, value, modes), key)
         == if key.0 == id && key.1 in modes then Some(value) else Find(inventory, key)
    decreases |modes|
  {
    if modes != [] {
      FindPut(inventory, (id, modes[0]), value, key);
      ModesListedExactly(Put(inventory, (id, modes[0]), value), id, value, modes[1..], key);
    }
  }

  predicate HasPaper(papers: seq<Paper>, id: string) {
    exists i | 0 <= i < |papers| :: papers[i].id == id
  }

  /** Expected are exactly the papers in the modes; a paper listed again replaces the one before. */
  lemma {:induction false} ListedExactly<V>(inventory: Dict<Key, V>, papers: seq<Paper>, modes: seq<string>, entry: Paper -> V, key: Key)
    ensures var found := Find(Listed(inventory, papers, modes, entry), key);
      if key.1 in modes && HasPaper(papers, key.0)
      then exists i | 0 <= i < |papers| :: papers[i].id == key.0 && found == Some(entry(papers[i]))
                                           && forall j | i < j < |papers| :: papers[j].id != key.0
      else found == Find(inventory, key)
    decreases |papers|
  {
    if papers != [] {
      var rest, next := papers[1..], ModesListed(inventory, papers[0].id, entry(papers[0]), modes);
      ModesListedExactly(inventory, papers[0].id, entry(papers[0]), modes, key);
      ListedExactly(next, rest, modes, entry, key);
      assert forall i | 0 < i < |papers| :: papers[i] == rest[i - 1];
      assert forall i | 0 <= i < |rest| :: rest[i] == papers[i + 1];
      if key.1 in modes && HasPaper(rest, key.0) {
        var i :| 0 <= i < |rest| && rest[i].id == key.0 && Find(Listed(next, rest, modes, entry), key) == Some(entry(rest[i]))
                 && forall j | i < j < |rest| :: rest[j].id != key.0;
        assert papers[i + 1].id == key.0;
      }
    }
  }

  // ---- counts ----

  function Passed(kept: Dict<Key, Kept>): nat {
    if kept == [] then 0 else (if kept[0].1.result.passed then 1 else 0) + Passed(kept[1..])
  }

  function Failed(kept: Dict<Key, Kept>): nat {
    if kept == [] then 0 else (if kept[0].1.result.passed then 0 else 1) + Failed(kept[1..])
  }

  lemma {:induction false} PassedAndFailed(kept: Dict<Key, Kept>)
    ensures Passed(kept) + Failed(kept) == |kept|
  {
    if kept != [] {
      PassedAndFailed(kept[1..]);
    }
  }

  /** The expected cases that are not there, in the order of the inventory. */
  function Missing<V, W>(inventory: Dict<Key, V>, kept: Dict<Key, W>): seq<Key> {
    if inventory == [] then []
    else (if Find(kept, inventory[0].0).None? then [inventory[0].0] else []) + Missing(inventory[1..], kept)
  }

  function Keys<V>(d: Dict<Key, V>): set<Key> {
    if d == [] then {} else {d[0].0} + Keys(d[1..])
  }

  lemma {:induction false} KeysFound<V>(d: Dict<Key, V>, key: Key)
    ensures key in Keys(d) <==> Find(d, key).Some?
  {
    if d != [] && d[0].0 != key {
      KeysFound(d[1..], key);
    }
  }

  lemma {:induction false} KeysCounted<V>(d: Dict<Key, V>)
    requires Unique(d)
    ensures |Keys(d)| == |d|
  {
    if d != [] {
      assert forall i | 0 <= i < |d[1..]| :: d[1..][i] == d[i + 1];
      KeysCounted(d[1..]);
      KeysFound(d[1..], d[0].0);
      FindSome(d[1..], d[0].0);
    }
  }

  lemma {:induction false} MissingCounted<V, W>(inventory: Dict<Key, V>, kept: Dict<Key, W>)
    requires Unique(inventory)
    ensures |Missing(inventory, kept)| == |Keys(inventory) - Keys(kept)|
    ensures forall key :: key in Missing(inventory, kept) <==> key in Keys(inventory) && key !in Keys(kept)
  {
    if inventory != [] {
      var key, rest := inventory[0].0, inventory[1..];
      assert forall i | 0 <= i < |rest| :: rest[i] == inventory[i + 1];
      MissingCounted(rest, kept);
      KeysFound(kept, key);
      KeysFound(rest, key);
      FindSome(rest, key);
      Without(key, Keys(rest), Keys(kept));
    }
  }

  lemma Without(key: Key, rest: set<Key>, kept: set<Key>)
    requires key !in rest
    ensures |({key} + rest) - kept| == |rest - kept| + if key in kept then 0 else 1
  {
    if key in kept {
      assert ({key} + rest) - kept == rest - kept;
    } else {
      assert ({key} + rest) - kept == {key} + (rest - kept);
    }
  }

  /** Every key of the inventory is kept or missing, not both. */
  ghost predicate Partitioned<V, W>(inventory: Dict<Key, V>, kept: Dict<Key, W>, missing: seq<Key>) {
    && |inventory| == |kept| + |missing|
    && (forall key :: Find(inventory, key).Some? <==> Find(kept, key).Some? || key in missing)
    && (forall key :: !(Find(kept, key).Some? && key in missing))
  }

  lemma KeptOrMissing<V, W>(inventory: Dict<Key, V>, kept: Dict<Key, W>)
    requires Unique(inventory) && Unique(kept)
    requires forall i | 0 <= i < |kept| :: Find(inventory, kept[i].0).Some?
    ensures Partitioned(inventory, kept, Missing(inventory, kept))
  {
    forall key
      ensures key in Keys(inventory) <==> Find(inventory, key).Some?
      ensures key in Keys(kept) <==> Find(kept, key).Some?
      ensures key in Keys(kept) ==> key in Keys(inventory)
    {
      KeysFound(inventory, key);
      KeysFound(kept, key);
      FindSome(kept, key);
    }
    KeysCounted(inventory);
    KeysCounted(kept);
    MissingCounted(inventory, kept);
    assert Keys(inventory) == Keys(kept) + (Keys(inventory) - Keys(kept));
  }
}
