/** Dictionaries that list their entries in the order of insertion. */
module OrderedDict {
  import opened Wrappers

  type Dict<K(==), V> = seq<(K, V)>

  function Find<K(==), V>(d: Dict<K, V>, key: K): Option<V> {
    if d == [] then None else if d[0].0 == key then Some(d[0].1) else Find(d[1..], key)
  }

  /** An old entry keeps its place; a new one goes to the end. */
  function Put<K(==), V>(d: Dict<K, V>, key: K, value: V): Dict<K, V> {
    if d == [] then [(key, value)]
    else if d[0].0 == key then [(key, value)] + d[1..]
    else [d[0]] + Put(d[1..], key, value)
  }

  predicate Unique<K(==), V>(d: Dict<K, V>) {
    forall i, j | 0 <= i < j < |d| :: d[i].0 != d[j].0
  }

  lemma {:induction false} FindPut<K, V>(d: Dict<K, V>, key: K, value: V, other: K)
    ensures Find(Put(d, key, value), other) == if other == key then Some(value) else Find(d, other)
    ensures |Put(d, key, value)| == |d| + if Find(d, key).Some? then 0 else 1
  {
    if d != [] && d[0].0 != key {
      FindPut(d[1..], key, value, other);
    }
  }

  lemma {:induction false} FindSome<K, V>(d: Dict<K, V>, key: K)
    ensures Find(d, key).Some? <==> exists i | 0 <= i < |d| :: d[i].0 == key
  {
    if d != [] && d[0].0 != key {
      FindSome(d[1..], key);
      assert forall i | 0 < i < |d| :: d[i] == d[1..][i - 1];
    }
  }

  lemma {:induction false} FindAt<K, V>(d: Dict<K, V>, i: nat)
    requires Unique(d) && i < |d|
    ensures Find(d, d[i].0) == Some(d[i].1)
  {
    if i > 0 {
      assert d[0].0 != d[i].0;
      assert forall j | 0 <= j < |d[1..]| :: d[1..][j] == d[j + 1];
      FindAt(d[1..], i - 1);
    }
  }

  lemma {:induction false} PutUnique<K, V>(d: Dict<K, V>, key: K, value: V)
    requires Unique(d)
    ensures Unique(Put(d, key, value))
  {
    if d != [] && d[0].0 != key {
      var rest := d[1..];
      assert forall j | 0 <= j < |rest| :: rest[j] == d[j + 1];
      PutUnique(rest, key, value);
      var more := Put(rest, key, value);
      forall j | 0 <= j < |more|
        ensures more[j].0 != d[0].0
      {
        FindSome(more, d[0].0);
        FindPut(rest, key, value, d[0].0);
        FindSome(rest, d[0].0);
      }
    } else if d != [] {
      assert forall j | 0 < j < |d| :: Put(d, key, value)[j] == d[j];
    }
  }

  /** A new key goes to the end. */
  lemma {:induction false} PutNew<K, V>(d: Dict<K, V>, key: K, value: V)
    requires Find(d, key).None?
    ensures Put(d, key, value) == d + [(key, value)]
  {
    if d != [] {
      PutNew(d[1..], key, value);
    }
  }

  // ---- lists ----

  predicate NoRepeat<T(==)>(s: seq<T>) {
    forall i, j | 0 <= i < j < |s| :: s[i] != s[j]
  }

  /** The first element of `a`, found in `b`. */
  lemma FoundFirst<T>(a: seq<T>, b: seq<T>) returns (j: nat)
    requires a != [] && multiset(a) == multiset(b)
    ensures j < |b| && b[j] == a[0] && multiset(a[1..]) == multiset(b[..j] + b[j + 1..])
    ensures b == b[..j] + [b[j]] + b[j + 1..]
  {
    assert a[0] in multiset(b);
    assert a[0] in b;
    j :| 0 <= j < |b| && b[j] == a[0];
    assert a == [a[0]] + a[1..];
    assert b == b[..j] + [b[j]] + b[j + 1..];
    assert multiset(a[1..]) == multiset(a) - multiset{a[0]};
    assert multiset(b) == multiset(b[..j]) + multiset{b[j]} + multiset(b[j + 1..]);
    assert multiset(b[..j] + b[j + 1..]) == multiset(b) - multiset{b[j]};
  }
}
