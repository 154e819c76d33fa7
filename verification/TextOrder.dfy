/** Strings by code points, and lists of strings in that order. */
module TextOrder {
  predicate StringLess(a: string, b: string) {
    b != "" && (a == "" || a[0] < b[0] || (a[0] == b[0] && StringLess(a[1..], b[1..])))
  }

  lemma {:induction false} StringOrder(a: string, b: string)
    ensures !(StringLess(a, b) && StringLess(b, a))
    ensures StringLess(a, b) || a == b || StringLess(b, a)
    ensures a == b ==> !StringLess(a, b)
  {
    if a != "" && b != "" {
      StringOrder(a[1..], b[1..]);
      assert a[0] == b[0] && a[1..] == b[1..] ==> a == [b[0]] + b[1..] == b;
    }
  }

  /** `a` stands before `b` exactly when it is a proper beginning of `b`, or has the smaller character where they
      first differ. */
  lemma {:induction false} StringLessExactly(a: string, b: string)
    ensures StringLess(a, b)
       <==> exists k | 0 <= k < |b| :: k <= |a| && a[..k] == b[..k] && (k == |a| || a[k] < b[k])
  {
    if a != "" && b != "" && a[0] == b[0] {
      var x, y := a[1..], b[1..];
      assert a == [a[0]] + x && b == [b[0]] + y;
      StringLessExactly(x, y);
      if k :| 0 <= k < |y| && k <= |x| && x[..k] == y[..k] && (k == |x| || x[k] < y[k]) {
        assert a[..k + 1] == [a[0]] + x[..k] && b[..k + 1] == [b[0]] + y[..k];
        assert a[..k + 1] == b[..k + 1];
      }
      if k :| 0 <= k < |b| && k <= |a| && a[..k] == b[..k] && (k == |a| || a[k] < b[k]) {
        assert k > 0;
        assert x[..k - 1] == a[..k][1..] && y[..k - 1] == b[..k][1..];
      }
    } else if a == "" || b == "" {
      assert b != "" ==> a[..0] == b[..0];
    } else {
      assert a[..0] == b[..0];
      forall k | 0 < k < |b| && k <= |a|
        ensures a[..k] != b[..k]
      {
        assert a[..k][0] == a[0] && b[..k][0] == b[0];
      }
    }
  }

  lemma {:induction false} StringTransitive(a: string, b: string, c: string)
    requires StringLess(a, b) && StringLess(b, c)
    ensures StringLess(a, c)
  {
    if a != "" && a[0] == b[0] == c[0] {
      StringTransitive(a[1..], b[1..], c[1..]);
    }
  }

  // ---- sorted lists ----

  predicate Sorted(names: seq<string>) {
    forall i, j | 0 <= i < j < |names| :: !StringLess(names[j], names[i])
  }

  function InsertName(name: string, sorted: seq<string>): seq<string> {
    if sorted == [] || !StringLess(sorted[0], name) then [name] + sorted
    else [sorted[0]] + InsertName(name, sorted[1..])
  }

  function SortNames(names: seq<string>): seq<string> {
    if names == [] then [] else InsertName(names[0], SortNames(names[1..]))
  }

  lemma NotLess(a: string, b: string, c: string)
    requires !StringLess(b, a) && !StringLess(c, b)
    ensures !StringLess(c, a)
  {
    StringOrder(a, b);
    StringOrder(b, c);
    StringOrder(a, c);
    if StringLess(a, b) && StringLess(b, c) {
      StringTransitive(a, b, c);
    }
  }

  predicate NoneBelow(name: string, names: seq<string>) {
    forall j | 0 <= j < |names| :: !StringLess(names[j], name)
  }

  lemma SortedFrom(name: string, rest: seq<string>)
    ensures Sorted([name] + rest) <==> Sorted(rest) && NoneBelow(name, rest)
  {
    var all := [name] + rest;
    assert all[0] == name && forall j | 0 < j < |all| :: all[j] == rest[j - 1];
    if Sorted(all) {
      forall j | 0 <= j < |rest|
        ensures !StringLess(rest[j], name)
      {
        assert !StringLess(all[j + 1], all[0]);
      }
      forall i, j | 0 <= i < j < |rest|
        ensures !StringLess(rest[j], rest[i])
      {
        assert !StringLess(all[j + 1], all[i + 1]);
      }
    }
  }

  lemma FirstNotBelow(name: string, sorted: seq<string>)
    requires Sorted(sorted) && sorted != [] && !StringLess(sorted[0], name)
    ensures NoneBelow(name, sorted)
  {
    forall j | 0 <= j < |sorted|
      ensures !StringLess(sorted[j], name)
    {
      if j > 0 {
        NotLess(name, sorted[0], sorted[j]);
      }
    }
  }

  lemma {:induction false} InsertSorts(name: string, sorted: seq<string>)
    requires Sorted(sorted)
    ensures Sorted(InsertName(name, sorted)) && multiset(InsertName(name, sorted)) == multiset(sorted) + multiset{name}
    ensures forall low: string | !StringLess(name, low) && NoneBelow(low, sorted) :: NoneBelow(low, InsertName(name, sorted))
  {
    if sorted == [] || !StringLess(sorted[0], name) {
      if sorted != [] {
        FirstNotBelow(name, sorted);
      }
      SortedFrom(name, sorted);
    } else {
      var first, rest := sorted[0], sorted[1..];
      assert sorted == [first] + rest;
      SortedFrom(first, rest);
      InsertSorts(name, rest);
      StringOrder(first, name);
      SortedFrom(first, InsertName(name, rest));
      assert forall low: string | NoneBelow(low, sorted) :: !StringLess(sorted[0], low) && NoneBelow(low, rest);
    }
  }

  lemma {:induction false} SortSorts(names: seq<string>)
    ensures Sorted(SortNames(names)) && multiset(SortNames(names)) == multiset(names)
  {
    if names != [] {
      assert names == [names[0]] + names[1..];
      SortSorts(names[1..]);
      InsertSorts(names[0], SortNames(names[1..]));
    }
  }

  lemma FirstIsLeast(a: seq<string>, name: string)
    requires Sorted(a) && name in multiset(a)
    ensures a != [] && !StringLess(name, a[0])
  {
    assert name in a;
    var i :| 0 <= i < |a| && a[i] == name;
    StringOrder(name, a[0]);
  }

  lemma RestSorted(a: seq<string>)
    requires Sorted(a) && a != []
    ensures Sorted(a[1..]) && multiset(a[1..]) == multiset(a) - multiset{a[0]}
  {
    assert a == [a[0]] + a[1..];
    forall i, j | 0 <= i < j < |a[1..]|
      ensures !StringLess(a[1..][j], a[1..][i])
    {
      assert a[1..][i] == a[i + 1] && a[1..][j] == a[j + 1];
    }
  }

  /** A multiset of names has one sorted list. */
  lemma {:induction false} SortedOnce(a: seq<string>, b: seq<string>)
    requires Sorted(a) && Sorted(b) && multiset(a) == multiset(b)
    ensures a == b
    decreases |a|
  {
    if a == [] {
      assert |multiset(b)| == |b|;
    } else {
      assert a[0] in multiset(b);
      FirstIsLeast(b, a[0]);
      FirstIsLeast(a, b[0]);
      StringOrder(a[0], b[0]);
      RestSorted(a);
      RestSorted(b);
      SortedOnce(a[1..], b[1..]);
      assert a == [a[0]] + a[1..] && b == [b[0]] + b[1..];
    }
  }

  lemma SortPermuted(a: seq<string>, b: seq<string>)
    requires multiset(a) == multiset(b)
    ensures SortNames(a) == SortNames(b)
  {
    SortSorts(a);
    SortSorts(b);
    SortedOnce(SortNames(a), SortNames(b));
  }
}
