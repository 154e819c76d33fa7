/** A walk over the pieces of a byte string, whatever it does at each piece. */
module ZipWalk {
  import opened Bytes
  import opened ZipArchive

  /** A walk from an offset on; the last argument is what it counts. */
  type Walker<R> = (Bytes, nat, nat) -> R

  /** From one place the walk ends as from the other. */
  predicate Runs<R(==)>(f: Walker<R>, data: Bytes, at: nat, n: nat, later: Bytes, there: nat, k: nat) {
    f(data, at, n) == f(later, there, k)
  }

  /** Between `done` and `rest` the walk passes over `x`, counts `k`, and goes on behind `y` in its place. */
  predicate Passes<R(==)>(f: Walker<R>, done: Bytes, x: Bytes, y: Bytes, rest: Bytes, n: nat, k: nat) {
    Runs(f, done + x + rest, |done|, n, done + y + rest, |done| + |y|, n + k)
  }

  /** The same from the start of the bytes. */
  predicate PassesFirst<R(==)>(f: Walker<R>, x: Bytes, y: Bytes, rest: Bytes, k: nat) {
    Runs(f, x + rest, 0, 0, y + rest, |y|, k)
  }

  /** From a count of `n` on `f` goes on as `g` does. */
  ghost predicate Agree<R>(f: Walker<R>, g: Walker<R>, n: nat) {
    forall data, at :: f(data, at, n) == g(data, at, 0)
  }

  /** It does so wherever at least `tail` bytes follow. */
  ghost predicate Step<R>(f: Walker<R>, x: Bytes, y: Bytes, tail: nat) {
    forall done, rest, n | |rest| >= tail :: Passes(f, done, x, y, rest, n, 1)
  }

  ghost predicate Steps<R>(f: Walker<R>, xs: seq<Bytes>, ys: seq<Bytes>, tail: nat) {
    |xs| == |ys| && forall i | 0 <= i < |xs| :: Step(f, xs[i], ys[i], tail)
  }

  lemma Regroup(done: Bytes, x: Bytes, more: Bytes, rest: Bytes)
    ensures done + (x + more) + rest == done + x + (more + rest)
    ensures done + x + more + rest == done + x + (more + rest)
  {
  }

  /** Piece by piece, the whole walk replaces `xs` by `ys`. */
  lemma {:induction false} Walk<R>(f: Walker<R>, done: Bytes, xs: seq<Bytes>, ys: seq<Bytes>, rest: Bytes, n: nat, tail: nat)
    requires Steps(f, xs, ys, tail) && |rest| >= tail
    ensures Passes(f, done, Concat(xs), Concat(ys), rest, n, |xs|)
    decreases |xs|
  {
    if xs == [] {
      assert ys == [];
    } else {
      var x, y, moreX, moreY := xs[0], ys[0], Concat(xs[1..]), Concat(ys[1..]);
      assert Step(f, x, y, tail);
      assert Passes(f, done, x, y, moreX + rest, n, 1);
      Regroup(done, x, moreX, rest);
      Regroup(done, y, moreX, rest);
      Walk(f, done + y, xs[1..], ys[1..], rest, n + 1, tail);
      Regroup(done, y, moreY, rest);
    }
  }

  lemma WalkFromStart<R>(f: Walker<R>, xs: seq<Bytes>, ys: seq<Bytes>, rest: Bytes, tail: nat)
    requires Steps(f, xs, ys, tail) && |rest| >= tail
    ensures PassesFirst(f, Concat(xs), Concat(ys), rest, |xs|)
  {
    Walk(f, [], xs, ys, rest, 0, tail);
    assert [] + Concat(xs) == Concat(xs) && [] + Concat(ys) == Concat(ys);
  }

  lemma {:induction false} SameLength(xs: seq<Bytes>, ys: seq<Bytes>)
    requires |xs| == |ys| && forall i | 0 <= i < |xs| :: |xs[i]| == |ys[i]|
    ensures |Concat(xs)| == |Concat(ys)|
  {
    if xs != [] {
      SameLength(xs[1..], ys[1..]);
    }
  }

  predicate PassesBoth<R(==)>(f: Walker<R>, g: Walker<R>, x: Bytes, x1: Bytes, y: Bytes, y1: Bytes, end: Bytes, k: nat) {
    f(x + y + end, 0, 0) == g(x1 + y1 + end, |x1| + |y1|, k)
  }

  /** Two walks after one another: over `x` with `f`, then over `y` with `g`. */
  lemma Compose<R>(f: Walker<R>, g: Walker<R>, x: Bytes, x1: Bytes, y: Bytes, y1: Bytes, end: Bytes, n: nat, k: nat)
    requires PassesFirst(f, x, x1, y + end, n) && Agree(f, g, n) && Passes(g, x1, y, y1, end, 0, k)
    ensures PassesBoth(f, g, x, x1, y, y1, end, k)
  {
    assert x + y + end == x + (y + end) && x1 + y + end == x1 + (y + end);
  }

  /** One walk from `p` to `mid`, then another from there to `out`. */
  predicate Stages<R(==)>(f: Walker<R>, g: Walker<R>, p: Bytes, mid: Bytes, out: Bytes, start: nat, end: nat, k: nat, m: nat) {
    Runs(f, p, 0, 0, mid, start, k) && Runs(g, mid, start, 0, out, end, m)
  }

  lemma InTurn<R>(f: Walker<R>, g: Walker<R>, x: Bytes, x1: Bytes, y: Bytes, y1: Bytes, end: Bytes, k: nat, m: nat)
    requires PassesFirst(f, x, x1, y + end, k) && Passes(g, x1, y, y1, end, 0, m)
    ensures Stages(f, g, x + y + end, x1 + y + end, x1 + y1 + end, |x1|, |x1| + |y1|, k, m)
  {
    assert x + y + end == x + (y + end) && x1 + y + end == x1 + (y + end);
  }

  /** A walk that changes nothing, with what follows taken apart. */
  lemma Unchanged<R>(f: Walker<R>, done: Bytes, b: Bytes, x: Bytes, rest: Bytes, k: nat)
    requires Passes(f, done, b, b, x + rest, 0, k)
    ensures Runs(f, done + b + x + rest, |done|, 0, done + b + x + rest, |done| + |b|, k)
  {
    assert done + b + (x + rest) == done + b + x + rest;
  }
}
