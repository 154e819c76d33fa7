/** The invalid-name edit, as an edit of the archive it is applied to. */
module ZipNames {
  import opened Wrappers
  import opened Bytes
  import opened ZipArchive
  import opened ZipEdits
  import opened ZipWalk

  /** The name with its first byte, if it has one, made invalid. */
  function Spoilt(name: Bytes): (b: Bytes)
    ensures |b| == |name|
  {
    if name == [] then [] else [0xFF] + name[1..]
  }

  function SpoilLocal(l: Local, target: Bytes): (m: Local)
    requires LocalFits(l)
    ensures LocalFits(m) && |LocalBytes(m)| == |LocalBytes(l)|
  {
    if l.name == target then l.(flags := Utf8Named(l.flags), name := Spoilt(l.name)) else l
  }

  function SpoilCentral(c: Central, target: Bytes): (m: Central)
    requires CentralFits(c)
    ensures CentralFits(m) && |CentralBytes(m)| == |CentralBytes(c)|
  {
    if c.name == target then c.(flags := Utf8Named(c.flags), name := Spoilt(c.name)) else c
  }

  function SpoilAllLocals(ls: seq<Local>, target: Bytes): (ms: seq<Local>)
    requires LocalsFit(ls)
    ensures LocalsFit(ms) && |ms| == |ls| && forall i | 0 <= i < |ls| :: ms[i] == SpoilLocal(ls[i], target)
  {
    seq(|ls|, i requires 0 <= i < |ls| => SpoilLocal(ls[i], target))
  }

  function SpoilAllCentrals(cs: seq<Central>, target: Bytes): (ms: seq<Central>)
    requires CentralsFit(cs)
    ensures CentralsFit(ms) && |ms| == |cs| && forall i | 0 <= i < |cs| :: ms[i] == SpoilCentral(cs[i], target)
  {
    seq(|cs|, i requires 0 <= i < |cs| => SpoilCentral(cs[i], target))
  }

  lemma SpoiltSizes(ls: seq<Local>, cs: seq<Central>, target: Bytes)
    requires LocalsFit(ls) && CentralsFit(cs)
    ensures |PrintLocals(SpoilAllLocals(ls, target))| == |PrintLocals(ls)|
    ensures |PrintCentrals(SpoilAllCentrals(cs, target))| == |PrintCentrals(cs)|
  {
    SameLength(LocalPieces(ls), LocalPieces(SpoilAllLocals(ls, target)));
    SameLength(CentralPieces(cs), CentralPieces(SpoilAllCentrals(cs, target)));
  }

  /** Every local and central header named `target` gets the invalid name and the UTF-8 flag. */
  function SpoilArchive(a: Archive, target: Bytes): (b: Archive)
    requires Fits(a)
    ensures Fits(b)
  {
    SpoiltSizes(a.locals, a.centrals, target);
    Archive(SpoilAllLocals(a.locals, target), SpoilAllCentrals(a.centrals, target), a.counts)
  }

  // ---- one header ----

  lemma PutLocalName(a: Bytes, l: Local, c: Bytes)
    requires LocalFits(l) && l.name != []
    ensures Put(a + LocalBytes(l) + c, |a| + 30, [0xFF]) == a + LocalBytes(l.(name := Spoilt(l.name))) + c
  {
    var m := l.(name := Spoilt(l.name));
    PutInside(a, LocalBytes(l), c, 30, [0xFF]);
    assert l.name == l.name[..1] + l.name[1..];
    AroundFirst(LocalHead(l), l.name, l.extra, l.data);
    AroundFirst(LocalHead(l), m.name, l.extra, l.data);
    PutMiddle(LocalHead(l), l.name[..1], l.name[1..] + l.extra + l.data, [0xFF]);
    assert m.name[..1] == [0xFF] && m.name[1..] == l.name[1..];
  }

  lemma PutCentralName(a: Bytes, e: Central, c: Bytes)
    requires CentralFits(e) && e.name != []
    ensures Put(a + CentralBytes(e) + c, |a| + 46, [0xFF]) == a + CentralBytes(e.(name := Spoilt(e.name))) + c
  {
    var m := e.(name := Spoilt(e.name));
    PutInside(a, CentralBytes(e), c, 46, [0xFF]);
    AroundFirst(CentralHead(e), e.name, e.extra, e.comment);
    AroundFirst(CentralHead(e), m.name, e.extra, e.comment);
    PutMiddle(CentralHead(e), e.name[..1], e.name[1..] + e.extra + e.comment, [0xFF]);
    assert m.name[..1] == [0xFF] && m.name[1..] == e.name[1..];
  }

  lemma AroundFirst(head: Bytes, name: Bytes, x: Bytes, y: Bytes)
    requires name != []
    ensures head + name + x + y == head + name[..1] + (name[1..] + x + y)
  {
    assert name == name[..1] + name[1..];
  }

  lemma SpoilLocalBytes(a: Bytes, l: Local, c: Bytes)
    requires LocalFits(l) && l.name != []
    ensures Spoil(a + LocalBytes(l) + c, |a| + 30, |a| + 6) == a + LocalBytes(SpoilLocal(l, l.name)) + c
  {
    var m := l.(name := Spoilt(l.name));
    PutLocalName(a, l, c);
    LocalFields(a, m, c);
    PutLocalFlags(a, m, c, Utf8Named(l.flags));
  }

  lemma SpoilCentralBytes(a: Bytes, e: Central, c: Bytes)
    requires CentralFits(e) && e.name != []
    ensures Spoil(a + CentralBytes(e) + c, |a| + 46, |a| + 8) == a + CentralBytes(SpoilCentral(e, e.name)) + c
  {
    var m := e.(name := Spoilt(e.name));
    PutCentralName(a, e, c);
    CentralFields(a, m, c);
    PutCentralFlags(a, m, c, Utf8Named(e.flags));
  }

  // ---- the walks ----

  function Before(data: Bytes, tail: nat): nat {
    if |data| < tail then 0 else |data| - tail
  }

  function LocalSpoiler(target: Bytes, tail: nat): Walker<Result<Bytes>> {
    (data, at, n) => SpoilLocals(data, at, Before(data, tail), target)
  }

  function CentralSpoiler(target: Bytes): Walker<Result<Bytes>> {
    (data, at, n) => SpoilCentrals(data, at, |data| - 22, target)
  }

  /** One round at a local header, given what its fields are. */
  lemma SpoilLocalRound(data: Bytes, at: nat, l: Local, marked: Bytes, end: nat, target: Bytes, next: nat)
    requires LocalFits(l) && target != [] && at < end && at + 30 + |l.name| <= |data|
    requires LocalSpan(data, at) == 30 + |l.name| + |l.extra| + |l.data| && Clamp(data, at + 30, Get16(data, at + 26)) == l.name
    requires l.name == target ==> marked == Spoil(data, at + 30, at + 6)
    requires l.name != target ==> marked == data
    requires next == at + LocalSpan(data, at)
    ensures SpoilLocals(data, at, end, target) == SpoilLocals(marked, next, end, target)
  {
    if l.name == target {
      assert at + 30 < |data|;
    }
  }

  lemma SpoilCentralRound(data: Bytes, at: nat, c: Central, marked: Bytes, end: int, target: Bytes)
    requires CentralFits(c) && target != [] && at < end && at + 46 + |c.name| <= |data|
    requires CentralSpan(data, at) == 46 + |c.name| + |c.extra| + |c.comment|
    requires Clamp(data, at + 46, Get16(data, at + 28)) == c.name
    requires c.name == target ==> marked == Spoil(data, at + 46, at + 8)
    requires c.name != target ==> marked == data
    ensures SpoilCentrals(data, at, end, target) == SpoilCentrals(marked, at + CentralSpan(data, at), end, target)
  {
    if c.name == target {
      assert at + 46 < |data|;
    }
  }

  lemma LocalReads(data: Bytes, at: nat, l: Local)
    requires LocalFits(l) && at + 30 + |l.name| <= |data|
    requires Get32(data, at + 18) == |l.data| && Get16(data, at + 26) == |l.name| && Get16(data, at + 28) == |l.extra|
    requires data[at + 30..at + 30 + |l.name|] == l.name
    ensures LocalSpan(data, at) == 30 + |l.name| + |l.extra| + |l.data|
    ensures Clamp(data, at + 30, Get16(data, at + 26)) == l.name
  {
  }

  lemma SpoilLocalAt(data: Bytes, at: nat, l: Local, marked: Bytes, target: Bytes, tail: nat, n: nat)
    requires LocalFits(l) && target != [] && at + 30 + |l.name| <= |data| && at + tail < |data| == |marked|
    requires Get32(data, at + 18) == |l.data| && Get16(data, at + 26) == |l.name| && Get16(data, at + 28) == |l.extra|
    requires data[at + 30..at + 30 + |l.name|] == l.name
    requires if l.name == target then marked == Spoil(data, at + 30, at + 6) else marked == data
    ensures Runs(LocalSpoiler(target, tail), data, at, n, marked, at + 30 + |l.name| + |l.extra| + |l.data|, n + 1)
  {
    LocalReads(data, at, l);
    var next, end := at + 30 + |l.name| + |l.extra| + |l.data|, Before(data, tail);
    SpoilLocalRound(data, at, l, marked, end, target, next);
    SpoilLocalRuns(data, at, marked, next, end, target, tail, n);
  }

  lemma SpoilLocalRuns(data: Bytes, at: nat, marked: Bytes, next: nat, end: nat, target: Bytes, tail: nat, n: nat)
    requires end == Before(data, tail) == Before(marked, tail)
    requires SpoilLocals(data, at, end, target) == SpoilLocals(marked, next, end, target)
    ensures Runs(LocalSpoiler(target, tail), data, at, n, marked, next, n + 1)
  {
    LocalSpoilerIs(data, at, n, target, tail);
    LocalSpoilerIs(marked, next, n + 1, target, tail);
  }

  lemma CentralReads(data: Bytes, at: nat, c: Central)
    requires CentralFits(c) && at + 46 + |c.name| <= |data|
    requires Get16(data, at + 28) == |c.name| && Get16(data, at + 30) == |c.extra| && Get16(data, at + 32) == |c.comment|
    requires data[at + 46..at + 46 + |c.name|] == c.name
    ensures CentralSpan(data, at) == 46 + |c.name| + |c.extra| + |c.comment|
    ensures Clamp(data, at + 46, Get16(data, at + 28)) == c.name
  {
  }

  lemma SpoilCentralAt(data: Bytes, at: nat, c: Central, marked: Bytes, target: Bytes, n: nat)
    requires CentralFits(c) && target != [] && at + 46 + |c.name| <= |data| && at + 22 < |data| == |marked|
    requires Get16(data, at + 28) == |c.name| && Get16(data, at + 30) == |c.extra| && Get16(data, at + 32) == |c.comment|
    requires data[at + 46..at + 46 + |c.name|] == c.name
    requires if c.name == target then marked == Spoil(data, at + 46, at + 8) else marked == data
    ensures Runs(CentralSpoiler(target), data, at, n, marked, at + 46 + |c.name| + |c.extra| + |c.comment|, n + 1)
  {
    CentralReads(data, at, c);
    SpoilCentralRound(data, at, c, marked, |data| - 22, target);
    CentralSpoilerIs(data, at, n, target);
    CentralSpoilerIs(marked, at + CentralSpan(data, at), n + 1, target);
  }

  lemma SpoilLocalOver(done: Bytes, x: Bytes, y: Bytes, rest: Bytes, l: Local, target: Bytes, tail: nat, n: nat)
    requires LocalFits(l) && |x| == |y| == 30 + |l.name| + |l.extra| + |l.data| && tail <= |rest| && target != []
    requires var s, at := done + x + rest, |done|;
      && Get32(s, at + 18) == |l.data| && Get16(s, at + 26) == |l.name| && Get16(s, at + 28) == |l.extra|
      && s[at + 30..at + 30 + |l.name|] == l.name
    requires if l.name == target then done + y + rest == Spoil(done + x + rest, |done| + 30, |done| + 6)
             else done + y + rest == done + x + rest
    ensures Passes(LocalSpoiler(target, tail), done, x, y, rest, n, 1)
  {
    SpoilLocalAt(done + x + rest, |done|, l, done + y + rest, target, tail, n);
  }

  lemma SpoilCentralOver(done: Bytes, x: Bytes, y: Bytes, rest: Bytes, c: Central, target: Bytes, n: nat)
    requires CentralFits(c) && |x| == |y| == 46 + |c.name| + |c.extra| + |c.comment| && 22 <= |rest| && target != []
    requires var s, at := done + x + rest, |done|;
      && Get16(s, at + 28) == |c.name| && Get16(s, at + 30) == |c.extra| && Get16(s, at + 32) == |c.comment|
      && s[at + 46..at + 46 + |c.name|] == c.name
    requires if c.name == target then done + y + rest == Spoil(done + x + rest, |done| + 46, |done| + 8)
             else done + y + rest == done + x + rest
    ensures Passes(CentralSpoiler(target), done, x, y, rest, n, 1)
  {
    SpoilCentralAt(done + x + rest, |done|, c, done + y + rest, target, n);
  }

  lemma SpoilLocalPiece(done: Bytes, l: Local, rest: Bytes, target: Bytes, tail: nat, n: nat)
    requires LocalFits(l) && target != [] && tail <= |rest|
    ensures Passes(LocalSpoiler(target, tail), done, LocalBytes(l), LocalBytes(SpoilLocal(l, target)), rest, n, 1)
  {
    LocalFields(done, l, rest);
    if l.name == target {
      SpoilLocalBytes(done, l, rest);
    }
    SpoilLocalOver(done, LocalBytes(l), LocalBytes(SpoilLocal(l, target)), rest, l, target, tail, n);
  }

  lemma SpoilCentralPiece(done: Bytes, c: Central, rest: Bytes, target: Bytes, n: nat)
    requires CentralFits(c) && target != [] && 22 <= |rest|
    ensures Passes(CentralSpoiler(target), done, CentralBytes(c), CentralBytes(SpoilCentral(c, target)), rest, n, 1)
  {
    CentralFields(done, c, rest);
    if c.name == target {
      SpoilCentralBytes(done, c, rest);
    }
    SpoilCentralOver(done, CentralBytes(c), CentralBytes(SpoilCentral(c, target)), rest, c, target, n);
  }

  lemma SpoilLocalSteps(ls: seq<Local>, target: Bytes, tail: nat)
    requires LocalsFit(ls) && target != []
    ensures Steps(LocalSpoiler(target, tail), LocalPieces(ls), LocalPieces(SpoilAllLocals(ls, target)), tail)
  {
    forall i | 0 <= i < |ls|
      ensures Step(LocalSpoiler(target, tail), LocalPieces(ls)[i], LocalPieces(SpoilAllLocals(ls, target))[i], tail)
    {
      SpoilLocalStep(ls[i], target, tail);
    }
  }

  lemma SpoilLocalStep(l: Local, target: Bytes, tail: nat)
    requires LocalFits(l) && target != []
    ensures Step(LocalSpoiler(target, tail), LocalBytes(l), LocalBytes(SpoilLocal(l, target)), tail)
  {
    forall done, rest, n | |rest| >= tail
      ensures Passes(LocalSpoiler(target, tail), done, LocalBytes(l), LocalBytes(SpoilLocal(l, target)), rest, n, 1)
    {
      SpoilLocalPiece(done, l, rest, target, tail, n);
    }
  }

  lemma SpoilCentralSteps(cs: seq<Central>, target: Bytes)
    requires CentralsFit(cs) && target != []
    ensures Steps(CentralSpoiler(target), CentralPieces(cs), CentralPieces(SpoilAllCentrals(cs, target)), 22)
  {
    forall i | 0 <= i < |cs|
      ensures Step(CentralSpoiler(target), CentralPieces(cs)[i], CentralPieces(SpoilAllCentrals(cs, target))[i], 22)
    {
      SpoilCentralStep(cs[i], target);
    }
  }

  lemma SpoilCentralStep(c: Central, target: Bytes)
    requires CentralFits(c) && target != []
    ensures Step(CentralSpoiler(target), CentralBytes(c), CentralBytes(SpoilCentral(c, target)), 22)
  {
    forall done, rest, n | |rest| >= 22
      ensures Passes(CentralSpoiler(target), done, CentralBytes(c), CentralBytes(SpoilCentral(c, target)), rest, n, 1)
    {
      SpoilCentralPiece(done, c, rest, target, n);
    }
  }

  // ---- the whole archive ----

  lemma LocalSpoilerIs(data: Bytes, at: nat, n: nat, target: Bytes, tail: nat)
    ensures LocalSpoiler(target, tail)(data, at, n) == SpoilLocals(data, at, Before(data, tail), target)
    ensures at >= Before(data, tail) ==> LocalSpoiler(target, tail)(data, at, n) == Ok(data)
  {
  }

  lemma CentralSpoilerIs(data: Bytes, at: nat, n: nat, target: Bytes)
    ensures CentralSpoiler(target)(data, at, n) == SpoilCentrals(data, at, |data| - 22, target)
    ensures at + 22 >= |data| ==> CentralSpoiler(target)(data, at, n) == Ok(data)
  {
  }

  lemma SpoilLocalsWalk(ls: seq<Local>, rest: Bytes, target: Bytes)
    requires LocalsFit(ls) && target != []
    ensures PassesFirst(LocalSpoiler(target, |rest|), PrintLocals(ls), PrintLocals(SpoilAllLocals(ls, target)), rest, |ls|)
  {
    SpoilLocalSteps(ls, target, |rest|);
    WalkFromStart(LocalSpoiler(target, |rest|), LocalPieces(ls), LocalPieces(SpoilAllLocals(ls, target)), rest, |rest|);
  }

  lemma SpoilCentralsWalk(done: Bytes, cs: seq<Central>, rest: Bytes, target: Bytes)
    requires CentralsFit(cs) && target != [] && |rest| == 22
    ensures Passes(CentralSpoiler(target), done, PrintCentrals(cs), PrintCentrals(SpoilAllCentrals(cs, target)), rest, 0, |cs|)
  {
    SpoilCentralSteps(cs, target);
    Walk(CentralSpoiler(target), done, CentralPieces(cs), CentralPieces(SpoilAllCentrals(cs, target)), rest, 0, 22);
  }

  /** Both walks, from the offset the end record gives. */
  lemma SpoilWhole(p: Bytes, mid: Bytes, out: Bytes, start: nat, target: Bytes, k: nat, m: nat)
    requires |p| == |mid| == |out| && start + 22 <= |p| && Read32(p, |p| - 6) == Some(start)
    requires Stages(LocalSpoiler(target, |p| - start), CentralSpoiler(target), p, mid, out, start, |p| - 22, k, m)
    ensures SpoilName(p, target) == Ok(out)
  {
    LocalSpoilerIs(p, 0, 0, target, |p| - start);
    LocalSpoilerIs(mid, start, k, target, |p| - start);
    CentralSpoilerIs(mid, start, 0, target);
    CentralSpoilerIs(out, |p| - 22, m, target);
  }

  lemma SpoilStages(a: Archive, end: Bytes, target: Bytes)
    requires Fits(a) && target != [] && |end| == 22
    ensures var b := SpoilArchive(a, target);
      Stages(LocalSpoiler(target, |PrintCentrals(a.centrals)| + 22), CentralSpoiler(target),
             PrintLocals(a.locals) + PrintCentrals(a.centrals) + end, PrintLocals(b.locals) + PrintCentrals(a.centrals) + end,
             PrintLocals(b.locals) + PrintCentrals(b.centrals) + end,
             |PrintLocals(b.locals)|, |PrintLocals(b.locals)| + |PrintCentrals(b.centrals)|, |a.locals|, |a.centrals|)
  {
    var b := SpoilArchive(a, target);
    var x, y, x1, y1 := PrintLocals(a.locals), PrintCentrals(a.centrals), PrintLocals(b.locals), PrintCentrals(b.centrals);
    SpoilLocalsWalk(a.locals, y + end, target);
    SpoilCentralsWalk(x1, a.centrals, end, target);
    InTurn(LocalSpoiler(target, |y + end|), CentralSpoiler(target), x, x1, y, y1, end, |a.locals|, |a.centrals|);
  }

  lemma PrintedOffset(a: Archive)
    requires Fits(a)
    ensures Read32(Print(a), |Print(a)| - 6) == Some(|PrintLocals(a.locals)|)
    ensures Read32(Print(a), |Print(a)| - 10) == Some(|PrintCentrals(a.centrals)|)
  {
    EndFields(PrintLocals(a.locals) + PrintCentrals(a.centrals), a.counts,
              |PrintCentrals(a.centrals)|, |PrintLocals(a.locals)|);
  }

  lemma SpoiltPrint(a: Archive, target: Bytes)
    requires Fits(a)
    ensures var b := SpoilArchive(a, target);
      && |PrintLocals(b.locals)| == |PrintLocals(a.locals)| && |PrintCentrals(b.centrals)| == |PrintCentrals(a.centrals)|
      && Print(b) == PrintLocals(b.locals) + PrintCentrals(b.centrals)
           + EndRecord(a.counts, |PrintCentrals(a.centrals)|, |PrintLocals(a.locals)|)
  {
    SpoiltSizes(a.locals, a.centrals, target);
  }

  /** The edit turns `p` into `out`. */
  predicate Edits(p: Bytes, target: Bytes, out: Bytes) {
    SpoilName(p, target) == Ok(out)
  }

  /** The edit of bytes made of two parts and an end record that gives the first part's length. */
  lemma SpoilParts(p: Bytes, mid: Bytes, out: Bytes, x: Bytes, y: Bytes, counts: Bytes, target: Bytes, k: nat, m: nat)
    requires |x| < 0x1_0000_0000 && |y| < 0x1_0000_0000 && |counts| == 8
    requires p == x + y + EndRecord(counts, |y|, |x|) && |mid| == |out| == |p|
    requires Stages(LocalSpoiler(target, |y| + 22), CentralSpoiler(target), p, mid, out, |x|, |x| + |y|, k, m)
    ensures Edits(p, target, out)
  {
    EndFields(x + y, counts, |y|, |x|);
    SpoilWhole(p, mid, out, |x|, target, k, m);
  }

  /** The archive with its local headers spoilt already, and its central ones not yet. */
  function Midway(a: Archive, target: Bytes): Bytes
    requires Fits(a)
  {
    PrintLocals(SpoilArchive(a, target).locals) + PrintCentrals(a.centrals)
    + EndRecord(a.counts, |PrintCentrals(a.centrals)|, |PrintLocals(a.locals)|)
  }

  /** Both walks lead from the archive over its midway form to the spoilt one. */
  predicate Staged(a: Archive, target: Bytes)
    requires Fits(a)
  {
    Stages(LocalSpoiler(target, |PrintCentrals(a.centrals)| + 22), CentralSpoiler(target),
           Print(a), Midway(a, target), Print(SpoilArchive(a, target)),
           |PrintLocals(a.locals)|, |PrintLocals(a.locals)| + |PrintCentrals(a.centrals)|, |a.locals|, |a.centrals|)
  }

  lemma SpoilStaged(a: Archive, target: Bytes)
    requires Fits(a) && target != []
    ensures |Midway(a, target)| == |Print(SpoilArchive(a, target))| == |Print(a)|
    ensures Staged(a, target)
  {
    SpoiltPrint(a, target);
    SpoilStages(a, EndRecord(a.counts, |PrintCentrals(a.centrals)|, |PrintLocals(a.locals)|), target);
  }

  lemma StagedEdits(a: Archive, target: Bytes, p: Bytes, mid: Bytes, out: Bytes)
    requires Fits(a) && p == Print(a) && mid == Midway(a, target) && out == Print(SpoilArchive(a, target))
    requires |mid| == |out| == |p| && Staged(a, target)
    ensures Edits(p, target, out)
  {
    SpoilParts(p, mid, out, PrintLocals(a.locals), PrintCentrals(a.centrals), a.counts, target, |a.locals|, |a.centrals|);
  }

  /** On the bytes of an archive, the edit gives every local and central header named `target` the same
      invalid name and sets its UTF-8 flag, and changes nothing else. */
  lemma SpoilRefines(a: Archive, target: Bytes)
    requires Fits(a) && target != []
    ensures Edits(Print(a), target, Print(SpoilArchive(a, target)))
  {
    SpoilStaged(a, target);
    StagedEdits(a, target, Print(a), Midway(a, target), Print(SpoilArchive(a, target)));
  }

  // ---- why the name must not be empty ----

  const NAMELESS: Local := Local([0, 0], 0, Fill(0, 10), Fill(0, 4), [], [], [])

  const ONE_NAMELESS: Archive := Archive([NAMELESS], [], Fill(0, 8))

  lemma PrintNameless()
    ensures Fits(ONE_NAMELESS) && PrintLocals([NAMELESS]) == LocalBytes(NAMELESS) && PrintCentrals([]) == []
  {
    var pieces := LocalPieces([NAMELESS]);
    assert pieces == [LocalBytes(NAMELESS)] && pieces[1..] == [];
    assert Concat(pieces) == LocalBytes(NAMELESS) + [];
  }

  /** An empty name has no first byte: the edit damages the byte behind the header instead. */
  lemma EmptyNameDamages()
    ensures Fits(ONE_NAMELESS) && !Edits(Print(ONE_NAMELESS), [], Print(SpoilArchive(ONE_NAMELESS, [])))
  {
    PrintNameless();
    var head, end := LocalBytes(NAMELESS), EndRecord(Fill(0, 8), 0, 30);
    var p := head + end;
    assert Print(ONE_NAMELESS) == p;
    PrintedOffset(ONE_NAMELESS);
    LocalFields([], NAMELESS, end);
    assert [] + head + end == p;
    var spoilt := Spoil(p, 30, 6);
    assert SpoilLocals(p, 0, 30, []) == SpoilLocals(spoilt, 30, 30, []) == Ok(spoilt);
    assert SpoilName(p, []) == Ok(spoilt);
    assert spoilt[30] == 0xFF;
    var b := SpoilArchive(ONE_NAMELESS, []);
    assert b.locals == [NAMELESS.(flags := Utf8Named(0))] && b.centrals == [];
    NamelessPrinted(b);
  }

  lemma NamelessPrinted(b: Archive)
    requires Fits(b) && b.locals == [NAMELESS.(flags := Utf8Named(0))] && b.centrals == []
    ensures |Print(b)| > 30 && Print(b)[30] == 0x50
  {
    var pieces := LocalPieces(b.locals);
    assert pieces[1..] == [];
    assert Concat(pieces) == LocalBytes(b.locals[0]) + [];
  }

  /** The targets for which the edit is right on every archive are exactly the non-empty ones. */
  lemma SpoilRefinesExactly(target: Bytes)
    ensures (forall a | Fits(a) :: Edits(Print(a), target, Print(SpoilArchive(a, target)))) <==> target != []
  {
    if target == [] {
      EmptyNameDamages();
    } else {
      forall a | Fits(a)
        ensures Edits(Print(a), target, Print(SpoilArchive(a, target)))
      {
        SpoilRefines(a, target);
      }
    }
  }
}
