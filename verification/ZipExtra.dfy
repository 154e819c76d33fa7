/** The central extra field edit, as an edit of the archive it is applied to. */
module ZipExtra {
  import opened Wrappers
  import opened Bytes
  import opened ZipArchive
  import opened ZipEdits
  import opened ZipWalk

  // ---- the edit of an archive ----

  /** The index of the first header named `target`, or the number of headers. */
  function FirstNamed(cs: seq<Central>, target: Bytes): (i: nat)
    ensures i <= |cs| && (i < |cs| ==> cs[i].name == target)
    ensures forall k | 0 <= k < i :: cs[k].name != target
  {
    if cs == [] || cs[0].name == target then 0 else 1 + FirstNamed(cs[1..], target)
  }

  function Extended(c: Central, field: Bytes): Central {
    c.(extra := c.extra + field)
  }

  lemma {:induction false} ConcatSplit(pieces: seq<Bytes>, i: nat)
    requires i < |pieces|
    ensures Concat(pieces) == Concat(pieces[..i]) + pieces[i] + Concat(pieces[i + 1..])
  {
    if i == 0 {
      assert pieces[..0] == [];
    } else {
      ConcatSplit(pieces[1..], i - 1);
      assert pieces[..i][1..] == pieces[1..][..i - 1] && pieces[1..][i..] == pieces[i + 1..];
    }
  }

  lemma CentralsSplit(cs: seq<Central>, i: nat)
    requires CentralsFit(cs) && i < |cs|
    ensures CentralsFit(cs[..i]) && CentralsFit(cs[i + 1..])
    ensures PrintCentrals(cs) == PrintCentrals(cs[..i]) + CentralBytes(cs[i]) + PrintCentrals(cs[i + 1..])
  {
    ConcatSplit(CentralPieces(cs), i);
    assert CentralPieces(cs)[..i] == CentralPieces(cs[..i]);
    assert CentralPieces(cs)[i + 1..] == CentralPieces(cs[i + 1..]);
  }

  lemma ExtendedPrint(cs: seq<Central>, i: nat, field: Bytes)
    requires CentralsFit(cs) && i < |cs| && |cs[i].extra| + |field| < 0x1_0000
    ensures CentralsFit(cs[i := Extended(cs[i], field)])
    ensures PrintCentrals(cs[i := Extended(cs[i], field)])
         == PrintCentrals(cs[..i]) + CentralBytes(Extended(cs[i], field)) + PrintCentrals(cs[i + 1..])
    ensures |PrintCentrals(cs[i := Extended(cs[i], field)])| == |PrintCentrals(cs)| + |field|
  {
    var ds := cs[i := Extended(cs[i], field)];
    CentralsSplit(cs, i);
    CentralsSplit(ds, i);
    assert ds[..i] == cs[..i] && ds[i + 1..] == cs[i + 1..];
  }

  /** The field appended to the extra fields of central header `i`. */
  function ExtendAt(a: Archive, i: nat, field: Bytes): (b: Archive)
    requires Fits(a) && i < |a.centrals|
    requires |a.centrals[i].extra| + |field| < 0x1_0000 && |PrintCentrals(a.centrals)| + |field| < 0x1_0000_0000
    ensures Fits(b)
  {
    ExtendedPrint(a.centrals, i, field);
    a.(centrals := a.centrals[i := Extended(a.centrals[i], field)])
  }

  /** The first central header named `target` gets the field; refused without such a header, and when a
      length field would overflow. */
  function ExtraArchive(a: Archive, target: Bytes, replacement: Bytes, crc: Crc): (r: Result<Archive>)
    requires Fits(a)
    ensures r.Ok? ==> Fits(r.value)
  {
    var i := FirstNamed(a.centrals, target);
    if i == |a.centrals| || 5 + |replacement| >= 0x1_0000 then Err
    else
      var field := UnicodePath(target, replacement, crc);
      if |a.centrals[i].extra| + |field| >= 0x1_0000 || |PrintCentrals(a.centrals)| + |field| >= 0x1_0000_0000 then Err
      else Ok(ExtendAt(a, i, field))
  }

  // ---- finding the header ----

  function Finder(target: Bytes): Walker<Result<nat>> {
    (data, at, n) => FindCentral(data, at, |data| - 22, target)
  }

  lemma FinderIs(data: Bytes, at: nat, n: nat, target: Bytes)
    ensures Finder(target)(data, at, n) == FindCentral(data, at, |data| - 22, target)
  {
  }

  lemma FinderRuns(data: Bytes, at: nat, next: nat, n: nat, target: Bytes)
    ensures Runs(Finder(target), data, at, n, data, next, n + 1)
       <==> FindCentral(data, at, |data| - 22, target) == FindCentral(data, next, |data| - 22, target)
  {
    FinderIs(data, at, n, target);
    FinderIs(data, next, n + 1, target);
  }

  lemma FindRound(data: Bytes, at: nat, c: Central, target: Bytes)
    requires at + 46 <= |data| && at + 22 < |data| && Clamp(data, at + 46, Get16(data, at + 28)) == c.name
    ensures c.name != target ==>
      FindCentral(data, at, |data| - 22, target) == FindCentral(data, at + CentralSpan(data, at), |data| - 22, target)
    ensures c.name == target ==> FindCentral(data, at, |data| - 22, target) == Ok(at)
  {
  }

  /** The header at `at` of some data, as its fields read. */
  predicate ReadsAs(data: Bytes, at: nat, c: Central) {
    && at + 46 + |c.name| + |c.extra| + |c.comment| <= |data|
    && Get16(data, at + 28) == |c.name| && Get16(data, at + 30) == |c.extra| && Get16(data, at + 32) == |c.comment|
    && data[at + 46..at + 46 + |c.name|] == c.name
  }

  lemma NameRead(data: Bytes, at: nat, c: Central)
    requires ReadsAs(data, at, c)
    ensures Clamp(data, at + 46, Get16(data, at + 28)) == c.name
  {
  }

  lemma FindSkips(data: Bytes, at: nat, c: Central, target: Bytes, n: nat)
    requires ReadsAs(data, at, c) && at + 22 < |data| && c.name != target
    ensures Runs(Finder(target), data, at, n, data, at + 46 + |c.name| + |c.extra| + |c.comment|, n + 1)
  {
    NameRead(data, at, c);
    FindRound(data, at, c, target);
    FinderRuns(data, at, at + CentralSpan(data, at), n, target);
  }

  lemma FindHits(data: Bytes, at: nat, c: Central, target: Bytes)
    requires ReadsAs(data, at, c) && at + 22 < |data| && c.name == target
    ensures FindCentral(data, at, |data| - 22, target) == Ok(at)
  {
    NameRead(data, at, c);
    FindRound(data, at, c, target);
  }

  lemma PieceReads(done: Bytes, c: Central, rest: Bytes)
    requires CentralFits(c)
    ensures ReadsAs(done + CentralBytes(c) + rest, |done|, c)
  {
    CentralFields(done, c, rest);
  }

  lemma FindStep(c: Central, target: Bytes)
    requires CentralFits(c) && c.name != target
    ensures Step(Finder(target), CentralBytes(c), CentralBytes(c), 22)
  {
    forall done, rest, n | |rest| >= 22
      ensures Passes(Finder(target), done, CentralBytes(c), CentralBytes(c), rest, n, 1)
    {
      PieceReads(done, c, rest);
      FindSkips(done + CentralBytes(c) + rest, |done|, c, target, n);
    }
  }

  lemma FindSteps(cs: seq<Central>, target: Bytes)
    requires CentralsFit(cs) && forall k | 0 <= k < |cs| :: cs[k].name != target
    ensures Steps(Finder(target), CentralPieces(cs), CentralPieces(cs), 22)
  {
    forall k | 0 <= k < |cs|
      ensures Step(Finder(target), CentralPieces(cs)[k], CentralPieces(cs)[k], 22)
    {
      FindStep(cs[k], target);
    }
  }

  /** Past headers with other names. */
  lemma FindPasses(done: Bytes, cs: seq<Central>, rest: Bytes, target: Bytes)
    requires CentralsFit(cs) && |rest| >= 22 && forall k | 0 <= k < |cs| :: cs[k].name != target
    ensures Passes(Finder(target), done, PrintCentrals(cs), PrintCentrals(cs), rest, 0, |cs|)
  {
    FindSteps(cs, target);
    Walk(Finder(target), done, CentralPieces(cs), CentralPieces(cs), rest, 0, 22);
  }

  lemma FindFrom(data: Bytes, start: nat, at: nat, k: nat, target: Bytes)
    requires Runs(Finder(target), data, start, 0, data, at, k)
    ensures FindCentral(data, start, |data| - 22, target) == FindCentral(data, at, |data| - 22, target)
  {
    FinderIs(data, start, 0, target);
    FinderIs(data, at, k, target);
  }

  /** The search from `start` ends at `at`. */
  predicate FoundAt(p: Bytes, start: nat, at: nat, target: Bytes) {
    |p| >= 22 && at + 46 <= |p| && FindCentral(p, start, |p| - 22, target) == Ok(at)
  }

  predicate NowhereIn(p: Bytes, start: nat, target: Bytes) {
    |p| >= 22 && FindCentral(p, start, |p| - 22, target) == Err
  }

  lemma NotFound(done: Bytes, cs: seq<Central>, end: Bytes, target: Bytes)
    requires CentralsFit(cs) && |end| == 22 && forall k | 0 <= k < |cs| :: cs[k].name != target
    ensures NowhereIn(done + PrintCentrals(cs) + end, |done|, target)
  {
    FindPasses(done, cs, end, target);
    FindFrom(done + PrintCentrals(cs) + end, |done|, |done| + |PrintCentrals(cs)|, |cs|, target);
  }

  lemma Found(p: Bytes, at: nat, done: Bytes, before: seq<Central>, c: Central, rest: Bytes, target: Bytes)
    requires CentralsFit(before) && CentralFits(c) && |rest| >= 22 && c.name == target
    requires forall k | 0 <= k < |before| :: before[k].name != target
    requires p == done + PrintCentrals(before) + CentralBytes(c) + rest && at == |done| + |PrintCentrals(before)|
    ensures FoundAt(p, |done|, at, target)
  {
    FindPasses(done, before, CentralBytes(c) + rest, target);
    PieceReads(done + PrintCentrals(before), c, rest);
    Unchanged(Finder(target), done, PrintCentrals(before), CentralBytes(c), rest, |before|);
    FoundFrom(p, |done|, at, c, |before|, target);
  }

  lemma FoundFrom(p: Bytes, start: nat, at: nat, c: Central, k: nat, target: Bytes)
    requires Runs(Finder(target), p, start, 0, p, at, k) && c.name == target && ReadsAs(p, at, c) && at + 46 + 22 <= |p|
    ensures FoundAt(p, start, at, target)
  {
    FindFrom(p, start, at, k, target);
    FindHits(p, at, c, target);
  }

  // ---- inserting the field ----

  /** Bytes inserted before `d`, and `f` overwritten with `g`. */
  lemma InsertAndPut(done: Bytes, a: Bytes, f: Bytes, b: Bytes, d: Bytes, rest: Bytes, field: Bytes, g: Bytes)
    requires |f| == |g|
    ensures var p, at := done + (a + f + b + d) + rest, |done| + |a| + |f| + |b|;
      Put(p[..at] + field + p[at..], |done| + |a|, g) == done + (a + g + b + field + d) + rest
  {
    var p, at, before, after := done + (a + f + b + d) + rest, |done| + |a| + |f| + |b|, done + a + f + b, d + rest;
    RegroupFive(done, a, f, b, d, rest);
    assert p[..at] == before && p[at..] == after;
    RegroupSix(done, a, f, b, field, d, rest);
    RegroupSix(done, a, g, b, field, d, rest);
    PutMiddle(done + a, f, b + field + d + rest, g);
  }

  lemma RegroupFive(done: Bytes, a: Bytes, f: Bytes, b: Bytes, d: Bytes, rest: Bytes)
    ensures done + (a + f + b + d) + rest == (done + a + f + b) + (d + rest)
  {
  }

  lemma RegroupSix(done: Bytes, a: Bytes, f: Bytes, b: Bytes, field: Bytes, d: Bytes, rest: Bytes)
    ensures (done + a + f + b) + field + (d + rest) == (done + a) + f + (b + field + d + rest)
    ensures (done + a) + f + (b + field + d + rest) == done + (a + f + b + field + d) + rest
  {
  }

  /** A central header up to the length of its extra field. */
  function BeforeLength(c: Central): Bytes
    requires CentralFits(c)
  {
    CENTRAL_SIGNATURE + c.before + Le16(c.flags) + c.between + Le16(|c.name|)
  }

  /** A central header from there to its comment. */
  function AfterLength(c: Central): Bytes
    requires CentralFits(c)
  {
    Le16(|c.comment|) + c.after + c.name + c.extra
  }

  lemma AroundExtraLength(c: Central)
    requires CentralFits(c)
    ensures |BeforeLength(c)| == 30 && |AfterLength(c)| == 14 + |c.name| + |c.extra|
    ensures CentralBytes(c) == BeforeLength(c) + Le16(|c.extra|) + AfterLength(c) + c.comment
  {
  }

  lemma AroundExtended(c: Central, field: Bytes)
    requires CentralFits(c) && |c.extra| + |field| < 0x1_0000
    ensures CentralBytes(Extended(c, field)) == BeforeLength(c) + Le16(|c.extra| + |field|) + AfterLength(c) + field + c.comment
  {
    AroundExtraLength(Extended(c, field));
    assert AfterLength(Extended(c, field)) == AfterLength(c) + field;
    RegroupField(BeforeLength(c), Le16(|c.extra| + |field|), AfterLength(c), field, c.comment);
  }

  lemma RegroupField(a: Bytes, g: Bytes, b: Bytes, field: Bytes, d: Bytes)
    ensures a + g + (b + field) + d == a + g + b + field + d
  {
  }

  /** `grown` is `p` with the field put behind the extra fields of the header at `at`, their length corrected. */
  predicate Grows(p: Bytes, at: nat, name: nat, extra: nat, field: Bytes, grown: Bytes) {
    var i := at + 46 + name + extra;
    && i <= |p| && extra + |field| < 0x1_0000
    && grown == Put(p[..i] + field + p[i..], at + 30, Le16(extra + |field|))
  }

  /** The field inserted behind the extra fields, and the header's length field corrected. */
  lemma InsertGrows(done: Bytes, c: Central, rest: Bytes, field: Bytes)
    requires CentralFits(c) && |c.extra| + |field| < 0x1_0000
    ensures Grows(done + CentralBytes(c) + rest, |done|, |c.name|, |c.extra|, field, done + CentralBytes(Extended(c, field)) + rest)
  {
    AroundExtraLength(c);
    InsertAndPut(done, BeforeLength(c), Le16(|c.extra|), AfterLength(c), c.comment, rest, field, Le16(|c.extra| + |field|));
    AroundExtended(c, field);
  }

  lemma EndGrows(x: Bytes, counts: Bytes, size: int, offset: int, more: nat)
    requires |counts| == 8 && 0 <= size && size + more < 0x1_0000_0000 && 0 <= offset < 0x1_0000_0000
    ensures Put(x + EndRecord(counts, size, offset), |x| + 12, Le32(size + more)) == x + EndRecord(counts, size + more, offset)
  {
    var s := x + (END_SIGNATURE + counts);
    PutMiddle(s, Le32(size), Le32(offset) + [0, 0], Le32(size + more));
    assert x + EndRecord(counts, size, offset) == s + Le32(size) + (Le32(offset) + [0, 0]);
    assert x + EndRecord(counts, size + more, offset) == s + Le32(size + more) + (Le32(offset) + [0, 0]);
  }

  lemma EndGrowsAfter(x: Bytes, rest: Bytes, counts: Bytes, size: nat, offset: nat, more: nat)
    requires |counts| == 8 && size + more < 0x1_0000_0000 && offset < 0x1_0000_0000
    ensures Put(x + (rest + EndRecord(counts, size, offset)), |x| + |rest| + 12, Le32(size + more))
         == x + (rest + EndRecord(counts, size + more, offset))
  {
    EndGrows(x + rest, counts, size, offset, more);
    Together(x, rest, EndRecord(counts, size, offset));
    Together(x, rest, EndRecord(counts, size + more, offset));
  }

  lemma Together(a: Bytes, b: Bytes, c: Bytes)
    ensures a + (b + c) == a + b + c
  {
  }

  /** Inserting the field at `at` gives `out`. */
  predicate Inserts(p: Bytes, at: nat, size: nat, field: Bytes, out: Bytes) {
    && |p| >= 22 && at + 34 <= |p| && size < 0x1_0000_0000
    && InsertExtra(p, at, |p| - 22, size, field) == Ok(out)
  }

  lemma InsertIs(p: Bytes, at: nat, size: nat, name: nat, extra: nat, field: Bytes, grown: Bytes, out: Bytes)
    requires |p| >= 22 && at + 46 + name + extra <= |p| && size + |field| < 0x1_0000_0000 && extra + |field| < 0x1_0000
    requires Get16(p, at + 28) == name && Get16(p, at + 30) == extra
    requires Grows(p, at, name, extra, field, grown)
    requires out == Put(grown, |p| - 22 + |field| + 12, Le32(size + |field|))
    ensures Inserts(p, at, size, field, out)
  {
  }

  /** The edit of bytes made of the parts around the header. */
  lemma InsertParts(p: Bytes, out: Bytes, done: Bytes, c: Central, rest: Bytes, counts: Bytes, size: nat, offset: nat, field: Bytes)
    requires CentralFits(c) && |c.extra| + |field| < 0x1_0000 && |counts| == 8
    requires size + |field| < 0x1_0000_0000 && offset < 0x1_0000_0000
    requires p == done + CentralBytes(c) + (rest + EndRecord(counts, size, offset))
    requires out == done + CentralBytes(Extended(c, field)) + (rest + EndRecord(counts, size + |field|, offset))
    ensures Inserts(p, |done|, size, field, out)
  {
    var end, more := EndRecord(counts, size, offset), EndRecord(counts, size + |field|, offset);
    var x := done + CentralBytes(Extended(c, field));
    PieceReads(done, c, rest + end);
    InsertGrows(done, c, rest + end, field);
    EndGrowsAfter(x, rest, counts, size, offset, |field|);
    InsertIs(p, |done|, size, |c.name|, |c.extra|, field, x + (rest + end), out);
  }

  // ---- the whole archive ----

  /** Where the central header `i` lies. */
  function HeaderAt(a: Archive, i: nat): nat
    requires Fits(a) && i < |a.centrals|
  {
    |PrintLocals(a.locals)| + |PrintCentrals(a.centrals[..i])|
  }

  /** The end record gives the offset and the size of the central headers. */
  predicate EndGives(p: Bytes, start: nat, size: nat) {
    |p| >= 22 && Read32(p, |p| - 6) == Some(start) && Read32(p, |p| - 10) == Some(size) && size < 0x1_0000_0000
  }

  lemma EditFound(p: Bytes, start: nat, size: nat, at: nat, target: Bytes, replacement: Bytes, crc: Crc)
    requires EndGives(p, start, size) && FoundAt(p, start, at, target)
    ensures AddCentralExtra(p, target, replacement, crc) == ExtraAt(p, at, |p| - 22, size, target, replacement, crc)
  {
  }

  lemma EditNotFound(p: Bytes, start: nat, size: nat, target: Bytes, replacement: Bytes, crc: Crc)
    requires EndGives(p, start, size) && NowhereIn(p, start, target)
    ensures AddCentralExtra(p, target, replacement, crc) == Err
  {
  }

  lemma EndRead(x: Bytes, counts: Bytes, size: int, offset: int)
    requires |counts| == 8 && 0 <= size < 0x1_0000_0000 && 0 <= offset < 0x1_0000_0000
    ensures EndGives(x + EndRecord(counts, size, offset), offset, size)
  {
    EndFields(x, counts, size, offset);
  }

  lemma PrintEnd(a: Archive)
    requires Fits(a)
    ensures EndGives(Print(a), |PrintLocals(a.locals)|, |PrintCentrals(a.centrals)|)
  {
    EndRead(PrintLocals(a.locals) + PrintCentrals(a.centrals), a.counts, |PrintCentrals(a.centrals)|, |PrintLocals(a.locals)|);
  }

  lemma ExtraMissing(a: Archive, target: Bytes)
    requires Fits(a) && FirstNamed(a.centrals, target) == |a.centrals|
    ensures NowhereIn(Print(a), |PrintLocals(a.locals)|, target)
  {
    NotFound(PrintLocals(a.locals), a.centrals,
             EndRecord(a.counts, |PrintCentrals(a.centrals)|, |PrintLocals(a.locals)|), target);
  }

  /** The bytes around a central header. */
  lemma PrintAround(a: Archive, i: nat, end: Bytes)
    requires Fits(a) && i < |a.centrals|
    ensures CentralsFit(a.centrals[..i]) && CentralsFit(a.centrals[i + 1..])
    ensures PrintLocals(a.locals) + PrintCentrals(a.centrals) + end
         == PrintLocals(a.locals) + PrintCentrals(a.centrals[..i]) + CentralBytes(a.centrals[i])
            + (PrintCentrals(a.centrals[i + 1..]) + end)
  {
    CentralsSplit(a.centrals, i);
    Around(PrintLocals(a.locals), PrintCentrals(a.centrals[..i]), CentralBytes(a.centrals[i]),
           PrintCentrals(a.centrals[i + 1..]), end);
  }

  lemma Around(x: Bytes, b: Bytes, c: Bytes, d: Bytes, end: Bytes)
    ensures x + (b + c + d) + end == x + b + c + (d + end)
  {
  }

  lemma ExtraFound(a: Archive, target: Bytes)
    requires Fits(a) && FirstNamed(a.centrals, target) < |a.centrals|
    ensures FoundAt(Print(a), |PrintLocals(a.locals)|, HeaderAt(a, FirstNamed(a.centrals, target)), target)
  {
    var i := FirstNamed(a.centrals, target);
    PrintParts(a, i);
    Found(Print(a), HeaderAt(a, i), PrintLocals(a.locals), a.centrals[..i], a.centrals[i], RestAfter(a, i), target);
  }

  /** What follows central header `i`. */
  function RestAfter(a: Archive, i: nat): (rest: Bytes)
    requires Fits(a) && i < |a.centrals|
  {
    PrintCentrals(a.centrals[i + 1..]) + EndRecord(a.counts, |PrintCentrals(a.centrals)|, |PrintLocals(a.locals)|)
  }

  lemma PrintParts(a: Archive, i: nat)
    requires Fits(a) && i < |a.centrals|
    ensures CentralsFit(a.centrals[..i]) && CentralFits(a.centrals[i]) && |RestAfter(a, i)| >= 22
    ensures Print(a) == PrintLocals(a.locals) + PrintCentrals(a.centrals[..i]) + CentralBytes(a.centrals[i]) + RestAfter(a, i)
  {
    PrintAround(a, i, EndRecord(a.counts, |PrintCentrals(a.centrals)|, |PrintLocals(a.locals)|));
  }

  /** The parts of an extended archive around its extended header. */
  lemma ExtendedParts(a: Archive, i: nat, field: Bytes)
    requires Fits(a) && i < |a.centrals|
    requires |a.centrals[i].extra| + |field| < 0x1_0000 && |PrintCentrals(a.centrals)| + |field| < 0x1_0000_0000
    ensures var end := EndRecord(a.counts, |PrintCentrals(a.centrals)| + |field|, |PrintLocals(a.locals)|);
      CentralsFit(a.centrals[..i]) && CentralsFit(a.centrals[i + 1..])
      && Print(ExtendAt(a, i, field))
         == PrintLocals(a.locals) + PrintCentrals(a.centrals[..i]) + CentralBytes(Extended(a.centrals[i], field))
            + (PrintCentrals(a.centrals[i + 1..]) + end)
  {
    var b := ExtendAt(a, i, field);
    ExtendedPrint(a.centrals, i, field);
    PrintParts(b, i);
    assert b.centrals[..i] == a.centrals[..i] && b.centrals[i + 1..] == a.centrals[i + 1..];
  }

  lemma ExtraInserted(a: Archive, i: nat, field: Bytes)
    requires Fits(a) && i < |a.centrals|
    requires |a.centrals[i].extra| + |field| < 0x1_0000 && |PrintCentrals(a.centrals)| + |field| < 0x1_0000_0000
    ensures Inserts(Print(a), HeaderAt(a, i), |PrintCentrals(a.centrals)|, field, Print(ExtendAt(a, i, field)))
  {
    PrintParts(a, i);
    ExtendedParts(a, i, field);
    var done, rest := PrintLocals(a.locals) + PrintCentrals(a.centrals[..i]), PrintCentrals(a.centrals[i + 1..]);
    InsertParts(Print(a), Print(ExtendAt(a, i, field)), done, a.centrals[i], rest, a.counts,
                |PrintCentrals(a.centrals)|, |PrintLocals(a.locals)|, field);
    assert |done| == HeaderAt(a, i);
  }

  lemma HeaderRead(a: Archive, i: nat)
    requires Fits(a) && i < |a.centrals|
    ensures HeaderAt(a, i) + 34 <= |Print(a)| && Get16(Print(a), HeaderAt(a, i) + 30) == |a.centrals[i].extra|
  {
    var end := EndRecord(a.counts, |PrintCentrals(a.centrals)|, |PrintLocals(a.locals)|);
    PrintAround(a, i, end);
    CentralFields(PrintLocals(a.locals) + PrintCentrals(a.centrals[..i]), a.centrals[i], PrintCentrals(a.centrals[i + 1..]) + end);
  }

  /** The edit at the header found, in terms of the insertion. */
  lemma ExtraAtFound(p: Bytes, at: nat, size: nat, extra: nat, target: Bytes, replacement: Bytes, crc: Crc)
    requires |p| >= 22 && at + 34 <= |p| && size < 0x1_0000_0000 && Get16(p, at + 30) == extra
    ensures 5 + |replacement| >= 0x1_0000 ==> ExtraAt(p, at, |p| - 22, size, target, replacement, crc) == Err
    ensures 5 + |replacement| < 0x1_0000 ==>
      var field := UnicodePath(target, replacement, crc);
      ExtraAt(p, at, |p| - 22, size, target, replacement, crc) == InsertExtra(p, at, |p| - 22, size, field)
      && (extra + |field| >= 0x1_0000 || size + |field| >= 0x1_0000_0000 ==> InsertExtra(p, at, |p| - 22, size, field) == Err)
  {
  }

  function PrintResult(r: Result<Archive>): Result<Bytes>
    requires r.Ok? ==> Fits(r.value)
  {
    match r
    case Err => Err
    case Ok(b) => Ok(Print(b))
  }

  /** On the bytes of an archive, the edit appends the field to the extra fields of the first central
      header named `target`, keeps every length and the end record right, and changes nothing else; it is
      refused exactly when there is no such header or a length no longer fits its field. */
  lemma ExtraRefines(a: Archive, target: Bytes, replacement: Bytes, crc: Crc)
    requires Fits(a)
    ensures AddCentralExtra(Print(a), target, replacement, crc) == PrintResult(ExtraArchive(a, target, replacement, crc))
  {
    var i, start, size := FirstNamed(a.centrals, target), |PrintLocals(a.locals)|, |PrintCentrals(a.centrals)|;
    PrintEnd(a);
    if i == |a.centrals| {
      ExtraMissing(a, target);
      EditNotFound(Print(a), start, size, target, replacement, crc);
    } else {
      ExtraFound(a, target);
      EditFound(Print(a), start, size, HeaderAt(a, i), target, replacement, crc);
      ExtraAtHeader(a, i, target, replacement, crc);
    }
  }

  lemma ExtraAtHeader(a: Archive, i: nat, target: Bytes, replacement: Bytes, crc: Crc)
    requires Fits(a) && i == FirstNamed(a.centrals, target) < |a.centrals|
    ensures |Print(a)| >= 22 && HeaderAt(a, i) + 34 <= |Print(a)|
    ensures ExtraAt(Print(a), HeaderAt(a, i), |Print(a)| - 22, |PrintCentrals(a.centrals)|, target, replacement, crc)
         == PrintResult(ExtraArchive(a, target, replacement, crc))
  {
    HeaderRead(a, i);
    ExtraAtFound(Print(a), HeaderAt(a, i), |PrintCentrals(a.centrals)|, |a.centrals[i].extra|, target, replacement, crc);
    ExtraInsertedIfFits(a, i, target, replacement, crc);
  }

  lemma ExtraInsertedIfFits(a: Archive, i: nat, target: Bytes, replacement: Bytes, crc: Crc)
    requires Fits(a) && i == FirstNamed(a.centrals, target) < |a.centrals|
    ensures var r := ExtraArchive(a, target, replacement, crc);
      r.Ok? ==>
        && 5 + |replacement| < 0x1_0000 && Fits(r.value)
        && Inserts(Print(a), HeaderAt(a, i), |PrintCentrals(a.centrals)|, UnicodePath(target, replacement, crc), Print(r.value))
  {
    var r := ExtraArchive(a, target, replacement, crc);
    if r.Ok? {
      ExtraInserted(a, i, UnicodePath(target, replacement, crc));
    }
  }
}
