/** Stored ZIP archives without data descriptors and without a comment, and their bytes
    (APPNOTE sections 4.3.7, 4.3.12 and 4.3.16). */
module ZipArchive {
  import opened Bytes

  /** A local file header and its data. `before` is the version field, `between` the fields from the
      compression method to the CRC, `size` the uncompressed size. */
  datatype Local = Local(before: Bytes, flags: int, between: Bytes, size: Bytes, name: Bytes, extra: Bytes, data: Bytes)

  /** A central header. `before` holds both versions, `between` the fields from the compression method to
      the sizes, `after` those from the disk number to the local header offset. */
  datatype Central =
    Central(before: Bytes, flags: int, between: Bytes, after: Bytes, name: Bytes, extra: Bytes, comment: Bytes)

  /** `counts` are the disk numbers and entry counts of the end record. */
  datatype Archive = Archive(locals: seq<Local>, centrals: seq<Central>, counts: Bytes)

  const LOCAL_SIGNATURE: Bytes := [0x50, 0x4B, 3, 4]
  const CENTRAL_SIGNATURE: Bytes := [0x50, 0x4B, 1, 2]
  const END_SIGNATURE: Bytes := [0x50, 0x4B, 5, 6]

  predicate LocalFits(l: Local) {
    && |l.before| == 2 && 0 <= l.flags < 0x1_0000 && |l.between| == 10 && |l.size| == 4
    && |l.name| < 0x1_0000 && |l.extra| < 0x1_0000 && |l.data| < 0x1_0000_0000
  }

  predicate CentralFits(c: Central) {
    && |c.before| == 4 && 0 <= c.flags < 0x1_0000 && |c.between| == 18 && |c.after| == 12
    && |c.name| < 0x1_0000 && |c.extra| < 0x1_0000 && |c.comment| < 0x1_0000
  }

  function LocalHead(l: Local): (b: Bytes)
    requires LocalFits(l)
    ensures |b| == 30
  {
    LOCAL_SIGNATURE + l.before + Le16(l.flags) + l.between + Le32(|l.data|) + l.size + Le16(|l.name|) + Le16(|l.extra|)
  }

  function LocalBytes(l: Local): (b: Bytes)
    requires LocalFits(l)
    ensures |b| == 30 + |l.name| + |l.extra| + |l.data|
  {
    LocalHead(l) + l.name + l.extra + l.data
  }

  function CentralHead(c: Central): (b: Bytes)
    requires CentralFits(c)
    ensures |b| == 46
  {
    CENTRAL_SIGNATURE + c.before + Le16(c.flags) + c.between
    + Le16(|c.name|) + Le16(|c.extra|) + Le16(|c.comment|) + c.after
  }

  function CentralBytes(c: Central): (b: Bytes)
    requires CentralFits(c)
    ensures |b| == 46 + |c.name| + |c.extra| + |c.comment|
  {
    CentralHead(c) + c.name + c.extra + c.comment
  }

  predicate LocalsFit(ls: seq<Local>) {
    forall i | 0 <= i < |ls| :: LocalFits(ls[i])
  }

  predicate CentralsFit(cs: seq<Central>) {
    forall i | 0 <= i < |cs| :: CentralFits(cs[i])
  }

  function Concat(pieces: seq<Bytes>): Bytes {
    if pieces == [] then [] else pieces[0] + Concat(pieces[1..])
  }

  function LocalPieces(ls: seq<Local>): (pieces: seq<Bytes>)
    requires LocalsFit(ls)
    ensures |pieces| == |ls| && forall i | 0 <= i < |ls| :: pieces[i] == LocalBytes(ls[i])
  {
    seq(|ls|, i requires 0 <= i < |ls| => LocalBytes(ls[i]))
  }

  function CentralPieces(cs: seq<Central>): (pieces: seq<Bytes>)
    requires CentralsFit(cs)
    ensures |pieces| == |cs| && forall i | 0 <= i < |cs| :: pieces[i] == CentralBytes(cs[i])
  {
    seq(|cs|, i requires 0 <= i < |cs| => CentralBytes(cs[i]))
  }

  function PrintLocals(ls: seq<Local>): Bytes
    requires LocalsFit(ls)
  {
    Concat(LocalPieces(ls))
  }

  function PrintCentrals(cs: seq<Central>): Bytes
    requires CentralsFit(cs)
  {
    Concat(CentralPieces(cs))
  }

  predicate Fits(a: Archive) {
    && LocalsFit(a.locals) && CentralsFit(a.centrals) && |a.counts| == 8
    && |PrintLocals(a.locals)| < 0x1_0000_0000 && |PrintCentrals(a.centrals)| < 0x1_0000_0000
  }

  function EndRecord(counts: Bytes, size: int, offset: int): (b: Bytes)
    requires |counts| == 8 && 0 <= size < 0x1_0000_0000 && 0 <= offset < 0x1_0000_0000
    ensures |b| == 22
  {
    END_SIGNATURE + counts + Le32(size) + Le32(offset) + [0, 0]
  }

  /** Locals, centrals, and an end record that gives the size and the offset of the centrals. */
  function Print(a: Archive): Bytes
    requires Fits(a)
  {
    PrintLocals(a.locals) + PrintCentrals(a.centrals)
    + EndRecord(a.counts, |PrintCentrals(a.centrals)|, |PrintLocals(a.locals)|)
  }

  // ---- fields seen inside a longer byte string ----

  lemma Inside(a: Bytes, b: Bytes, c: Bytes, i: nat, j: nat)
    requires i <= j <= |b|
    ensures (a + b + c)[|a| + i..|a| + j] == b[i..j]
  {
  }

  /** The fields of the local header that lies between `a` and `c`. */
  lemma LocalFields(a: Bytes, l: Local, c: Bytes)
    requires LocalFits(l)
    ensures var s, at := a + LocalBytes(l) + c, |a|;
      && s[at..at + 4] == LOCAL_SIGNATURE && Get16(s, at + 6) == l.flags && Get32(s, at + 18) == |l.data|
      && Get16(s, at + 26) == |l.name| && Get16(s, at + 28) == |l.extra|
      && s[at + 30..at + 30 + |l.name|] == l.name
  {
    var b, s, at := LocalBytes(l), a + LocalBytes(l) + c, |a|;
    HeadOfLocal(l);
    Inside(a, b, c, 0, 4);
    Inside(a, b, c, 6, 8);
    Inside(a, b, c, 18, 22);
    Inside(a, b, c, 26, 28);
    Inside(a, b, c, 28, 30);
    Inside(a, b, c, 30, 30 + |l.name|);
    Get16Of(s, at + 6, l.flags);
    Get32Of(s, at + 18, |l.data|);
    Get16Of(s, at + 26, |l.name|);
    Get16Of(s, at + 28, |l.extra|);
  }

  lemma HeadOfLocal(l: Local)
    requires LocalFits(l)
    ensures var b := LocalBytes(l);
      && b[0..4] == LOCAL_SIGNATURE && b[6..8] == Le16(l.flags) && b[18..22] == Le32(|l.data|)
      && b[26..28] == Le16(|l.name|) && b[28..30] == Le16(|l.extra|) && b[30..30 + |l.name|] == l.name
  {
    var h := LocalHead(l);
    assert h[0..4] == LOCAL_SIGNATURE && h[6..8] == Le16(l.flags) && h[18..22] == Le32(|l.data|)
        && h[26..28] == Le16(|l.name|) && h[28..30] == Le16(|l.extra|);
  }

  /** The fields of the central header that lies between `a` and `c`. */
  lemma CentralFields(a: Bytes, e: Central, c: Bytes)
    requires CentralFits(e)
    ensures var s, at := a + CentralBytes(e) + c, |a|;
      && s[at..at + 4] == CENTRAL_SIGNATURE && Get16(s, at + 8) == e.flags
      && Get16(s, at + 28) == |e.name| && Get16(s, at + 30) == |e.extra| && Get16(s, at + 32) == |e.comment|
      && s[at + 46..at + 46 + |e.name|] == e.name
  {
    var b, s, at := CentralBytes(e), a + CentralBytes(e) + c, |a|;
    HeadOfCentral(e);
    Inside(a, b, c, 0, 4);
    Inside(a, b, c, 8, 10);
    Inside(a, b, c, 28, 30);
    Inside(a, b, c, 30, 32);
    Inside(a, b, c, 32, 34);
    Inside(a, b, c, 46, 46 + |e.name|);
    Get16Of(s, at + 8, e.flags);
    Get16Of(s, at + 28, |e.name|);
    Get16Of(s, at + 30, |e.extra|);
    Get16Of(s, at + 32, |e.comment|);
  }

  lemma HeadOfCentral(e: Central)
    requires CentralFits(e)
    ensures var b := CentralBytes(e);
      && b[0..4] == CENTRAL_SIGNATURE && b[8..10] == Le16(e.flags)
      && b[28..30] == Le16(|e.name|) && b[30..32] == Le16(|e.extra|) && b[32..34] == Le16(|e.comment|)
      && b[46..46 + |e.name|] == e.name
  {
    var h := CentralHead(e);
    assert h[0..4] == CENTRAL_SIGNATURE && h[8..10] == Le16(e.flags)
        && h[28..30] == Le16(|e.name|) && h[30..32] == Le16(|e.extra|) && h[32..34] == Le16(|e.comment|);
  }

  lemma EndFields(a: Bytes, counts: Bytes, size: int, offset: int)
    requires |counts| == 8 && 0 <= size < 0x1_0000_0000 && 0 <= offset < 0x1_0000_0000
    ensures var s, at := a + EndRecord(counts, size, offset), |a|;
      s[at..at + 4] == END_SIGNATURE && Get32(s, at + 12) == size && Get32(s, at + 16) == offset
  {
    var b := EndRecord(counts, size, offset);
    var s, at := a + b, |a|;
    assert b[0..4] == END_SIGNATURE && b[12..16] == Le32(size) && b[16..20] == Le32(offset);
    assert s[at..at + 4] == b[0..4] && s[at + 12..at + 16] == b[12..16] && s[at + 16..at + 20] == b[16..20];
    Get32Of(s, at + 12, size);
    Get32Of(s, at + 16, offset);
  }

  // ---- fields written inside a longer byte string ----

  lemma PutInside(a: Bytes, b: Bytes, c: Bytes, i: nat, x: Bytes)
    requires i + |x| <= |b|
    ensures Put(a + b + c, |a| + i, x) == a + Put(b, i, x) + c
  {
  }

  lemma PutMiddle(a: Bytes, f: Bytes, b: Bytes, g: Bytes)
    requires |f| == |g|
    ensures Put(a + f + b, |a|, g) == a + g + b
  {
  }

  lemma LocalAroundFlags(l: Local)
    requires LocalFits(l)
    ensures LocalBytes(l) == (LOCAL_SIGNATURE + l.before) + Le16(l.flags)
      + (l.between + Le32(|l.data|) + l.size + Le16(|l.name|) + Le16(|l.extra|) + l.name + l.extra + l.data)
  {
  }

  lemma CentralAroundFlags(c: Central)
    requires CentralFits(c)
    ensures CentralBytes(c) == (CENTRAL_SIGNATURE + c.before) + Le16(c.flags)
      + (c.between + Le16(|c.name|) + Le16(|c.extra|) + Le16(|c.comment|) + c.after + c.name + c.extra + c.comment)
  {
  }

  lemma PutLocalFlags(a: Bytes, l: Local, c: Bytes, flags: int)
    requires LocalFits(l) && 0 <= flags < 0x1_0000
    ensures Put(a + LocalBytes(l) + c, |a| + 6, Le16(flags)) == a + LocalBytes(l.(flags := flags)) + c
  {
    PutInside(a, LocalBytes(l), c, 6, Le16(flags));
    LocalAroundFlags(l);
    LocalAroundFlags(l.(flags := flags));
    PutMiddle(LOCAL_SIGNATURE + l.before, Le16(l.flags),
              l.between + Le32(|l.data|) + l.size + Le16(|l.name|) + Le16(|l.extra|) + l.name + l.extra + l.data,
              Le16(flags));
  }

  lemma PutCentralFlags(a: Bytes, e: Central, c: Bytes, flags: int)
    requires CentralFits(e) && 0 <= flags < 0x1_0000
    ensures Put(a + CentralBytes(e) + c, |a| + 8, Le16(flags)) == a + CentralBytes(e.(flags := flags)) + c
  {
    PutInside(a, CentralBytes(e), c, 8, Le16(flags));
    CentralAroundFlags(e);
    CentralAroundFlags(e.(flags := flags));
    PutMiddle(CENTRAL_SIGNATURE + e.before, Le16(e.flags),
              e.between + Le16(|e.name|) + Le16(|e.extra|) + Le16(|e.comment|) + e.after + e.name + e.extra + e.comment,
              Le16(flags));
  }
}
