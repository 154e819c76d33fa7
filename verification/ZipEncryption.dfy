/** The encryption patch, as an edit of the archive it is applied to. */
module ZipEncryption {
  import opened Wrappers
  import opened Bytes
  import opened ZipArchive
  import opened ZipEdits
  import opened ZipWalk

  // ---- the encryption flag on every header ----

  function EncryptLocal(l: Local): (m: Local)
    requires LocalFits(l)
    ensures LocalFits(m)
  {
    l.(flags := Encrypted(l.flags))
  }

  function EncryptCentral(c: Central): (m: Central)
    requires CentralFits(c)
    ensures CentralFits(m)
  {
    c.(flags := Encrypted(c.flags))
  }

  function EncryptLocals(ls: seq<Local>): (ms: seq<Local>)
    requires LocalsFit(ls)
    ensures LocalsFit(ms) && |ms| == |ls| && forall i | 0 <= i < |ls| :: ms[i] == EncryptLocal(ls[i])
  {
    seq(|ls|, i requires 0 <= i < |ls| => EncryptLocal(ls[i]))
  }

  function EncryptCentrals(cs: seq<Central>): (ms: seq<Central>)
    requires CentralsFit(cs)
    ensures CentralsFit(ms) && |ms| == |cs| && forall i | 0 <= i < |cs| :: ms[i] == EncryptCentral(cs[i])
  {
    seq(|cs|, i requires 0 <= i < |cs| => EncryptCentral(cs[i]))
  }

  /** One round at a local header, given what its fields are. */
  lemma EncryptLocalAt(data: Bytes, at: nat, l: Local, marked: Bytes, n: nat)
    requires LocalFits(l) && at + 30 <= |data|
    requires data[at..at + 4] == LOCAL_SIGNATURE && Get16(data, at + 6) == l.flags && Get32(data, at + 18) == |l.data|
    requires Get16(data, at + 26) == |l.name| && Get16(data, at + 28) == |l.extra|
    requires marked == Put(data, at + 6, Le16(Encrypted(l.flags)))
    ensures EncryptFrom(data, at, n) == EncryptFrom(marked, at + |LocalBytes(l)|, n + 1)
  {
  }

  lemma EncryptCentralAt(data: Bytes, at: nat, c: Central, marked: Bytes, n: nat)
    requires CentralFits(c) && at + 34 <= |data|
    requires data[at..at + 4] == CENTRAL_SIGNATURE && Get16(data, at + 8) == c.flags
    requires Get16(data, at + 28) == |c.name| && Get16(data, at + 30) == |c.extra| && Get16(data, at + 32) == |c.comment|
    requires marked == Put(data, at + 8, Le16(Encrypted(c.flags)))
    ensures EncryptFrom(data, at, n) == EncryptFrom(marked, at + |CentralBytes(c)|, n)
  {
  }

  function Encrypter(): Walker<Result<Bytes>> {
    (data, at, n) => EncryptFrom(data, at, n)
  }

  function CentralEncrypter(patched: nat): Walker<Result<Bytes>> {
    (data, at, n) => EncryptFrom(data, at, patched)
  }

  lemma EncryptLocalPiece(done: Bytes, l: Local, rest: Bytes, n: nat)
    requires LocalFits(l)
    ensures Passes(Encrypter(), done, LocalBytes(l), LocalBytes(EncryptLocal(l)), rest, n, 1)
  {
    LocalFields(done, l, rest);
    PutLocalFlags(done, l, rest, Encrypted(l.flags));
    EncryptLocalOver(done, LocalBytes(l), LocalBytes(EncryptLocal(l)), rest, l, n);
  }

  lemma EncryptLocalOver(done: Bytes, x: Bytes, y: Bytes, rest: Bytes, l: Local, n: nat)
    requires LocalFits(l) && |x| == |y| == 30 + |l.name| + |l.extra| + |l.data|
    requires var s, at := done + x + rest, |done|;
      && s[at..at + 4] == LOCAL_SIGNATURE && Get16(s, at + 6) == l.flags && Get32(s, at + 18) == |l.data|
      && Get16(s, at + 26) == |l.name| && Get16(s, at + 28) == |l.extra|
    requires Put(done + x + rest, |done| + 6, Le16(Encrypted(l.flags))) == done + y + rest
    ensures Passes(Encrypter(), done, x, y, rest, n, 1)
  {
    EncryptLocalAt(done + x + rest, |done|, l, done + y + rest, n);
  }

  lemma EncryptCentralPiece(done: Bytes, c: Central, rest: Bytes, patched: nat, n: nat)
    requires CentralFits(c)
    ensures Passes(CentralEncrypter(patched), done, CentralBytes(c), CentralBytes(EncryptCentral(c)), rest, n, 1)
  {
    CentralFields(done, c, rest);
    PutCentralFlags(done, c, rest, Encrypted(c.flags));
    EncryptCentralOver(done, CentralBytes(c), CentralBytes(EncryptCentral(c)), rest, c, patched, n);
  }

  lemma EncryptCentralOver(done: Bytes, x: Bytes, y: Bytes, rest: Bytes, c: Central, patched: nat, n: nat)
    requires CentralFits(c) && |x| == |y| == 46 + |c.name| + |c.extra| + |c.comment|
    requires var s, at := done + x + rest, |done|;
      && s[at..at + 4] == CENTRAL_SIGNATURE && Get16(s, at + 8) == c.flags
      && Get16(s, at + 28) == |c.name| && Get16(s, at + 30) == |c.extra| && Get16(s, at + 32) == |c.comment|
    requires Put(done + x + rest, |done| + 8, Le16(Encrypted(c.flags))) == done + y + rest
    ensures Passes(CentralEncrypter(patched), done, x, y, rest, n, 1)
  {
    EncryptCentralAt(done + x + rest, |done|, c, done + y + rest, patched);
  }

  lemma EncryptLocalStep(l: Local)
    requires LocalFits(l)
    ensures Step(Encrypter(), LocalBytes(l), LocalBytes(EncryptLocal(l)), 0)
  {
    forall done, rest, n
      ensures Passes(Encrypter(), done, LocalBytes(l), LocalBytes(EncryptLocal(l)), rest, n, 1)
    {
      EncryptLocalPiece(done, l, rest, n);
    }
  }

  lemma EncryptCentralStep(c: Central, patched: nat)
    requires CentralFits(c)
    ensures Step(CentralEncrypter(patched), CentralBytes(c), CentralBytes(EncryptCentral(c)), 0)
  {
    forall done, rest, n
      ensures Passes(CentralEncrypter(patched), done, CentralBytes(c), CentralBytes(EncryptCentral(c)), rest, n, 1)
    {
      EncryptCentralPiece(done, c, rest, patched, n);
    }
  }

  lemma EncryptedSizes(ls: seq<Local>, cs: seq<Central>)
    requires LocalsFit(ls) && CentralsFit(cs)
    ensures |PrintLocals(EncryptLocals(ls))| == |PrintLocals(ls)|
    ensures |PrintCentrals(EncryptCentrals(cs))| == |PrintCentrals(cs)|
  {
    SameLength(LocalPieces(ls), LocalPieces(EncryptLocals(ls)));
    SameLength(CentralPieces(cs), CentralPieces(EncryptCentrals(cs)));
  }

  function EncryptArchive(a: Archive): (b: Archive)
    requires Fits(a)
    ensures Fits(b)
  {
    EncryptedSizes(a.locals, a.centrals);
    Archive(EncryptLocals(a.locals), EncryptCentrals(a.centrals), a.counts)
  }

  lemma EncryptLocalSteps(ls: seq<Local>)
    requires LocalsFit(ls)
    ensures Steps(Encrypter(), LocalPieces(ls), LocalPieces(EncryptLocals(ls)), 0)
  {
    forall i | 0 <= i < |ls|
      ensures Step(Encrypter(), LocalPieces(ls)[i], LocalPieces(EncryptLocals(ls))[i], 0)
    {
      EncryptLocalStep(ls[i]);
    }
  }

  lemma EncryptCentralSteps(cs: seq<Central>, patched: nat)
    requires CentralsFit(cs)
    ensures Steps(CentralEncrypter(patched), CentralPieces(cs), CentralPieces(EncryptCentrals(cs)), 0)
  {
    forall i | 0 <= i < |cs|
      ensures Step(CentralEncrypter(patched), CentralPieces(cs)[i], CentralPieces(EncryptCentrals(cs))[i], 0)
    {
      EncryptCentralStep(cs[i], patched);
    }
  }

  lemma EncryptLocalsWalk(ls: seq<Local>, rest: Bytes)
    requires LocalsFit(ls)
    ensures PassesFirst(Encrypter(), PrintLocals(ls), PrintLocals(EncryptLocals(ls)), rest, |ls|)
  {
    EncryptLocalSteps(ls);
    WalkFromStart(Encrypter(), LocalPieces(ls), LocalPieces(EncryptLocals(ls)), rest, 0);
  }

  lemma EncryptCentralsWalk(done: Bytes, cs: seq<Central>, rest: Bytes, patched: nat)
    requires CentralsFit(cs)
    ensures Passes(CentralEncrypter(patched), done, PrintCentrals(cs), PrintCentrals(EncryptCentrals(cs)), rest, 0, |cs|)
  {
    EncryptCentralSteps(cs, patched);
    Walk(CentralEncrypter(patched), done, CentralPieces(cs), CentralPieces(EncryptCentrals(cs)), rest, 0, 0);
  }

  lemma EncryptEnd(done: Bytes, counts: Bytes, size: int, offset: int, n: nat)
    requires |counts| == 8 && 0 <= size < 0x1_0000_0000 && 0 <= offset < 0x1_0000_0000
    ensures EncryptFrom(done + EndRecord(counts, size, offset), |done|, n) == Finished(done + EndRecord(counts, size, offset), n)
  {
    EndFields(done, counts, size, offset);
  }

  lemma Same(n: nat)
    ensures Agree(Encrypter(), CentralEncrypter(n), n)
  {
  }

  lemma Encrypts(data: Bytes, at: nat, patched: nat, n: nat)
    ensures Encrypter()(data, at, patched) == EncryptFrom(data, at, patched) == CentralEncrypter(patched)(data, at, n)
  {
  }

  /** The walk over all headers, up to the end record. */
  lemma EncryptWalks(a: Archive, end: Bytes)
    requires Fits(a)
    ensures var b := EncryptArchive(a);
      PassesBoth(Encrypter(), CentralEncrypter(|a.locals|), PrintLocals(a.locals), PrintLocals(b.locals),
                 PrintCentrals(a.centrals), PrintCentrals(b.centrals), end, |a.centrals|)
  {
    var b, n := EncryptArchive(a), |a.locals|;
    var x, y, x1, y1 := PrintLocals(a.locals), PrintCentrals(a.centrals), PrintLocals(b.locals), PrintCentrals(b.centrals);
    EncryptLocalsWalk(a.locals, y + end);
    EncryptCentralsWalk(x1, a.centrals, end, n);
    Same(n);
    Compose(Encrypter(), CentralEncrypter(n), x, x1, y, y1, end, n, |a.centrals|);
  }

  /** On the bytes of an archive with at least one local header the walk sets the encryption bit of every
      local and central header and changes nothing else; without local headers it is refused. */
  lemma EncryptRefines(a: Archive)
    requires Fits(a)
    ensures EncryptFrom(Print(a), 0, 0) == if a.locals == [] then Err else Ok(Print(EncryptArchive(a)))
  {
    var b, n := EncryptArchive(a), |a.locals|;
    EncryptedSizes(a.locals, a.centrals);
    var end := EndRecord(a.counts, |PrintCentrals(a.centrals)|, |PrintLocals(a.locals)|);
    var x1, y1 := PrintLocals(b.locals), PrintCentrals(b.centrals);
    EncryptWalks(a, end);
    Encrypts(Print(a), 0, 0, 0);
    Encrypts(x1 + y1 + end, |x1| + |y1|, n, |a.centrals|);
    EncryptEnd(x1 + y1, a.counts, |PrintCentrals(a.centrals)|, |PrintLocals(a.locals)|, n);
  }
}
