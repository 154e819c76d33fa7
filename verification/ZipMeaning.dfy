/** What the three edits mean, without naming how they are computed: which bits of which headers change, and
    what the bytes of headers are. */
module ZipMeaning {
  import opened Wrappers
  import opened Bytes
  import opened ZipArchive
  import opened ZipEdits
  import opened ZipEncryption
  import opened ZipNames
  import opened ZipExtra

  // ---- the bytes of headers ----

  /** A local header at `at`: signature, version, flags, the fields up to the CRC, both sizes, the lengths of name
      and extra field; then name, extra field and data. */
  lemma LocalFormat(l: Local)
    requires LocalFits(l)
    ensures var b := LocalBytes(l);
      && |b| == 30 + |l.name| + |l.extra| + |l.data|
      && b[0..4] == [0x50, 0x4B, 3, 4] && b[4..6] == l.before && Get16(b, 6) == l.flags && b[8..18] == l.between
      && Get32(b, 18) == |l.data| && b[22..26] == l.size && Get16(b, 26) == |l.name| && Get16(b, 28) == |l.extra|
      && b[30..30 + |l.name|] == l.name && b[30 + |l.name|..30 + |l.name| + |l.extra|] == l.extra
      && b[30 + |l.name| + |l.extra|..] == l.data
  {
    var b := LocalBytes(l);
    assert b[..30] == LocalHead(l);
    assert b[6..8] == Le16(l.flags) && b[18..22] == Le32(|l.data|) && b[26..28] == Le16(|l.name|) && b[28..30] == Le16(|l.extra|);
    Get16Of(b, 6, l.flags);
    Get32Of(b, 18, |l.data|);
    Get16Of(b, 26, |l.name|);
    Get16Of(b, 28, |l.extra|);
  }

  lemma CentralFormat(c: Central)
    requires CentralFits(c)
    ensures var b := CentralBytes(c);
      && |b| == 46 + |c.name| + |c.extra| + |c.comment|
      && b[0..4] == [0x50, 0x4B, 1, 2] && b[4..8] == c.before && Get16(b, 8) == c.flags && b[10..28] == c.between
      && Get16(b, 28) == |c.name| && Get16(b, 30) == |c.extra| && Get16(b, 32) == |c.comment| && b[34..46] == c.after
      && b[46..46 + |c.name|] == c.name && b[46 + |c.name|..46 + |c.name| + |c.extra|] == c.extra
      && b[46 + |c.name| + |c.extra|..] == c.comment
  {
    var b := CentralBytes(c);
    assert b[..46] == CentralHead(c);
    assert b[8..10] == Le16(c.flags) && b[28..30] == Le16(|c.name|) && b[30..32] == Le16(|c.extra|) && b[32..34] == Le16(|c.comment|);
    Get16Of(b, 8, c.flags);
    Get16Of(b, 28, |c.name|);
    Get16Of(b, 30, |c.extra|);
    Get16Of(b, 32, |c.comment|);
  }

  lemma EndFormat(counts: Bytes, size: int, offset: int)
    requires |counts| == 8 && 0 <= size < 0x1_0000_0000 && 0 <= offset < 0x1_0000_0000
    ensures var b := EndRecord(counts, size, offset);
      && |b| == 22 && b[0..4] == [0x50, 0x4B, 5, 6] && b[4..12] == counts
      && Get32(b, 12) == size && Get32(b, 16) == offset && b[20..22] == [0, 0]
  {
    var b := EndRecord(counts, size, offset);
    assert b[12..16] == Le32(size) && b[16..20] == Le32(offset);
    Get32Of(b, 12, size);
    Get32Of(b, 16, offset);
  }

  // ---- one bit of the flags ----

  /** `after` is `before` with the bit of the given weight set, and every other bit as it was. */
  predicate BitSet(before: int, after: int, weight: nat)
    requires weight > 0
  {
    && after / weight % 2 == 1
    && after % weight == before % weight && after / (2 * weight) == before / (2 * weight)
  }

  lemma BitMarked(flags: int)
    requires 0 <= flags < 0x1_0000
    ensures BitSet(flags, Encrypted(flags), 1)
  {
  }

  // ---- the encryption patch ----

  predicate LocalMarked(l: Local, m: Local) {
    m == l.(flags := m.flags) && BitSet(l.flags, m.flags, 1)
  }

  predicate CentralMarked(c: Central, m: Central) {
    m == c.(flags := m.flags) && BitSet(c.flags, m.flags, 1)
  }

  /** Bit 0 of every header is set; nothing else changes. */
  predicate FlagsMarked(a: Archive, b: Archive) {
    && |b.locals| == |a.locals| && |b.centrals| == |a.centrals| && b.counts == a.counts
    && (forall i | 0 <= i < |a.locals| :: LocalMarked(a.locals[i], b.locals[i]))
    && (forall i | 0 <= i < |a.centrals| :: CentralMarked(a.centrals[i], b.centrals[i]))
  }

  lemma HeadersMarked(a: Archive)
    requires Fits(a)
    ensures FlagsMarked(a, EncryptArchive(a))
  {
    var b := EncryptArchive(a);
    forall i | 0 <= i < |a.locals|
      ensures LocalMarked(a.locals[i], b.locals[i])
    {
      assert b.locals[i] == EncryptLocal(a.locals[i]);
      BitMarked(a.locals[i].flags);
    }
    forall i | 0 <= i < |a.centrals|
      ensures CentralMarked(a.centrals[i], b.centrals[i])
    {
      assert b.centrals[i] == EncryptCentral(a.centrals[i]);
      BitMarked(a.centrals[i].flags);
    }
  }

  /** On the bytes of an archive the patch sets bit 0 of every local and central header and changes nothing else;
      without local headers it is refused. */
  lemma EncryptionMarks(a: Archive)
    requires Fits(a)
    ensures a.locals == [] ==> EncryptFrom(Print(a), 0, 0) == Err
    ensures a.locals != [] ==>
      exists b | Fits(b) :: EncryptFrom(Print(a), 0, 0) == Ok(Print(b)) && FlagsMarked(a, b)
  {
    EncryptRefines(a);
    HeadersMarked(a);
    var b := EncryptArchive(a);
    assert Fits(b) && FlagsMarked(a, b);
  }

  /** Whatever follows the headers: without another record, or at an end record, the patch is done; any other record
      is refused. */
  lemma EncryptionEnds(a: Archive, rest: Bytes)
    requires Fits(a) && (|rest| >= 4 ==> rest[..4] != [0x50, 0x4B, 3, 4] && rest[..4] != [0x50, 0x4B, 1, 2])
    ensures a.locals == [] || (|rest| >= 4 && rest[..4] != [0x50, 0x4B, 5, 6]) ==>
      EncryptFrom(PrintLocals(a.locals) + PrintCentrals(a.centrals) + rest, 0, 0) == Err
    ensures a.locals != [] && (|rest| >= 4 ==> rest[..4] == [0x50, 0x4B, 5, 6]) ==>
      exists b | Fits(b) :: FlagsMarked(a, b)
        && EncryptFrom(PrintLocals(a.locals) + PrintCentrals(a.centrals) + rest, 0, 0)
           == Ok(PrintLocals(b.locals) + PrintCentrals(b.centrals) + rest)
  {
    var b, n := EncryptArchive(a), |a.locals|;
    var done := PrintLocals(b.locals) + PrintCentrals(b.centrals);
    HeadersMarked(a);
    EncryptWalks(a, rest);
    Encrypts(PrintLocals(a.locals) + PrintCentrals(a.centrals) + rest, 0, 0, 0);
    Encrypts(done + rest, |done|, n, |a.centrals|);
    EndOfWalk(done, rest, n);
    assert Fits(b) && FlagsMarked(a, b);
  }

  lemma EndOfWalk(done: Bytes, rest: Bytes, n: nat)
    requires |rest| >= 4 ==> rest[..4] != [0x50, 0x4B, 3, 4] && rest[..4] != [0x50, 0x4B, 1, 2]
    ensures EncryptFrom(done + rest, |done|, n)
         == if n == 0 || (|rest| >= 4 && rest[..4] != [0x50, 0x4B, 5, 6]) then Err else Ok(done + rest)
  {
    if |rest| >= 4 {
      assert (done + rest)[|done|..|done| + 4] == rest[..4];
    }
  }

  // ---- the invalid name ----

  /** Name and flags after the edit of a header named the target: the first byte of the name is 0xFF, bit 11 is set. */
  predicate Invalidated(name: Bytes, flags: int, newName: Bytes, newFlags: int) {
    && name != [] && |newName| == |name| && newName[0] == 0xFF && newName[1..] == name[1..]
    && BitSet(flags, newFlags, 0x800)
  }

  predicate LocalInvalidated(l: Local, m: Local, target: Bytes) {
    if l.name == target then m == l.(flags := m.flags, name := m.name) && Invalidated(l.name, l.flags, m.name, m.flags)
    else m == l
  }

  predicate CentralInvalidated(c: Central, m: Central, target: Bytes) {
    if c.name == target then m == c.(flags := m.flags, name := m.name) && Invalidated(c.name, c.flags, m.name, m.flags)
    else m == c
  }

  /** Every header named the target is invalidated; nothing else changes. */
  predicate NamesInvalidated(a: Archive, b: Archive, target: Bytes) {
    && |b.locals| == |a.locals| && |b.centrals| == |a.centrals| && b.counts == a.counts
    && (forall i | 0 <= i < |a.locals| :: LocalInvalidated(a.locals[i], b.locals[i], target))
    && (forall i | 0 <= i < |a.centrals| :: CentralInvalidated(a.centrals[i], b.centrals[i], target))
  }

  lemma SpoiltName(name: Bytes, flags: int)
    requires name != [] && 0 <= flags < 0x1_0000
    ensures Invalidated(name, flags, Spoilt(name), Utf8Named(flags))
  {
    assert Spoilt(name)[1..] == name[1..];
  }

  lemma HeadersInvalidated(a: Archive, target: Bytes)
    requires Fits(a) && target != []
    ensures NamesInvalidated(a, SpoilArchive(a, target), target)
  {
    var b := SpoilArchive(a, target);
    forall i | 0 <= i < |a.locals|
      ensures LocalInvalidated(a.locals[i], b.locals[i], target)
    {
      assert b.locals[i] == SpoilLocal(a.locals[i], target);
      SpoiltName(target, a.locals[i].flags);
    }
    forall i | 0 <= i < |a.centrals|
      ensures CentralInvalidated(a.centrals[i], b.centrals[i], target)
    {
      assert b.centrals[i] == SpoilCentral(a.centrals[i], target);
      SpoiltName(target, a.centrals[i].flags);
    }
  }

  /** For a target that is not empty the edit invalidates every local and central header of that name, in the same
      way, and changes nothing else. */
  lemma NameInvalidates(a: Archive, target: Bytes)
    requires Fits(a) && target != []
    ensures exists b | Fits(b) :: SpoilName(Print(a), target) == Ok(Print(b)) && NamesInvalidated(a, b, target)
  {
    SpoilRefines(a, target);
    HeadersInvalidated(a, target);
    var b := SpoilArchive(a, target);
    assert Fits(b) && NamesInvalidated(a, b, target);
  }

  // ---- the central extra field ----

  /** A Unicode Path field: header identifier, length, version 1, the CRC-32 of the old name, the new name. */
  predicate IsUnicodePath(field: Bytes, target: Bytes, replacement: Bytes, crc: Crc) {
    && |field| == 9 + |replacement|
    && field[0..2] == [0x75, 0x70] && Get16(field, 2) == 5 + |replacement| && field[4] == 1
    && Get32(field, 5) == crc(target) && field[9..] == replacement
  }

  lemma UnicodePathFormat(target: Bytes, replacement: Bytes, crc: Crc)
    requires 5 + |replacement| < 0x1_0000
    ensures IsUnicodePath(UnicodePath(target, replacement, crc), target, replacement, crc)
  {
    var field := UnicodePath(target, replacement, crc);
    assert field[0..2] == Le16(0x7075) && field[2..4] == Le16(5 + |replacement|) && field[5..9] == Le32(crc(target));
    Get16Of(field, 2, 5 + |replacement|);
    Get32Of(field, 5, crc(target));
  }

  /** Header `i`, the first of that name, has the field behind its extra fields; nothing else changes. */
  predicate FieldAdded(a: Archive, b: Archive, i: nat, field: Bytes, target: Bytes) {
    && i < |a.centrals| && a.centrals[i].name == target && (forall k | 0 <= k < i :: a.centrals[k].name != target)
    && b.locals == a.locals && b.counts == a.counts && |b.centrals| == |a.centrals|
    && b.centrals[i] == a.centrals[i].(extra := a.centrals[i].extra + field)
    && forall k | 0 <= k < |a.centrals| && k != i :: b.centrals[k] == a.centrals[k]
  }

  /** The edit adds the field to the first header of that name, and is refused exactly when there is none or when
      the field, the extra fields or the central headers become too long for their length fields. */
  lemma ExtraAdds(a: Archive, target: Bytes, replacement: Bytes, crc: Crc)
    requires Fits(a)
    ensures match AddCentralExtra(Print(a), target, replacement, crc)
      case Ok(out) =>
        exists b, i, field | Fits(b) ::
          out == Print(b) && FieldAdded(a, b, i, field, target) && IsUnicodePath(field, target, replacement, crc)
      case Err =>
        || (forall k | 0 <= k < |a.centrals| :: a.centrals[k].name != target)
        || 5 + |replacement| >= 0x1_0000 || |PrintCentrals(a.centrals)| + 9 + |replacement| >= 0x1_0000_0000
        || exists i | 0 <= i < |a.centrals| && a.centrals[i].name == target ::
             (forall k | 0 <= k < i :: a.centrals[k].name != target) && |a.centrals[i].extra| + 9 + |replacement| >= 0x1_0000
  {
    ExtraRefines(a, target, replacement, crc);
    if 5 + |replacement| < 0x1_0000 {
      UnicodePathFormat(target, replacement, crc);
    }
    var r := ExtraArchive(a, target, replacement, crc);
    if r.Ok? {
      var i, field := FirstNamed(a.centrals, target), UnicodePath(target, replacement, crc);
      assert Fits(r.value) && FieldAdded(a, r.value, i, field, target);
    }
  }
}
