/** The edits that walk an archive's bytes by offset and patch them in place. */
module ZipEdits {
  import opened Wrappers
  import opened Bytes
  import opened ZipArchive

  // ---- reading and patching ----

  function Min(a: int, b: int): int {
    if a < b then a else b
  }

  /** Where `n` bytes at `offset` lie; a negative offset counts from the end. */
  function Locate(s: Bytes, offset: int, n: nat): (at: Option<nat>)
    ensures at.Some? ==> at.value + n <= |s|
  {
    var from := if offset < 0 then offset + |s| else offset;
    if from >= 0 && from + n <= |s| then Some(from) else None
  }

  function Read32(s: Bytes, offset: int): Option<int> {
    match Locate(s, offset, 4)
    case None => None
    case Some(at) => Some(Get32(s, at))
  }

  /** At most `n` bytes from `from` on. */
  function Clamp(s: Bytes, from: nat, n: nat): Bytes {
    s[Min(from, |s|)..Min(from + n, |s|)]
  }

  function Encrypted(flags: int): (f: int)
    requires 0 <= flags < 0x1_0000
    ensures 0 <= f < 0x1_0000
  {
    if flags % 2 == 0 then flags + 1 else flags
  }

  function Utf8Named(flags: int): (f: int)
    requires 0 <= flags < 0x1_0000
    ensures 0 <= f < 0x1_0000
  {
    if flags / 0x800 % 2 == 0 then flags + 0x800 else flags
  }

  // ---- the encryption flag ----

  /** The walk from `offset` on, with `patched` local headers behind it. */
  function EncryptFrom(data: Bytes, offset: nat, patched: nat): Result<Bytes>
    decreases |data| - offset
  {
    if offset + 4 > |data| then Finished(data, patched)
    else if data[offset..offset + 4] == LOCAL_SIGNATURE then
      if offset + 30 > |data| then Err
      else
        var marked := Put(data, offset + 6, Le16(Encrypted(Get16(data, offset + 6))));
        EncryptFrom(marked, offset + LocalSpan(data, offset), patched + 1)
    else if data[offset..offset + 4] == CENTRAL_SIGNATURE then
      if offset + 34 > |data| then Err
      else
        var marked := Put(data, offset + 8, Le16(Encrypted(Get16(data, offset + 8))));
        EncryptFrom(marked, offset + CentralSpan(data, offset), patched)
    else if data[offset..offset + 4] == END_SIGNATURE then Finished(data, patched)
    else Err
  }

  function Finished(data: Bytes, patched: nat): Result<Bytes> {
    if patched == 0 then Err else Ok(data)
  }

  function LocalSpan(data: Bytes, at: nat): (n: nat)
    requires at + 30 <= |data|
    ensures n >= 30
  {
    30 + Get16(data, at + 26) + Get16(data, at + 28) + Get32(data, at + 18)
  }

  function CentralSpan(data: Bytes, at: nat): (n: nat)
    requires at + 34 <= |data|
    ensures n >= 46
  {
    46 + Get16(data, at + 28) + Get16(data, at + 30) + Get16(data, at + 32)
  }

  /** The flags of a local header marked, and where the next record begins. */
  method MarkLocal(data: Bytes, offset: nat, ghost patched: nat) returns (marked: Bytes, next: nat)
    requires offset + 30 <= |data| && data[offset..offset + 4] == LOCAL_SIGNATURE
    ensures |marked| == |data| && next > offset
    ensures EncryptFrom(data, offset, patched) == EncryptFrom(marked, next, patched + 1)
  {
    marked := Put(data, offset + 6, Le16(Encrypted(Get16(data, offset + 6))));
    next := offset + LocalSpan(data, offset);
  }

  method MarkCentral(data: Bytes, offset: nat, ghost patched: nat) returns (marked: Bytes, next: nat)
    requires offset + 34 <= |data| && data[offset..offset + 4] == CENTRAL_SIGNATURE
    ensures |marked| == |data| && next > offset
    ensures EncryptFrom(data, offset, patched) == EncryptFrom(marked, next, patched)
  {
    marked := Put(data, offset + 8, Le16(Encrypted(Get16(data, offset + 8))));
    next := offset + CentralSpan(data, offset);
  }

  method PatchEncryptedFlag(archive: Bytes) returns (r: Result<Bytes>)
    ensures r == EncryptFrom(archive, 0, 0)
  {
    var data := archive;
    var offset: nat, patched: nat := 0, 0;
    ghost var all := EncryptFrom(data, offset, patched);
    while offset + 4 <= |data|
      invariant all == EncryptFrom(data, offset, patched)
      decreases |data| - offset
    {
      var signature := data[offset..offset + 4];
      if signature == LOCAL_SIGNATURE {
        if offset + 30 > |data| { return Err; }
        data, offset := MarkLocal(data, offset, patched);
        patched := patched + 1;
      } else if signature == CENTRAL_SIGNATURE {
        if offset + 34 > |data| { return Err; }
        data, offset := MarkCentral(data, offset, patched);
      } else if signature == END_SIGNATURE {
        break;
      } else {
        return Err;
      }
    }
    if patched == 0 {
      return Err;
    }
    return Ok(data);
  }

  // ---- the central extra field ----

  type Crc = Bytes -> word

  type word = x: int | 0 <= x < 0x1_0000_0000

  /** The Unicode Path field (APPNOTE section 4.6.9); it must fit its 16-bit length. */
  function UnicodePath(target: Bytes, replacement: Bytes, crc: Crc): Bytes
    requires 5 + |replacement| < 0x1_0000
  {
    Le16(0x7075) + Le16(5 + |replacement|) + ([1] + Le32(crc(target)) + replacement)
  }

  /** The field put after the extra fields of the central header at `cursor`, both lengths corrected. */
  function InsertExtra(p: Bytes, cursor: nat, eocd: nat, size: int, field: Bytes): Result<Bytes>
    requires cursor + 34 <= |p| && eocd + 22 == |p| && 0 <= size < 0x1_0000_0000
  {
    var extra := Get16(p, cursor + 30) + |field|;
    if extra >= 0x1_0000 || size + |field| >= 0x1_0000_0000 then Err
    else
      var at := Min(cursor + 46 + Get16(p, cursor + 28) + Get16(p, cursor + 30), |p|);
      var grown := p[..at] + field + p[at..];
      Ok(Put(Put(grown, cursor + 30, Le16(extra)), eocd + |field| + 12, Le32(size + |field|)))
  }

  /** The first central header from `cursor` on whose name is `target`. */
  function FindCentral(p: Bytes, cursor: nat, eocd: int, target: Bytes): (r: Result<nat>)
    ensures r.Ok? ==> cursor <= r.value < eocd && r.value + 34 <= |p|
    decreases eocd - cursor
  {
    if cursor >= eocd || cursor + 34 > |p| then Err
    else if Clamp(p, cursor + 46, Get16(p, cursor + 28)) == target then Ok(cursor)
    else FindCentral(p, cursor + CentralSpan(p, cursor), eocd, target)
  }

  function ExtraAt(p: Bytes, at: nat, eocd: nat, size: int, target: Bytes, replacement: Bytes, crc: Crc): Result<Bytes>
    requires at + 34 <= |p| && eocd + 22 == |p| && 0 <= size < 0x1_0000_0000
  {
    if 5 + |replacement| >= 0x1_0000 then Err
    else InsertExtra(p, at, eocd, size, UnicodePath(target, replacement, crc))
  }

  function AddCentralExtra(package: Bytes, target: Bytes, replacement: Bytes, crc: Crc): Result<Bytes> {
    var eocd := |package| - 22;
    match Read32(package, eocd + 16)
    case None => Err
    case Some(start) =>
      match Read32(package, eocd + 12)
      case None => Err
      case Some(size) =>
        match FindCentral(package, start, eocd, target)
        case Err => Err
        case Ok(at) => ExtraAt(package, at, eocd, size, target, replacement, crc)
  }

  method InsertField(output: Bytes, cursor: nat, eocd: nat, size: int, field: Bytes) returns (r: Result<Bytes>)
    requires cursor + 34 <= |output| && eocd + 22 == |output| && 0 <= size < 0x1_0000_0000
    ensures r == InsertExtra(output, cursor, eocd, size, field)
  {
    var nameLen, extraLen := Get16(output, cursor + 28), Get16(output, cursor + 30);
    var insertAt := Min(cursor + 46 + nameLen + extraLen, |output|);
    if extraLen + |field| >= 0x1_0000 { return Err; }
    var grown := output[..insertAt] + field + output[insertAt..];
    grown := Put(grown, cursor + 30, Le16(extraLen + |field|));
    var end := eocd + |field|;
    if size + |field| >= 0x1_0000_0000 { return Err; }
    grown := Put(grown, end + 12, Le32(size + |field|));
    return Ok(grown);
  }

  method SeekCentral(package: Bytes, start: nat, eocd: int, target: Bytes) returns (r: Result<nat>)
    ensures r == FindCentral(package, start, eocd, target)
  {
    var cursor := start;
    while cursor < eocd
      invariant FindCentral(package, start, eocd, target) == FindCentral(package, cursor, eocd, target)
      decreases eocd - cursor
    {
      if cursor + 34 > |package| { return Err; }
      var nameLen, nameStart := Get16(package, cursor + 28), cursor + 46;
      if Clamp(package, nameStart, nameLen) == target {
        return Ok(cursor);
      }
      cursor := cursor + CentralSpan(package, cursor);
    }
    return Err;
  }

  method CentralUnicodeExtra(package: Bytes, target: Bytes, replacement: Bytes, crc: Crc) returns (r: Result<Bytes>)
    ensures r == AddCentralExtra(package, target, replacement, crc)
  {
    var eocd := |package| - 22;
    var start, size := Read32(package, eocd + 16), Read32(package, eocd + 12);
    if start.None? || size.None? { return Err; }
    var found := SeekCentral(package, start.value, eocd, target);
    if found.Err? { return Err; }
    if 5 + |replacement| >= 0x1_0000 { return Err; }
    r := InsertField(package, found.value, eocd, size.value, UnicodePath(target, replacement, crc));
  }

  // ---- the invalid name ----

  /** The name's first byte replaced and the UTF-8 bit of the flags at `flagsAt` set. */
  function Spoil(data: Bytes, nameStart: nat, flagsAt: nat): (spoilt: Bytes)
    requires nameStart < |data| && flagsAt + 2 <= |data|
    ensures |spoilt| == |data|
  {
    var named := Put(data, nameStart, [0xFF]);
    Put(named, flagsAt, Le16(Utf8Named(Get16(named, flagsAt))))
  }

  function SpoilLocals(data: Bytes, cursor: nat, end: nat, target: Bytes): (r: Result<Bytes>)
    ensures r.Ok? ==> |r.value| == |data|
    decreases end - cursor
  {
    if cursor >= end then Ok(data)
    else if cursor + 30 > |data| then Err
    else if Clamp(data, cursor + 30, Get16(data, cursor + 26)) == target then
      if cursor + 30 >= |data| then Err
      else SpoilLocals(Spoil(data, cursor + 30, cursor + 6), cursor + LocalSpan(data, cursor), end, target)
    else SpoilLocals(data, cursor + LocalSpan(data, cursor), end, target)
  }

  function SpoilCentrals(data: Bytes, cursor: nat, end: int, target: Bytes): Result<Bytes>
    decreases end - cursor
  {
    if cursor >= end then Ok(data)
    else if cursor + 34 > |data| then Err
    else if Clamp(data, cursor + 46, Get16(data, cursor + 28)) == target then
      if cursor + 46 >= |data| then Err
      else SpoilCentrals(Spoil(data, cursor + 46, cursor + 8), cursor + CentralSpan(data, cursor), end, target)
    else SpoilCentrals(data, cursor + CentralSpan(data, cursor), end, target)
  }

  function SpoilName(package: Bytes, target: Bytes): Result<Bytes> {
    var eocd := |package| - 22;
    match Read32(package, eocd + 16)
    case None => Err
    case Some(start) =>
      match SpoilLocals(package, 0, start, target)
      case Err => Err
      case Ok(data) => SpoilCentrals(data, start, eocd, target)
  }

  /** The local header at `cursor`, spoilt if its name is the target, and where the next one begins. */
  method VisitLocal(data: Bytes, cursor: nat, end: nat, target: Bytes) returns (r: Result<(Bytes, nat)>)
    requires cursor < end
    ensures r.Err? ==> SpoilLocals(data, cursor, end, target) == Err
    ensures r.Ok? ==> r.value.1 > cursor
    ensures r.Ok? ==> SpoilLocals(data, cursor, end, target) == SpoilLocals(r.value.0, r.value.1, end, target)
  {
    if cursor + 30 > |data| { return Err; }
    var span := LocalSpan(data, cursor);
    var output := data;
    if Clamp(data, cursor + 30, Get16(data, cursor + 26)) == target {
      if cursor + 30 >= |data| { return Err; }
      output := Spoil(data, cursor + 30, cursor + 6);
    }
    return Ok((output, cursor + span));
  }

  method SpoilLocalNames(package: Bytes, centralStart: nat, target: Bytes) returns (r: Result<Bytes>)
    ensures r == SpoilLocals(package, 0, centralStart, target)
  {
    var output := package;
    var cursor: nat := 0;
    while cursor < centralStart
      invariant SpoilLocals(package, 0, centralStart, target) == SpoilLocals(output, cursor, centralStart, target)
      decreases centralStart - cursor
    {
      var next := VisitLocal(output, cursor, centralStart, target);
      if next.Err? { return Err; }
      output, cursor := next.value.0, next.value.1;
    }
    return Ok(output);
  }

  method VisitCentral(data: Bytes, cursor: nat, end: int, target: Bytes) returns (r: Result<(Bytes, nat)>)
    requires cursor < end
    ensures r.Err? ==> SpoilCentrals(data, cursor, end, target) == Err
    ensures r.Ok? ==> r.value.1 > cursor
    ensures r.Ok? ==> SpoilCentrals(data, cursor, end, target) == SpoilCentrals(r.value.0, r.value.1, end, target)
  {
    if cursor + 34 > |data| { return Err; }
    var span := CentralSpan(data, cursor);
    var output := data;
    if Clamp(data, cursor + 46, Get16(data, cursor + 28)) == target {
      if cursor + 46 >= |data| { return Err; }
      output := Spoil(data, cursor + 46, cursor + 8);
    }
    return Ok((output, cursor + span));
  }

  method SpoilCentralNames(package: Bytes, centralStart: nat, eocd: int, target: Bytes) returns (r: Result<Bytes>)
    ensures r == SpoilCentrals(package, centralStart, eocd, target)
  {
    var output, cursor := package, centralStart;
    while cursor < eocd
      invariant SpoilCentrals(package, centralStart, eocd, target) == SpoilCentrals(output, cursor, eocd, target)
      decreases eocd - cursor
    {
      var next := VisitCentral(output, cursor, eocd, target);
      if next.Err? { return Err; }
      output, cursor := next.value.0, next.value.1;
    }
    return Ok(output);
  }

  method InvalidUtf8Name(package: Bytes, target: Bytes) returns (r: Result<Bytes>)
    ensures r == SpoilName(package, target)
  {
    var eocd := |package| - 22;
    var start := Read32(package, eocd + 16);
    if start.None? { return Err; }
    var locals := SpoilLocalNames(package, start.value, target);
    if locals.Err? { return Err; }
    r := SpoilCentralNames(locals.value, start.value, eocd, target);
  }
}
