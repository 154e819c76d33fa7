/** The 128-byte form of a directory entry ([MS-CFB] section 2.6.1). */
module CfbRecords {
  import opened Bytes
  import opened Wrappers
  import opened CfbChains
  import opened CfbWalk
  import Utf16

  const STORAGE := 1
  const STREAM := 2
  const ROOT_STORAGE := 5

  /** The links and positions fit their 32-bit fields, the size its 64-bit field. */
  predicate Fits(r: Record) {
    && 0 <= r.kind < 0x100 && 0 <= r.left < 0x1_0000_0000 && 0 <= r.right < 0x1_0000_0000
    && 0 <= r.child < 0x1_0000_0000 && 0 <= r.start < 0x1_0000_0000 && r.size < 0x1_0000_0000_0000_0000
  }

  /** The entry can be written, and is not read back as an unallocated one. */
  predicate Writable(r: Record) {
    Fits(r) && r.kind > 0 && |NameBytes(r.name)| <= 64
  }

  function NameBytes(name: string): (b: Bytes)
    ensures |b| >= 2 && |b| % 2 == 0
  {
    Utf16.Encode(name) + [0, 0]
  }

  /** The entry as laid out, field after field. */
  function EncodeRecord(r: Record): (b: Bytes)
    requires Fits(r) && |NameBytes(r.name)| <= 64
    ensures |b| == 128
  {
    NameBytes(r.name) + Fill(0, 64 - |NameBytes(r.name)|)
    + Le16(|NameBytes(r.name)|) + [r.kind, 1]
    + Le32(r.left) + Le32(r.right) + Le32(r.child)
    + Fill(0, 36)
    + Le32(r.start) + Le64(r.size)
  }

  /** An unallocated entry has kind zero and no name. */
  function DecodeRecord(b: Bytes): Option<Record>
    requires |b| == 128
  {
    var length := Get16(b, 64);
    if b[66] == 0 then Some(Record("", 0, FREE, FREE, FREE, END, 0))
    else if length < 2 || length > 64 then None
    else
      match Utf16.Decode(b[..length - 2])
      case None => None
      case Some(name) =>
        Some(Record(name, b[66], Get32(b, 68), Get32(b, 72), Get32(b, 76), Get32(b, 116), Get64(b, 120)))
  }

  lemma RecordRoundTrip(r: Record)
    requires Writable(r)
    ensures DecodeRecord(EncodeRecord(r)) == Some(r)
  {
    var b, n := EncodeRecord(r), |NameBytes(r.name)|;
    assert b[64..66] == Le16(n);
    Get16Of(b, 64, n);
    assert b[66] == r.kind;
    assert b[..n - 2] == Utf16.Encode(r.name);
    Utf16.RoundTrip(r.name);
    assert b[68..72] == Le32(r.left) && b[72..76] == Le32(r.right) && b[76..80] == Le32(r.child);
    Get32Of(b, 68, r.left);
    Get32Of(b, 72, r.right);
    Get32Of(b, 76, r.child);
    assert b[116..120] == Le32(r.start) && b[120..128] == Le64(r.size);
    Get32Of(b, 116, r.start);
    Get64Of(b, 120, r.size);
  }

  /** The entry as it is written: fields put over a zeroed block; refused when the name is too long. */
  method WriteRecord(r: Record) returns (raw: Result<Bytes>)
    requires Fits(r)
    ensures raw == if |NameBytes(r.name)| <= 64 then Ok(EncodeRecord(r)) else Err
  {
    var encoded := NameBytes(r.name);
    if |encoded| > 64 {
      return Err;
    }
    var b := Put(Fill(0, 128), 0, encoded);
    b := Put(b, 64, Le16(|encoded|) + [r.kind, 1] + Le32(r.left) + Le32(r.right) + Le32(r.child));
    b := Put(b, 116, Le32(r.start) + Le64(r.size));
    assert b == EncodeRecord(r);
    return Ok(b);
  }

  // ---- a table of entries ----

  predicate Encodable(records: seq<Record>) {
    forall i | 0 <= i < |records| :: Writable(records[i])
  }

  function EncodeTable(records: seq<Record>): (b: Bytes)
    requires Encodable(records)
    ensures |b| == 128 * |records|
  {
    if records == [] then [] else EncodeRecord(records[0]) + EncodeTable(records[1..])
  }

  function DecodeTable(b: Bytes): Option<seq<Record>> {
    if |b| < 128 then Some([])
    else
      match DecodeRecord(b[..128])
      case None => None
      case Some(r) =>
        match DecodeTable(b[128..])
        case None => None
        case Some(rest) => Some([r] + rest)
  }

  /** Zeroed bytes are unallocated entries. */
  lemma {:induction false} BlankTable(n: nat)
    ensures DecodeTable(Fill(0, n)).Some?
    decreases n
  {
    if n >= 128 {
      assert Fill(0, n)[..128] == Fill(0, 128) && Fill(0, n)[128..] == Fill(0, n - 128);
      BlankTable(n - 128);
    }
  }

  /** One entry in front of a table. */
  lemma DecodeFirst(r: Record, rest: Bytes)
    requires Writable(r) && DecodeTable(rest).Some?
    ensures DecodeTable(EncodeRecord(r) + rest) == Some([r] + DecodeTable(rest).value)
  {
    var b := EncodeRecord(r) + rest;
    assert b[..128] == EncodeRecord(r) && b[128..] == rest;
    RecordRoundTrip(r);
  }

  lemma {:induction false} TableRoundTrip(records: seq<Record>, blank: nat)
    requires Encodable(records)
    ensures DecodeTable(EncodeTable(records) + Fill(0, blank)).Some?
    ensures records <= DecodeTable(EncodeTable(records) + Fill(0, blank)).value
  {
    if records == [] {
      assert EncodeTable(records) + Fill(0, blank) == Fill(0, blank);
      BlankTable(blank);
    } else {
      var rest := EncodeTable(records[1..]) + Fill(0, blank);
      TableRoundTrip(records[1..], blank);
      DecodeFirst(records[0], rest);
      assert EncodeTable(records) + Fill(0, blank) == EncodeRecord(records[0]) + rest;
    }
  }
}
