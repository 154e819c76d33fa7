/** BIFF12 records: a type and a length in base-128 groups, then the payload
    ([MS-XLSB] section 2.1.4). */
module XlsbRecords {
  import opened Wrappers
  import opened Bytes

  /** The value in groups of seven bits, lowest first; every group but the last is marked. */
  function Varint(value: nat): (b: Bytes)
    ensures b != []
  {
    if value < 0x80 then [value] else [0x80 + value % 0x80] + Varint(value / 0x80)
  }

  method XlsbVarint(value: nat) returns (output: Bytes)
    ensures output == Varint(value)
  {
    output := [];
    var left := value;
    while true
      invariant Varint(value) == output + Varint(left)
      decreases left
    {
      var low: byte := left % 0x80;
      left := left / 0x80;
      if left != 0 {
        low := low + 0x80;
      }
      output := output + [low];
      if left == 0 {
        return;
      }
    }
  }

  datatype Record = Record(kind: nat, payload: Bytes)

  function XlsbRecord(r: Record): Bytes {
    Varint(r.kind) + Varint(|r.payload|) + r.payload
  }

  function XlsbStream(rs: seq<Record>): Bytes {
    if rs == [] then [] else XlsbRecord(rs[0]) + XlsbStream(rs[1..])
  }

  // ---- reading ----

  /** The value at the start of `b` and the number of bytes it takes. */
  function ReadVarint(b: Bytes): (r: Option<(nat, nat)>)
    ensures r.Some? ==> 0 < r.value.1 <= |b|
  {
    if b == [] then None
    else if b[0] < 0x80 then Some((b[0], 1))
    else
      match ReadVarint(b[1..])
      case None => None
      case Some((high, size)) =>
        var low: int := b[0];
        Some((low - 0x80 + 0x80 * high, size + 1))
  }

  function ReadRecord(b: Bytes): (r: Option<(Record, nat)>)
    ensures r.Some? ==> 0 < r.value.1 <= |b|
  {
    match ReadVarint(b)
    case None => None
    case Some((kind, k)) =>
      match ReadVarint(b[k..])
      case None => None
      case Some((length, n)) =>
        if k + n + length > |b| then None
        else Some((Record(kind, b[k + n..k + n + length]), k + n + length))
  }

  function ReadStream(b: Bytes): Option<seq<Record>> {
    if b == [] then Some([])
    else
      match ReadRecord(b)
      case None => None
      case Some((r, size)) =>
        match ReadStream(b[size..])
        case None => None
        case Some(rs) => Some([r] + rs)
  }

  // ---- round trips ----

  /** A value delimits itself, whatever follows. */
  lemma {:induction false} VarintRoundTrip(value: nat, rest: Bytes)
    ensures ReadVarint(Varint(value) + rest) == Some((value, |Varint(value)|))
  {
    if value >= 0x80 {
      VarintRoundTrip(value / 0x80, rest);
      assert (Varint(value) + rest)[1..] == Varint(value / 0x80) + rest;
    } else {
      assert (Varint(value) + rest)[0] == value;
    }
  }

  /** No bytes that read as a value are fewer than the ones written for it. */
  lemma {:induction false} VarintShortest(b: Bytes)
    requires ReadVarint(b).Some?
    ensures |Varint(ReadVarint(b).value.0)| <= ReadVarint(b).value.1
  {
    if b[0] >= 0x80 {
      VarintShortest(b[1..]);
      var low: int := b[0];
      var high := ReadVarint(b[1..]).value.0;
      assert (low - 0x80 + 0x80 * high) / 0x80 == high;
    }
  }

  lemma RecordRoundTrip(r: Record, rest: Bytes)
    ensures ReadRecord(XlsbRecord(r) + rest) == Some((r, |XlsbRecord(r)|))
  {
    var kind, length, b := Varint(r.kind), Varint(|r.payload|), XlsbRecord(r) + rest;
    assert b == kind + (length + (r.payload + rest));
    VarintRoundTrip(r.kind, length + (r.payload + rest));
    assert b[|kind|..] == length + (r.payload + rest);
    VarintRoundTrip(|r.payload|, r.payload + rest);
    assert b[|kind| + |length|..|kind| + |length| + |r.payload|] == r.payload;
  }

  /** Records written one after another are read back exactly. */
  lemma {:induction false} StreamRoundTrip(rs: seq<Record>)
    ensures ReadStream(XlsbStream(rs)) == Some(rs)
  {
    if rs != [] {
      var first, rest := XlsbRecord(rs[0]), XlsbStream(rs[1..]);
      RecordRoundTrip(rs[0], rest);
      assert XlsbStream(rs) == first + rest && |first| > 0;
      assert (first + rest)[|first|..] == rest;
      StreamRoundTrip(rs[1..]);
      assert [rs[0]] + rs[1..] == rs;
    }
  }
}
