/** Sector chains: allocating consecutive blocks in a table, and following them again
    ([MS-CFB] sections 2.3 and 2.4). */
module CfbChains {
  import opened Wrappers
  import opened Bytes

  const FREE: int := 0xFFFF_FFFF
  const END: int := 0xFFFF_FFFE
  const FAT: int := 0xFFFF_FFFD

  /** The number of blocks of `unit` bytes that `size` bytes need. */
  function Ceil(size: nat, unit: nat): nat
    requires unit > 0
  {
    (size + unit - 1) / unit
  }

  function Pad(data: Bytes, unit: nat): (padded: Bytes)
    requires unit > 0
    ensures |padded| == unit * Ceil(|data|, unit) && data <= padded
  {
    CeilCovers(|data|, unit);
    data + Fill(0, unit * Ceil(|data|, unit) - |data|)
  }

  lemma CeilCovers(size: nat, unit: nat)
    requires unit > 0
    ensures size <= unit * Ceil(size, unit) < size + unit
  {
    var q, r := (size + unit - 1) / unit, (size + unit - 1) % unit;
    assert size + unit - 1 == unit * q + r;
  }

  function Sum(counts: seq<nat>): nat {
    if counts == [] then 0 else counts[0] + Sum(counts[1..])
  }

  lemma {:induction false} SumSplit(counts: seq<nat>, i: nat)
    requires i <= |counts|
    ensures Sum(counts) == Sum(counts[..i]) + Sum(counts[i..])
  {
    if i == 0 {
      assert counts[..0] == [] && counts[0..] == counts;
    } else {
      SumSplit(counts[1..], i - 1);
      assert counts[..i][1..] == counts[1..][..i - 1] && counts[1..][i - 1..] == counts[i..];
    }
  }

  /** The table entries of one run of `count` consecutive blocks. */
  function Chain(start: nat, count: nat): (entries: seq<int>)
    ensures |entries| == count
  {
    seq(count, k requires 0 <= k < count => if k + 1 == count then END else start + k + 1)
  }

  /** The table entries of consecutive runs. */
  function Chains(start: nat, counts: seq<nat>): (entries: seq<int>)
    ensures |entries| == Sum(counts)
    decreases |counts|
  {
    if counts == [] then [] else Chain(start, counts[0]) + Chains(start + counts[0], counts[1..])
  }

  /** The blocks of consecutive data, each padded to whole units. */
  function Blocks(datas: seq<Bytes>, unit: nat): Bytes
    requires unit > 0
  {
    if datas == [] then [] else Pad(datas[0], unit) + Blocks(datas[1..], unit)
  }

  function Counts(datas: seq<Bytes>, unit: nat): (counts: seq<nat>)
    requires unit > 0
    ensures |counts| == |datas| && forall i | 0 <= i < |datas| :: counts[i] == Ceil(|datas[i]|, unit)
  {
    seq(|datas|, i requires 0 <= i < |datas| => Ceil(|datas[i]|, unit))
  }

  lemma {:induction false} BlocksLength(datas: seq<Bytes>, unit: nat)
    requires unit > 0
    ensures |Blocks(datas, unit)| == unit * Sum(Counts(datas, unit))
  {
    if datas != [] {
      BlocksLength(datas[1..], unit);
      assert Counts(datas, unit)[1..] == Counts(datas[1..], unit);
    }
  }

  // ---- reading ----

  /** The blocks of the chain that starts at `s`; `None` when it leaves the table or has more than
      `fuel` blocks. */
  function Follow(table: seq<int>, s: int, fuel: nat): Option<seq<nat>>
    decreases fuel
  {
    if s == END then Some([])
    else if fuel == 0 || s < 0 || s >= |table| then None
    else
      match Follow(table, table[s], fuel - 1)
      case None => None
      case Some(rest) => Some([s as nat] + rest)
  }

  /** The blocks `ids` of `image`, one after another. */
  function Gather(image: Bytes, unit: nat, ids: seq<nat>): Option<Bytes> {
    if ids == [] then Some([])
    else if unit * ids[0] + unit > |image| then None
    else
      match Gather(image, unit, ids[1..])
      case None => None
      case Some(rest) => Some(image[unit * ids[0]..unit * ids[0] + unit] + rest)
  }

  /** All blocks of the chain that starts at `s`. */
  function ReadChain(table: seq<int>, image: Bytes, unit: nat, s: int): Option<Bytes> {
    match Follow(table, s, |table|)
    case None => None
    case Some(ids) => Gather(image, unit, ids)
  }

  /** The first `size` bytes of the chain that starts at `s`. */
  function ReadStream(table: seq<int>, image: Bytes, unit: nat, s: int, size: nat): Option<Bytes> {
    match ReadChain(table, image, unit, s)
    case None => None
    case Some(all) => if |all| < size then None else Some(all[..size])
  }

  function Range(start: nat, count: nat): seq<nat> {
    seq(count, k requires 0 <= k < count => start + k)
  }

  /** `table` holds the run of `count` blocks that starts at `start`. */
  predicate HasRun(table: seq<int>, start: nat, count: nat) {
    start + count <= |table| < END && table[start..start + count] == Chain(start, count)
  }

  /** From any block of a run the rest of the run follows. */
  lemma {:induction false} FollowRun(table: seq<int>, start: nat, count: nat, k: nat, fuel: nat)
    requires HasRun(table, start, count) && k < count && fuel >= count - k
    ensures Follow(table, start + k, fuel) == Some(Range(start + k, count - k))
    decreases count - k
  {
    assert table[start + k] == table[start..start + count][k];
    if k + 1 < count {
      FollowRun(table, start, count, k + 1, fuel - 1);
      assert [start + k] + Range(start + k + 1, count - k - 1) == Range(start + k, count - k);
    } else {
      assert Follow(table, END, fuel - 1) == Some([]);
      assert [start + k] + [] == Range(start + k, 1);
    }
  }

  lemma Times(unit: nat, a: nat, b: nat)
    ensures unit * (a + b) == unit * a + unit * b
  {
  }

  lemma SlicesJoin<T>(s: seq<T>, i: nat, j: nat, k: nat)
    requires i <= j <= k <= |s|
    ensures s[i..j] + s[j..k] == s[i..k]
  {
  }

  /** One block in front of others. */
  lemma GatherFirst(image: Bytes, unit: nat, id: nat, rest: seq<nat>, at: nat, end: nat)
    requires at == unit * id && at + unit <= end <= |image| && Gather(image, unit, rest) == Some(image[at + unit..end])
    ensures Gather(image, unit, [id] + rest) == Some(image[at..end])
  {
    assert ([id] + rest)[1..] == rest;
    SlicesJoin(image, at, at + unit, end);
  }

  /** The blocks of a run are the bytes from `at` to `end`. */
  lemma {:induction false} GatherRun(image: Bytes, unit: nat, start: nat, count: nat, at: nat, end: nat)
    requires unit > 0 && at == unit * start && end == at + unit * count && end <= |image|
    ensures Gather(image, unit, Range(start, count)) == Some(image[at..end])
    decreases count
  {
    if count == 0 {
      assert image[at..end] == [];
    } else {
      Times(unit, start, 1);
      Times(unit, 1, count - 1);
      GatherRun(image, unit, start + 1, count - 1, at + unit, end);
      assert Range(start, count) == [start] + Range(start + 1, count - 1);
      GatherFirst(image, unit, start, Range(start + 1, count - 1), at, end);
    }
  }

  lemma ReadRun(table: seq<int>, image: Bytes, unit: nat, start: nat, count: nat)
    requires unit > 0 && HasRun(table, start, count) && count > 0 && unit * start + unit * count <= |image|
    ensures ReadChain(table, image, unit, start) == Some(image[unit * start..unit * start + unit * count])
  {
    FollowRun(table, start, count, 0, |table|);
    GatherRun(image, unit, start, count, unit * start, unit * start + unit * count);
  }

  // ---- consecutive runs ----

  lemma {:induction false} ChainsSplit(start: nat, counts: seq<nat>, i: nat)
    requires i <= |counts|
    ensures Chains(start, counts) == Chains(start, counts[..i]) + Chains(start + Sum(counts[..i]), counts[i..])
    decreases i
  {
    if i == 0 {
      assert counts[..0] == [] && counts[0..] == counts;
    } else {
      ChainsSplit(start + counts[0], counts[1..], i - 1);
      assert counts[..i][1..] == counts[1..][..i - 1] && counts[1..][i - 1..] == counts[i..];
    }
  }

  lemma ChainsRun(start: nat, counts: seq<nat>, i: nat)
    requires i < |counts|
    ensures Sum(counts[..i]) + counts[i] <= Sum(counts)
    ensures Chains(start, counts)[Sum(counts[..i])..Sum(counts[..i]) + counts[i]]
         == Chain(start + Sum(counts[..i]), counts[i])
  {
    ChainsSplit(start, counts, i);
    SumSplit(counts, i);
  }

  lemma {:induction false} BlocksSplit(datas: seq<Bytes>, unit: nat, i: nat)
    requires unit > 0 && i <= |datas|
    ensures Blocks(datas, unit) == Blocks(datas[..i], unit) + Blocks(datas[i..], unit)
    decreases i
  {
    if i == 0 {
      assert datas[..0] == [] && datas[0..] == datas;
    } else {
      BlocksSplit(datas[1..], unit, i - 1);
      assert datas[..i][1..] == datas[1..][..i - 1] && datas[1..][i - 1..] == datas[i..];
    }
  }

  /** Where stream `i` begins, counted in blocks and in bytes. */
  lemma BlocksStart(datas: seq<Bytes>, unit: nat, i: nat)
    requires unit > 0 && i <= |datas|
    ensures |Blocks(datas[..i], unit)| == unit * Sum(Counts(datas, unit)[..i])
  {
    BlocksLength(datas[..i], unit);
    assert Counts(datas[..i], unit) == Counts(datas, unit)[..i];
  }

  lemma BlocksRun(datas: seq<Bytes>, unit: nat, i: nat)
    requires unit > 0 && i < |datas|
    ensures |Blocks(datas[..i], unit)| + |Pad(datas[i], unit)| <= |Blocks(datas, unit)|
    ensures Blocks(datas, unit)[|Blocks(datas[..i], unit)|..|Blocks(datas[..i], unit)| + |Pad(datas[i], unit)|]
         == Pad(datas[i], unit)
  {
    BlocksSplit(datas, unit, i);
  }

  lemma CeilPositive(size: nat, unit: nat)
    requires unit > 0 && size > 0
    ensures Ceil(size, unit) > 0
  {
    CeilCovers(size, unit);
  }

  /** `table` and `image` hold the streams `datas` as consecutive runs from block `base` on. */
  predicate Holds(table: seq<int>, image: Bytes, unit: nat, base: nat, datas: seq<Bytes>)
    requires unit > 0
  {
    var counts, blocks := Counts(datas, unit), Blocks(datas, unit);
    && |table| < END
    && base + Sum(counts) <= |table| && table[base..base + Sum(counts)] == Chains(base, counts)
    && unit * base + |blocks| <= |image| && image[unit * base..unit * base + |blocks|] == blocks
  }

  lemma HeldRun(table: seq<int>, image: Bytes, unit: nat, base: nat, datas: seq<Bytes>, i: nat)
    requires unit > 0 && i < |datas| && Holds(table, image, unit, base, datas)
    ensures HasRun(table, base + Sum(Counts(datas, unit)[..i]), Ceil(|datas[i]|, unit))
  {
    var counts := Counts(datas, unit);
    ChainsRun(base, counts, i);
    Slice(table, base, base + Sum(counts), Sum(counts[..i]), Sum(counts[..i]) + counts[i]);
  }

  lemma HeldBlocks(table: seq<int>, image: Bytes, unit: nat, base: nat, datas: seq<Bytes>, i: nat)
    requires unit > 0 && i < |datas| && Holds(table, image, unit, base, datas)
    ensures var start, size := unit * (base + Sum(Counts(datas, unit)[..i])), unit * Ceil(|datas[i]|, unit);
            start + size <= |image| && image[start..start + size] == Pad(datas[i], unit)
  {
    var from, size := |Blocks(datas[..i], unit)|, |Pad(datas[i], unit)|;
    BlocksRun(datas, unit, i);
    BlocksStart(datas, unit, i);
    Times(unit, base, Sum(Counts(datas, unit)[..i]));
    Slice(image, unit * base, unit * base + |Blocks(datas, unit)|, from, from + size);
  }

  /** A stream laid out among consecutive runs is read back with its padding. */
  lemma ChainReads(table: seq<int>, image: Bytes, unit: nat, base: nat, datas: seq<Bytes>, i: nat)
    requires unit > 0 && i < |datas| && datas[i] != [] && Holds(table, image, unit, base, datas)
    ensures ReadChain(table, image, unit, base + Sum(Counts(datas, unit)[..i])) == Some(Pad(datas[i], unit))
  {
    HeldRun(table, image, unit, base, datas, i);
    HeldBlocks(table, image, unit, base, datas, i);
    CeilPositive(|datas[i]|, unit);
    ReadRun(table, image, unit, base + Sum(Counts(datas, unit)[..i]), Ceil(|datas[i]|, unit));
  }

  /** Streams laid out as consecutive runs are read back one by one. */
  lemma StreamReads(table: seq<int>, image: Bytes, unit: nat, base: nat, datas: seq<Bytes>, i: nat)
    requires unit > 0 && i < |datas| && datas[i] != [] && Holds(table, image, unit, base, datas)
    ensures ReadStream(table, image, unit, base + Sum(Counts(datas, unit)[..i]), |datas[i]|) == Some(datas[i])
  {
    ChainReads(table, image, unit, base, datas, i);
  }
}
