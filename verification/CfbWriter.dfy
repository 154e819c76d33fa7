/** Writing a compound file: the loops that allocate, lay out and link its parts. */
module CfbWriter {
  import opened Bytes
  import opened Wrappers
  import opened CfbChains
  import opened CfbDirectory
  import opened CfbLinks
  import opened CfbWalk
  import opened CfbRecords
  import opened CfbLayout

  // ---- growing chains and blocks by one stream ----

  lemma ChainsGrow(base: nat, counts: seq<nat>, i: nat)
    requires i < |counts|
    ensures Chains(base, counts[..i + 1]) == Chains(base, counts[..i]) + Chain(base + Sum(counts[..i]), counts[i])
  {
    ChainsSplit(base, counts[..i + 1], i);
    assert counts[..i + 1][..i] == counts[..i] && counts[..i + 1][i..] == [counts[i]];
    var one: seq<nat> := [counts[i]];
    assert one[1..] == [];
    assert Chains(base + Sum(counts[..i]), one) == Chain(base + Sum(counts[..i]), counts[i]) + [];
  }

  lemma FirstChainsGrow(counts: seq<nat>, i: nat)
    requires i < |counts|
    ensures Chains(0, counts[..i + 1]) == Chains(0, counts[..i]) + Chain(Sum(counts[..i]), counts[i])
  {
    ChainsGrow(0, counts, i);
  }

  lemma BlocksGrow(datas: seq<Bytes>, unit: nat, i: nat)
    requires unit > 0 && i < |datas|
    ensures Blocks(datas[..i + 1], unit) == Blocks(datas[..i], unit) + Pad(datas[i], unit)
  {
    BlocksSplit(datas[..i + 1], unit, i);
    assert datas[..i + 1][..i] == datas[..i] && datas[..i + 1][i..] == [datas[i]];
    var one: seq<Bytes> := [datas[i]];
    assert one[1..] == [];
    assert Blocks(one, unit) == Pad(datas[i], unit) + [];
  }

  /** The zeros that bring `blocks` whole units and `size` more bytes to a whole number of units. */
  lemma PadBytes(unit: nat, blocks: nat, size: nat)
    requires unit > 0
    ensures (-(unit * blocks + size)) % unit == unit * Ceil(size, unit) - size
  {
    CeilCovers(size, unit);
    var pad, units := unit * Ceil(size, unit) - size, blocks + Ceil(size, unit);
    Times(unit, blocks, Ceil(size, unit));
    assert unit * blocks + size + pad == unit * units;
    SmallRemainder(-(unit * blocks + size), -units, pad, unit);
  }

  lemma SmallRemainder(a: int, q: int, r: int, d: int)
    requires d > 0 && 0 <= r < d && a == d * q + r
    ensures a % d == r
  {
    var p, s := a / d, a % d;
    assert a == d * p + s;
    assert d * (q - p) == s - r;
    assert q - p >= 1 ==> d * (q - p) >= d;
    assert q - p <= -1 ==> d * (q - p) <= -d;
  }

  method AppendPadded(buffer: Bytes, data: Bytes, unit: nat, ghost blocks: nat) returns (longer: Bytes)
    requires unit > 0 && |buffer| == unit * blocks
    ensures longer == buffer + Pad(data, unit)
  {
    PadBytes(unit, blocks, |data|);
    CeilCovers(|data|, unit);
    longer := buffer + data;
    longer := longer + Fill(0, (-|longer|) % unit);
  }

  /** What one more stream adds to consecutive streams. */
  lemma StreamAdded(datas: seq<Bytes>, unit: nat, i: nat)
    requires unit > 0 && i < |datas|
    ensures Blocks(datas[..i + 1], unit) == Blocks(datas[..i], unit) + Pad(datas[i], unit)
    ensures |Blocks(datas[..i], unit)| == unit * Sum(Counts(datas, unit)[..i])
    ensures datas[i] == [] ==> Counts(datas, unit)[i] == 0 && Pad(datas[i], unit) == []
    ensures datas[i] != [] ==> Counts(datas, unit)[i] > 0
  {
    BlocksGrow(datas, unit, i);
    BlocksStart(datas, unit, i);
    if datas[i] == [] {
      EmptyPart(unit);
    } else {
      CeilPositive(|datas[i]|, unit);
    }
  }

  /** The streams before `i` that have blocks start where their runs start; the others as `before`. */
  ghost predicate Placed(start: seq<int>, before: seq<int>, base: nat, counts: seq<nat>, i: nat) {
    && |start| == |before| == |counts|
    && forall k: nat | k < |counts| :: PlacedAt(start, before, base, counts, i, k)
  }

  ghost predicate PlacedAt(start: seq<int>, before: seq<int>, base: nat, counts: seq<nat>, i: nat, k: nat)
    requires |start| == |before| == |counts| && k < |counts|
  {
    start[k] == if k < i && counts[k] > 0 then base + Sum(counts[..k]) else before[k]
  }

  lemma PlacedGrow(start: seq<int>, before: seq<int>, base: nat, counts: seq<nat>, i: nat)
    requires Placed(start, before, base, counts, i) && i < |counts|
    ensures counts[i] == 0 ==> Placed(start, before, base, counts, i + 1)
    ensures counts[i] > 0 ==> Placed(start[i := base + Sum(counts[..i])], before, base, counts, i + 1)
  {
    var next, done := if counts[i] == 0 then start else start[i := base + Sum(counts[..i])], i + 1;
    forall k: nat | k < |counts|
      ensures PlacedAt(next, before, base, counts, done, k)
    {
      assert PlacedAt(start, before, base, counts, i, k);
    }
  }

  // ---- the mini stream ----

  /** The mini FAT and the mini stream hold the first `i` of the streams. */
  ghost predicate MinisLaid(minifat: seq<int>, miniData: Bytes, minis: seq<Bytes>, i: nat) {
    i <= |minis| && minifat == Chains(0, Counts(minis, MINI)[..i]) && miniData == Blocks(minis[..i], MINI)
  }

  lemma MinisGrow(minifat: seq<int>, miniData: Bytes, minis: seq<Bytes>, i: nat)
    requires MinisLaid(minifat, miniData, minis, i) && i < |minis|
    ensures |minifat| == Sum(Counts(minis, MINI)[..i]) && |miniData| == MINI * |minifat|
    ensures minis[i] == [] ==> Counts(minis, MINI)[i] == 0 && MinisLaid(minifat, miniData, minis, i + 1)
    ensures minis[i] != [] ==>
      var count := Counts(minis, MINI)[i];
      count > 0 && MinisLaid(minifat + Chain(|minifat|, count), miniData + Pad(minis[i], MINI), minis, i + 1)
  {
    FirstChainsGrow(Counts(minis, MINI), i);
    StreamAdded(minis, MINI, i);
  }

  /** The small streams, one after another; the others keep their start. */
  method WriteMinis(dir: seq<Node>, before: seq<int>) returns (start: seq<int>, miniData: Bytes, minifat: seq<int>)
    requires |before| == |dir|
    ensures miniData == MiniStream(dir) && minifat == MiniFat(dir)
    ensures Placed(start, before, 0, MiniCounts(dir), |dir|)
  {
    start, miniData, minifat := before, [], [];
    ghost var counts, minis := MiniCounts(dir), Minis(dir);
    for i := 0 to |dir|
      invariant Placed(start, before, 0, counts, i)
      invariant MinisLaid(minifat, miniData, minis, i)
    {
      MinisGrow(minifat, miniData, minis, i);
      PlacedGrow(start, before, 0, counts, i);
      var data := dir[i].data;
      assert minis[i] == MiniPart(dir[i]);
      if data.Some? && data.value != [] && |data.value| < CUTOFF {
        start := start[i := |minifat|];
        minifat, miniData := AppendMini(minifat, miniData, data.value);
      }
    }
    assert counts[..|dir|] == counts && minis[..|dir|] == minis;
  }

  /** One more small stream: its chain of mini FAT entries, and its bytes with their padding. */
  method AppendMini(table: seq<int>, buffer: Bytes, data: Bytes) returns (minifat: seq<int>, miniData: Bytes)
    requires |buffer| == MINI * |table|
    ensures minifat == table + Chain(|table|, Ceil(|data|, MINI)) && miniData == buffer + Pad(data, MINI)
  {
    minifat := AppendChain(table, (|data| + 63) / 64);
    miniData := AppendPadded(buffer, data, MINI, |table|);
  }

  lemma EmptyPart(unit: nat)
    requires unit > 0
    ensures Ceil(0, unit) == 0 && Pad([], unit) == []
  {
    CeilCovers(0, unit);
    if Ceil(0, unit) >= 1 {
      Times(unit, 1, Ceil(0, unit) - 1);
    }
  }

  method AppendChain(table: seq<int>, count: nat) returns (longer: seq<int>)
    ensures longer == table + Chain(|table|, count)
  {
    longer := table;
    for offset := 0 to count
      invariant longer == table + Chain(|table|, count)[..offset]
    {
      longer := longer + [if offset + 1 == count then END else |longer| + 1];
    }
  }

  // ---- the large streams ----

  /** The data and the chains hold the first `i` of the streams. */
  ghost predicate LargesLaid(data: Bytes, chains: seq<(nat, nat)>, base: nat, larges: seq<Bytes>, i: nat) {
    i <= |larges| && data == Blocks(larges[..i], SECTOR) && Runs(chains, base, Counts(larges, SECTOR)[..i])
  }

  lemma LargesGrow(data: Bytes, chains: seq<(nat, nat)>, base: nat, larges: seq<Bytes>, i: nat)
    requires LargesLaid(data, chains, base, larges, i) && i < |larges|
    ensures |data| == SECTOR * Sum(Counts(larges, SECTOR)[..i])
    ensures larges[i] == [] ==> Counts(larges, SECTOR)[i] == 0 && LargesLaid(data, chains, base, larges, i + 1)
    ensures larges[i] != [] ==>
      && Counts(larges, SECTOR)[i] == Ceil(|larges[i]|, SECTOR) > 0
      && LargesLaid(data + Pad(larges[i], SECTOR), chains + [(base + Sum(Counts(larges, SECTOR)[..i]), Ceil(|larges[i]|, SECTOR))],
                    base, larges, i + 1)
  {
    StreamAdded(larges, SECTOR, i);
    RunsGrow(chains, base, Counts(larges, SECTOR), i);
  }

  method WriteLarges(dir: seq<Node>, regularStart: nat, before: seq<int>)
      returns (start: seq<int>, regularData: Bytes, chains: seq<(nat, nat)>)
    requires |before| == |dir| && regularStart == RegularStart(dir)
    ensures regularData == Blocks(Larges(dir), SECTOR)
    ensures Placed(start, before, RegularStart(dir), LargeCounts(dir), |dir|)
    ensures Runs(chains, RegularStart(dir), LargeCounts(dir))
  {
    start, regularData, chains := before, [], [];
    ghost var counts, larges := LargeCounts(dir), Larges(dir);
    for i := 0 to |dir|
      invariant LargesPlaced(dir, regularStart, before, start, regularData, chains, i)
    {
      start, regularData, chains := WriteLarge(dir, regularStart, before, start, regularData, chains, i);
    }
    assert counts[..|dir|] == counts && larges[..|dir|] == larges;
  }

  /** The first `i` entries are done: the data and chains of the large streams, and where they start. */
  ghost predicate LargesPlaced(dir: seq<Node>, base: nat, before: seq<int>, start: seq<int>, data: Bytes,
                               chains: seq<(nat, nat)>, i: nat) {
    Placed(start, before, base, LargeCounts(dir), i) && LargesLaid(data, chains, base, Larges(dir), i)
  }

  /** Entry `i`, if it is a large stream. */
  method WriteLarge(dir: seq<Node>, regularStart: nat, ghost before: seq<int>, start: seq<int>, regularData: Bytes,
                    chains: seq<(nat, nat)>, i: nat)
      returns (newStart: seq<int>, newData: Bytes, newChains: seq<(nat, nat)>)
    requires i < |dir| == |before| && LargesPlaced(dir, regularStart, before, start, regularData, chains, i)
    ensures LargesPlaced(dir, regularStart, before, newStart, newData, newChains, i + 1)
  {
    ghost var counts, larges := LargeCounts(dir), Larges(dir);
    newStart, newData, newChains := start, regularData, chains;
    var data := dir[i].data;
    assert larges[i] == LargePart(dir[i]);
    LargesGrow(regularData, chains, regularStart, larges, i);
    PlacedGrow(start, before, regularStart, counts, i);
    if data.Some? && |data.value| >= CUTOFF {
      var first;
      first, newChains, newData := AppendLarge(chains, regularData, regularStart, data.value, Sum(counts[..i]));
      newStart := start[i := first];
    }
  }

  /** One more large stream: its run of sectors, and its bytes with their padding. */
  method AppendLarge(chains: seq<(nat, nat)>, buffer: Bytes, base: nat, data: Bytes, ghost blocks: nat)
      returns (first: nat, more: seq<(nat, nat)>, longer: Bytes)
    requires |buffer| == SECTOR * blocks
    ensures first == base + blocks
    ensures more == chains + [(first, Ceil(|data|, SECTOR))] && longer == buffer + Pad(data, SECTOR)
  {
    first := base + |buffer| / 512;
    more := chains + [(first, (|data| + 511) / 512)];
    longer := AppendPadded(buffer, data, SECTOR, blocks);
  }

  /** The non-empty runs of `counts` in order. */
  ghost predicate Runs(chains: seq<(nat, nat)>, start: nat, counts: seq<nat>)
    decreases |counts|
  {
    if counts == [] then chains == []
    else
      var last := |counts| - 1;
      if counts[last] == 0 then Runs(chains, start, counts[..last])
      else
        && chains != [] && chains[|chains| - 1] == (start + Sum(counts[..last]), counts[last])
        && Runs(chains[..|chains| - 1], start, counts[..last])
  }

  lemma RunsGrow(chains: seq<(nat, nat)>, start: nat, counts: seq<nat>, i: nat)
    requires i < |counts| && Runs(chains, start, counts[..i])
    ensures counts[i] == 0 ==> Runs(chains, start, counts[..i + 1])
    ensures counts[i] > 0 ==> Runs(chains + [(start + Sum(counts[..i]), counts[i])], start, counts[..i + 1])
  {
    assert counts[..i + 1][..i] == counts[..i];
    var more := chains + [(start + Sum(counts[..i]), counts[i])];
    assert more[..|more| - 1] == chains;
  }

  // ---- the FAT, in place ----

  method ChainInto(fat: array<int>, start: nat, count: nat)
    requires start + count <= fat.Length
    modifies fat
    ensures fat[..] == old(fat[..start]) + Chain(start, count) + old(fat[start + count..])
  {
    for offset := 0 to count
      invariant fat[..start] == old(fat[..start]) && fat[start + count..] == old(fat[start + count..])
      invariant forall k | 0 <= k < offset :: fat[start + k] == Chain(start, count)[k]
    {
      fat[start + offset] := if offset + 1 == count then END else start + offset + 1;
    }
  }

  function ChainSeq(chains: seq<(nat, nat)>): seq<int> {
    if chains == [] then []
    else
      var last := chains[|chains| - 1];
      ChainSeq(chains[..|chains| - 1]) + Chain(last.0, last.1)
  }

  /** Each chain starts where those before it end. */
  ghost predicate Consecutive(chains: seq<(nat, nat)>, base: nat) {
    forall k: nat | k < |chains| :: BeginsInTurn(chains, base, k)
  }

  ghost predicate BeginsInTurn(chains: seq<(nat, nat)>, base: nat, k: nat)
    requires k < |chains|
  {
    chains[k].0 == base + |ChainSeq(chains[..k])|
  }

  lemma {:induction false} RunsEntries(chains: seq<(nat, nat)>, base: nat, counts: seq<nat>)
    requires Runs(chains, base, counts)
    ensures ChainSeq(chains) == Chains(base, counts) && Consecutive(chains, base)
    decreases |counts|
  {
    if counts != [] {
      var last := |counts| - 1;
      ChainsGrow(base, counts, last);
      assert counts[..last + 1] == counts;
      if counts[last] == 0 {
        RunsEntries(chains, base, counts[..last]);
      } else {
        var before := chains[..|chains| - 1];
        RunsEntries(before, base, counts[..last]);
        forall k: nat | k < |chains|
          ensures BeginsInTurn(chains, base, k)
        {
          assert chains[..k] == before[..k];
          assert if k == |before| then before[..k] == before else BeginsInTurn(before, base, k);
        }
      }
    }
  }

  function Free(n: nat): seq<int> {
    seq(n, _ => FREE)
  }

  /** The entries `done`, and free ones after them. */
  ghost predicate Filled(entries: seq<int>, done: seq<int>) {
    |done| <= |entries| && entries == done + Free(|entries| - |done|)
  }

  /** One more chain over free entries. */
  method ExtendFat(fat: array<int>, start: nat, count: nat, ghost done: seq<int>)
    requires start == |done| && start + count <= fat.Length && Filled(fat[..], done)
    modifies fat
    ensures Filled(fat[..], done + Chain(start, count))
  {
    ChainInto(fat, start, count);
  }

  lemma {:induction false} ChainSeqPrefix(chains: seq<(nat, nat)>, k: nat)
    requires k <= |chains|
    ensures |ChainSeq(chains[..k])| <= |ChainSeq(chains)|
    decreases |chains| - k
  {
    if k == |chains| {
      assert chains[..k] == chains;
    } else {
      assert chains[..k + 1][..k] == chains[..k];
      ChainSeqPrefix(chains, k + 1);
    }
  }

  lemma ChainSeqGrow(chains: seq<(nat, nat)>, k: nat)
    requires k < |chains|
    ensures ChainSeq(chains[..k + 1]) == ChainSeq(chains[..k]) + Chain(chains[k].0, chains[k].1)
  {
    assert chains[..k + 1][..k] == chains[..k];
  }

  /** The chains of the large streams, one after another. */
  method ExtendAll(fat: array<int>, chains: seq<(nat, nat)>, ghost done: seq<int>)
    requires Consecutive(chains, |done|) && |done| + |ChainSeq(chains)| <= fat.Length && Filled(fat[..], done)
    modifies fat
    ensures Filled(fat[..], done + ChainSeq(chains))
  {
    for k := 0 to |chains|
      invariant Filled(fat[..], done + ChainSeq(chains[..k]))
    {
      ChainSeqPrefix(chains, k + 1);
      ChainSeqGrow(chains, k);
      assert BeginsInTurn(chains, |done|, k);
      ExtendFat(fat, chains[k].0, chains[k].1, done + ChainSeq(chains[..k]));
      assert done + ChainSeq(chains[..k]) + Chain(chains[k].0, chains[k].1) == done + ChainSeq(chains[..k + 1]);
    }
    assert chains[..|chains|] == chains;
  }

  lemma ChainsFirst(start: nat, count: nat, rest: seq<nat>)
    ensures Chains(start, [count] + rest) == Chain(start, count) + Chains(start + count, rest)
  {
    assert ([count] + rest)[1..] == rest;
  }

  /** The first three regions' chains. */
  lemma RegionChains(a: nat, b: nat, c: nat, rest: seq<nat>)
    ensures Chains(0, [a, b, c] + rest)
         == [] + Chain(0, a) + Chain(a, b) + Chain(a + b, c) + Chains(a + b + c, rest)
  {
    assert [a, b, c] + rest == [a] + ([b] + ([c] + rest));
    ChainsFirst(0, a, [b] + ([c] + rest));
    ChainsFirst(a, b, [c] + rest);
    ChainsFirst(a + b, c, rest);
    RegroupFour(Chain(0, a), Chain(a, b), Chain(a + b, c), Chains(a + b + c, rest));
  }

  lemma RegroupFour(a: seq<int>, b: seq<int>, c: seq<int>, d: seq<int>)
    ensures a + (b + (c + d)) == [] + a + b + c + d
  {
  }

  method FillFat(fat: array<int>, dir: seq<Node>, chains: seq<(nat, nat)>)
    requires fat.Length == FAT_ENTRIES > FatSector(dir) && Filled(fat[..], [])
    requires Runs(chains, RegularStart(dir), LargeCounts(dir))
    modifies fat
    ensures Filled(fat[..], Chains(0, RegionCounts(dir)))
  {
    RegionsSum(dir);
    RunsEntries(chains, RegularStart(dir), LargeCounts(dir));
    RegionChains(DirectorySectors(dir), MiniFatSectors(dir), RootSectors(dir), LargeCounts(dir));
    var a, b, c := DirectorySectors(dir), MiniFatSectors(dir), RootSectors(dir);
    ExtendFat(fat, 0, a, []);
    ghost var done := [] + Chain(0, a);
    ExtendFat(fat, a, b, done);
    done := done + Chain(a, b);
    ExtendFat(fat, a + b, c, done);
    done := done + Chain(a + b, c);
    ExtendAll(fat, chains, done);
  }

  method WriteFat(dir: seq<Node>, chains: seq<(nat, nat)>) returns (fat: array<int>)
    requires FatSector(dir) < FAT_ENTRIES && Runs(chains, RegularStart(dir), LargeCounts(dir))
    ensures fresh(fat) && fat[..] == Fat(dir)
  {
    fat := new int[FAT_ENTRIES](_ => FREE);
    FillFat(fat, dir, chains);
    RegionsSum(dir);
    fat[FatSector(dir)] := FAT;
  }

  // ---- the header ----

  /** `header` starts with `done`, and the rest is still zero. */
  ghost predicate Begun(header: Bytes, done: Bytes) {
    |done| <= |header| && header == done + Fill(0, |header| - |done|)
  }

  /** Bytes put directly after what is written so far. */
  method PutHere(header: Bytes, at: nat, b: Bytes, ghost done: Bytes) returns (more: Bytes)
    requires Begun(header, done) && |done| == at && at + |b| <= |header|
    ensures |more| == |header| && Begun(more, done + b)
  {
    more := Put(header, at, b);
  }

  /** Bytes put some zeros after what is written so far. */
  method PutAfter(header: Bytes, at: nat, b: Bytes, ghost done: Bytes) returns (more: Bytes)
    requires Begun(header, done) && |done| <= at && at + |b| <= |header|
    ensures |more| == |header| && Begun(more, done + Fill(0, at - |done|) + b)
  {
    more := Put(header, at, b);
  }

  method WriteHeader(minifatStart: int, minifatSectors: nat, fatSector: nat, ghost dir: seq<Node>) returns (header: Bytes)
    requires FatSector(dir) < FAT_ENTRIES && fatSector == FatSector(dir) && minifatSectors == MiniFatSectors(dir)
    requires minifatStart == DirectorySectors(dir)
    ensures header == Header(dir)
  {
    var start := if minifatSectors > 0 then minifatStart else END;
    header := PutConstants();
    ghost var done := Constants();
    header := PutHere(header, 60, Le32(start) + Le32(minifatSectors), done);
    done := done + MiniFatFields(dir);
    header := PutHere(header, 68, Le32(END) + Le32(0), done);
    done := done + (Le32(END) + Le32(0));
    header := PutHere(header, 76, Le32(fatSector), done);
    done := done + Le32(fatSector);
    header := FreeLocations(header, done);
  }

  /** The fields that are the same in every file. */
  method PutConstants() returns (header: Bytes)
    ensures |header| == SECTOR && Begun(header, Constants())
  {
    ghost var done := MAGIC;
    header := Put(Fill(0, SECTOR), 0, MAGIC);
    header := PutAfter(header, 24, Versions(), done);
    done := done + Fill(0, 16) + Versions();
    header := PutHere(header, 32, Le16(6), done);
    done := done + Le16(6);
    header := PutAfter(header, 44, Le32(1) + Le32(0), done);
    done := done + Fill(0, 10) + (Le32(1) + Le32(0));
    header := PutAfter(header, 56, Le32(CUTOFF), done);
  }

  method FreeLocations(header: Bytes, ghost done: Bytes) returns (full: Bytes)
    requires |header| == SECTOR && |done| == 80 && Begun(header, done)
    ensures full == done + Fill(0xFF, 432)
  {
    full := header;
    var offset := 80;
    while offset < 512
      invariant 80 <= offset <= 512 && offset % 4 == 0 && |full| == SECTOR
      invariant Begun(full, done + Fill(0xFF, offset - 80))
      decreases 512 - offset
    {
      full := PutHere(full, offset, Le32(FREE), done + Fill(0xFF, offset - 80));
      assert Le32(FREE) == Fill(0xFF, 4);
      offset := offset + 4;
    }
  }

  // ---- the directory ----

  lemma EncodeFirst(r: Record, rest: seq<Record>)
    requires Writable(r) && Encodable(rest)
    ensures Encodable([r] + rest) && EncodeTable([r] + rest) == EncodeRecord(r) + EncodeTable(rest)
  {
    assert ([r] + rest)[1..] == rest;
  }

  lemma EncodeOne(r: Record)
    requires Writable(r)
    ensures Encodable([r]) && EncodeTable([r]) == EncodeRecord(r)
  {
    EncodeFirst(r, []);
    assert [r] + [] == [r];
    assert EncodeRecord(r) + [] == EncodeRecord(r);
  }

  lemma Regroup(a: Bytes, b: Bytes, c: Bytes)
    ensures a + (b + c) == a + b + c
  {
  }

  lemma EncodeLast(r: Record)
    requires Writable(r)
    ensures Encodable([] + [r]) && EncodeTable([] + [r]) == EncodeTable([]) + EncodeRecord(r)
  {
    EncodeOne(r);
    assert [] + [r] == [r];
    assert [] + EncodeRecord(r) == EncodeRecord(r);
  }

  lemma {:induction false} EncodeAppend(records: seq<Record>, r: Record)
    requires Encodable(records) && Writable(r)
    ensures Encodable(records + [r]) && EncodeTable(records + [r]) == EncodeTable(records) + EncodeRecord(r)
  {
    if records == [] {
      EncodeLast(r);
    } else {
      var first, rest := records[0], records[1..];
      EncodeAppend(rest, r);
      EncodeFirst(first, rest + [r]);
      EncodeFirst(first, rest);
      assert [first] + rest == records;
      assert [first] + (rest + [r]) == records + [r];
      Regroup(EncodeRecord(first), EncodeTable(rest), EncodeRecord(r));
    }
  }

  lemma TableGrows(records: seq<Record>, i: nat)
    requires i < |records| && Encodable(records[..i]) && Writable(records[i])
    ensures Encodable(records[..i + 1])
    ensures EncodeTable(records[..i + 1]) == EncodeTable(records[..i]) + EncodeRecord(records[i])
  {
    EncodeAppend(records[..i], records[i]);
    assert records[..i] + [records[i]] == records[..i + 1];
  }

  /** Entry `i`, from the links and starts found before. */
  function EntryAt(dir: seq<Node>, child: seq<int>, right: seq<int>, start: seq<int>, miniSize: nat, i: nat): Record
    requires i < |dir| == |child| == |right| == |start|
  {
    Record(EntryName(dir, i),
           if i == 0 then ROOT_STORAGE else if dir[i].data.Some? then STREAM else STORAGE,
           FREE, right[i], child[i], start[i],
           if i == 0 then miniSize else if dir[i].data.Some? then |dir[i].data.value| else 0)
  }

  predicate HasEntries(records: seq<Record>, dir: seq<Node>, child: seq<int>, right: seq<int>, start: seq<int>, miniSize: nat) {
    && |records| == |dir| == |child| == |right| == |start|
    && forall i | 0 <= i < |dir| ::
         records[i] == EntryAt(dir, child, right, start, miniSize, i) && Fits(records[i]) && records[i].kind > 0
  }

  /** The entries of the directory, written one after another. */
  method WriteTable(dir: seq<Node>, child: seq<int>, right: seq<int>, start: seq<int>, miniSize: nat,
                    ghost records: seq<Record>)
      returns (table: Result<Bytes>)
    requires HasEntries(records, dir, child, right, start, miniSize)
    ensures table.Ok? <==> Encodable(records)
    ensures table.Ok? ==> table.value == EncodeTable(records)
  {
    var bytes := [];
    for index := 0 to |dir|
      invariant Encodable(records[..index]) && bytes == EncodeTable(records[..index])
    {
      var entry := EntryAt(dir, child, right, start, miniSize, index);
      assert entry == records[index];
      var raw := WriteRecord(entry);
      if raw.Err? {
        assert !Writable(records[index]);
        return Err;
      }
      TableGrows(records, index);
      bytes := bytes + raw.value;
    }
    assert records[..|dir|] == records;
    return Ok(bytes);
  }

  // ---- the whole file ----

  lemma StartsFound(dir: seq<Node>, none: seq<int>, minis: seq<int>, larges: seq<int>, i: nat)
    requires |dir| == |none| == |minis| == |larges| && 0 < i < |dir| && none[i] == END
    requires Placed(minis, none, 0, MiniCounts(dir), |dir|)
    requires Placed(larges, minis, RegularStart(dir), LargeCounts(dir), |dir|)
    ensures larges[i] == Start(dir, i)
  {
    StreamAdded(Minis(dir), MINI, i);
    StreamAdded(Larges(dir), SECTOR, i);
    assert PlacedAt(minis, none, 0, MiniCounts(dir), |dir|, i) && PlacedAt(larges, minis, RegularStart(dir), LargeCounts(dir), |dir|, i);
    assert Minis(dir)[i] == MiniPart(dir[i]) && Larges(dir)[i] == LargePart(dir[i]);
  }

  /** `start` holds the start of every entry. */
  ghost predicate Started(start: seq<int>, dir: seq<Node>) {
    |start| == |dir| && forall i | 0 <= i < |dir| :: start[i] == Start(dir, i)
  }

  lemma AllStarted(dir: seq<Node>, none: seq<int>, minis: seq<int>, larges: seq<int>, start: seq<int>)
    requires dir != [] && |dir| == |none| == |minis| == |larges| && forall i | 0 <= i < |dir| :: none[i] == END
    requires Placed(minis, none, 0, MiniCounts(dir), |dir|)
    requires Placed(larges, minis, RegularStart(dir), LargeCounts(dir), |dir|)
    requires start == larges[0 := if RootSectors(dir) > 0 then RootStart(dir) else END]
    ensures Started(start, dir)
  {
    forall i | 0 < i < |dir|
      ensures larges[i] == Start(dir, i)
    {
      StartsFound(dir, none, minis, larges, i);
    }
  }

  lemma FourRegions(a: Bytes, b: Bytes, c: Bytes, rest: seq<Bytes>)
    ensures Blocks([a, b, c] + rest, SECTOR)
         == Pad(a, SECTOR) + Pad(b, SECTOR) + Pad(c, SECTOR) + Blocks(rest, SECTOR)
  {
    assert ([c] + rest)[1..] == rest;
    assert Blocks([c] + rest, SECTOR) == Pad(c, SECTOR) + Blocks(rest, SECTOR);
    assert ([b, c] + rest)[1..] == [c] + rest;
    assert Blocks([b, c] + rest, SECTOR) == Pad(b, SECTOR) + Blocks([c] + rest, SECTOR);
    assert ([a, b, c] + rest)[1..] == [b, c] + rest;
    assert Blocks([a, b, c] + rest, SECTOR) == Pad(a, SECTOR) + Blocks([b, c] + rest, SECTOR);
  }

  /** The parts in file order, each brought to whole sectors. */
  method Concatenate(header: Bytes, table: Bytes, minifat: seq<int>, miniData: Bytes, regularData: Bytes, fat: seq<int>,
                  ghost larges: seq<Bytes>)
      returns (file: Bytes)
    requires forall i | 0 <= i < |minifat| :: 0 <= minifat[i] < 0x1_0000_0000
    requires forall i | 0 <= i < |fat| :: 0 <= fat[i] < 0x1_0000_0000
    requires regularData == Blocks(larges, SECTOR)
    ensures 4 * |minifat| <= SECTOR * Ceil(4 * |minifat|, SECTOR)
    ensures file == header
      + Blocks([table, Words(minifat) + Fill(0xFF, SECTOR * Ceil(4 * |minifat|, SECTOR) - 4 * |minifat|), miniData] + larges, SECTOR)
      + Words(fat)
  {
    CeilCovers(4 * |minifat|, SECTOR);
    var directoryBytes := PadSector(table, 0);
    var minifatBytes := PadSector(Words(minifat), 0xFF);
    var miniBytes := PadSector(miniData, 0);
    WholeSectors(minifatBytes, Ceil(4 * |minifat|, SECTOR));
    FourRegions(table, minifatBytes, miniData, larges);
    file := header + directoryBytes + minifatBytes + miniBytes + regularData + Words(fat);
    Joined(header, directoryBytes, minifatBytes, miniBytes, regularData);
  }

  method PadSector(data: Bytes, filler: byte) returns (padded: Bytes)
    ensures |data| <= SECTOR * Ceil(|data|, SECTOR)
    ensures padded == data + Fill(filler, SECTOR * Ceil(|data|, SECTOR) - |data|)
  {
    CeilCovers(|data|, SECTOR);
    var sectors := (|data| + 511) / 512;
    padded := data + Fill(filler, sectors * 512 - |data|);
  }

  lemma Joined(a: Bytes, b: Bytes, c: Bytes, d: Bytes, e: Bytes)
    ensures a + b + c + d + e == a + (b + c + d + e)
  {
  }

  lemma EntriesFound(dir: seq<Node>, child: seq<int>, right: seq<int>, start: seq<int>)
    requires FatSector(dir) < FAT_ENTRIES && |child| == |right| == |dir| && Started(start, dir)
    requires forall i | 0 <= i < |dir| :: child[i] == ChildLink(dir, i)
    requires forall i | 0 <= i < |dir| :: right[i] == RightLink(dir, i)
    ensures HasEntries(Records(dir), dir, child, right, start, |MiniStream(dir)|)
    ensures Encodable(Records(dir)) <==> NamesFit(dir)
  {
    forall i | 0 <= i < |dir|
      ensures Records(dir)[i] == EntryAt(dir, child, right, start, |MiniStream(dir)|, i)
      ensures Fits(Records(dir)[i]) && Records(dir)[i].kind > 0
      ensures Records(dir)[i].name == EntryName(dir, i)
    {
      RecordFits(dir, i);
    }
    if Encodable(Records(dir)) {
      forall i | 0 <= i < |dir|
        ensures |NameBytes(EntryName(dir, i))| <= 64
      {
        assert Writable(Records(dir)[i]);
      }
    }
  }

  lemma RegionStarts(dir: seq<Node>)
    ensures RootStart(dir) == (|dir| * 128 + 511) / 512 + (|MiniFat(dir)| * 4 + 511) / 512
    ensures RootSectors(dir) == (|MiniStream(dir)| + 511) / 512
  {
  }

  lemma LargeSectors(dir: seq<Node>)
    ensures |Blocks(Larges(dir), SECTOR)| / 512 == Sum(LargeCounts(dir))
  {
    BlocksLength(Larges(dir), SECTOR);
  }

  /** Where everything goes: the contents laid out, and the start of every entry. */
  method Allocate(dir: seq<Node>)
      returns (start: seq<int>, miniData: Bytes, minifat: seq<int>, regularData: Bytes, chains: seq<(nat, nat)>, fatSector: nat)
    requires dir != []
    ensures Started(start, dir)
    ensures miniData == MiniStream(dir) && minifat == MiniFat(dir) && regularData == Blocks(Larges(dir), SECTOR)
    ensures Runs(chains, RegularStart(dir), LargeCounts(dir)) && fatSector == FatSector(dir)
  {
    var none := seq(|dir|, _ => END);
    start, miniData, minifat := WriteMinis(dir, none);
    ghost var minis := start;
    var directorySectors := (|dir| * 128 + 511) / 512;
    var minifatSectors := (|minifat| * 4 + 511) / 512;
    var rootSectors := (|miniData| + 511) / 512;
    var rootStart := directorySectors + minifatSectors;
    var regularStart := rootStart + rootSectors;
    RegionStarts(dir);
    assert regularStart == RegularStart(dir);
    start, regularData, chains := WriteLarges(dir, regularStart, start);
    ghost var larges := start;
    LargeSectors(dir);
    fatSector := regularStart + |regularData| / 512;
    start := start[0 := if rootSectors > 0 then rootStart else END];
    AllStarted(dir, none, minis, larges, start);
  }

  method Assemble(header: Bytes, table: Bytes, minifat: seq<int>, miniData: Bytes, regularData: Bytes, fat: seq<int>,
                  ghost dir: seq<Node>)
      returns (file: Bytes)
    requires FatSector(dir) < FAT_ENTRIES && NamesFit(dir) && Encodable(Records(dir))
    requires header == Header(dir) && table == EncodeTable(Records(dir)) && minifat == MiniFat(dir)
    requires miniData == MiniStream(dir) && regularData == Blocks(Larges(dir), SECTOR) && fat == Fat(dir)
    ensures file == File(dir)
  {
    FileParts(dir);
    file := Concatenate(header, table, minifat, miniData, regularData, fat, Larges(dir));
  }

  /** The file of a directory whose contents are laid out. */
  method Compose(dir: seq<Node>, table: Bytes, miniData: Bytes, minifat: seq<int>, regularData: Bytes,
                 chains: seq<(nat, nat)>, fatSector: nat)
      returns (file: Bytes)
    requires FatSector(dir) < FAT_ENTRIES && fatSector == FatSector(dir) && NamesFit(dir) && Encodable(Records(dir))
    requires table == EncodeTable(Records(dir)) && minifat == MiniFat(dir)
    requires miniData == MiniStream(dir) && regularData == Blocks(Larges(dir), SECTOR)
    requires Runs(chains, RegularStart(dir), LargeCounts(dir))
    ensures file == File(dir)
  {
    var fat := WriteFat(dir, chains);
    var header := WriteHeader((|dir| * 128 + 511) / 512, (|minifat| * 4 + 511) / 512, fatSector, dir);
    file := Assemble(header, table, minifat, miniData, regularData, fat[..], dir);
  }

  /** The file of a directory. */
  method WriteDirectory(dir: seq<Node>) returns (r: Result<Bytes>)
    requires IsDirectory(dir)
    ensures r == if FatSector(dir) < FAT_ENTRIES && NamesFit(dir) then Ok(File(dir)) else Err
  {
    var child, right := Link(dir);
    var start, miniData, minifat, regularData, chains, fatSector := Allocate(dir);
    if fatSector >= 128 {
      return Err;
    }
    EntriesFound(dir, child, right, start);
    var table := WriteTable(dir, child, right, start, |miniData|, Records(dir));
    if table.Err? {
      return Err;
    }
    var file := Compose(dir, table.value, miniData, minifat, regularData, chains, fatSector);
    return Ok(file);
  }

  lemma FileParts(dir: seq<Node>)
    requires FatSector(dir) < FAT_ENTRIES && NamesFit(dir) && Encodable(Records(dir))
    ensures forall i | 0 <= i < |MiniFat(dir)| :: 0 <= MiniFat(dir)[i] < 0x1_0000_0000
    ensures forall i | 0 <= i < |Fat(dir)| :: 0 <= Fat(dir)[i] < 0x1_0000_0000
    ensures 4 * |MiniFat(dir)| <= SECTOR * MiniFatSectors(dir)
    ensures File(dir) == Header(dir)
      + Blocks([EncodeTable(Records(dir)),
                Words(MiniFat(dir)) + Fill(0xFF, SECTOR * MiniFatSectors(dir) - 4 * |MiniFat(dir)|),
                MiniStream(dir)] + Larges(dir), SECTOR)
      + Words(Fat(dir))
  {
    WordsInRange(dir);
    CeilCovers(4 * |MiniFat(dir)|, SECTOR);
  }

  lemma WordsInRange(dir: seq<Node>)
    requires FatSector(dir) < FAT_ENTRIES
    ensures forall i | 0 <= i < |MiniFat(dir)| :: 0 <= MiniFat(dir)[i] < 0x1_0000_0000
    ensures forall i | 0 <= i < |Fat(dir)| :: 0 <= Fat(dir)[i] < 0x1_0000_0000
  {
    SizesBounded(dir);
    ChainsBounded(0, MiniCounts(dir));
    FatBounded(dir);
  }

  /** The compound file of `entries`. */
  method Write(entries: seq<Entry>) returns (r: Result<Bytes>)
    ensures r == Cfb(entries)
  {
    DirectoryHolds(entries);
    var dir := Collect(entries);
    if dir.Err? {
      return Err;
    }
    r := WriteDirectory(dir.value);
  }
}
