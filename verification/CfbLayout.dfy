/** Where everything lies in a compound file with one FAT sector ([MS-CFB] sections 2.2 to 2.6). */
module CfbLayout {
  import opened Bytes
  import opened Wrappers
  import opened CfbChains
  import opened CfbDirectory
  import opened CfbLinks
  import opened CfbWalk
  import opened CfbRecords

  const SECTOR: nat := 512
  const MINI: nat := 64
  const CUTOFF: nat := 4096
  const FAT_ENTRIES: nat := 128

  // ---- the contents, split at the cutoff ----

  function MiniPart(node: Node): Bytes {
    if node.data.Some? && |node.data.value| < CUTOFF then node.data.value else []
  }

  function LargePart(node: Node): Bytes {
    if node.data.Some? && |node.data.value| >= CUTOFF then node.data.value else []
  }

  function Minis(dir: seq<Node>): (parts: seq<Bytes>)
    ensures |parts| == |dir|
  {
    seq(|dir|, i requires 0 <= i < |dir| => MiniPart(dir[i]))
  }

  function Larges(dir: seq<Node>): (parts: seq<Bytes>)
    ensures |parts| == |dir|
  {
    seq(|dir|, i requires 0 <= i < |dir| => LargePart(dir[i]))
  }

  function MiniCounts(dir: seq<Node>): (counts: seq<nat>)
    ensures |counts| == |dir|
  {
    Counts(Minis(dir), MINI)
  }

  function LargeCounts(dir: seq<Node>): (counts: seq<nat>)
    ensures |counts| == |dir|
  {
    Counts(Larges(dir), SECTOR)
  }

  function MiniFat(dir: seq<Node>): (entries: seq<int>)
    ensures |entries| == Sum(MiniCounts(dir))
  {
    Chains(0, MiniCounts(dir))
  }

  function MiniStream(dir: seq<Node>): Bytes {
    Blocks(Minis(dir), MINI)
  }

  // ---- the sectors, in file order ----

  function DirectorySectors(dir: seq<Node>): nat {
    Ceil(128 * |dir|, SECTOR)
  }

  function MiniFatSectors(dir: seq<Node>): nat {
    Ceil(4 * |MiniFat(dir)|, SECTOR)
  }

  function RootSectors(dir: seq<Node>): nat {
    Ceil(|MiniStream(dir)|, SECTOR)
  }

  function RootStart(dir: seq<Node>): nat {
    DirectorySectors(dir) + MiniFatSectors(dir)
  }

  function RegularStart(dir: seq<Node>): nat {
    RootStart(dir) + RootSectors(dir)
  }

  function FatSector(dir: seq<Node>): nat {
    RegularStart(dir) + Sum(LargeCounts(dir))
  }

  // ---- the directory entries ----

  function Start(dir: seq<Node>, i: nat): int
    requires i < |dir|
  {
    if i == 0 then (if RootSectors(dir) > 0 then RootStart(dir) else END)
    else if MiniPart(dir[i]) != [] then Sum(MiniCounts(dir)[..i])
    else if LargePart(dir[i]) != [] then RegularStart(dir) + Sum(LargeCounts(dir)[..i])
    else END
  }

  function Size(dir: seq<Node>, i: nat): nat
    requires i < |dir|
  {
    if i == 0 then |MiniStream(dir)|
    else if dir[i].data.Some? then |dir[i].data.value|
    else 0
  }

  function EntryName(dir: seq<Node>, i: nat): string
    requires i < |dir|
  {
    if i == 0 then "Root Entry" else LastName(dir[i])
  }

  function RecordOf(dir: seq<Node>, i: nat): Record
    requires i < |dir|
  {
    Record(EntryName(dir, i),
           if i == 0 then ROOT_STORAGE else if dir[i].data.Some? then STREAM else STORAGE,
           FREE, RightLink(dir, i), ChildLink(dir, i), Start(dir, i), Size(dir, i))
  }

  function Records(dir: seq<Node>): (records: seq<Record>)
    ensures |records| == |dir|
  {
    seq(|dir|, i requires 0 <= i < |dir| => RecordOf(dir, i))
  }

  predicate NamesFit(dir: seq<Node>) {
    forall i | 0 <= i < |dir| :: |NameBytes(EntryName(dir, i))| <= 64
  }

  // ---- one FAT sector is enough for all positions to fit their fields ----

  lemma {:induction false} PrefixSum(counts: seq<nat>, i: nat)
    requires i <= |counts|
    ensures Sum(counts[..i]) <= Sum(counts)
  {
    SumSplit(counts, i);
  }

  lemma BlockFits(datas: seq<Bytes>, unit: nat, i: nat)
    requires unit > 0 && i < |datas|
    ensures |datas[i]| <= |Blocks(datas, unit)|
  {
    BlocksRun(datas, unit, i);
    CeilCovers(|datas[i]|, unit);
  }

  lemma SizesBounded(dir: seq<Node>)
    requires FatSector(dir) < FAT_ENTRIES
    ensures |dir| <= 512 && |MiniFat(dir)| <= 0x4000 && |MiniStream(dir)| <= 0x1_0000
    ensures |Blocks(Larges(dir), SECTOR)| <= 0x1_0000
  {
    CeilCovers(128 * |dir|, SECTOR);
    CeilCovers(4 * |MiniFat(dir)|, SECTOR);
    CeilCovers(|MiniStream(dir)|, SECTOR);
    BlocksLength(Larges(dir), SECTOR);
  }

  lemma LinksBounded(dir: seq<Node>, i: nat)
    requires i < |dir| <= 512
    ensures 0 <= RightLink(dir, i) <= FREE && 0 <= ChildLink(dir, i) <= FREE
  {
  }

  lemma RecordFits(dir: seq<Node>, i: nat)
    requires i < |dir| && FatSector(dir) < FAT_ENTRIES
    ensures Fits(RecordOf(dir, i)) && 0 < RecordOf(dir, i).kind
  {
    SizesBounded(dir);
    LinksBounded(dir, i);
    PrefixSum(MiniCounts(dir), i);
    PrefixSum(LargeCounts(dir), i);
    BlockFits(Larges(dir), SECTOR, i);
  }

  lemma RecordsEncodable(dir: seq<Node>)
    requires FatSector(dir) < FAT_ENTRIES && NamesFit(dir)
    ensures Encodable(Records(dir))
  {
    forall i | 0 <= i < |dir|
      ensures Writable(RecordOf(dir, i))
    {
      RecordFits(dir, i);
    }
  }

  // ---- the file ----

  lemma {:induction false} ChainsBounded(start: nat, counts: seq<nat>)
    requires start + Sum(counts) < END
    ensures forall i | 0 <= i < |Chains(start, counts)| :: 0 <= Chains(start, counts)[i] <= END
    decreases |counts|
  {
    if counts != [] {
      ChainsBounded(start + counts[0], counts[1..]);
    }
  }

  /** The mini FAT fills its last sector with free entries. */
  function MiniFatBytes(dir: seq<Node>): (b: Bytes)
    requires FatSector(dir) < FAT_ENTRIES
    ensures |b| == SECTOR * MiniFatSectors(dir)
  {
    SizesBounded(dir);
    ChainsBounded(0, MiniCounts(dir));
    CeilCovers(4 * |MiniFat(dir)|, SECTOR);
    Words(MiniFat(dir)) + Fill(0xFF, SECTOR * MiniFatSectors(dir) - 4 * |MiniFat(dir)|)
  }

  function Regions(dir: seq<Node>): seq<Bytes>
    requires FatSector(dir) < FAT_ENTRIES && NamesFit(dir)
  {
    RecordsEncodable(dir);
    [EncodeTable(Records(dir)), MiniFatBytes(dir), MiniStream(dir)] + Larges(dir)
  }

  function RegionCounts(dir: seq<Node>): seq<nat> {
    [DirectorySectors(dir), MiniFatSectors(dir), RootSectors(dir)] + LargeCounts(dir)
  }

  lemma RegionsSum(dir: seq<Node>)
    ensures Sum(RegionCounts(dir)) == FatSector(dir)
    ensures forall i | 0 <= i <= |dir| :: Sum(RegionCounts(dir)[..3 + i]) == RegularStart(dir) + Sum(LargeCounts(dir)[..i])
    ensures Sum(RegionCounts(dir)[..2]) == RootStart(dir) && Sum(RegionCounts(dir)[..1]) == DirectorySectors(dir)
  {
    forall i | 0 <= i <= |dir|
      ensures Sum(RegionCounts(dir)[..3 + i]) == RegularStart(dir) + Sum(LargeCounts(dir)[..i])
    {
      FirstThree(DirectorySectors(dir), MiniFatSectors(dir), RootSectors(dir), LargeCounts(dir)[..i]);
      assert RegionCounts(dir)[..3 + i]
          == [DirectorySectors(dir), MiniFatSectors(dir), RootSectors(dir)] + LargeCounts(dir)[..i];
    }
    assert RegionCounts(dir)[..3 + |dir|] == RegionCounts(dir) && LargeCounts(dir)[..|dir|] == LargeCounts(dir);
    var a, b := DirectorySectors(dir), MiniFatSectors(dir);
    assert RegionCounts(dir)[..2] == [a, b] && [a, b][1..] == [b] && [b][1..] == [];
    assert Sum([b]) == b;
    assert RegionCounts(dir)[..1] == [a] && [a][1..] == [];
  }

  lemma FirstThree(a: nat, b: nat, c: nat, rest: seq<nat>)
    ensures Sum([a, b, c] + rest) == a + b + c + Sum(rest)
  {
    assert ([c] + rest)[1..] == rest;
    assert Sum([c] + rest) == c + Sum(rest);
    assert ([b, c] + rest)[1..] == [c] + rest;
    assert Sum([b, c] + rest) == b + Sum([c] + rest);
    assert ([a, b, c] + rest)[1..] == [b, c] + rest;
  }

  /** Every sector before the FAT sector belongs to a chain; the entries after it are free. */
  function Fat(dir: seq<Node>): (entries: seq<int>)
    requires FatSector(dir) < FAT_ENTRIES
    ensures |entries| == FAT_ENTRIES
  {
    RegionsSum(dir);
    Chains(0, RegionCounts(dir)) + [FAT] + seq(FAT_ENTRIES - 1 - FatSector(dir), _ => FREE)
  }

  lemma FatBounded(dir: seq<Node>)
    requires FatSector(dir) < FAT_ENTRIES
    ensures forall i | 0 <= i < FAT_ENTRIES :: 0 <= Fat(dir)[i] <= FREE
  {
    RegionsSum(dir);
    ChainsBounded(0, RegionCounts(dir));
  }

  const MAGIC: Bytes := [0xD0, 0xCF, 0x11, 0xE0, 0xA1, 0xB1, 0x1A, 0xE1]

  function Versions(): (b: Bytes)
    ensures |b| == 8
  {
    Le16(0x3E) + Le16(3) + Le16(0xFFFE) + Le16(9)
  }

  /** The fields that are the same in every file. */
  function Constants(): (b: Bytes)
    ensures |b| == 60
  {
    MAGIC + Fill(0, 16) + Versions() + Le16(6)
    + Fill(0, 10) + (Le32(1) + Le32(0)) + Fill(0, 4) + Le32(CUTOFF)
  }

  function MiniFatFields(dir: seq<Node>): (b: Bytes)
    requires FatSector(dir) < FAT_ENTRIES
    ensures |b| == 8
  {
    Le32(if MiniFatSectors(dir) > 0 then DirectorySectors(dir) else END) + Le32(MiniFatSectors(dir))
  }

  /** The fields of [MS-CFB] section 2.2, the unused FAT locations free. */
  function Header(dir: seq<Node>): (h: Bytes)
    requires FatSector(dir) < FAT_ENTRIES
    ensures |h| == SECTOR
  {
    Constants() + MiniFatFields(dir) + (Le32(END) + Le32(0)) + Le32(FatSector(dir))
    + Fill(0xFF, 432)
  }

  function File(dir: seq<Node>): Bytes
    requires FatSector(dir) < FAT_ENTRIES && NamesFit(dir)
  {
    FatBounded(dir);
    Header(dir) + Blocks(Regions(dir), SECTOR) + Words(Fat(dir))
  }

  /** The compound file of `entries`: refused for clashing paths, for long names, and when one sector
      of FAT entries is not enough. */
  function Cfb(entries: seq<Entry>): Result<Bytes> {
    match Directory(entries)
    case Err => Err
    case Ok(dir) => if FatSector(dir) < FAT_ENTRIES && NamesFit(dir) then Ok(File(dir)) else Err
  }

  // ---- allocation ----

  lemma RegionsCounted(dir: seq<Node>)
    requires FatSector(dir) < FAT_ENTRIES && NamesFit(dir)
    ensures Counts(Regions(dir), SECTOR) == RegionCounts(dir)
    ensures |Blocks(Regions(dir), SECTOR)| == SECTOR * FatSector(dir)
  {
    var counts := Counts(Regions(dir), SECTOR);
    CeilWhole(MiniFatSectors(dir));
    assert |counts| == |RegionCounts(dir)|;
    forall i | 0 <= i < |counts|
      ensures counts[i] == RegionCounts(dir)[i]
    {
      if i >= 3 {
        assert Regions(dir)[i] == Larges(dir)[i - 3];
      }
    }
    BlocksLength(Regions(dir), SECTOR);
    RegionsSum(dir);
  }

  lemma CeilWhole(n: nat)
    ensures Ceil(SECTOR * n, SECTOR) == n
  {
  }

  lemma WholeSectors(data: Bytes, sectors: nat)
    requires |data| == SECTOR * sectors
    ensures Pad(data, SECTOR) == data
  {
    CeilWhole(sectors);
  }
}
