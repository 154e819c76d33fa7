/** What the bytes of a written compound file are, field by field ([MS-CFB] sections 2.2, 2.3 and 2.6). */
module CfbFormat {
  import opened Bytes
  import opened CfbChains
  import opened CfbDirectory
  import opened CfbLinks
  import opened CfbWalk
  import opened CfbRecords
  import opened CfbLayout
  import opened CfbReader
  import CfbRoundTrip

  /** All bytes from `from` up to `to` are `b`. */
  predicate AllBytes(s: Bytes, from: nat, to: nat, b: byte) {
    to <= |s| && forall k | from <= k < to :: s[k] == b
  }

  // ---- the header ----

  /** Signature, class identifier, versions 3 and 0x3E, byte order, sector shifts, one FAT sector, the directory
      at sector 0, the mini stream cutoff, and no further FAT locations. */
  predicate HeaderFixed(file: Bytes) {
    && |file| >= 512
    && file[0..8] == [0xD0, 0xCF, 0x11, 0xE0, 0xA1, 0xB1, 0x1A, 0xE1]
    && AllBytes(file, 8, 24, 0)
    && file[24..34] == [0x3E, 0x00, 0x03, 0x00, 0xFE, 0xFF, 0x09, 0x00, 0x06, 0x00]
    && AllBytes(file, 34, 44, 0)
    && file[44..60] == [0x01, 0, 0, 0, 0, 0, 0, 0, 0, 0, 0, 0, 0x00, 0x10, 0, 0]
    && file[68..76] == [0xFE, 0xFF, 0xFF, 0xFF, 0, 0, 0, 0]
    && AllBytes(file, 80, 512, 0xFF)
  }

  lemma ConstantBytes()
    ensures Constants()[0..8] == [0xD0, 0xCF, 0x11, 0xE0, 0xA1, 0xB1, 0x1A, 0xE1]
    ensures AllBytes(Constants(), 8, 24, 0)
    ensures Constants()[24..34] == [0x3E, 0x00, 0x03, 0x00, 0xFE, 0xFF, 0x09, 0x00, 0x06, 0x00]
    ensures AllBytes(Constants(), 34, 44, 0)
    ensures Constants()[44..60] == [0x01, 0, 0, 0, 0, 0, 0, 0, 0, 0, 0, 0, 0x00, 0x10, 0, 0]
  {
    var c := Constants();
    assert c[0..8] == MAGIC;
    assert c[8..24] == Fill(0, 16);
    assert forall k | 8 <= k < 24 :: c[k] == c[8..24][k - 8];
    assert c[24..34] == Versions() + Le16(6);
    assert c[34..44] == Fill(0, 10);
    assert forall k | 34 <= k < 44 :: c[k] == c[34..44][k - 34];
    assert c[44..60] == (Le32(1) + Le32(0)) + Fill(0, 4) + Le32(4096);
  }

  /** What the header says of this file: where its mini FAT begins and how many sectors it has, and where its
      FAT is. */
  predicate HeaderOwn(file: Bytes, dir: seq<Node>) {
    && |file| >= 512
    && Get32(file, 60) == (if MiniFatSectors(dir) > 0 then DirectorySectors(dir) else 0xFFFF_FFFE)
    && Get32(file, 64) == MiniFatSectors(dir)
    && Get32(file, 76) == FatSector(dir)
  }

  lemma HeaderParts(dir: seq<Node>, rest: Bytes)
    requires FatSector(dir) < FAT_ENTRIES
    ensures var file := Header(dir) + rest;
      && file[..60] == Constants() && file[60..68] == MiniFatFields(dir)
      && file[68..76] == Le32(END) + Le32(0) && file[76..80] == Le32(FatSector(dir)) && file[80..512] == Fill(0xFF, 432)
  {
  }

  lemma HeaderFixedBytes(dir: seq<Node>, rest: Bytes)
    requires FatSector(dir) < FAT_ENTRIES
    ensures HeaderFixed(Header(dir) + rest)
  {
    var file := Header(dir) + rest;
    HeaderParts(dir, rest);
    ConstantBytes();
    Slice(file, 0, 60, 0, 8);
    Slice(file, 0, 60, 24, 34);
    Slice(file, 0, 60, 44, 60);
    assert forall k | 0 <= k < 60 :: file[k] == file[..60][k];
    assert forall k | 80 <= k < 512 :: file[k] == file[80..512][k - 80];
  }

  lemma HeaderOwnFields(dir: seq<Node>, rest: Bytes)
    requires FatSector(dir) < FAT_ENTRIES
    ensures HeaderOwn(Header(dir) + rest, dir)
  {
    var file := Header(dir) + rest;
    HeaderParts(dir, rest);
    assert file[60..64] == file[60..68][..4] && file[64..68] == file[60..68][4..];
    Get32Of(file, 60, if MiniFatSectors(dir) > 0 then DirectorySectors(dir) else END);
    Get32Of(file, 64, MiniFatSectors(dir));
    Get32Of(file, 76, FatSector(dir));
  }

  // ---- the directory entries ----

  /** The 128 bytes at `at` are entry `i`: its name with a terminator, the length of that, its kind, the colour
      black, no left sibling, its links, no class identifier or times, and where its stream begins. */
  predicate EntryFormat(file: Bytes, at: nat, dir: seq<Node>, i: nat)
    requires i < |dir|
  {
    var name := Utf16.Encode(if i == 0 then "Root Entry" else LastName(dir[i])) + [0, 0];
    && at + 128 <= |file| && |name| <= 64
    && file[at..at + |name|] == name && AllBytes(file, at + |name|, at + 64, 0)
    && Get16(file, at + 64) == |name|
    && file[at + 66] == (if i == 0 then 5 else if dir[i].data.Some? then 2 else 1)
    && file[at + 67] == 1
    && Get32(file, at + 68) == 0xFFFF_FFFF
    && Get32(file, at + 72) == RightLink(dir, i) && Get32(file, at + 76) == ChildLink(dir, i)
    && AllBytes(file, at + 80, at + 116, 0)
    && Get32(file, at + 116) == Start(dir, i)
    && Get64(file, at + 120) == Size(dir, i)
  }

  lemma RecordParts(r: Record)
    requires Writable(r)
    ensures var b, n := EncodeRecord(r), NameBytes(r.name);
      && b[..|n|] == n && b[|n|..64] == Fill(0, 64 - |n|) && b[64..66] == Le16(|n|) && b[66] == r.kind && b[67] == 1
      && b[68..72] == Le32(r.left) && b[72..76] == Le32(r.right) && b[76..80] == Le32(r.child)
      && b[80..116] == Fill(0, 36) && b[116..120] == Le32(r.start) && b[120..128] == Le64(r.size)
  {
  }

  lemma {:induction false} TableHolds(records: seq<Record>, i: nat, from: nat)
    requires Encodable(records) && i < |records| && from == 128 * i
    ensures from + 128 <= |EncodeTable(records)| && EncodeTable(records)[from..from + 128] == EncodeRecord(records[i])
  {
    var table := EncodeTable(records);
    assert table == EncodeRecord(records[0]) + EncodeTable(records[1..]);
    if i > 0 {
      TableHolds(records[1..], i - 1, from - 128);
      assert table[128..] == EncodeTable(records[1..]);
      Slice(table, 128, |table|, from - 128, from);
    }
  }

  lemma EntryRead(file: Bytes, at: nat, dir: seq<Node>, i: nat)
    requires i < |dir| && FatSector(dir) < FAT_ENTRIES && NamesFit(dir) && at + 128 <= |file|
    requires Writable(RecordOf(dir, i)) && file[at..at + 128] == EncodeRecord(RecordOf(dir, i))
    ensures EntryFormat(file, at, dir, i)
  {
    var r, b := RecordOf(dir, i), file[at..at + 128];
    var n := NameBytes(r.name);
    RecordParts(r);
    Slice(file, at, at + 128, 0, |n|);
    Slice(file, at, at + 128, |n|, 64);
    assert forall k | at + |n| <= k < at + 64 :: file[k] == file[at + |n|..at + 64][k - at - |n|];
    Slice(file, at, at + 128, 64, 66);
    Get16Of(file, at + 64, |n|);
    assert file[at + 66] == b[66] && file[at + 67] == b[67];
    LinksRead(file, at, r);
    Slice(file, at, at + 128, 80, 116);
    assert forall k | at + 80 <= k < at + 116 :: file[k] == file[at + 80..at + 116][k - at - 80];
  }

  lemma LinksRead(file: Bytes, at: nat, r: Record)
    requires Writable(r) && at + 128 <= |file| && file[at..at + 128] == EncodeRecord(r)
    ensures Get32(file, at + 68) == r.left && Get32(file, at + 72) == r.right && Get32(file, at + 76) == r.child
    ensures Get32(file, at + 116) == r.start && Get64(file, at + 120) == r.size
  {
    RecordParts(r);
    Slice(file, at, at + 128, 68, 72);
    Slice(file, at, at + 128, 72, 76);
    Slice(file, at, at + 128, 76, 80);
    Slice(file, at, at + 128, 116, 120);
    Slice(file, at, at + 128, 120, 128);
    Get32Of(file, at + 68, r.left);
    Get32Of(file, at + 72, r.right);
    Get32Of(file, at + 76, r.child);
    Get32Of(file, at + 116, r.start);
    Get64Of(file, at + 120, r.size);
  }

  lemma FirstBlock(datas: seq<Bytes>, i: nat, j: nat)
    requires datas != [] && i <= j <= |datas[0]|
    ensures j <= |Blocks(datas, SECTOR)| && Blocks(datas, SECTOR)[i..j] == datas[0][i..j]
  {
    CeilCovers(|datas[0]|, SECTOR);
    assert datas[0] <= Pad(datas[0], SECTOR) <= Blocks(datas, SECTOR);
  }

  lemma EntryBytes(dir: seq<Node>, i: nat, at: nat)
    requires FatSector(dir) < FAT_ENTRIES && NamesFit(dir) && i < |dir| && at == 128 * i
    ensures 512 + at + 128 <= |File(dir)| && Writable(RecordOf(dir, i))
    ensures File(dir)[512 + at..512 + at + 128] == EncodeRecord(RecordOf(dir, i))
  {
    RecordsEncodable(dir);
    TableHolds(Records(dir), i, at);
    FirstBlock(Regions(dir), at, at + 128);
    FileSlice(dir, at, at + 128);
  }

  /** The directory begins at sector 0, entry after entry. */
  lemma DirectoryFormat(dir: seq<Node>, i: nat)
    requires FatSector(dir) < FAT_ENTRIES && NamesFit(dir) && i < |dir|
    ensures EntryFormat(File(dir), 512 + 128 * i, dir, i)
  {
    EntryBytes(dir, i, 128 * i);
    var file, at := File(dir), 512 + 128 * i;
    EntryRead(file, at, dir, i);
  }

  lemma FileSlice(dir: seq<Node>, i: nat, j: nat)
    requires FatSector(dir) < FAT_ENTRIES && NamesFit(dir) && i <= j <= |Blocks(Regions(dir), SECTOR)|
    ensures 512 + j <= |File(dir)| && File(dir)[512 + i..512 + j] == Blocks(Regions(dir), SECTOR)[i..j]
  {
    CfbRoundTrip.FileSplits(dir);
    Slice(File(dir), 512, |File(dir)|, i, j);
    assert Image(dir)[i..j] == Blocks(Regions(dir), SECTOR)[i..j];
  }

  // ---- the FAT ----

  /** The FAT is the last sector: it marks itself, and leaves everything behind itself free. */
  predicate FatFormat(file: Bytes, dir: seq<Node>) {
    FatFormatAt(file, FatSector(dir), 512 * (FatSector(dir) + 1))
  }

  predicate FatFormatAt(file: Bytes, f: nat, at: nat) {
    && f < 128 && |file| == at + 512
    && Get32(file, at + 4 * f) == 0xFFFF_FFFD
    && forall k | f < k < 128 :: Get32(file, at + 4 * k) == 0xFFFF_FFFF
  }

  lemma {:induction false} WordAt(words: seq<int>, k: nat, from: nat)
    requires k < |words| && from == 4 * k && forall i | 0 <= i < |words| :: 0 <= words[i] < 0x1_0000_0000
    ensures from + 4 <= |Words(words)| && Words(words)[from..from + 4] == Le32(words[k])
  {
    var b := Words(words);
    if k > 0 {
      WordAt(words[1..], k - 1, from - 4);
      assert b[4..] == Words(words[1..]);
      Slice(b, 4, |b|, from - 4, from);
    }
  }

  lemma WordFrom(file: Bytes, at: nat, b: Bytes, from: nat, word: int)
    requires at + |b| <= |file| && file[at..at + |b|] == b
    requires from + 4 <= |b| && 0 <= word < 0x1_0000_0000 && b[from..from + 4] == Le32(word)
    ensures Get32(file, at + from) == word
  {
    Slice(file, at, at + |b|, from, from + 4);
    Get32Of(file, at + from, word);
  }

  /** The words of a table in a file. */
  lemma WordRead(file: Bytes, at: nat, b: Bytes, words: seq<int>, k: nat, from: nat)
    requires forall i | 0 <= i < |words| :: 0 <= words[i] < 0x1_0000_0000
    requires b == Words(words) && at + |b| <= |file| && file[at..at + |b|] == b && k < |words| && from == 4 * k
    ensures at + from + 4 <= |file| && Get32(file, at + from) == words[k]
  {
    WordAt(words, k, from);
    WordFrom(file, at, b, from, words[k]);
  }

  lemma FatBytes(dir: seq<Node>, at: nat)
    requires FatSector(dir) < FAT_ENTRIES && NamesFit(dir) && at == 512 * (FatSector(dir) + 1)
    ensures |File(dir)| == at + 512
    ensures forall i | 0 <= i < 128 :: 0 <= Fat(dir)[i] <= FREE
    ensures |Words(Fat(dir))| == 512 && File(dir)[at..at + 512] == Words(Fat(dir))
  {
    RegionsCounted(dir);
    FatBounded(dir);
    Appended(Header(dir) + Blocks(Regions(dir), SECTOR), Words(Fat(dir)), 512);
  }

  lemma FatWord(dir: seq<Node>, file: Bytes, at: nat, k: nat)
    requires FatSector(dir) < FAT_ENTRIES && NamesFit(dir) && k < 128 && file == File(dir)
    requires at == 512 * (FatSector(dir) + 1)
    ensures |file| == at + 512 && Get32(file, at + 4 * k) == Fat(dir)[k]
  {
    FatBytes(dir, at);
    WordRead(file, at, Words(Fat(dir)), Fat(dir), k, 4 * k);
  }

  lemma FatTail(dir: seq<Node>, k: nat)
    requires FatSector(dir) < FAT_ENTRIES && FatSector(dir) <= k < 128
    ensures Fat(dir)[k] == if k == FatSector(dir) then 0xFFFF_FFFD else 0xFFFF_FFFF
  {
    RegionsSum(dir);
    assert |Chains(0, RegionCounts(dir))| == FatSector(dir);
  }

  lemma FatIsLast(dir: seq<Node>, file: Bytes, f: nat, at: nat)
    requires FatSector(dir) < FAT_ENTRIES && NamesFit(dir) && file == File(dir)
    requires f == FatSector(dir) && at == 512 * (f + 1)
    ensures FatFormatAt(file, f, at)
  {
    FatWord(dir, file, at, f);
    FatTail(dir, f);
    forall k | f < k < 128
      ensures Get32(file, at + 4 * k) == 0xFFFF_FFFF
    {
      FatWord(dir, file, at, k);
      FatTail(dir, k);
    }
  }

  // ---- the regions between the directory and the FAT ----

  /** The bytes from `at` are `data`, followed by zeros up to `end`. */
  predicate Laid(file: Bytes, at: nat, data: Bytes, end: nat) {
    at + |data| <= end <= |file| && file[at..at + |data|] == data && AllBytes(file, at + |data|, end, 0)
  }

  lemma LaidFrom(file: Bytes, at: nat, data: Bytes, end: nat, fill: nat)
    requires at + |data| + fill == end <= |file| && file[at..end] == data + Fill(0, fill)
    ensures Laid(file, at, data, end)
  {
    FirstPart(file, at, end, data, Fill(0, fill));
    assert forall k | at + |data| <= k < end :: file[k] == file[at + |data|..end][k - at - |data|];
  }

  lemma FirstPart(file: Bytes, at: nat, end: nat, a: Bytes, b: Bytes)
    requires at <= end <= |file| && file[at..end] == a + b
    ensures at + |a| <= end && file[at..at + |a|] == a && file[at + |a|..end] == b
  {
    Slice(file, at, end, 0, |a|);
    Slice(file, at, end, |a|, |a| + |b|);
  }

  /** Where stream `i` of consecutive streams lies. */
  lemma BlockLaid(datas: seq<Bytes>, unit: nat, i: nat, at: nat, end: nat)
    requires unit > 0 && i < |datas|
    requires at == unit * Sum(Counts(datas, unit)[..i]) && end == at + unit * Ceil(|datas[i]|, unit)
    ensures Laid(Blocks(datas, unit), at, datas[i], end)
  {
    BlocksRun(datas, unit, i);
    BlocksStart(datas, unit, i);
    CeilCovers(|datas[i]|, unit);
    LaidFrom(Blocks(datas, unit), at, datas[i], end, end - at - |datas[i]|);
  }

  lemma LaidBehind(file: Bytes, from: nat, blocks: Bytes, at: nat, data: Bytes, end: nat)
    requires from + |blocks| <= |file| && file[from..from + |blocks|] == blocks && Laid(blocks, at, data, end)
    ensures Laid(file, from + at, data, from + end)
  {
    Slice(file, from, from + |blocks|, at, at + |data|);
    assert forall k | from + at + |data| <= k < from + end :: file[k] == file[from..from + |blocks|][k - from];
  }

  lemma BlocksInFile(dir: seq<Node>, file: Bytes)
    requires FatSector(dir) < FAT_ENTRIES && NamesFit(dir) && file == File(dir)
    ensures var blocks := Blocks(Regions(dir), SECTOR);
      512 + |blocks| <= |file| && file[512..512 + |blocks|] == blocks
  {
    FileSlice(dir, 0, |Blocks(Regions(dir), SECTOR)|);
  }

  lemma RegionBlock(dir: seq<Node>, r: nat, at: nat, end: nat)
    requires FatSector(dir) < FAT_ENTRIES && NamesFit(dir) && r < |Regions(dir)|
    requires at == 512 * Sum(RegionCounts(dir)[..r]) && end == at + 512 * Ceil(|Regions(dir)[r]|, 512)
    ensures Laid(Blocks(Regions(dir), SECTOR), at, Regions(dir)[r], end)
  {
    RegionsCounted(dir);
    BlockLaid(Regions(dir), SECTOR, r, at, end);
  }

  /** Region `r` in the file. */
  lemma RegionLaid(dir: seq<Node>, file: Bytes, r: nat, data: Bytes, at: nat, end: nat)
    requires FatSector(dir) < FAT_ENTRIES && NamesFit(dir) && file == File(dir)
    requires r < |Regions(dir)| && data == Regions(dir)[r]
    requires at == 512 * Sum(RegionCounts(dir)[..r]) && end == at + 512 * Ceil(|data|, 512)
    ensures Laid(file, 512 + at, data, 512 + end)
  {
    RegionBlock(dir, r, at, end);
    BlocksInFile(dir, file);
    LaidBehind(file, 512, Blocks(Regions(dir), SECTOR), at, data, end);
  }

  /** A small stream lies in the mini stream at its start, a large one in its sectors; zeros fill the last block. */
  predicate ContentFormat(file: Bytes, dir: seq<Node>, i: nat)
    requires i < |dir|
  {
    dir[i].data.Some? ==>
      var data := dir[i].data.value;
      && (0 < |data| < 4096 ==>
            Start(dir, i) >= 0 && Laid(MiniStream(dir), 64 * Start(dir, i), data, 64 * Start(dir, i) + 64 * Ceil(|data|, 64)))
      && (|data| >= 4096 ==>
            Start(dir, i) >= 0 && SectorsHold(file, Start(dir, i), data))
  }

  predicate SectorsHold(file: Bytes, start: nat, data: Bytes) {
    Laid(file, 512 + 512 * start, data, 512 + 512 * start + 512 * Ceil(|data|, 512))
  }

  lemma LargeStart(dir: seq<Node>, i: nat)
    requires i < |dir| && |LargePart(dir[i])| >= 4096 && i > 0
    ensures Start(dir, i) == Sum(RegionCounts(dir)[..3 + i])
  {
    RegionsSum(dir);
  }

  lemma LargeLaid(dir: seq<Node>, file: Bytes, i: nat, start: nat)
    requires FatSector(dir) < FAT_ENTRIES && NamesFit(dir) && i < |dir| && file == File(dir)
    requires start == Sum(RegionCounts(dir)[..3 + i])
    ensures SectorsHold(file, start, LargePart(dir[i]))
  {
    assert Regions(dir)[3 + i] == Larges(dir)[i];
    var data := LargePart(dir[i]);
    RegionLaid(dir, file, 3 + i, data, 512 * start, 512 * start + 512 * Ceil(|data|, 512));
  }

  lemma SmallLaid(dir: seq<Node>, i: nat)
    requires i < |dir| && MiniPart(dir[i]) != [] && i > 0
    ensures Start(dir, i) >= 0
    ensures Laid(MiniStream(dir), 64 * Start(dir, i), MiniPart(dir[i]), 64 * Start(dir, i) + 64 * Ceil(|MiniPart(dir[i])|, 64))
  {
    BlockLaid(Minis(dir), MINI, i, 64 * Start(dir, i), 64 * Start(dir, i) + 64 * Ceil(|MiniPart(dir[i])|, 64));
  }

  lemma ContentLaid(dir: seq<Node>, file: Bytes, i: nat)
    requires IsDirectory(dir) && FatSector(dir) < FAT_ENTRIES && NamesFit(dir) && i < |dir| && file == File(dir)
    ensures ContentFormat(file, dir, i)
  {
    if dir[i].data.Some? && |dir[i].data.value| >= 4096 {
      LargeStart(dir, i);
      LargeLaid(dir, file, i, Start(dir, i));
    } else if dir[i].data.Some? && dir[i].data.value != [] {
      SmallLaid(dir, i);
    }
  }

  /** The mini FAT, free behind its last entry, and the mini stream with zeros behind it. */
  predicate MiniFormat(file: Bytes, dir: seq<Node>) {
    var at := 512 * (1 + DirectorySectors(dir));
    var end := at + 512 * MiniFatSectors(dir);
    MiniFatAt(file, MiniFat(dir), at, end) && Laid(file, end, MiniStream(dir), end + 512 * RootSectors(dir))
  }

  predicate MiniFatAt(file: Bytes, words: seq<int>, at: nat, end: nat) {
    && at + 4 * |words| <= end <= |file|
    && (forall k | 0 <= k < |words| :: Get32(file, at + 4 * k) == words[k])
    && AllBytes(file, at + 4 * |words|, end, 0xFF)
  }

  lemma FilledWith(file: Bytes, from: nat, to: nat, b: byte)
    requires from <= to <= |file| && file[from..to] == Fill(b, to - from)
    ensures AllBytes(file, from, to, b)
  {
    assert forall k | from <= k < to :: file[k] == file[from..to][k - from];
  }

  lemma WordsRead(file: Bytes, at: nat, words: seq<int>, b: Bytes)
    requires forall i | 0 <= i < |words| :: 0 <= words[i] < 0x1_0000_0000
    requires b == Words(words) && at + |b| <= |file| && file[at..at + |b|] == b
    ensures forall k | 0 <= k < |words| :: Get32(file, at + 4 * k) == words[k]
  {
    forall k | 0 <= k < |words|
      ensures Get32(file, at + 4 * k) == words[k]
    {
      WordRead(file, at, b, words, k, 4 * k);
    }
  }

  lemma MiniFatIs(file: Bytes, words: seq<int>, at: nat, mid: nat, end: nat)
    requires mid == at + 4 * |words| && mid <= end <= |file|
    requires forall k | 0 <= k < |words| :: Get32(file, at + 4 * k) == words[k]
    requires AllBytes(file, mid, end, 0xFF)
    ensures MiniFatAt(file, words, at, end)
  {
  }

  lemma MiniFatWords(dir: seq<Node>, file: Bytes, at: nat, end: nat)
    requires FatSector(dir) < FAT_ENTRIES && end == at + 512 * MiniFatSectors(dir) <= |file|
    requires file[at..end] == MiniFatBytes(dir)
    ensures MiniFatAt(file, MiniFat(dir), at, end)
  {
    var words := MiniFat(dir);
    SizesBounded(dir);
    ChainsBounded(0, MiniCounts(dir));
    CeilCovers(4 * |words|, SECTOR);
    var b := Words(words);
    FirstPart(file, at, end, b, Fill(0xFF, end - at - 4 * |words|));
    WordsRead(file, at, words, b);
    FilledWith(file, at + |b|, end, 0xFF);
    MiniFatIs(file, words, at, at + |b|, end);
  }

  lemma MiniSums(dir: seq<Node>)
    ensures Sum(RegionCounts(dir)[..1]) == DirectorySectors(dir)
    ensures Sum(RegionCounts(dir)[..2]) == DirectorySectors(dir) + MiniFatSectors(dir)
  {
    RegionsSum(dir);
  }

  lemma MiniFatLaid(dir: seq<Node>, file: Bytes, at: nat, end: nat)
    requires FatSector(dir) < FAT_ENTRIES && NamesFit(dir) && file == File(dir)
    requires at == 512 * DirectorySectors(dir) && end == at + 512 * MiniFatSectors(dir)
    ensures MiniFatAt(file, MiniFat(dir), 512 + at, 512 + end)
  {
    assert Regions(dir)[1] == MiniFatBytes(dir);
    MiniSums(dir);
    CeilWhole(MiniFatSectors(dir));
    RegionLaid(dir, file, 1, MiniFatBytes(dir), at, end);
    MiniFatWords(dir, file, 512 + at, 512 + end);
  }

  lemma MiniStreamLaid(dir: seq<Node>, file: Bytes, at: nat, end: nat)
    requires FatSector(dir) < FAT_ENTRIES && NamesFit(dir) && file == File(dir)
    requires at == 512 * (DirectorySectors(dir) + MiniFatSectors(dir)) && end == at + 512 * RootSectors(dir)
    ensures Laid(file, 512 + at, MiniStream(dir), 512 + end)
  {
    assert Regions(dir)[2] == MiniStream(dir);
    MiniSums(dir);
    RegionLaid(dir, file, 2, MiniStream(dir), at, end);
  }

  // ---- the whole file ----

  /** Every field of the file of a directory, at its place and with its value. */
  ghost predicate Formatted(file: Bytes, dir: seq<Node>) {
    && HeaderFixed(file) && HeaderOwn(file, dir) && MiniFormat(file, dir) && FatFormat(file, dir)
    && (forall i | 0 <= i < |dir| :: EntryFormat(file, 512 + 128 * i, dir, i))
    && (forall i | 0 <= i < |dir| :: ContentFormat(file, dir, i))
  }

  lemma EntriesFormatted(dir: seq<Node>, file: Bytes)
    requires IsDirectory(dir) && FatSector(dir) < FAT_ENTRIES && NamesFit(dir) && file == File(dir)
    ensures forall i | 0 <= i < |dir| :: EntryFormat(file, 512 + 128 * i, dir, i)
    ensures forall i | 0 <= i < |dir| :: ContentFormat(file, dir, i)
  {
    forall i | 0 <= i < |dir|
      ensures EntryFormat(file, 512 + 128 * i, dir, i) && ContentFormat(file, dir, i)
    {
      DirectoryFormat(dir, i);
      ContentLaid(dir, file, i);
    }
  }

  lemma HeaderFormatted(dir: seq<Node>, file: Bytes)
    requires FatSector(dir) < FAT_ENTRIES && NamesFit(dir) && file == File(dir)
    ensures HeaderFixed(file) && HeaderOwn(file, dir)
  {
    CfbRoundTrip.FileSplits(dir);
    HeaderFixedBytes(dir, Image(dir));
    HeaderOwnFields(dir, Image(dir));
  }

  lemma FatFormatted(dir: seq<Node>, file: Bytes)
    requires FatSector(dir) < FAT_ENTRIES && NamesFit(dir) && file == File(dir)
    ensures FatFormat(file, dir)
  {
    FatIsLast(dir, file, FatSector(dir), 512 * (FatSector(dir) + 1));
  }

  lemma MiniFormatted(dir: seq<Node>, file: Bytes)
    requires FatSector(dir) < FAT_ENTRIES && NamesFit(dir) && file == File(dir)
    ensures MiniFormat(file, dir)
  {
    var at := 512 * DirectorySectors(dir);
    var end := at + 512 * MiniFatSectors(dir);
    MiniFatLaid(dir, file, at, end);
    MiniStreamLaid(dir, file, end, end + 512 * RootSectors(dir));
  }

  /** Every field of a written file, at its place and with its value. */
  lemma FileFormat(entries: seq<Entry>)
    requires Cfb(entries).Ok?
    ensures Formatted(Cfb(entries).value, Directory(entries).value)
  {
    var file, dir := Cfb(entries).value, Directory(entries).value;
    DirectoryHolds(entries);
    HeaderFormatted(dir, file);
    MiniFormatted(dir, file);
    FatFormatted(dir, file);
    EntriesFormatted(dir, file);
  }
}
