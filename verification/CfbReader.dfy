/** Reading a compound file back: header, FAT, directory, mini FAT and streams. */
module CfbReader {
  import opened Bytes
  import opened Wrappers
  import opened CfbChains
  import opened CfbDirectory
  import opened CfbWalk
  import opened CfbRecords
  import opened CfbLayout

  datatype Volume = Volume(records: seq<Record>, fat: seq<int>, image: Bytes, minifat: seq<int>, mini: Bytes)

  function ReadNode(v: Volume, visit: Visit): Option<Node> {
    if visit.0 >= |v.records| then None
    else
      var r := v.records[visit.0];
      if r.kind == STORAGE then Some(Node(visit.1, None))
      else if r.kind != STREAM then None
      else
        var data :=
          if r.size < CUTOFF then ReadStream(v.minifat, v.mini, MINI, r.start, r.size)
          else ReadStream(v.fat, v.image, SECTOR, r.start, r.size);
        match data
        case None => None
        case Some(_) => Some(Node(visit.1, data))
  }

  function ReadNodes(v: Volume, visits: seq<Visit>): Option<seq<Node>> {
    if visits == [] then Some([])
    else
      match ReadNode(v, visits[0])
      case None => None
      case Some(node) =>
        match ReadNodes(v, visits[1..])
        case None => None
        case Some(rest) => Some([node] + rest)
  }

  /** The tables a file's header leads to. */
  function ReadVolume(file: Bytes): Option<Volume> {
    if |file| < SECTOR || file[..8] != MAGIC || Get16(file, 30) != 9 || Get16(file, 32) != 6 || Get32(file, 56) != CUTOFF
    then None
    else
      var image, f := file[SECTOR..], Get32(file, 76);
      if SECTOR * f + SECTOR > |image| then None
      else
        var fat := GetWords(image[SECTOR * f..SECTOR * f + SECTOR]);
        match ReadChain(fat, image, SECTOR, Get32(file, 48))
        case None => None
        case Some(table) =>
          match DecodeTable(table)
          case None => None
          case Some(records) =>
            if records == [] || records[0].kind != ROOT_STORAGE then None
            else
              match ReadChain(fat, image, SECTOR, Get32(file, 60))
              case None => None
              case Some(minifat) =>
                match ReadStream(fat, image, SECTOR, records[0].start, records[0].size)
                case None => None
                case Some(mini) => Some(Volume(records, fat, image, GetWords(minifat), mini))
  }

  /** Every storage and stream reached from the root, in the order of the walk. */
  function Read(file: Bytes): Option<seq<Node>> {
    match ReadVolume(file)
    case None => None
    case Some(v) =>
      if v.records == [] then None
      else
        match Walk(v.records, v.records[0].child, [], |v.records|)
        case None => None
        case Some(visits) => ReadNodes(v, visits)
  }

  // ---- what the tables of a written file are ----

  lemma HeaderFields(dir: seq<Node>, rest: Bytes)
    requires FatSector(dir) < FAT_ENTRIES
    ensures var file := Header(dir) + rest;
      && file[..8] == MAGIC && Get16(file, 30) == 9 && Get16(file, 32) == 6 && Get32(file, 48) == 0
      && Get32(file, 56) == CUTOFF && Get32(file, 76) == FatSector(dir)
      && Get32(file, 60) == if MiniFatSectors(dir) > 0 then DirectorySectors(dir) else END
  {
    var file := Header(dir) + rest;
    assert file[30..32] == Le16(9) && file[32..34] == Le16(6);
    Get16Of(file, 30, 9);
    Get16Of(file, 32, 6);
    assert file[48..52] == Le32(0) && file[56..60] == Le32(CUTOFF) && file[76..80] == Le32(FatSector(dir));
    Get32Of(file, 48, 0);
    Get32Of(file, 56, CUTOFF);
    Get32Of(file, 76, FatSector(dir));
    var start := if MiniFatSectors(dir) > 0 then DirectorySectors(dir) else END;
    assert file[60..64] == Le32(start);
    Get32Of(file, 60, start);
  }

  /** The sectors of a written file. */
  function Image(dir: seq<Node>): Bytes
    requires FatSector(dir) < FAT_ENTRIES && NamesFit(dir)
  {
    FatBounded(dir);
    Blocks(Regions(dir), SECTOR) + Words(Fat(dir))
  }

  lemma ReadFat(dir: seq<Node>)
    requires FatSector(dir) < FAT_ENTRIES && NamesFit(dir)
    ensures var f := SECTOR * FatSector(dir);
      |Image(dir)| == f + SECTOR && GetWords(Image(dir)[f..f + SECTOR]) == Fat(dir)
  {
    RegionsCounted(dir);
    FatBounded(dir);
    Appended(Blocks(Regions(dir), SECTOR), Words(Fat(dir)), SECTOR);
    WordsBack(Fat(dir));
  }

  lemma RegionsHeld(dir: seq<Node>)
    requires FatSector(dir) < FAT_ENTRIES && NamesFit(dir)
    ensures CfbChains.Holds(Fat(dir), Image(dir), SECTOR, 0, Regions(dir))
  {
    RegionsCounted(dir);
    RegionsSum(dir);
    assert Fat(dir)[0..FatSector(dir)] == Chains(0, RegionCounts(dir));
    assert Image(dir)[0..|Blocks(Regions(dir), SECTOR)|] == Blocks(Regions(dir), SECTOR);
  }

  lemma PaddedTable(records: seq<Record>)
    requires Encodable(records)
    ensures DecodeTable(Pad(EncodeTable(records), SECTOR)).Some?
    ensures records <= DecodeTable(Pad(EncodeTable(records), SECTOR)).value
  {
    CeilCovers(|EncodeTable(records)|, SECTOR);
    TableRoundTrip(records, SECTOR * Ceil(|EncodeTable(records)|, SECTOR) - |EncodeTable(records)|);
  }

  lemma FirstReads(fat: seq<int>, image: Bytes, regions: seq<Bytes>)
    requires CfbChains.Holds(fat, image, SECTOR, 0, regions) && regions != [] && regions[0] != []
    ensures ReadChain(fat, image, SECTOR, 0) == Some(Pad(regions[0], SECTOR))
  {
    assert Counts(regions, SECTOR)[..0] == [];
    ChainReads(fat, image, SECTOR, 0, regions, 0);
  }

  lemma TableReads(fat: seq<int>, image: Bytes, regions: seq<Bytes>, records: seq<Record>)
    requires CfbChains.Holds(fat, image, SECTOR, 0, regions) && regions != []
    requires Encodable(records) && records != [] && regions[0] == EncodeTable(records)
    ensures var table := ReadChain(fat, image, SECTOR, 0);
      table.Some? && DecodeTable(table.value).Some? && records <= DecodeTable(table.value).value
  {
    FirstReads(fat, image, regions);
    PaddedTable(records);
  }

  /** The second region, when it fills whole sectors. */
  lemma MiniFatReads(fat: seq<int>, image: Bytes, regions: seq<Bytes>, sectors: nat)
    requires CfbChains.Holds(fat, image, SECTOR, 0, regions) && |regions| > 1
    requires sectors > 0 && |regions[1]| == SECTOR * sectors
    ensures ReadChain(fat, image, SECTOR, Ceil(|regions[0]|, SECTOR)) == Some(regions[1])
  {
    assert Counts(regions, SECTOR)[..1] == [Ceil(|regions[0]|, SECTOR)];
    assert [Ceil(|regions[0]|, SECTOR)][1..] == [];
    ChainReads(fat, image, SECTOR, 0, regions, 1);
    WholeSectors(regions[1], sectors);
  }

  lemma ReadTable(dir: seq<Node>)
    requires FatSector(dir) < FAT_ENTRIES && NamesFit(dir) && dir != []
    ensures var table := ReadChain(Fat(dir), Image(dir), SECTOR, 0);
      table.Some? && DecodeTable(table.value).Some? && Records(dir) <= DecodeTable(table.value).value
  {
    RecordsEncodable(dir);
    RegionsHeld(dir);
    TableReads(Fat(dir), Image(dir), Regions(dir), Records(dir));
  }

  lemma ReadMiniFat(dir: seq<Node>)
    requires FatSector(dir) < FAT_ENTRIES && NamesFit(dir)
    ensures var b := ReadChain(Fat(dir), Image(dir), SECTOR, if MiniFatSectors(dir) > 0 then DirectorySectors(dir) else END);
      b.Some? && MiniFat(dir) <= GetWords(b.value) && |GetWords(b.value)| < END
  {
    SizesBounded(dir);
    ChainsBounded(0, MiniCounts(dir));
    CeilCovers(4 * |MiniFat(dir)|, SECTOR);
    if MiniFatSectors(dir) > 0 {
      RegionsHeld(dir);
      RecordsEncodable(dir);
      MiniFatReads(Fat(dir), Image(dir), Regions(dir), MiniFatSectors(dir));
      WordsRoundTrip(MiniFat(dir), Fill(0xFF, SECTOR * MiniFatSectors(dir) - 4 * |MiniFat(dir)|));
    }
  }

  /** The mini stream is the third region. */
  lemma RootPlaced(dir: seq<Node>)
    requires FatSector(dir) < FAT_ENTRIES && NamesFit(dir)
    ensures |Regions(dir)| > 2 && Regions(dir)[2] == MiniStream(dir)
    ensures Sum(Counts(Regions(dir), SECTOR)[..2]) == RootStart(dir)
  {
    RegionsCounted(dir);
    RegionsSum(dir);
  }

  lemma ReadMiniStream(dir: seq<Node>)
    requires FatSector(dir) < FAT_ENTRIES && NamesFit(dir) && dir != []
    ensures ReadStream(Fat(dir), Image(dir), SECTOR, Start(dir, 0), |MiniStream(dir)|) == Some(MiniStream(dir))
  {
    CeilCovers(|MiniStream(dir)|, SECTOR);
    if MiniStream(dir) != [] {
      RegionsHeld(dir);
      RootPlaced(dir);
      StreamReads(Fat(dir), Image(dir), SECTOR, 0, Regions(dir), 2);
    }
  }
}
