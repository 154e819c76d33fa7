/** Who owns which sector of a written compound file. */
module CfbAllocation {
  import opened Wrappers
  import opened CfbChains
  import opened CfbDirectory
  import opened CfbLayout

  /** Block `s` lies in run `r` of consecutive runs. */
  predicate Owns(counts: seq<nat>, r: nat, s: nat)
    requires r < |counts|
  {
    Sum(counts[..r]) <= s < Sum(counts[..r]) + counts[r]
  }

  lemma {:induction false} Owner(counts: seq<nat>, s: nat) returns (r: nat)
    requires s < Sum(counts)
    ensures r < |counts| && Owns(counts, r, s)
  {
    if s < counts[0] {
      r := 0;
      assert counts[..0] == [];
    } else {
      var q := Owner(counts[1..], s - counts[0]);
      r := q + 1;
      assert counts[..r][1..] == counts[1..][..q];
    }
  }

  lemma RunsApart(counts: seq<nat>, q: nat, r: nat)
    requires q < r < |counts|
    ensures Sum(counts[..q]) + counts[q] <= Sum(counts[..r])
  {
    SumSplit(counts[..r], q + 1);
    SumSplit(counts[..q + 1], q);
    assert counts[..r][..q + 1] == counts[..q + 1] && counts[..q + 1][..q] == counts[..q];
    assert counts[..q + 1][q..] == [counts[q]] && [counts[q]][1..] == [];
  }

  ghost predicate OwnedOnce(counts: seq<nat>, s: nat) {
    && (exists r | 0 <= r < |counts| :: Owns(counts, r, s))
    && forall r, q | 0 <= r < |counts| && 0 <= q < |counts| && Owns(counts, r, s) && Owns(counts, q, s) :: r == q
  }

  lemma OwnersPartition(counts: seq<nat>, s: nat)
    ensures OwnedOnce(counts, s) <==> s < Sum(counts)
  {
    forall r, q | 0 <= r < |counts| && 0 <= q < |counts| && Owns(counts, r, s) && Owns(counts, q, s)
      ensures r == q && s < Sum(counts)
    {
      OneOwner(counts, r, q, s);
    }
    if s < Sum(counts) {
      var r := Owner(counts, s);
    }
  }

  /** The sectors before the FAT sector are those of the directory, the mini FAT, the mini stream and the
      large streams, each the sector of exactly one of them; the FAT marks itself, every entry after it is
      free, and the file ends with the FAT sector. */
  lemma SectorsAllocated(dir: seq<Node>, s: nat)
    requires FatSector(dir) < FAT_ENTRIES && NamesFit(dir) && s < FAT_ENTRIES
    ensures OwnedOnce(RegionCounts(dir), s) <==> s < FatSector(dir)
    ensures Fat(dir)[s] == FAT <==> s == FatSector(dir)
    ensures Fat(dir)[s] == FREE <==> s > FatSector(dir)
    ensures |File(dir)| == SECTOR * (FatSector(dir) + 2)
  {
    OwnersPartition(RegionCounts(dir), s);
    RegionsSum(dir);
    FileLength(dir);
    ChainsSmall(0, RegionCounts(dir));
  }

  lemma {:induction false} ChainsSmall(start: nat, counts: seq<nat>)
    requires start + Sum(counts) < FAT
    ensures forall i | 0 <= i < |Chains(start, counts)| :: Chains(start, counts)[i] != FAT && Chains(start, counts)[i] != FREE
    decreases |counts|
  {
    if counts != [] {
      ChainsSmall(start + counts[0], counts[1..]);
    }
  }

  lemma OneOwner(counts: seq<nat>, r: nat, q: nat, s: nat)
    requires r < |counts| && q < |counts| && Owns(counts, r, s) && Owns(counts, q, s)
    ensures r == q && s < Sum(counts)
  {
    ChainsRun(0, counts, r);
    if q < r {
      RunsApart(counts, q, r);
    } else if r < q {
      RunsApart(counts, r, q);
    }
  }

  lemma FileLength(dir: seq<Node>)
    requires FatSector(dir) < FAT_ENTRIES && NamesFit(dir)
    ensures |File(dir)| == SECTOR * (FatSector(dir) + 2)
  {
    RegionsCounted(dir);
  }

  /** Each of them is one chain of consecutive sectors that ends where its data ends. */
  lemma RegionFollowed(dir: seq<Node>, r: nat)
    requires FatSector(dir) < FAT_ENTRIES && r < |RegionCounts(dir)| && RegionCounts(dir)[r] > 0
    ensures Follow(Fat(dir), Sum(RegionCounts(dir)[..r]), FAT_ENTRIES)
         == Some(Range(Sum(RegionCounts(dir)[..r]), RegionCounts(dir)[r]))
  {
    RegionsSum(dir);
    RunFollowed(Fat(dir), RegionCounts(dir), r);
  }

  lemma PrefixSlice<T>(s: seq<T>, prefix: seq<T>, i: nat, j: nat)
    requires prefix <= s && i <= j <= |prefix|
    ensures s[i..j] == prefix[i..j]
  {
  }

  lemma RunFollowed(table: seq<int>, counts: seq<nat>, r: nat)
    requires r < |counts| && counts[r] > 0 && Chains(0, counts) <= table && |table| < END
    ensures FollowsRun(table, Sum(counts[..r]), counts[r])
  {
    var start, chains := Sum(counts[..r]), Chains(0, counts);
    ChainsRun(0, counts, r);
    RunInPrefix(table, chains, start, counts[r]);
  }

  predicate FollowsRun(table: seq<int>, start: nat, count: nat) {
    Follow(table, start, |table|) == Some(Range(start, count))
  }

  lemma RunInPrefix(table: seq<int>, prefix: seq<int>, start: nat, count: nat)
    requires prefix <= table && |table| < END && count > 0
    requires start + count <= |prefix| && prefix[start..start + count] == Chain(start, count)
    ensures FollowsRun(table, start, count)
  {
    PrefixSlice(table, prefix, start, start + count);
    FollowRun(table, start, count, 0, |table|);
  }

  /** After each small stream the mini stream has one 64-byte block for each mini FAT entry so far. */
  lemma MiniBlocks(dir: seq<Node>, i: nat)
    requires i <= |dir|
    ensures |Blocks(Minis(dir)[..i], MINI)| == MINI * |Chains(0, MiniCounts(dir)[..i])|
    ensures |MiniStream(dir)| == MINI * |MiniFat(dir)|
  {
    BlocksStart(Minis(dir), MINI, i);
    BlocksLength(Minis(dir), MINI);
  }
}
