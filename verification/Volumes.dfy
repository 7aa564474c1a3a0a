/**
 What a boot sector says of its volume: where the areas begin, how many clusters there are,
 and which of them are ever given to a file.
 */
module Volumes {
  import opened Basics
  import opened SectorGroups
  import FatChains

  /** The numbers of the boot sector that `init` uses; `signed` is the mark at its end. */
  datatype BootSector = BootSector(
    signed: bool,
    bytsPerSec: nat,
    secPerClus: nat,
    resvdSecCnt: nat,
    numFATs: nat,
    rootEntCnt: nat,
    fatSz16: nat,
    fatSz32: nat,
    totSec16: nat,
    totSec32: nat)

  /** `countOfClusters` is negative when the areas before the data leave no room at all. */
  datatype Volume = Volume(layout: Layout, rootStart: nat, rootSectors: nat, totSec: nat, countOfClusters: int,
                           ty: FatChains.FatType)

  datatype Refusal = BadSignature | ExFat | SectorSizeMismatch | VolumeSizeMismatch

  datatype Opened = Accepted(volume: Volume) | Refused(reason: Refusal)

  function OneOf(short: nat, long: nat): nat {
    if short > 0 then short else long
  }

  function FatSize(bs: BootSector): nat {
    OneOf(bs.fatSz16, bs.fatSz32)
  }

  function VolumeOf(bs: BootSector): Volume
    requires bs.bytsPerSec > 0 && bs.secPerClus > 0
  {
    var rootSectors := (bs.rootEntCnt * 32 + bs.bytsPerSec - 1) / bs.bytsPerSec;
    var rootStart := bs.resvdSecCnt + bs.numFATs * FatSize(bs);
    var firstDataSector := rootStart + rootSectors;
    var totSec := OneOf(bs.totSec16, bs.totSec32);
    var count := (totSec - firstDataSector) / bs.secPerClus;
    Volume(Layout(bs.secPerClus, firstDataSector), rootStart, rootSectors, totSec, count,
           FatChains.TypeFor(if count < 0 then 0 else count))
  }

  /** `init`, on a device of `numSectors` sectors. */
  function Init(bs: BootSector, sectorSize: nat, numSectors: nat): Opened
    requires bs.secPerClus > 0
  {
    if !bs.signed then Refused(BadSignature)
    else if bs.bytsPerSec == 0 then Refused(ExFat)
    else if bs.bytsPerSec != sectorSize then Refused(SectorSizeMismatch)
    else if VolumeOf(bs).totSec > numSectors then Refused(VolumeSizeMismatch)
    else Accepted(VolumeOf(bs))
  }

  // ----- the areas of an accepted volume

  lemma CeilIs(n: nat, d: nat)
    requires d > 0
    ensures var q := (n + d - 1) / d;
      n <= q * d && (q > 0 ==> (q - 1) * d < n)
  {
    var q := (n + d - 1) / d;
    assert n + d - 1 == q * d + (n + d - 1) % d;
    assert (q - 1) * d == q * d - d;
  }

  /**
   A volume is accepted exactly if it is signed, has the sectors of the device, and fits on it.
   Then the root directory, just behind the tables, has as many sectors as its entries take and
   no more, and the data area follows it.  Sizes of 16 bits count unless they are 0.
   */
  lemma AreasFollowOneAnother(bs: BootSector, sectorSize: nat, numSectors: nat)
    requires bs.secPerClus > 0
    ensures Init(bs, sectorSize, numSectors).Accepted? <==>
      bs.signed && bs.bytsPerSec == sectorSize > 0
        && (if bs.totSec16 > 0 then bs.totSec16 else bs.totSec32) <= numSectors
    ensures Init(bs, sectorSize, numSectors).Accepted? ==>
      var v := Init(bs, sectorSize, numSectors).volume;
      && bs.rootEntCnt * 32 <= v.rootSectors * sectorSize
      && (v.rootSectors > 0 ==> (v.rootSectors - 1) * sectorSize < bs.rootEntCnt * 32)
      && v.rootStart == bs.resvdSecCnt + bs.numFATs * (if bs.fatSz16 > 0 then bs.fatSz16 else bs.fatSz32)
      && FirstSectorOfCluster(v.layout, 2) == v.rootStart + v.rootSectors
      && v.totSec <= numSectors
  {
    if bs.bytsPerSec > 0 {
      CeilIs(bs.rootEntCnt * 32, bs.bytsPerSec);
    }
  }

  /** A cluster lies in the volume exactly if it is one of the counted ones, the first of which is number 2. */
  lemma ClusterFitsIff(bs: BootSector, c: nat)
    requires bs.bytsPerSec > 0 && bs.secPerClus > 0 && c >= 2
    ensures var v := VolumeOf(bs);
      FirstSectorOfCluster(v.layout, c) + v.layout.sectorsPerCluster <= v.totSec <==> c < v.countOfClusters + 2
  {
    var v := VolumeOf(bs);
    var d, room := bs.secPerClus, v.totSec - v.layout.firstDataSector;
    assert room == v.countOfClusters * d + room % d;
    assert (c - 2) * d + d == (c - 1) * d;
    if c - 1 <= v.countOfClusters {
      MulBelow(c - 1, v.countOfClusters, d);
    } else {
      MulBelow(v.countOfClusters + 1, c - 1, d);
      assert (v.countOfClusters + 1) * d == v.countOfClusters * d + d;
    }
  }

  /** What the results on chains ask for: the clusters that the search can find lie on the device. */
  lemma SearchStaysOnDevice(bs: BootSector, sectorSize: nat, numSectors: nat)
    requires bs.secPerClus > 0 && Init(bs, sectorSize, numSectors).Accepted?
    requires Init(bs, sectorSize, numSectors).volume.countOfClusters >= 0
    ensures var v := Init(bs, sectorSize, numSectors).volume;
      && ValidLayout(v.layout)
      && v.layout.firstDataSector + v.countOfClusters * v.layout.sectorsPerCluster <= numSectors
      && v.ty == FatChains.TypeFor(v.countOfClusters)
  {
    var v := VolumeOf(bs);
    ClusterFitsIff(bs, v.countOfClusters + 2);
    if v.countOfClusters > 0 {
      ClusterFitsIff(bs, v.countOfClusters + 1);
    }
  }

  /** What the search for a free cluster, which starts at 2 or later, can find. */
  predicate IsServed(v: Volume, c: nat) {
    2 <= c < v.countOfClusters
  }

  /**
   The search stops at the number of clusters, while their numbers go up to that number plus one:
   exactly two clusters of every volume that has two are never given to a file.
   */
  lemma UnservedIff(bs: BootSector, c: nat)
    requires bs.bytsPerSec > 0 && bs.secPerClus > 0 && c >= 2
    ensures var v := VolumeOf(bs);
      FirstSectorOfCluster(v.layout, c) + v.layout.sectorsPerCluster <= v.totSec && !IsServed(v, c)
      <==> v.countOfClusters <= c < v.countOfClusters + 2
  {
    ClusterFitsIff(bs, c);
  }

  /** A table in which they are free and nothing else is: there is no room, whatever the volume. */
  lemma LastClustersAreLost(bs: BootSector) returns (fat: FatChains.Fat)
    requires bs.bytsPerSec > 0 && bs.secPerClus > 0 && VolumeOf(bs).countOfClusters >= 2
    ensures var v, c := VolumeOf(bs), VolumeOf(bs).countOfClusters;
      && FatChains.WellFormed(fat) && |fat| == c + 2 && fat[c] == fat[c + 1] == FatChains.Free
      && FirstSectorOfCluster(v.layout, c + 1) + v.layout.sectorsPerCluster <= v.totSec
      && FatChains.NoRoom(fat, 2, c)
  {
    var c: nat := VolumeOf(bs).countOfClusters;
    ClusterFitsIff(bs, c + 1);
    fat := seq(c + 2, i => if i < 2 then FatChains.Reserved else if i < c then FatChains.Eof else FatChains.Free);
    forall k | FatChains.Allocated(fat, k) ensures FatChains.Ends(fat, k) {
      assert FatChains.IsChain(fat, [k]);
    }
  }
}
