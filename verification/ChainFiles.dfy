/**
 A file stored in a cluster chain: whole sectors are located through the table, read and
 written in runs, and any range of bytes is read and written on top of that.
 */
module ChainFiles {
  import opened Basics
  import opened FatChains
  import opened SectorGroups
  import opened ChainSectors
  import opened ChainBytes

  /** The sectors of the volume. */
  class Device {
    var sectors: seq<Sector>
  }

  lemma {:induction false} CoverPrefix(l: Layout, a: seq<nat>, b: seq<nat>, start: nat, stop: nat, skip: nat)
    requires a <= b && start <= stop <= |a| && skip <= l.sectorsPerCluster
    ensures Cover(l, a, start, stop, skip) == Cover(l, b, start, stop, skip)
    decreases stop
  {
    if start < stop {
      CoverPrefix(l, a, b, start, stop - 1, skip);
    }
  }

  lemma AtPrefix(l: Layout, a: seq<nat>, b: seq<nat>, disk: seq<Sector>, s: nat)
    requires a <= b && ValidLayout(l) && s < Length(l, a)
    ensures At(l, a, disk, s) == At(l, b, disk, s)
  {
    hide FirstSectorOfCluster;
    InChain(l, a, s);
  }

  lemma ViewPrefix(l: Layout, a: seq<nat>, b: seq<nat>, disk: seq<Sector>)
    requires a <= b && Placed(l, b, |disk|)
    ensures Placed(l, a, |disk|) && View(l, a, disk) <= View(l, b, disk)
  {
    assert Length(l, a) <= Length(l, b) by {
      MulBelow(|a|, |b|, l.sectorsPerCluster);
    }
    assert Placed(l, a, |disk|);
    forall s | 0 <= s < Length(l, a) ensures View(l, a, disk)[s] == View(l, b, disk)[s] {
      AtPrefix(l, a, b, disk, s);
    }
  }

  lemma ViewSized(l: Layout, clusters: seq<nat>, disk: seq<Sector>, ss: nat)
    requires Placed(l, clusters, |disk|) && Sized(ss, disk)
    ensures Sized(ss, View(l, clusters, disk))
  {
    forall s | 0 <= s < Length(l, clusters) ensures |View(l, clusters, disk)[s]| == ss {
      ViewAt(l, clusters, disk, s);
    }
  }

  lemma LastClusterFits(l: Layout, c: nat, limit: nat)
    requires c < limit
    ensures FirstSectorOfCluster(l, c) + l.sectorsPerCluster <= l.firstDataSector + limit * l.sectorsPerCluster
  {
    assert (c - 1) * l.sectorsPerCluster <= limit * l.sectorsPerCluster;
    assert (c - 2) * l.sectorsPerCluster + l.sectorsPerCluster == (c - 1) * l.sectorsPerCluster;
  }

  /** New clusters, found in the range the table serves, lie in the volume. */
  lemma GrownIsPlaced(l: Layout, fat: Fat, a: seq<nat>, b: seq<nat>, sectors: nat, limit: nat)
    requires Placed(l, a, sectors) && a != [] && a <= b && IsChain(fat, b)
    requires l.firstDataSector + limit * l.sectorsPerCluster <= sectors
    requires AllWithin(b, |a|, a[|a| - 1], limit)
    ensures Placed(l, b, sectors)
  {
    forall i | 0 <= i < |b| ensures b[i] >= 2 && FirstSectorOfCluster(l, b[i]) + l.sectorsPerCluster <= sectors {
      if i < |a| {
        assert b[i] == a[i];
      } else {
        assert a[|a| - 1] >= 2;
        LastClusterFits(l, b[i], limit);
      }
    }
    forall i, j | 0 <= i < j < |b| ensures b[i] != b[j] {
      ChainIsAcyclic(fat, b, i, j);
    }
  }

  lemma PlacesAre(l: Layout, i: nat, n: nat)
    requires ValidLayout(l)
    ensures forall clusters :: ClustersNeeded(l, i, n) <= |clusters| ==>
      i / l.sectorsPerCluster <= ClustersNeeded(l, i, n)
      && Places(l, clusters, i, n)
         == Cover(l, clusters, i / l.sectorsPerCluster, ClustersNeeded(l, i, n), i % l.sectorsPerCluster)
  {
    NeededFromStart(l, i, n);
  }

  /** The second part of `determineSectorGroups`, on the clusters in the cache. */
  method GroupsFor(l: Layout, known: seq<nat>, ghost clusters: seq<nat>, i: nat, n: nat)
      returns (groups: seq<Group>, complete: bool)
    requires ValidLayout(l) && n > 0 && Knows(known, clusters, ClustersNeeded(l, i, n))
    ensures complete <==> ClustersNeeded(l, i, n) <= |clusters|
    ensures complete ==> Expand(groups) == Places(l, clusters, i, n) && Maximal(groups)
  {
    hide ClustersNeeded, Places, Expand, Maximal, Cover;
    var chainLength, clusterIdx := ClustersNeeded(l, i, n), i / l.sectorsPerCluster;
    NeededFromStart(l, i, n);
    ModBelow(i, l.sectorsPerCluster);
    PlacesAre(l, i, n);
    if clusterIdx > |known| {
      groups, complete := [], false;
    } else {
      groups, complete := BuildGroups(l, known, clusterIdx, chainLength, i % l.sectorsPerCluster);
      if complete {
        CoverPrefix(l, known, clusters, clusterIdx, chainLength, i % l.sectorsPerCluster);
      }
    }
  }

  lemma GrownIsPrefix(fat: Fat, fat': Fat, s: seq<nat>, t: seq<nat>)
    requires Grown(fat, fat', s, t)
    ensures s <= t
  {
  }

  lemma ChainIsThere(fat: Fat, s: seq<nat>)
    requires IsChain(fat, s)
    ensures s != []
  {
  }

  lemma FirstIsData(l: Layout, clusters: seq<nat>, sectors: nat)
    requires Placed(l, clusters, sectors) && clusters != []
    ensures 2 <= clusters[0]
  {
  }

  class ChainFile {
    const chain: ClusterChain
    const device: Device
    const layout: Layout
    const sectorSize: nat
    ghost var clusters: seq<nat>  // the chain on disk

    ghost predicate Valid()
      reads this, chain, chain.vol, device
    {
      && chain.Valid() && chain.vol.Valid()
      && IsChain(chain.vol.fat, clusters) && clusters[0] == chain.firstCluster
      && Placed(layout, clusters, |device.sectors|)
      && layout.firstDataSector + chain.vol.clusterCount * layout.sectorsPerCluster <= |device.sectors|
      && sectorSize > 0 && Sized(sectorSize, device.sectors)
    }

    constructor (chain: ClusterChain, device: Device, layout: Layout, sectorSize: nat)
      requires chain.Valid() && chain.vol.Valid() && Allocated(chain.vol.fat, chain.firstCluster)
      requires forall s :: IsChain(chain.vol.fat, s) && s[0] == chain.firstCluster ==>
        Placed(layout, s, |device.sectors|)
      requires layout.firstDataSector + chain.vol.clusterCount * layout.sectorsPerCluster <= |device.sectors|
      requires sectorSize > 0 && Sized(sectorSize, device.sectors)
      ensures Valid() && this.chain == chain && this.device == device && this.layout == layout
        && this.sectorSize == sectorSize
    {
      this.chain, this.device, this.layout, this.sectorSize := chain, device, layout, sectorSize;
      clusters := ChainFrom(chain.vol.fat, chain.firstCluster);
    }

    /** The number of any cluster that may be added can be held by a link. */
    predicate Growable() {
      chain.vol.LinksReadBack()
    }

    lemma ChainNow()
      requires Valid()
      ensures IsChain(chain.vol.fat, clusters) && Grown(chain.vol.fat, chain.vol.fat, clusters, clusters)
    {
      GrownNot(chain.vol.fat, clusters);
    }

    lemma StartsAtFirst()
      requires Valid()
      ensures clusters != [] && clusters[0] == chain.firstCluster
    {
    }

    /** The sectors of the file. */
    ghost function Contents(): seq<Sector>
      reads this, device
    {
      View(layout, clusters, device.sectors)
    }

    /**
     The first part of `determineSectorGroups`: the cache is filled as far as needed; with
     `alloc`, a chain that is too short is lengthened, and `ok` is false without room for it.
     */
    method Prepare(chainLength: nat, alloc: bool) returns (ok: bool)
      requires Valid() && chainLength > 0 && (alloc ==> Growable())
      modifies this`clusters, chain, chain.vol
      ensures Valid() && Grown(old(chain.vol.fat), chain.vol.fat, old(clusters), clusters)
      ensures !alloc ==> clusters == old(clusters) && chain.vol.fat == old(chain.vol.fat)
      ensures !alloc ==> ok
      ensures ok ==> Knows(KnownClusters(chain.cache), clusters, chainLength) && (alloc ==> chainLength <= |clusters|)
      ensures alloc ==> LengthenedTo(chain.vol.fat, old(clusters), clusters, chainLength, chain.vol.clusterCount, ok)
    {
      hide NoRoom, Placed, WellFormed, Sized, KnownClusters, IsChain, CacheAgrees, Walk, Knows;
      ChainIsThere(chain.vol.fat, clusters);
      var cell := chain.ExtendCacheToInclude(chainLength - 1);
      WalkFollowsChain(chain.vol.fat, clusters, chainLength - 1);
      CellAt(chain.vol.fat, clusters, chain.cache, chainLength - 1);
      ok := true;
      if cell == End && alloc {
        ok := Grow(chainLength);
        if !ok {
          return;
        }
      }
      CacheReaches(chain.vol.fat, clusters, chain.cache, chainLength);
    }

    /** `determineSectorGroups`: the runs of sectors for `n` sectors from the `i`-th on. */
    method Locate(i: nat, n: nat, alloc: bool) returns (ok: bool, groups: seq<Group>, complete: bool)
      requires Valid() && n > 0 && (alloc ==> Growable())
      modifies this`clusters, chain, chain.vol
      ensures Valid() && Grown(old(chain.vol.fat), chain.vol.fat, old(clusters), clusters)
      ensures !alloc ==> clusters == old(clusters) && chain.vol.fat == old(chain.vol.fat)
      ensures !alloc ==> ok
      ensures ok ==> (complete <==> ClustersNeeded(layout, i, n) <= |clusters|)
      ensures ok && alloc ==> complete
      ensures ok && complete ==> Expand(groups) == Places(layout, clusters, i, n) && Maximal(groups)
      ensures alloc ==>
        Lengthens(layout, chain.vol.fat, old(clusters), clusters, i + n - 1, chain.vol.clusterCount, ok)
    {
      hide LengthenedTo, ClustersNeeded, Places, Placed, WellFormed, Sized, KnownClusters, IsChain, CacheAgrees,
        Expand, Maximal;
      PlacedLayout(layout, clusters, |device.sectors|);
      NeededFromStart(layout, i, n);
      ModBelow(i, layout.sectorsPerCluster);
      NeededForLast(layout, i, n);
      ok := Prepare(ClustersNeeded(layout, i, n), alloc);
      groups, complete := [], false;
      if ok {
        groups, complete := GroupsFor(layout, KnownClusters(chain.cache), clusters, i, n);
      }
    }

    /** Lengthens the chain, known to its end, to `count` clusters; what was there stays where it was. */
    method Grow(count: nat) returns (ok: bool)
      requires Valid() && Growable() && chain.IsComplete() && |clusters| <= count
      modifies this`clusters, chain, chain.vol
      ensures Valid() && Grown(old(chain.vol.fat), chain.vol.fat, old(clusters), clusters)
      ensures ok ==> chain.IsComplete() && |clusters| == count
      ensures LengthenedTo(chain.vol.fat, old(clusters), clusters, count, chain.vol.clusterCount, ok)
    {
      hide LengthenedTo, WellFormed, Sized, IsChain, CacheAgrees, Placed;
      ChainIsThere(chain.vol.fat, clusters);
      PlacedLayout(layout, clusters, |device.sectors|);
      FirstIsData(layout, clusters, |device.sectors|);
      ghost var t;
      ok, t := chain.Lengthen(count, clusters);
      GrownIsPlaced(layout, chain.vol.fat, clusters, t, |device.sectors|, chain.vol.clusterCount);
      clusters := t;
    }

    /** `allocateInFAT` for the first cluster of another file, the chain of this one being as it was. */
    method AllocateOther(hint: nat) returns (r: Cell)
      requires Valid()
      modifies chain.vol
      ensures Valid()
      ensures match r
        case Cluster(n) =>
          && hint <= n < chain.vol.clusterCount && n < |chain.vol.fat| && old(chain.vol.fat[n]) == Free
          && NoRoom(old(chain.vol.fat), hint, n)
          && chain.vol.fat == old(Marked(chain.vol.fat, n))
          && IsHead(chain.vol.fat, n) && IsChain(chain.vol.fat, [n]) && n !in clusters
        case _ => chain.vol.fat == old(chain.vol.fat) && NoRoom(chain.vol.fat, hint, chain.vol.clusterCount)
    {
      hide IsChain, WellFormed, CacheAgrees, Placed, Sized, IsHead, Marked;
      ghost var fat0 := chain.vol.fat;
      r := chain.vol.AllocateInFAT(hint);
      if r.Cluster? {
        MarkedKeepsChain(fat0, r.n, clusters);
        MarkedKeepsCache(fat0, r.n, clusters, chain.cache);
        MarkedIsChain(fat0, r.n);
      }
    }

    /** `readSectors`; None past the end of the chain. */
    method ReadSectors(i: nat, n: nat) returns (r: Option<seq<Sector>>)
      requires Valid() && n > 0
      modifies this`clusters, chain, chain.vol
      ensures Valid() && clusters == old(clusters) && Contents() == old(Contents())
      ensures chain.vol.fat == old(chain.vol.fat)
      ensures r == if i + n <= |Contents()| then Some(Contents()[i..i + n]) else None
    {
      hide ClustersNeeded, Places, Placed, WellFormed, Sized, IsChain, CacheAgrees, Expand, Maximal, Length, Pick;
      PlacedLayout(layout, clusters, |device.sectors|);
      var ok, groups, complete := Locate(i, n, false);
      ContentsFits(layout, clusters, device.sectors, i, n);
      if complete {
        PickIsView(layout, clusters, device.sectors, i, n);
        var sectors := ReadGroups(device.sectors, groups, n);
        r := Some(sectors);
      } else {
        r := None;
      }
    }

    /**
     `writeSectors`: the chain is lengthened as needed, its new clusters holding what the
     volume held there, and the sectors are overwritten.  Without room nothing is written,
     and that is the only case: no cluster is free behind the last one.
     `grown` is the chain as lengthened.
     */
    method WriteSectors(i: nat, data: seq<Sector>) returns (ok: bool, ghost grown: seq<Sector>)
      requires Valid() && Growable() && data != [] && Sized(sectorSize, data)
      modifies this`clusters, chain, chain.vol, device
      ensures Valid() && Grown(old(chain.vol.fat), chain.vol.fat, old(clusters), clusters)
      ensures Sized(sectorSize, grown) && old(Contents()) <= grown == View(layout, clusters, old(device.sectors))
      ensures if ok then i + |data| <= |grown| && Contents() == Overwrite(grown, i, data) else Contents() == grown
      ensures Untouched(layout, clusters, old(device.sectors), device.sectors)
      ensures Lengthens(layout, chain.vol.fat, old(clusters), clusters, i + |data| - 1, chain.vol.clusterCount, ok)
    {
      hide Lengthens, ClustersNeeded, Places, WellFormed, IsChain, CacheAgrees, Expand, Maximal, PutFirst, SectorAt,
        FirstSectorOfCluster, Sized, Untouched, Placed, View, Length;
      PlacedLayout(layout, clusters, |device.sectors|);
      var groups, complete;
      ok, groups, complete := Locate(i, |data|, true);
      grown := Contents();
      SizedContents();
      ViewPrefix(layout, old(clusters), clusters, device.sectors);
      ContentsFits(layout, clusters, device.sectors, i, |data|);
      UntouchedAtAll(layout, clusters, device.sectors);
      if ok {
        device.sectors := PutGroups(layout, clusters, device.sectors, i, data, groups, sectorSize);
      }
    }

    /**
     `readFromPosition`: a partial first sector, whole sectors, a partial last one.  All the
     bytes asked for are read if the chain has them; otherwise those of the parts that it has.
     */
    method ReadFromPosition(sector: nat, offset: nat, length: nat) returns (data: Bytes)
      requires Valid() && offset < sectorSize
      modifies this`clusters, chain, chain.vol
      ensures Valid() && clusters == old(clusters) && Contents() == old(Contents())
      ensures chain.vol.fat == old(chain.vol.fat)
      ensures IsRead(Contents(), sector, offset, length, data)
      ensures StopsAtPart(sectorSize, Contents(), sector, offset, length, |data|)
    {
      hide RangeIn, RangeOf, IsRange, Sized, Placed, IsChain, WellFormed, CacheAgrees, View, StopsAtPart, LastPart,
        WholeEnd, Preface;
      ghost var v := Contents();
      SizedContents();
      PrefaceIs(sectorSize, offset, length);
      if offset > 0 {
        var first := ReadSectors(sector, 1);
        var prefaceLen := if length < sectorSize - offset then length else sectorSize - offset;
        ReadPart(sectorSize, v, sector, offset, prefaceLen, length, first);
        if first.None? {
          NothingRead(sectorSize, v, sector, offset, length);
          return [];
        }
        data := first.value[0][offset..offset + prefaceLen];
        if offset + length > sectorSize {
          data := ReadMain(sector, offset, length, data, sector + 1);
          StopsBehindPreface(sectorSize, v, sector, offset, length, |data|);
        } else {
          AllRead(sectorSize, v, sector, offset, data);
        }
      } else {
        data := ReadMain(sector, offset, length, [], sector);
        StopsBehindPreface(sectorSize, v, sector, offset, length, |data|);
      }
    }

    lemma SectorsHoldBytes()
      requires Valid()
      ensures sectorSize > 0
    {
    }

    /** The whole sectors from a boundary on, `data` having been read before it. */
    method ReadMain(ghost sector: nat, ghost offset: nat, length: nat, data: Bytes, mainSector: nat)
        returns (all: Bytes)
      requires Valid() && |data| <= length && ReadUpTo(sectorSize, Contents(), sector, offset, data, mainSector)
      requires data == [] || |data| < length
      modifies this`clusters, chain, chain.vol
      ensures Valid() && clusters == old(clusters) && Contents() == old(Contents())
      ensures chain.vol.fat == old(chain.vol.fat)
      ensures IsRead(Contents(), sector, offset, length, all)
      ensures LastPart(Contents(), sector, offset, |data|, WholeEnd(sectorSize, |data|, length), length, |all|)
    {
      hide *;
      SectorsHoldBytes();
      var (mainCount, trailerLen) := Split(length - |data|, sectorSize);
      SplitIs(length - |data|, sectorSize);
      WholeEndIs(sectorSize, |data|, length);
      ghost var v := Contents();
      if mainCount == 0 {
        all := ReadTrailer(sector, offset, trailerLen, data, mainSector);
        TrailerIsLast(v, sector, offset, |data|, |data|, length, all);
        return;
      }
      var mainLen := length - |data| - trailerLen;
      var whole;
      whole, all := ReadRuns(sector, offset, length, data, mainSector, mainCount, mainLen);
      if whole && trailerLen > 0 {
        all := ReadTrailer(sector, offset, trailerLen, all, mainSector + mainCount);
      }
      if whole {
        TrailerIsLast(v, sector, offset, |data|, |data| + mainLen, length, all);
      } else {
        NoRunIsLast(v, sector, offset, |data|, |data| + mainLen, length);
      }
    }

    method ReadRuns(ghost sector: nat, ghost offset: nat, ghost length: nat, data: Bytes, mainSector: nat,
                    mainCount: nat, ghost mainLen: nat)
        returns (whole: bool, all: Bytes)
      requires Valid() && mainCount > 0 && Whole(mainLen, mainCount, sectorSize) && |data| + mainLen <= length
      requires ReadUpTo(sectorSize, Contents(), sector, offset, data, mainSector)
      modifies this`clusters, chain, chain.vol
      ensures Valid() && clusters == old(clusters) && Contents() == old(Contents())
      ensures chain.vol.fat == old(chain.vol.fat)
      ensures whole
        ==> |all| == |data| + mainLen && ReadUpTo(sectorSize, Contents(), sector, offset, all, mainSector + mainCount)
      ensures !whole || |data| + mainLen == length ==> IsRead(Contents(), sector, offset, length, all)
      ensures !whole ==> all == data && !RangeIn(Contents(), sector, offset, |data| + mainLen)
    {
      hide *;
      SectorsHoldBytes();
      ghost var v := Contents();
      SizedContents();
      ReadUpToIsRead(sectorSize, v, sector, offset, length, data, mainSector);
      var main := ReadSectors(mainSector, mainCount);
      ReadRun(sectorSize, v, sector, offset, data, mainSector, mainCount, mainLen, length, main);
      if main.None? {
        ReadStops(v, sector, offset, length, data);
        return false, data;
      }
      whole, all := true, data + Flatten(main.value);
      ReadUpToIsRead(sectorSize, v, sector, offset, length, all, mainSector + mainCount);
    }

    /** The last, partial sector. */
    method ReadTrailer(ghost sector: nat, ghost offset: nat, trailerLen: nat, data: Bytes, trailerSector: nat)
        returns (all: Bytes)
      requires Valid() && trailerLen < sectorSize && (data == [] || trailerLen > 0)
      requires ReadUpTo(sectorSize, Contents(), sector, offset, data, trailerSector)
      modifies this`clusters, chain, chain.vol
      ensures Valid() && clusters == old(clusters) && Contents() == old(Contents())
      ensures chain.vol.fat == old(chain.vol.fat)
      ensures IsRead(Contents(), sector, offset, |data| + trailerLen, all)
      ensures |all| == |data| || |all| == |data| + trailerLen
    {
      hide RangeIn, RangeOf, IsRange, Sized, Placed, IsChain, WellFormed, CacheAgrees, View;
      ghost var v := Contents();
      SizedContents();
      var last := ReadSectors(trailerSector, 1);
      if trailerLen > 0 {
        ReadLast(sectorSize, v, sector, offset, data, trailerSector, trailerLen, last);
      }
      if last.None? {
        return data;
      }
      assert |last.value[0]| == sectorSize by {
        SectorOf(sectorSize, v, trailerSector, last);
      }
      all := data + last.value[0][..trailerLen];
    }

    /** `_modifySector`: part of one sector; past the end of the chain the rest of it is zero. */
    method ModifySector(sec: nat, off: nat, data: Bytes) returns (ok: bool)
      requires Valid() && Growable() && off + |data| <= sectorSize
      modifies this`clusters, chain, chain.vol, device
      ensures Valid() && Grown(old(chain.vol.fat), chain.vol.fat, old(clusters), clusters)
      ensures IsWrite(Flatten(old(Contents())), Flatten(Contents()), Position(sectorSize, sec, off), data, ok)
      ensures Untouched(layout, clusters, old(device.sectors), device.sectors)
      ensures Lengthens(layout, chain.vol.fat, old(clusters), clusters, sec, chain.vol.clusterCount, ok)
      ensures ok ==> ZeroAround(sectorSize, Flatten(old(Contents())), Flatten(Contents()), sec, off, |data|)
    {
      hide Lengthens, Spliced, Flatten, View, Overwrite, Written, PartlyWritten, Untouched, Valid, Contents, Position,
        Sized;
      ghost var v0 := Contents();
      SizedContents();
      var read := ReadSectors(sec, 1);
      SectorOf(sectorSize, v0, sec, read);
      var orig := if read.Some? then read.value[0] else Zeros(sectorSize);
      SplicedKeepsLength(orig, off, data);
      SizedOne(sectorSize, Spliced(orig, off, data));
      ghost var grown;
      ok, grown := WriteSectors(sec, [Spliced(orig, off, data)]);
      if ok {
        ModifyWrites(sectorSize, v0, grown, sec, orig, off, data);
        SectorsHoldBytes();
        ModifiedIsZeroAround(sectorSize, v0, grown, sec, orig, off, data);
      } else {
        GrownIsWrite(v0, grown, Position(sectorSize, sec, off), data);
      }
    }

    /**
     `writeToPosition`: the bytes from the position on become `data` and no other byte of the
     file changes; the file is lengthened as needed.  Without room a part of the data may
     have been written, no cluster being free behind the last one.  The file gets the clusters
     that it lacks and no more, a first sector that it lacks is zero around the data, and no
     sector outside its clusters changes.
     */
    method WriteToPosition(sector: nat, offset: nat, data: Bytes) returns (ok: bool)
      requires Valid() && Growable() && offset < sectorSize
      modifies this`clusters, chain, chain.vol, device
      ensures Valid() && Grown(old(chain.vol.fat), chain.vol.fat, old(clusters), clusters)
      ensures IsWrite(Flatten(old(Contents())), Flatten(Contents()), Position(sectorSize, sector, offset), data, ok)
      ensures Untouched(layout, clusters, old(device.sectors), device.sectors)
      ensures Lengthens(layout, chain.vol.fat, old(clusters), clusters, LastSector(sectorSize, sector, offset, |data|),
        chain.vol.clusterCount, ok)
      ensures ok ==> ZeroAround(sectorSize, Flatten(old(Contents())), Flatten(Contents()), sector, offset, |data|)
    {
      hide *;
      LastSectorIs(sectorSize, sector, offset, |data|);
      if offset > 0 {
        ghost var f, c0, d0, t0 := Flatten(Contents()), clusters, device.sectors, chain.vol.fat;
        var prefaceLen := if |data| < sectorSize - offset then |data| else sectorSize - offset;
        ok := ModifySector(sector, offset, data[..prefaceLen]);
        if ok && prefaceLen < |data| {
          ghost var f1, c1, d1, t1 := Flatten(Contents()), clusters, device.sectors, chain.vol.fat;
          ChainNow();
          ok := WriteMain(sector + 1, data[prefaceLen..]);
          GrownTwice(t0, t1, chain.vol.fat, c0, c1, clusters);
          LengthensTwice(layout, t1, chain.vol.fat, c0, c1, clusters, sector,
                         LastSector(sectorSize, sector, offset, |data|), chain.vol.clusterCount, ok);
          GrownIsPrefix(t1, chain.vol.fat, c1, clusters);
          NextSector(sector, sectorSize, offset, prefaceLen);
          WriteJoins(f, f1, Flatten(Contents()), Position(sectorSize, sector, offset), data, prefaceLen, ok);
          UntouchedTwice(layout, c1, clusters, d0, d1, device.sectors);
          ZeroAroundKept(sectorSize, f, f1, Flatten(Contents()), sector, offset, prefaceLen, |data|, data[prefaceLen..],
                         ok);
        } else {
          StoppedShort(f, Flatten(Contents()), Position(sectorSize, sector, offset), data, prefaceLen, ok);
          LengthensNot(layout, chain.vol.fat, c0, clusters, sector, LastSector(sectorSize, sector, offset, |data|),
                       chain.vol.clusterCount, ok);
        }
      } else {
        ok := WriteMain(sector, data);
      }
    }

    /** `writeMain` and `writeTrailer`: whole sectors and a partial last one. */
    method WriteMain(mainSector: nat, data: Bytes) returns (ok: bool)
      requires Valid() && Growable()
      modifies this`clusters, chain, chain.vol, device
      ensures Valid() && Grown(old(chain.vol.fat), chain.vol.fat, old(clusters), clusters)
      ensures IsWrite(Flatten(old(Contents())), Flatten(Contents()), Position(sectorSize, mainSector, 0), data, ok)
      ensures Untouched(layout, clusters, old(device.sectors), device.sectors)
      ensures sectorSize > 0
        && Lengthens(layout, chain.vol.fat, old(clusters), clusters, LastSector(sectorSize, mainSector, 0, |data|),
                     chain.vol.clusterCount, ok)
      ensures ok ==> ZeroAround(sectorSize, Flatten(old(Contents())), Flatten(Contents()), mainSector, 0, |data|)
    {
      hide *;
      SectorsHoldBytes();
      LastSectorIs(sectorSize, mainSector, 0, |data|);
      var (mainCount, trailerLen) := Split(|data|, sectorSize);
      SplitIs(|data|, sectorSize);
      if mainCount == 0 {
        ok := ModifySector(mainSector, 0, data);
        return;
      }
      var mainLen := |data| - trailerLen;
      ghost var f, c0, t0 := Flatten(Contents()), clusters, chain.vol.fat;
      ok := WriteRun(mainSector, mainCount, data[..mainLen]);
      if ok && trailerLen > 0 {
        ghost var c1, t1 := clusters, chain.vol.fat;
        ChainNow();
        ok := WriteTrailer(f, old(device.sectors), mainSector, mainCount, data, mainLen);
        GrownTwice(t0, t1, chain.vol.fat, c0, c1, clusters);
        LengthensTwice(layout, t1, chain.vol.fat, c0, c1, clusters, mainSector + mainCount - 1, mainSector + mainCount,
                       chain.vol.clusterCount, ok);
      } else {
        StoppedShort(f, Flatten(Contents()), Position(sectorSize, mainSector, 0), data, mainLen, ok);
        LengthensNot(layout, chain.vol.fat, c0, clusters, mainSector + mainCount - 1,
                     LastSector(sectorSize, mainSector, 0, |data|), chain.vol.clusterCount, ok);
      }
      if ok {
        WrittenNow(f, Flatten(Contents()), Position(sectorSize, mainSector, 0), data);
        WholeHasNothingAround(sectorSize, f, Flatten(Contents()), mainSector, data);
      }
    }

    method WriteTrailer(ghost f: Bytes, ghost d0: seq<Sector>, mainSector: nat, mainCount: nat, data: Bytes,
                        mainLen: nat)
        returns (ok: bool)
      requires Valid() && Growable() && Whole(mainLen, mainCount, sectorSize)
      requires mainLen <= |data| <= mainLen + sectorSize
      requires IsWrite(f, Flatten(Contents()), Position(sectorSize, mainSector, 0), data[..mainLen], true)
      requires Untouched(layout, clusters, d0, device.sectors)
      modifies this`clusters, chain, chain.vol, device
      ensures Valid() && Grown(old(chain.vol.fat), chain.vol.fat, old(clusters), clusters)
      ensures IsWrite(f, Flatten(Contents()), Position(sectorSize, mainSector, 0), data, ok)
      ensures Untouched(layout, clusters, d0, device.sectors)
      ensures Lengthens(layout, chain.vol.fat, old(clusters), clusters, mainSector + mainCount, chain.vol.clusterCount,
        ok)
    {
      hide *;
      NextRun(mainSector, sectorSize, mainCount, mainLen);
      ghost var f1, c1, d1, t1 := Flatten(Contents()), clusters, device.sectors, chain.vol.fat;
      ok := ModifySector(mainSector + mainCount, 0, data[mainLen..]);
      GrownIsPrefix(t1, chain.vol.fat, c1, clusters);
      WriteJoins(f, f1, Flatten(Contents()), Position(sectorSize, mainSector, 0), data, mainLen, ok);
      UntouchedTwice(layout, c1, clusters, d0, d1, device.sectors);
    }

    method WriteRun(mainSector: nat, mainCount: nat, data: Bytes) returns (ok: bool)
      requires Valid() && Growable() && Whole(|data|, mainCount, sectorSize) && mainCount > 0
      modifies this`clusters, chain, chain.vol, device
      ensures Valid() && Grown(old(chain.vol.fat), chain.vol.fat, old(clusters), clusters)
      ensures IsWrite(Flatten(old(Contents())), Flatten(Contents()), Position(sectorSize, mainSector, 0), data, ok)
      ensures Untouched(layout, clusters, old(device.sectors), device.sectors)
      ensures Lengthens(layout, chain.vol.fat, old(clusters), clusters, mainSector + mainCount - 1,
        chain.vol.clusterCount, ok)
    {
      hide Lengthens, Valid, Contents, Flatten, Chunk, View, Overwrite, Written, PartlyWritten, Untouched, Sized,
        Position;
      SectorsHoldBytes();
      ghost var v0, grown := Contents(), [];
      ChunkIs(sectorSize, data, mainCount);
      ok, grown := WriteSectors(mainSector, Chunk(sectorSize, data));
      if ok {
        RunWrites(sectorSize, v0, grown, mainSector, Chunk(sectorSize, data));
      } else {
        GrownIsWrite(v0, grown, Position(sectorSize, mainSector, 0), data);
      }
    }

    lemma SizedContents()
      requires Valid()
      ensures Sized(sectorSize, Contents())
    {
      ViewSized(layout, clusters, device.sectors, sectorSize);
    }
  }

  // ----- the parts of a write

  /** The chain `s`, now `t`, was lengthened so that a sector is in it, as far as there was room. */
  ghost predicate Lengthens(l: Layout, fat: Fat, s: seq<nat>, t: seq<nat>, last: nat, limit: nat, ok: bool) {
    ValidLayout(l) && LengthenedTo(fat, s, t, last / l.sectorsPerCluster + 1, limit, ok)
  }

  /** The last sector that a write touches; a write of no data touches one. */
  function LastSector(ss: nat, sector: nat, offset: nat, n: nat): nat
    requires ss > 0
  {
    if offset + n == 0 then sector else sector + (offset + n - 1) / ss
  }

  lemma LastSectorIs(ss: nat, sector: nat, offset: nat, n: nat)
    requires offset < ss
    ensures sector <= LastSector(ss, sector, offset, n)
    ensures offset + n <= ss ==> LastSector(ss, sector, offset, n) == sector
    ensures offset + n > ss ==> LastSector(ss, sector, offset, n) == LastSector(ss, sector + 1, 0, offset + n - ss)
    ensures offset == 0 ==> var (count, rest) := Split(n, ss);
      LastSector(ss, sector, offset, n) == if rest > 0 || count == 0 then sector + count else sector + count - 1
  {
    if offset + n > ss {
      LastSectorNext(ss, offset + n - ss - 1);
    } else if offset + n > 0 {
      DivIs(offset + n - 1, ss, 0, offset + n - 1);
    }
    if offset == 0 && n > 0 {
      LastOfWhole(ss, n);
    }
  }

  lemma DivIs(n: nat, d: nat, q: int, r: nat)
    requires r < d && n == q * d + r
    ensures n / d == q
  {
    DivUnique(n / d, n % d, q, r, d);
  }

  lemma LastSectorNext(ss: nat, n: nat)
    requires ss > 0
    ensures (n + ss) / ss == n / ss + 1
  {
    var q := n / ss;
    assert (q + 1) * ss == q * ss + ss;
    DivIs(n + ss, ss, q + 1, n % ss);
  }

  lemma LastOfWhole(ss: nat, n: nat)
    requires ss > 0 && n > 0
    ensures (n - 1) / ss == if n % ss > 0 then n / ss else n / ss - 1
  {
    var q, rest := n / ss, n % ss;
    if rest > 0 {
      DivIs(n - 1, ss, q, rest - 1);
    } else {
      assert (q - 1) * ss == q * ss - ss;
      DivIs(n - 1, ss, q - 1, ss - 1);
    }
  }

  /** The clusters needed are those up to the one of the last sector. */
  lemma NeededForLast(l: Layout, i: nat, n: nat)
    requires ValidLayout(l) && n > 0
    ensures ClustersNeeded(l, i, n) == (i + n - 1) / l.sectorsPerCluster + 1
  {
    var d := l.sectorsPerCluster;
    var q := (i + n - 1) / d;
    NeededFits(l, i, n, q + 1);
    NeededFits(l, i, n, q);
    assert i + n - 1 == q * d + (i + n - 1) % d;
    assert (q + 1) * d == q * d + d;
  }

  lemma LastBelow(l: Layout, a: nat, b: nat)
    requires ValidLayout(l) && a <= b
    ensures a / l.sectorsPerCluster <= b / l.sectorsPerCluster
  {
    var d := l.sectorsPerCluster;
    var q, p := a / d, b / d;
    assert a == q * d + a % d && b == p * d + b % d;
    assert (p + 1) * d == p * d + d;
    assert p + 1 <= q ==> (p + 1) * d <= q * d by {
      MulBelow(if p + 1 <= q then p + 1 else q, q, d);
    }
  }

  lemma LengthensTwice(l: Layout, fat: Fat, fat': Fat, s: seq<nat>, t: seq<nat>, u: seq<nat>, a: nat, b: nat,
                       limit: nat,
                       ok: bool)
    requires a <= b && Lengthens(l, fat, s, t, a, limit, true) && Lengthens(l, fat', t, u, b, limit, ok)
    ensures Lengthens(l, fat', s, u, b, limit, ok)
  {
    LastBelow(l, a, b);
  }

  /** No room for a sector is no room for a later one. */
  lemma LengthensNot(l: Layout, fat: Fat, s: seq<nat>, t: seq<nat>, a: nat, b: nat, limit: nat, ok: bool)
    requires a <= b && Lengthens(l, fat, s, t, a, limit, ok) && (ok ==> a == b)
    ensures Lengthens(l, fat, s, t, b, limit, ok)
  {
    LastBelow(l, a, b);
  }

  function Zeros(n: nat): Sector {
    seq(n, _ => 0)
  }

  lemma WrittenNow(f: Bytes, f': Bytes, pos: nat, data: Bytes)
    requires IsWrite(f, f', pos, data, true)
    ensures Written(f, f', pos, data)
  {
  }

  lemma SplicedKeepsLength(x: Sector, offset: nat, data: Bytes)
    requires offset + |data| <= |x|
    ensures |Spliced(x, offset, data)| == |x|
  {
  }

  lemma SizedOne(ss: nat, x: Sector)
    requires |x| == ss
    ensures Sized(ss, [x])
  {
  }

  lemma NextSector(s: nat, ss: nat, offset: nat, n: nat)
    requires offset + n == ss
    ensures Position(ss, s, offset) + n == Position(ss, s + 1, 0)
  {
  }

  lemma NextRun(s: nat, ss: nat, m: nat, n: nat)
    requires Whole(n, m, ss)
    ensures Position(ss, s, 0) + n == Position(ss, s + m, 0)
  {
  }

  lemma UntouchedAtAll(l: Layout, clusters: seq<nat>, disk: seq<Sector>)
    ensures Untouched(l, clusters, disk, disk)
  {
  }

  /** A chain that has only grown. */
  lemma GrownIsWrite(v0: seq<Sector>, grown: seq<Sector>, pos: nat, data: Bytes)
    requires v0 <= grown
    ensures IsWrite(Flatten(v0), Flatten(grown), pos, data, false)
  {
    FlattenPrefix(v0, grown);
  }

  /** The data written in two parts. */
  lemma WriteJoins(f: Bytes, f1: Bytes, f2: Bytes, pos: nat, data: Bytes, n: nat, ok: bool)
    requires n <= |data| && IsWrite(f, f1, pos, data[..n], true) && IsWrite(f1, f2, pos + n, data[n..], ok)
    ensures IsWrite(f, f2, pos, data, ok)
  {
    WrittenThen(f, f1, f2, pos, data[..n], data[n..], ok);
    assert data[..n] + data[n..] == data;
  }

  lemma StoppedShort(f: Bytes, f1: Bytes, pos: nat, data: Bytes, n: nat, ok: bool)
    requires n <= |data| && IsWrite(f, f1, pos, data[..n], ok) && (ok ==> n == |data|)
    ensures IsWrite(f, f1, pos, data, ok)
  {
    assert data[..|data|] == data;
  }

  method PutGroups(l: Layout, ghost clusters: seq<nat>, disk: seq<Sector>, ghost i: nat, data: seq<Sector>,
                   groups: seq<Group>,
                   ghost ss: nat)
      returns (disk': seq<Sector>)
    requires Placed(l, clusters, |disk|) && ClustersNeeded(l, i, |data|) <= |clusters|
    requires Expand(groups) == Places(l, clusters, i, |data|) && Sized(ss, disk) && Sized(ss, data)
    ensures i + |data| <= |View(l, clusters, disk)| && |disk'| == |disk| && Sized(ss, disk')
    ensures View(l, clusters, disk') == Overwrite(View(l, clusters, disk), i, data)
    ensures Untouched(l, clusters, disk, disk')
  {
    hide *;
    PlacedLayout(l, clusters, |disk|);
    ContentsFits(l, clusters, disk, i, |data|);
    PutIsOverwrite(l, clusters, disk, i, data);
    disk' := WriteGroups(disk, groups, data);
    PutSized(ss, disk, Places(l, clusters, i, |data|), data, |data|);
    PlacesInClusters(l, clusters, disk, disk', i, |data|);
  }

  /** A range of sectors is in the chain exactly when its clusters are. */
  lemma ContentsFits(l: Layout, clusters: seq<nat>, disk: seq<Sector>, i: nat, n: nat)
    requires ValidLayout(l)
    ensures |View(l, clusters, disk)| == Length(l, clusters)
    ensures ClustersNeeded(l, i, n) <= |clusters| <==> i + n <= Length(l, clusters)
  {
    NeededFits(l, i, n, |clusters|);
  }

  lemma {:induction false} PutSized(ss: nat, disk: seq<Sector>, at: seq<int>, data: seq<Sector>, k: nat)
    requires Sized(ss, disk) && Sized(ss, data) && k <= |data| <= |at| && Within(at, |disk|)
    ensures Sized(ss, PutFirst(disk, at, data, k))
  {
    if k > 0 {
      PutSized(ss, disk, at, data, k - 1);
      assert at[..k][..k - 1] == at[..k - 1] && data[..k][..k - 1] == data[..k - 1];
    }
  }

  // ----- the three parts of a read

  /** `data` is what the chain holds from there on. */
  predicate IsRange(v: seq<Sector>, s: nat, offset: nat, data: Bytes) {
    RangeIn(v, s, offset, |data|) && data == RangeOf(v, s, offset, |data|)
  }

  /** What a read of `length` bytes returns: all of them, or as many as a part of the chain has. */
  predicate IsRead(v: seq<Sector>, s: nat, offset: nat, length: nat, data: Bytes) {
    && |data| <= length
    && (data != [] ==> IsRange(v, s, offset, data))
    && (length > 0 ==> (|data| == length <==> RangeIn(v, s, offset, length)))
  }

  /** Where the partial first sector of a read ends. */
  function Preface(ss: nat, offset: nat, length: nat): nat
    requires offset < ss
  {
    if offset == 0 then 0 else if length < ss - offset then length else ss - offset
  }

  /** Where the whole sectors behind the first `n` bytes end. */
  function WholeEnd(ss: nat, n: nat, length: nat): nat
    requires ss > 0 && n <= length
  {
    length - (length - n) % ss
  }

  /** Of the ends `p`, `w` and `length`, the chain has `k` and no later one. */
  predicate LastPart(v: seq<Sector>, s: nat, offset: nat, p: nat, w: nat, length: nat, k: nat) {
    && (k == p || k == w || k == length)
    && (k < w ==> !RangeIn(v, s, offset, w))
    && (k < length ==> !RangeIn(v, s, offset, length))
  }

  /** A read ends with the last of its parts that the chain has, or before the first. */
  predicate StopsAtPart(ss: nat, v: seq<Sector>, s: nat, offset: nat, length: nat, k: nat)
    requires offset < ss
  {
    var p := Preface(ss, offset, length);
    var w := WholeEnd(ss, p, length);
    if k == 0 && p > 0 then !RangeIn(v, s, offset, p) else LastPart(v, s, offset, p, w, length, k)
  }

  lemma PrefaceIs(ss: nat, offset: nat, length: nat)
    requires offset < ss
    ensures Preface(ss, offset, length) <= length
    ensures offset == 0 ==> Preface(ss, offset, length) == 0
    ensures offset > 0 ==> Preface(ss, offset, length) == if length < ss - offset then length else ss - offset
  {
  }

  lemma WholeEndIs(ss: nat, n: nat, length: nat)
    requires ss > 0 && n <= length
    ensures var (count, rest) := Split(length - n, ss);
      WholeEnd(ss, n, length) == length - rest && (count == 0 ==> WholeEnd(ss, n, length) == n)
  {
    SplitIs(length - n, ss);
  }

  lemma NothingRead(ss: nat, v: seq<Sector>, s: nat, offset: nat, length: nat)
    requires 0 < offset < ss
    requires Preface(ss, offset, length) > 0 ==> !RangeIn(v, s, offset, Preface(ss, offset, length))
    ensures StopsAtPart(ss, v, s, offset, length, 0)
  {
  }

  lemma AllRead(ss: nat, v: seq<Sector>, s: nat, offset: nat, data: Bytes)
    requires 0 < offset < ss && offset + |data| <= ss && IsRange(v, s, offset, data)
    ensures StopsAtPart(ss, v, s, offset, |data|, |data|)
  {
  }

  lemma StopsBehindPreface(ss: nat, v: seq<Sector>, s: nat, offset: nat, length: nat, k: nat)
    requires offset < ss
    requires var p := Preface(ss, offset, length);
      LastPart(v, s, offset, p, WholeEnd(ss, p, length), length, k)
    ensures StopsAtPart(ss, v, s, offset, length, k)
  {
    hide RangeIn;
    SplitIs(length - Preface(ss, offset, length), ss);
  }

  lemma TrailerIsLast(v: seq<Sector>, s: nat, offset: nat, p: nat, w: nat, length: nat, data: Bytes)
    requires p <= w <= length && IsRead(v, s, offset, length, data) && (|data| == w || |data| == length)
    ensures LastPart(v, s, offset, p, w, length, |data|)
  {
  }

  lemma NoRunIsLast(v: seq<Sector>, s: nat, offset: nat, p: nat, w: nat, length: nat)
    requires p < w <= length && !RangeIn(v, s, offset, w)
    ensures LastPart(v, s, offset, p, w, length, p)
  {
  }

  lemma ReadStops(v: seq<Sector>, s: nat, offset: nat, length: nat, data: Bytes)
    requires |data| < length && (data != [] ==> IsRange(v, s, offset, data)) && !RangeIn(v, s, offset, length)
    ensures IsRead(v, s, offset, length, data)
  {
  }

  lemma ReadUpToIsRead(ss: nat, v: seq<Sector>, s: nat, offset: nat, length: nat, data: Bytes, next: nat)
    requires ReadUpTo(ss, v, s, offset, data, next)
    ensures data != [] ==> IsRange(v, s, offset, data)
    ensures |data| == length ==> IsRead(v, s, offset, length, data)
  {
  }

  lemma SectorOf(ss: nat, v: seq<Sector>, i: nat, r: Option<seq<Sector>>)
    requires Sized(ss, v) && r == if i + 1 <= |v| then Some(v[i..i + 1]) else None
    ensures r.Some? ==> |r.value| == 1 && |r.value[0]| == ss
  {
  }

  /** Whole sectors and the rest. */
  function Split(n: nat, ss: nat): (nat, nat)
    requires ss > 0
  {
    (n / ss, n % ss)
  }

  predicate Whole(n: nat, count: nat, ss: nat) {
    n == count * ss
  }

  lemma SplitIs(n: nat, ss: nat)
    requires ss > 0
    ensures var (count, rest) := Split(n, ss);
      rest < ss && rest <= n && Whole(n - rest, count, ss) && (count == 0 ==> rest == n)
  {
  }

  /** The bytes read so far end at the boundary of the sector `next`. */
  predicate ReadUpTo(ss: nat, v: seq<Sector>, s: nat, offset: nat, data: Bytes, next: nat) {
    && s <= next
    && offset + |data| == (next - s) * ss
    && ((data == [] && s == next) || IsRange(v, s, offset, data))
  }

  /** The first, partial sector. */
  lemma ReadPart(ss: nat, v: seq<Sector>, s: nat, offset: nat, n: nat, length: nat, r: Option<seq<Sector>>)
    requires ss > 0 && Sized(ss, v) && offset < ss && n == (if length < ss - offset then length else ss - offset)
    requires r == if s + 1 <= |v| then Some(v[s..s + 1]) else None
    requires offset > 0
    ensures r.None? ==> length == 0 || (!RangeIn(v, s, offset, length) && !RangeIn(v, s, offset, n))
    ensures r.Some? ==> |r.value| == 1 && |r.value[0]| == ss && IsRange(v, s, offset, r.value[0][offset..offset + n])
    ensures r.Some? && n < length ==> ReadUpTo(ss, v, s, offset, r.value[0][offset..offset + n], s + 1)
  {
    if s < |v| {
      RangeOfPart(ss, v, s, offset, n);
    } else if s == |v| {
      assert v[s..] == [];
    }
  }

  /** The chain past a boundary already reached. */
  lemma BeyondBoundary(ss: nat, v: seq<Sector>, s: nat, offset: nat, data: Bytes, next: nat, n: nat)
    requires Sized(ss, v) && ReadUpTo(ss, v, s, offset, data, next) && next <= |v|
    ensures RangeIn(v, s, offset + |data|, n) <==> RangeIn(v, next, 0, n)
    ensures RangeIn(v, next, 0, n) ==> RangeOf(v, s, offset + |data|, n) == RangeOf(v, next, 0, n)
  {
    var a, b := v[s..next], v[next..];
    assert v[s..] == a + b;
    FlattenAppend(a, b);
    FlattenLength(ss, a);
    if RangeIn(v, next, 0, n) {
      RangeSkips(ss, v, s, next - s, 0, n);
    }
  }

  /** A run that the chain does not have reaches past its end. */
  lemma RunMissing(ss: nat, v: seq<Sector>, next: nat, m: nat, n: nat)
    requires ss > 0 && Sized(ss, v) && next <= |v| < next + m && (m - 1) * ss < n
    ensures !RangeIn(v, next, 0, n)
  {
    FlattenLength(ss, v[next..]);
    MulBelow(|v| - next, m - 1, ss);
  }

  lemma ReadMore(ss: nat, v: seq<Sector>, s: nat, offset: nat, data: Bytes, next: nat, more: Bytes)
    requires Sized(ss, v) && ReadUpTo(ss, v, s, offset, data, next) && next <= |v| && IsRange(v, next, 0, more)
    ensures IsRange(v, s, offset, data + more)
  {
    BeyondBoundary(ss, v, s, offset, data, next, |more|);
    if data != [] {
      RangeJoins(v, s, offset, |data|, |more|);
    } else {
      assert data + more == more;
    }
  }

  lemma MissingAfter(ss: nat, v: seq<Sector>, s: nat, offset: nat, data: Bytes, next: nat, n: nat)
    requires Sized(ss, v) && ReadUpTo(ss, v, s, offset, data, next) && next <= |v| && !RangeIn(v, next, 0, n)
    ensures !RangeIn(v, s, offset, |data| + n)
  {
    BeyondBoundary(ss, v, s, offset, data, next, n);
  }

  lemma MissingBefore(ss: nat, v: seq<Sector>, s: nat, offset: nat, data: Bytes, next: nat, n: nat)
    requires Sized(ss, v) && ReadUpTo(ss, v, s, offset, data, next) && |v| < next && n > 0
    ensures !RangeIn(v, s, offset, |data| + n)
  {
    if s <= |v| {
      FlattenLength(ss, v[s..]);
      MulBelow(|v| - s, next - s, ss);
    }
  }

  lemma MissingBeyond(ss: nat, v: seq<Sector>, s: nat, offset: nat, data: Bytes, next: nat, m: nat, n: nat)
    requires ss > 0 && m > 0 && Sized(ss, v) && ReadUpTo(ss, v, s, offset, data, next) && |v| < next + m
      && (m - 1) * ss < n
    ensures !RangeIn(v, s, offset, |data| + n)
  {
    hide Sized, ReadUpTo, RangeIn;
    if next <= |v| {
      RunMissing(ss, v, next, m, n);
      MissingAfter(ss, v, s, offset, data, next, n);
    } else {
      MulBelow(0, m - 1, ss);
      MissingBefore(ss, v, s, offset, data, next, n);
    }
  }

  /** The whole sectors. */
  lemma RunHasBytes(ss: nat, m: nat, n: nat)
    requires ss > 0 && m > 0 && Whole(n, m, ss)
    ensures n > 0 && (m - 1) * ss < n
  {
    assert (m - 1) * ss >= 0;
    assert m * ss == (m - 1) * ss + ss;
  }

  lemma ReadRun(ss: nat, v: seq<Sector>, s: nat, offset: nat, data: Bytes, next: nat, m: nat, n: nat, length: nat,
                r: Option<seq<Sector>>)
    requires ss > 0 && m > 0 && Sized(ss, v) && ReadUpTo(ss, v, s, offset, data, next) && Whole(n, m, ss)
      && |data| + n <= length
    requires r == if next + m <= |v| then Some(v[next..next + m]) else None
    ensures r.None? ==> |data| < length && !RangeIn(v, s, offset, length) && !RangeIn(v, s, offset, |data| + n)
    ensures r.Some? ==> |Flatten(r.value)| == n && IsRange(v, s, offset, data + Flatten(r.value))
    ensures r.Some? ==> ReadUpTo(ss, v, s, offset, data + Flatten(r.value), next + m)
  {
    hide RangeIn, Flatten;
    RunHasBytes(ss, m, n);
    if r.None? {
      MissingBeyond(ss, v, s, offset, data, next, m, length - |data|);
      MissingBeyond(ss, v, s, offset, data, next, m, n);
    } else {
      RangeOfRun(ss, v, next, m);
      FlattenLength(ss, r.value);
      ReadMore(ss, v, s, offset, data, next, Flatten(r.value));
      assert (next + m - s) * ss == (next - s) * ss + m * ss;
    }
  }

  /** The last, partial sector. */
  lemma ReadLast(ss: nat, v: seq<Sector>, s: nat, offset: nat, data: Bytes, next: nat, n: nat, r: Option<seq<Sector>>)
    requires 0 < n < ss && Sized(ss, v) && ReadUpTo(ss, v, s, offset, data, next)
    requires r == if next + 1 <= |v| then Some(v[next..next + 1]) else None
    ensures r.None? ==> !RangeIn(v, s, offset, |data| + n)
    ensures r.Some? ==> |r.value| == 1 && |r.value[0]| == ss && IsRange(v, s, offset, data + r.value[0][..n])
  {
    if r.None? {
      MissingBeyond(ss, v, s, offset, data, next, 1, n);
    } else {
      RangeOfPart(ss, v, next, 0, n);
      ReadMore(ss, v, s, offset, data, next, r.value[0][..n]);
    }
  }

  // ----- reading what was written, and the other files

  /** A range that starts in a sector of the chain is a slice of all its bytes. */
  lemma RangeIsSlice(ss: nat, v: seq<Sector>, s: nat, offset: nat, n: nat)
    requires Sized(ss, v) && offset < ss
    ensures n > 0 ==> (RangeIn(v, s, offset, n) <==> Position(ss, s, offset) + n <= |Flatten(v)|)
    ensures RangeIn(v, s, offset, n) ==> Position(ss, s, offset) + n <= |Flatten(v)|
    ensures RangeIn(v, s, offset, n)
      ==> RangeOf(v, s, offset, n) == Flatten(v)[Position(ss, s, offset)..Position(ss, s, offset) + n]
  {
    FlattenLength(ss, v);
    if s <= |v| {
      FlattenAppend(v[..s], v[s..]);
      FlattenLength(ss, v[..s]);
      assert v[..s] + v[s..] == v;
    } else {
      MulBelow(|v|, s, ss);
    }
  }

  /** `readFromPosition` after `writeToPosition` returns what was written. */
  lemma ReadsBack(ss: nat, f: Bytes, v: seq<Sector>, s: nat, offset: nat, data: Bytes, r: Bytes)
    requires Sized(ss, v) && offset < ss && data != []
    requires Written(f, Flatten(v), Position(ss, s, offset), data) && IsRead(v, s, offset, |data|, r)
    ensures r == data
  {
    hide Flatten, Position, RangeIn, RangeOf;
    RangeIsSlice(ss, v, s, offset, |data|);
  }

  /** Writing to one file leaves what any other file contains, the table being well formed. */
  lemma OtherFileKept(fat: Fat, l: Layout, s: seq<nat>, t: seq<nat>, disk: seq<Sector>, disk': seq<Sector>)
    requires WellFormed(fat) && IsChain(fat, s) && IsChain(fat, t) && IsHead(fat, s[0]) && IsHead(fat, t[0])
      && s[0] != t[0]
    requires Placed(l, t, |disk|) && Untouched(l, s, disk, disk')
    ensures View(l, t, disk') == View(l, t, disk)
  {
    forall c | c in s ensures c !in t {
      if c in t {
        var i :| 0 <= i < |s| && s[i] == c;
        var j :| 0 <= j < |t| && t[j] == c;
        ChainsAreDisjoint(fat, s, t, i, j);
      }
    }
    OtherViewKept(l, s, t, disk, disk');
  }
}
