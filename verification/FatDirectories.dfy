/** Creating a file in a directory that is itself stored in a cluster chain. */
module FatDirectories {
  import opened Basics
  import opened DirEntries
  import opened ShortNames
  import opened FatChains
  import opened ChainFiles
  import opened SectorGroups
  import opened ChainSectors
  import ChainBytes

  /** A write of the new entries that went through is a creation. */
  lemma WriteIsCreation(upper: Text -> Text, dir: Bytes, name: Text, rest: Rest, dir': Bytes)
    requires ValidName(name) && ValidRest(rest) && Create(upper, dir, name, rest).Writes?
    requires var c := Create(upper, dir, name, rest); ChainBytes.Written(dir, dir', c.target, c.data)
    ensures IsCreated(upper, dir, name, rest, dir')
  {
    hide Find, NewRaw, FileBytes;
    var c := Create(upper, dir, name, rest);
    assert dir'[..c.target] == dir[..c.target];
  }

  /** A write that stopped for want of room leaves the old files listed first, as they were. */
  lemma PartialWriteKeepsFiles(dir: Bytes, dir': Bytes, data: Bytes)
    requires ChainBytes.PartlyWritten(dir, dir', Scan(dir, 0, NoLong).end, data)
    ensures Files(dir) <= Files(dir')
  {
    hide Scan;
    var end := Scan(dir, 0, NoLong).end;
    assert dir'[..end] == dir[..end];
    ScanPrefix(dir, dir', 0, NoLong);
  }

  lemma WholeSectors(ss: nat, n: nat, size: nat)
    requires ss > 0 && size == n * ss
    ensures size % ss == 0
  {
    ChainBytes.PositionSplits(ss, size, n, 0);
  }

  // ----- the number of the first cluster in an entry

  /** The fields of an entry with that number in its two halves. */
  function WithCluster(rest: Rest, n: nat): (r: Rest)
    requires ValidRest(rest) && n < 0x1_0000_0000
    ensures ValidRest(r)
  {
    var high, low := n / 0x1_0000, n % 0x1_0000;
    rest.(other := rest.other[..8] + [high % 0x100, high / 0x100] + rest.other[10..14]
                   + [low % 0x100, low / 0x100] + rest.other[16..])
  }

  function ClusterOf(e: Bytes): nat
    requires |e| == ENTRY_SIZE
  {
    (e[20] as int + 0x100 * e[21] as int) * 0x1_0000 + e[26] as int + 0x100 * e[27] as int
  }

  lemma ClusterIsNamed(raw: Bytes, rest: Rest, n: nat)
    requires ValidRaw(raw) && ValidRest(rest) && n < 0x1_0000_0000
    ensures var r := WithCluster(rest, n); ClusterOf(raw + [r.attr] + r.other) == n
  {
    var r := WithCluster(rest, n);
    var e := raw + [r.attr] + r.other;
    var high, low := n / 0x1_0000, n % 0x1_0000;
    assert e[20] == high % 0x100 && e[21] == high / 0x100 && e[26] == low % 0x100 && e[27] == low / 0x100;
  }

  /** The 8.3 entry lies behind the long ones. */
  lemma ShortEntryIs(name: Text, raw: Bytes, rest: Rest)
    requires Top(name) < 64 && ValidRaw(raw) && ValidRest(rest)
    ensures FileBytes(name, raw, rest)[ENTRY_SIZE * Top(name)..ENTRY_SIZE * (Top(name) + 1)]
         == raw + [rest.attr] + rest.other
  {
    hide LongBytes, Checksum;
    var longs := LongBytes(Padded(name), Top(name), Top(name), Checksum(raw));
    var short := raw + [rest.attr] + rest.other;
    assert FileBytes(name, raw, rest) == longs + short + DirEntries.Zeros(ENTRY_SIZE);
    assert (longs + short + DirEntries.Zeros(ENTRY_SIZE))[|longs|..|longs| + |short|] == short;
  }

  /** The entry listed at `p` leads to the cluster `n`. */
  predicate LeadsTo(dir: Bytes, p: nat, n: nat) {
    p + ENTRY_SIZE <= |dir| && ClusterOf(dir[p..p + ENTRY_SIZE]) == n
  }

  lemma WrittenLeadsTo(dir: Bytes, dir': Bytes, target: nat, name: Text, raw: Bytes, rest: Rest, n: nat)
    requires Top(name) < 64 && ValidRaw(raw) && ValidRest(rest) && n < 0x1_0000_0000
    requires ChainBytes.Written(dir, dir', target, FileBytes(name, raw, WithCluster(rest, n)))
    ensures LeadsTo(dir', target + ENTRY_SIZE * Top(name), n)
  {
    hide FileBytes, WithCluster, Top, ClusterOf;
    var data, k := FileBytes(name, raw, WithCluster(rest, n)), ENTRY_SIZE * Top(name);
    ShortEntryIs(name, raw, WithCluster(rest, n));
    ClusterIsNamed(raw, rest, n);
    SliceOfSlice(dir', target, target + |data|, k, ENTRY_SIZE);
  }

  // ----- creating a file

  /** `Made`: the entry listed and the first cluster of the file. */
  datatype Outcome =
    | Made(entry: Entry, firstCluster: nat)
    | AlreadyThere(entry: Entry)
    | NameRefused
    | SearchFails
    | NoRoom

  /** What a creation makes of the directory `before`. */
  ghost predicate IsOutcome(upper: Text -> Text, before: Bytes, name: Text, rest: Rest, after: Bytes, outcome: Outcome)
    requires ValidName(name) && ValidRest(rest)
  {
    match Create(upper, before, name, rest)
    case Found(e) => outcome == AlreadyThere(e) && after == before
    case Throws => outcome == SearchFails && after == before
    case NameTooLong => outcome == NameRefused && after == before
    case Writes(_, _, _) =>
      match outcome
      case Made(e, n) => IsListed(upper, before, name, after, e) && LeadsTo(after, e.position, n)
      case NoRoom => Files(before) <= Files(after)
      case _ => false
  }

  /** The new file comes after the others, with an 8.3 name of its own, and is found. */
  ghost predicate IsListed(upper: Text -> Text, before: Bytes, name: Text, after: Bytes, e: Entry) {
    && Files(after) == Files(before) + [e] && e.name == LongName(name)
    && (forall d :: d in Files(before) ==> d.raw != e.raw)
    && ShortNames.Find(upper, Files(after), name, 0) == Exists(e)
  }

  lemma WrittenIsOutcome(upper: Text -> Text, before: Bytes, name: Text, rest: Rest, n: nat, after: Bytes, ok: bool)
      returns (outcome: Outcome)
    requires ValidName(name) && ValidRest(rest) && n < 0x1_0000_0000 && Create(upper, before, name, rest).Writes?
    requires var c := Create(upper, before, name, WithCluster(rest, n));
      c.Writes? && ChainBytes.IsWrite(before, after, c.target, c.data, ok)
    ensures IsOutcome(upper, before, name, rest, after, outcome)
    ensures if ok
      then outcome.Made? && outcome.firstCluster == n
           && outcome.entry.position + 2 * ENTRY_SIZE
              == Create(upper, before, name, rest).target + |Create(upper, before, name, WithCluster(rest, n)).data|
      else outcome.NoRoom?
  {
    hide ShortNames.Find, Scan, NewRaw, FileBytes, IsCreated, ValidName, WithCluster, LeadsTo, Top;
    var r := WithCluster(rest, n);
    if ok {
      WriteIsCreation(upper, before, name, r, after);
      var e := CreatedFileIsListed(upper, before, after, name, r);
      NameFits(name);
      WrittenLeadsTo(before, after, Scan(before, 0, NoLong).end, name, Create(upper, before, name, r).raw, rest, n);
      outcome := Made(e, n);
    } else {
      PartialWriteKeepsFiles(before, after, Create(upper, before, name, r).data);
      outcome := NoRoom;
    }
  }

  lemma FlattenMore(v: seq<Sector>, w: seq<Sector>)
    requires |w| == 1
    ensures ChainBytes.Flatten(v + w) == ChainBytes.Flatten(v) + w[0]
  {
    ChainBytes.FlattenAppend(v, w);
    ChainBytes.FlattenOne(w[0]);
    assert w == [w[0]];
  }

  /** The bytes that the iterator goes through, read sector by sector until the chain has no more. */
  method ReadAll(file: ChainFile) returns (dir: Bytes)
    requires file.Valid()
    modifies file`clusters, file.chain, file.chain.vol
    ensures file.Valid() && file.clusters == old(file.clusters) && file.Contents() == old(file.Contents())
    ensures file.chain.vol.fat == old(file.chain.vol.fat)
    ensures dir == ChainBytes.Flatten(file.Contents()) && |dir| == |file.Contents()| * file.sectorSize
  {
    hide ChainBytes.Flatten, ChainFile.Valid, ChainFile.Contents;
    ghost var v := file.Contents();
    file.SizedContents();
    dir := [];
    var i := 0;
    FlattenNone(v);
    while true
      invariant i <= |v| && dir == ChainBytes.Flatten(v[..i])
      invariant file.Valid() && file.clusters == old(file.clusters) && file.Contents() == v
      invariant file.chain.vol.fat == old(file.chain.vol.fat)
      decreases |v| - i
    {
      var sector := file.ReadSectors(i, 1);
      if sector.None? {
        break;
      }
      FlattenMore(v[..i], v[i..i + 1]);
      assert v[..i] + v[i..i + 1] == v[..i + 1];
      dir := dir + sector.value[0];
      i := i + 1;
    }
    assert v[..i] == v;
    ChainBytes.FlattenLength(file.sectorSize, v);
  }

  lemma FlattenNone(v: seq<Sector>)
    ensures ChainBytes.Flatten(v[..0]) == []
  {
  }

  /** The file that has been made: a chain of its own, whose only cluster was free. */
  ghost predicate HasNewChain(fat: Fat, fat': Fat, clusters: seq<nat>, outcome: Outcome) {
    outcome.Made? ==>
      var n := outcome.firstCluster;
      && n < |fat| && fat[n] == Free
      && IsChain(fat', [n]) && IsHead(fat', n) && n !in clusters
  }

  /**
   What the creation takes.  A file that is made has the first free cluster from that of the
   directory on, and the chain of the directory reaches to the end mark behind the new entry
   and no further.  When there is no room, no cluster is free from the first of the directory
   on, or none is free behind its last.  In the other cases nothing is taken.
   */
  ghost predicate Takes(l: Layout, ss: nat, fat: Fat, fat': Fat, s: seq<nat>, t: seq<nat>, limit: nat, outcome: Outcome)
  {
    && ss > 0 && s != [] && s <= t
    && match outcome
       case Made(e, n) =>
         && s[0] <= n < |fat| && fat[n] == Free && FatChains.NoRoom(fat, s[0], n) && Grown(Marked(fat, n), fat', s, t)
         && Lengthens(l, fat', s, t, (e.position + 2 * ENTRY_SIZE - 1) / ss, limit, true)
       case NoRoom =>
         if fat' == fat then t == s && FatChains.NoRoom(fat, s[0], limit) else FatChains.NoRoom(fat', t[|t| - 1], limit)
       case _ => fat' == fat && t == s
  }

  lemma TakesNothing(l: Layout, ss: nat, fat: Fat, s: seq<nat>, limit: nat, outcome: Outcome)
    requires ss > 0 && s != [] && (outcome.NoRoom? ==> FatChains.NoRoom(fat, s[0], limit)) && !outcome.Made?
    ensures Takes(l, ss, fat, fat, s, s, limit, outcome)
  {
  }

  lemma TakesAsWritten(l: Layout, ss: nat, fat: Fat, fat': Fat, s: seq<nat>, t: seq<nat>, limit: nat, n: nat,
                       at: (nat, nat), target: nat, size: nat, outcome: Outcome, ok: bool)
    requires at.1 < ss && ChainBytes.Position(ss, at.0, at.1) == target
    requires size > 0 && s != [] && s[0] <= n < |fat| && fat[n] == Free && FatChains.NoRoom(fat, s[0], n)
    requires Grown(Marked(fat, n), fat', s, t) && IsChain(fat', [n])
    requires Lengthens(l, fat', s, t, LastSector(ss, at.0, at.1, size), limit, ok)
    requires if ok
      then outcome.Made? && outcome.firstCluster == n && outcome.entry.position + 2 * ENTRY_SIZE == target + size
      else outcome.NoRoom?
    ensures Takes(l, ss, fat, fat', s, t, limit, outcome)
  {
    hide LengthenedTo;
    LastOfPosition(ss, at.0, at.1, size);
    assert fat' != fat by {
      assert [n][0] == n && fat'[n] != Free;
    }
    assert !ok ==> FatChains.NoRoom(fat', t[|t| - 1], limit) by {
      LengthenedIs(l, fat', s, t, LastSector(ss, at.0, at.1, size), limit, ok);
    }
  }

  lemma LengthenedIs(l: Layout, fat: Fat, s: seq<nat>, t: seq<nat>, last: nat, limit: nat, ok: bool)
    requires Lengthens(l, fat, s, t, last, limit, ok)
    ensures t != [] && (!ok ==> FatChains.NoRoom(fat, t[|t| - 1], limit))
  {
  }

  lemma LastOfPosition(ss: nat, sector: nat, offset: nat, size: nat)
    requires ss > 0 && size > 0
    ensures LastSector(ss, sector, offset, size) == (ChainBytes.Position(ss, sector, offset) + size - 1) / ss
  {
    var last := offset + size - 1;
    assert (sector + last / ss) * ss == sector * ss + last / ss * ss;
    DivIs(sector * ss + last, ss, sector + last / ss, last % ss);
  }

  /**
   A file is created in the directory that a chain holds: after the search, a cluster is
   marked as the end of a chain for the new file; then the long entries, the 8.3 entry, which
   names that cluster, and the end of the directory are written over the old end, the chain
   being lengthened as needed.  Every other file keeps its chain.
   */
  method CreateFile(upper: Text -> Text, file: ChainFile, name: Text, rest: Rest)
      returns (ghost outcome: Outcome, found: Search, ok: bool)
    requires file.Valid() && file.Growable() && file.sectorSize % ENTRY_SIZE == 0
    requires ValidName(name) && ValidRest(rest)
    modifies file`clusters, file.chain, file.chain.vol, file.device
    ensures file.Valid() && old(file.clusters) <= file.clusters
    ensures IsOutcome(upper, ChainBytes.Flatten(old(file.Contents())), name, rest,
      ChainBytes.Flatten(file.Contents()), outcome)
    ensures ok <==> outcome.Made?
    ensures HasNewChain(old(file.chain.vol.fat), file.chain.vol.fat, file.clusters, outcome)
    ensures LeavesChains(old(file.chain.vol.fat), file.chain.vol.fat, old(file.clusters))
    ensures Untouched(file.layout, file.clusters, old(file.device.sectors), file.device.sectors)
    ensures Takes(file.layout, file.sectorSize, old(file.chain.vol.fat), file.chain.vol.fat, old(file.clusters),
      file.clusters, file.chain.vol.clusterCount, outcome)
    ensures !outcome.Made? && !outcome.NoRoom? ==> file.device.sectors == old(file.device.sectors)
  {
    hide *;
    file.SectorsHoldBytes();
    file.ChainNow();
    file.StartsAtFirst();
    UntouchedAtAll(file.layout, file.clusters, file.device.sectors);
    ghost var fat0, s0 := file.chain.vol.fat, file.clusters;
    NothingLeft(fat0, s0);
    var dir := ReadAll(file);
    WholeSectors(file.sectorSize, |file.Contents()|, |dir|);
    var target;
    found, target := FindInDirectory(upper, dir, file.sectorSize, name);
    ok := false;
    outcome := NoWrite(upper, dir, name, rest);
    NotMade(fat0, fat0, s0, outcome);
    ghost var limit := file.chain.vol.clusterCount;
    TakesNothing(file.layout, file.sectorSize, fat0, s0, limit, outcome);
    if found.Missing? {
      var raw := NewRaw(upper(name), found.tail);
      if raw.Some? {
        outcome := NoRoom;
        NameFits(name);
        CreateWrites(upper, dir, name, rest);
        var fileCluster := file.AllocateOther(file.chain.firstCluster);
        if fileCluster.Cluster? {
          ghost var fat1 := file.chain.vol.fat;
          file.ChainNow();
          NumberIsSmall(file, fileCluster.n);
          var data := BuildEntries(name, raw.value, WithCluster(rest, fileCluster.n));
          CreateWrites(upper, dir, name, WithCluster(rest, fileCluster.n));
          EntriesAreSome(name, raw.value, WithCluster(rest, fileCluster.n));
          var at := ChainFiles.Split(target, file.sectorSize);
          SplitIsPosition(target, file.sectorSize);
          ok := file.WriteToPosition(at.0, at.1, data);
          outcome := WrittenIsOutcome(upper, dir, name, rest, fileCluster.n, ChainBytes.Flatten(file.Contents()), ok);
          file.ChainNow();
          NewChainIsKept(fat0, fat1, file.chain.vol.fat, s0, file.clusters, fileCluster.n, outcome);
          TakesAsWritten(file.layout, file.sectorSize, fat0, file.chain.vol.fat, s0, file.clusters, limit,
                         fileCluster.n, at, target, |data|, outcome, ok);
        } else {
          NoRoomAtAll(upper, dir, name, rest);
          NotMade(fat0, fat0, s0, outcome);
          TakesNothing(file.layout, file.sectorSize, fat0, s0, limit, outcome);
        }
      }
    }
  }

  /** The chains of a table that do not end where the directory ended. */
  ghost predicate LeavesChains(fat: Fat, fat': Fat, s: seq<nat>) {
    s != [] && forall t :: IsChain(fat, t) && t[|t| - 1] != s[|s| - 1] ==> IsChain(fat', t)
  }

  lemma NothingLeft(fat: Fat, s: seq<nat>)
    requires IsChain(fat, s)
    ensures LeavesChains(fat, fat, s) && s <= s
  {
  }

  lemma NotMade(fat: Fat, fat': Fat, s: seq<nat>, outcome: Outcome)
    ensures !outcome.Made? ==> HasNewChain(fat, fat', s, outcome)
  {
  }

  lemma NumberIsSmall(file: ChainFile, n: nat)
    requires file.Growable() && n < file.chain.vol.clusterCount
    ensures n < 0x1_0000_0000
  {
  }

  lemma NoRoomAtAll(upper: Text -> Text, dir: Bytes, name: Text, rest: Rest)
    requires ValidName(name) && ValidRest(rest) && Create(upper, dir, name, rest).Writes?
    ensures IsOutcome(upper, dir, name, rest, dir, NoRoom)
  {
    hide ShortNames.Find, Scan, NewRaw, FileBytes;
  }

  /** The cluster was marked, then the chain of the directory grew. */
  lemma NewChainIsKept(fat0: Fat, fat1: Fat, fat2: Fat, s: seq<nat>, t: seq<nat>, n: nat, outcome: Outcome)
    requires n < |fat0| && fat0[n] == Free && fat1 == Marked(fat0, n) && IsHead(fat1, n) && n !in s
    requires IsChain(fat0, s) && IsChain(fat1, s) && IsChain(fat1, [n]) && Grown(fat1, fat2, s, t) && IsChain(fat2, t)
    requires outcome.Made? ==> outcome.firstCluster == n
    ensures HasNewChain(fat0, fat2, t, outcome) && LeavesChains(fat0, fat2, s) && s <= t && IsChain(fat2, [n])
  {
    hide IsHead, Marked;
    assert [n][0] == n && s[|s| - 1] in s by {
      ChainIsThere(fat0, s);
    }
    GrowthKeepsChain(fat1, fat2, s, t, [n]);
    GrowthKeepsHead(fat1, fat2, s, t, n);
    forall other | IsChain(fat0, other) && other[|other| - 1] != s[|s| - 1] ensures IsChain(fat2, other) {
      MarkedKeepsChain(fat0, n, other);
      GrowthKeepsChain(fat1, fat2, s, t, other);
    }
  }

  lemma EntriesAreSome(name: Text, raw: Bytes, rest: Rest)
    requires Top(name) < 64 && ValidRaw(raw) && ValidRest(rest)
    ensures |FileBytes(name, raw, rest)| > 0
  {
    hide FileBytes;
  }

  lemma NameFits(name: Text)
    requires ValidName(name)
    ensures Top(name) < 64
  {
  }

  lemma SplitIsPosition(n: nat, ss: nat)
    requires ss > 0
    ensures var (sector, offset) := ChainFiles.Split(n, ss); offset < ss && ChainBytes.Position(ss, sector, offset) == n
  {
  }

  lemma CreateWrites(upper: Text -> Text, dir: Bytes, name: Text, rest: Rest)
    requires ValidName(name) && ValidRest(rest)
    requires var found := ShortNames.Find(upper, Files(dir), name, 0);
      found.Missing? && NewRaw(upper(name), found.tail).Some?
    ensures Top(name) < 64
    ensures var raw := NewRaw(upper(name), ShortNames.Find(upper, Files(dir), name, 0).tail);
      Create(upper, dir, name, rest) == Writes(Scan(dir, 0, NoLong).end, raw.value, FileBytes(name, raw.value, rest))
  {
    hide ShortNames.Find, Scan, NewRaw, FileBytes;
  }

  /** The outcome when nothing is written. */
  lemma NoWrite(upper: Text -> Text, dir: Bytes, name: Text, rest: Rest) returns (outcome: Outcome)
    requires ValidName(name) && ValidRest(rest)
    ensures !outcome.Made? && !outcome.NoRoom?
    ensures var found := ShortNames.Find(upper, Files(dir), name, 0);
      !(found.Missing? && NewRaw(upper(name), found.tail).Some?) ==> IsOutcome(upper, dir, name, rest, dir, outcome)
  {
    hide ShortNames.Find, Scan, NewRaw, FileBytes;
    match Create(upper, dir, name, rest)
    case Found(e) => outcome := AlreadyThere(e);
    case Throws => outcome := SearchFails;
    case _ => outcome := NameRefused;
  }
}
