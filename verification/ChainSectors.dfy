/** The sectors of a chain as one sequence, and the transfers along groups that read and write parts of it. */
module ChainSectors {
  import opened Basics
  import opened SectorGroups

  type Sector = Bytes

  /** Every cluster lies inside the volume, and none occurs twice. */
  ghost predicate Placed(l: Layout, clusters: seq<nat>, sectors: nat) {
    && ValidLayout(l)
    && (forall i :: 0 <= i < |clusters| ==>
          clusters[i] >= 2 && FirstSectorOfCluster(l, clusters[i]) + l.sectorsPerCluster <= sectors)
    && (forall i, j :: 0 <= i < j < |clusters| ==> clusters[i] != clusters[j])
  }

  function Length(l: Layout, clusters: seq<nat>): nat {
    |clusters| * l.sectorsPerCluster
  }

  lemma InChain(l: Layout, clusters: seq<nat>, s: nat)
    requires ValidLayout(l) && s < Length(l, clusters)
    ensures s / l.sectorsPerCluster < |clusters|
  {
    var d := l.sectorsPerCluster;
    var q := s / d;
    assert q >= |clusters| ==> q * d >= |clusters| * d;
  }

  lemma DivModApart(s: nat, t: nat, d: nat)
    requires d > 0 && s != t
    ensures s / d != t / d || s % d != t % d
  {
    assert s == (s / d) * d + s % d && t == (t / d) * d + t % d;
  }

  lemma ModBelow(s: nat, d: nat)
    requires d > 0
    ensures 0 <= s % d < d && s / d >= 0
  {
  }

  lemma SlotsApart(l: Layout, clusters: seq<nat>, sectors: nat, i: nat, r: nat, j: nat, q: nat)
    requires Placed(l, clusters, sectors) && i < |clusters| && j < |clusters|
    requires r < l.sectorsPerCluster && q < l.sectorsPerCluster && (i != j || r != q)
    ensures FirstSectorOfCluster(l, clusters[i]) + r != FirstSectorOfCluster(l, clusters[j]) + q
  {
    hide FirstSectorOfCluster;
    if i != j {
      assert clusters[i] != clusters[j];
      PlacesApart(l, clusters[i], r, clusters[j], q);
    }
  }

  /** Different sectors of the chain are at different places. */
  lemma SectorsApart(l: Layout, clusters: seq<nat>, sectors: nat, s: nat, t: nat)
    requires Placed(l, clusters, sectors) && s != t
    requires s / l.sectorsPerCluster < |clusters| && t / l.sectorsPerCluster < |clusters|
    ensures SectorAt(l, clusters, s) != SectorAt(l, clusters, t)
  {
    hide FirstSectorOfCluster;
    var d := l.sectorsPerCluster;
    DivModApart(s, t, d);
    ModBelow(s, d);
    ModBelow(t, d);
    SlotsApart(l, clusters, sectors, s / d, s % d, t / d, t % d);
  }

  lemma PlacesApart(l: Layout, c: nat, r: nat, e: nat, q: nat)
    requires c != e && r < l.sectorsPerCluster && q < l.sectorsPerCluster
    ensures FirstSectorOfCluster(l, c) + r != FirstSectorOfCluster(l, e) + q
  {
    ClustersApart(l, if c < e then c else e, if c < e then e else c);
  }

  /** The sector `s` of the chain. */
  function At(l: Layout, clusters: seq<nat>, disk: seq<Sector>, s: nat): Sector {
    if ValidLayout(l) && s / l.sectorsPerCluster < |clusters| && 0 <= SectorAt(l, clusters, s) < |disk|
    then disk[SectorAt(l, clusters, s)] else []
  }

  /** The chain as a sequence of sectors. */
  function View(l: Layout, clusters: seq<nat>, disk: seq<Sector>): seq<Sector> {
    seq(Length(l, clusters), s requires 0 <= s => At(l, clusters, disk, s))
  }

  /**
   The sector `s` of the file is that of the volume, counted from the start of the data area, where
   cluster 2 lies.
   */
  lemma ViewIsOnVolume(l: Layout, clusters: seq<nat>, disk: seq<Sector>, s: nat)
    requires Placed(l, clusters, |disk|) && s < Length(l, clusters)
    ensures s / l.sectorsPerCluster < |clusters|
    ensures var p := l.firstDataSector + (clusters[s / l.sectorsPerCluster] - 2) * l.sectorsPerCluster
                     + s % l.sectorsPerCluster;
      l.firstDataSector <= p < |disk| && View(l, clusters, disk)[s] == disk[p]
  {
    hide FirstSectorOfCluster;
    InChain(l, clusters, s);
    SectorInVolumeAt(l, clusters, |disk|, s);
    ViewAt(l, clusters, disk, s);
    ClusterAfter(l, clusters[s / l.sectorsPerCluster] - 2);
    ModBelow(s, l.sectorsPerCluster);
    NotBefore(l, clusters[s / l.sectorsPerCluster] - 2);
  }

  lemma NotBefore(l: Layout, k: nat)
    ensures 0 <= k * l.sectorsPerCluster
  {
  }

  // ----- transfers

  ghost predicate Within(at: seq<int>, sectors: nat) {
    forall k :: 0 <= k < |at| ==> 0 <= at[k] < sectors
  }

  ghost predicate Distinct(at: seq<int>) {
    forall i, j :: 0 <= i < j < |at| ==> at[i] != at[j]
  }

  function ExpandFrom(groups: seq<Group>): seq<int> {
    if groups == [] then [] else Range(groups[0].firstSector, groups[0].numSectors) + ExpandFrom(groups[1..])
  }

  lemma {:induction false} ExpandFromIsExpand(groups: seq<Group>)
    ensures ExpandFrom(groups) == Expand(groups)
  {
    if groups != [] {
      var n := |groups| - 1;
      ExpandFromIsExpand(groups[..n]);
      ExpandFromSnoc(groups[..n], groups[n]);
      assert groups[..n] + [groups[n]] == groups;
    }
  }

  lemma {:induction false} ExpandFromSnoc(groups: seq<Group>, g: Group)
    ensures ExpandFrom(groups + [g]) == ExpandFrom(groups) + Range(g.firstSector, g.numSectors)
  {
    if groups == [] {
      assert groups + [g] == [g];
    } else {
      assert (groups + [g])[1..] == groups[1..] + [g];
      ExpandFromSnoc(groups[1..], g);
    }
  }

  function Pick(disk: seq<Sector>, at: seq<int>): seq<Sector>
    requires Within(at, |disk|)
  {
    seq(|at|, k requires 0 <= k < |at| => disk[at[k]])
  }

  /** The place of a group in the list of sectors. */
  lemma RangeIsNext(groups: seq<Group>, i: nat, at: seq<int>, done: nat)
    requires i < |groups| && done <= |at| && ExpandFrom(groups[i..]) == at[done..]
    ensures var g := groups[i];
      && done + g.numSectors <= |at|
      && at[done..done + g.numSectors] == Range(g.firstSector, g.numSectors)
      && ExpandFrom(groups[i + 1..]) == at[done + g.numSectors..]
  {
    var g := groups[i];
    assert groups[i..][1..] == groups[i + 1..];
    assert at[done..] == Range(g.firstSector, g.numSectors) + ExpandFrom(groups[i + 1..]);
    assert at[done..][..g.numSectors] == Range(g.firstSector, g.numSectors);
    assert at[done..][g.numSectors..] == ExpandFrom(groups[i + 1..]);
  }

  /** Reading the next `m` sectors of a run. */
  lemma PickRun(disk: seq<Sector>, at: seq<int>, done: nat, first: int, num: nat, m: nat)
    requires Within(at, |disk|) && 0 < m <= num && done + num <= |at| && at[done..done + num] == Range(first, num)
    ensures 0 <= first && first + m <= |disk|
    ensures Pick(disk, at[..done + m]) == Pick(disk, at[..done]) + disk[first..first + m]
  {
    var run := at[done..done + num];
    assert run[0] == first && run[m - 1] == first + m - 1;
    assert at[done] == first && at[done + m - 1] == first + m - 1;
    forall k | done <= k < done + m ensures at[k] == first + (k - done) {
      assert run[k - done] == first + (k - done);
    }
  }

  function Cap(k: nat, n: nat): nat {
    if k < n then k else n
  }

  /** What reading one group adds to the buffer: the slice of it that still fits. */
  lemma ReadStep(disk: seq<Sector>, groups: seq<Group>, i: nat, at: seq<int>, done: nat, n: nat)
    requires i < |groups| && done <= |at| && ExpandFrom(groups[i..]) == at[done..] && Within(at, |disk|) && n <= |at|
    ensures var g := groups[i]; var stop := done + g.numSectors; var m := Cap(stop, n) - Cap(done, n);
      && stop <= |at| && ExpandFrom(groups[i + 1..]) == at[stop..]
      && 0 <= m <= g.numSectors
      && (m > 0 ==> 0 <= g.firstSector && g.firstSector + m <= |disk| && done < n)
      && Pick(disk, at[..Cap(stop, n)])
         == Pick(disk, at[..Cap(done, n)]) + if m > 0 then disk[g.firstSector..g.firstSector + m] else []
  {
    hide ExpandFrom, Range, Within, Pick;
    var g := groups[i];
    var m := Cap(done + g.numSectors, n) - Cap(done, n);
    RangeIsNext(groups, i, at, done);
    if m > 0 {
      PickRun(disk, at, done, g.firstSector, g.numSectors, m);
    }
  }

  lemma ReadStarts(disk: seq<Sector>, groups: seq<Group>, at: seq<int>)
    requires at == Expand(groups) && Within(at, |disk|)
    ensures ExpandFrom(groups[0..]) == at[0..] && Pick(disk, at[..0]) == []
  {
    ExpandFromIsExpand(groups);
    assert groups[0..] == groups;
  }

  /** The groups are read one after the other, the last one only as far as the buffer goes. */
  method ReadGroups(disk: seq<Sector>, groups: seq<Group>, n: nat) returns (dest: seq<Sector>)
    requires n <= |Expand(groups)| && Within(Expand(groups), |disk|)
    ensures dest == Pick(disk, Expand(groups)[..n])
  {
    hide Expand, ExpandFrom, Pick;
    ghost var at := Expand(groups);
    ReadStarts(disk, groups, at);
    dest := [];
    var i, groupOffset := 0, 0;
    while i < |groups|
      invariant 0 <= i <= |groups| && 0 <= groupOffset <= |at|
      invariant ExpandFrom(groups[i..]) == at[groupOffset..]
      invariant dest == Pick(disk, at[..Cap(groupOffset, n)])
    {
      ReadStep(disk, groups, i, at, groupOffset, n);
      var g := groups[i];
      var m := Cap(groupOffset + g.numSectors, n) - Cap(groupOffset, n);
      dest := dest + if m > 0 then disk[g.firstSector..g.firstSector + m] else [];
      groupOffset := groupOffset + g.numSectors;
      i := i + 1;
    }
    WriteEnds(groups, at, groupOffset, n);
  }

  /** The disk once `data` has been written at the places `at`. */
  function Put(disk: seq<Sector>, at: seq<int>, data: seq<Sector>): (r: seq<Sector>)
    requires |at| == |data| && Within(at, |disk|)
    ensures |r| == |disk|
  {
    if at == [] then disk
    else
      var n := |at| - 1;
      Put(disk, at[..n], data[..n])[at[n] := data[n]]
  }

  lemma SpliceMore(s: seq<Sector>, first: nat, mid: seq<Sector>, x: Sector)
    requires first + |mid| < |s|
    ensures (s[..first] + mid + s[first + |mid|..])[first + |mid| := x]
         == s[..first] + (mid + [x]) + s[first + |mid| + 1..]
  {
  }

  /** The first `m` places of a run are next to one another. */
  lemma RunPlaces(at: seq<int>, done: nat, first: int, num: nat, k: nat)
    requires done + num <= |at| && at[done..done + num] == Range(first, num) && k < num
    ensures at[done + k] == first + k
  {
    assert at[done..done + num][k] == first + k;
  }

  /** Writing the next `m` sectors of a run. */
  lemma {:induction false} PutRun(disk: seq<Sector>, at: seq<int>, data: seq<Sector>, done: nat, first: int, num: nat,
                                  m: nat)
    requires |data| <= |at| && Within(at, |disk|) && 0 < m <= num && done + num <= |at| && done + m <= |data|
    requires at[done..done + num] == Range(first, num)
    ensures 0 <= first && first + m <= |disk|
    ensures var before := Put(disk, at[..done], data[..done]);
      Put(disk, at[..done + m], data[..done + m]) == before[..first] + data[done..done + m] + before[first + m..]
    decreases m
  {
    hide Range, Put;
    var n := done + m - 1;
    var before := Put(disk, at[..done], data[..done]);
    RunPlaces(at, done, first, num, 0);
    RunPlaces(at, done, first, num, m - 1);
    PutOneMore(disk, at, data, n);
    if m > 1 {
      PutRun(disk, at, data, done, first, num, m - 1);
    } else {
      NothingSpliced(before, first, data[done..n]);
    }
    SpliceMore(before, first, data[done..n], data[n]);
    assert data[done..n] + [data[n]] == data[done..n + 1];
  }

  lemma PutOneMore(disk: seq<Sector>, at: seq<int>, data: seq<Sector>, n: nat)
    requires n < |data| <= |at| && Within(at, |disk|)
    ensures Put(disk, at[..n + 1], data[..n + 1]) == Put(disk, at[..n], data[..n])[at[n] := data[n]]
  {
    hide Put;
    assert at[..n + 1][..n] == at[..n] && data[..n + 1][..n] == data[..n];
    PutLast(disk, at[..n + 1], data[..n + 1], n);
  }

  lemma PutLast(disk: seq<Sector>, at: seq<int>, data: seq<Sector>, n: nat)
    requires |at| == |data| == n + 1 && Within(at, |disk|)
    ensures Put(disk, at, data) == Put(disk, at[..n], data[..n])[at[n] := data[n]]
  {
  }

  lemma NothingSpliced(s: seq<Sector>, first: nat, mid: seq<Sector>)
    requires first <= |s| && mid == []
    ensures s[..first] + mid + s[first..] == s
  {
  }

  /** The disk once the first `k` sectors have been written. */
  function PutFirst(disk: seq<Sector>, at: seq<int>, data: seq<Sector>, k: nat): (r: seq<Sector>)
    requires k <= |data| <= |at| && Within(at, |disk|)
    ensures |r| == |disk|
  {
    Put(disk, at[..k], data[..k])
  }

  lemma PutFirstRun(disk: seq<Sector>, at: seq<int>, data: seq<Sector>, done: nat, first: int, num: nat, m: nat)
    requires |data| <= |at| && Within(at, |disk|) && 0 < m <= num && done + num <= |at| && done + m <= |data|
    requires at[done..done + num] == Range(first, num)
    ensures 0 <= first && first + m <= |disk|
    ensures var before := PutFirst(disk, at, data, done);
      PutFirst(disk, at, data, done + m) == before[..first] + data[done..done + m] + before[first + m..]
  {
    PutRun(disk, at, data, done, first, num, m);
  }

  /** Writing successive sectors of the volume. */
  function WriteRun(disk: seq<Sector>, first: int, part: seq<Sector>): (r: seq<Sector>)
    requires 0 <= first && first + |part| <= |disk|
    ensures |r| == |disk|
  {
    disk[..first] + part + disk[first + |part|..]
  }

  /** What writing one group changes. */
  lemma WriteStep(disk: seq<Sector>, groups: seq<Group>, i: nat, at: seq<int>, data: seq<Sector>, done: nat)
    requires i < |groups| && done <= |at| && ExpandFrom(groups[i..]) == at[done..]
    requires Within(at, |disk|) && |data| <= |at|
    ensures var g, n := groups[i], |data|; var stop := done + g.numSectors; var m := Cap(stop, n) - Cap(done, n);
      && stop <= |at| && ExpandFrom(groups[i + 1..]) == at[stop..]
      && 0 <= m <= g.numSectors
      && (m > 0 ==> 0 <= g.firstSector && g.firstSector + m <= |disk| && done + m <= n)
      && var before := PutFirst(disk, at, data, Cap(done, n));
         PutFirst(disk, at, data, Cap(stop, n)) == if m > 0 then WriteRun(before, g.firstSector, data[done..done + m])
           else before
  {
    hide ExpandFrom, Range, PutFirst, Within;
    var g := groups[i];
    var m := Cap(done + g.numSectors, |data|) - Cap(done, |data|);
    RangeIsNext(groups, i, at, done);
    if m > 0 {
      PutFirstRun(disk, at, data, done, g.firstSector, g.numSectors, m);
    }
  }

  lemma WriteStarts(disk: seq<Sector>, groups: seq<Group>, at: seq<int>, data: seq<Sector>)
    requires at == Expand(groups) && |data| <= |at| && Within(at, |disk|)
    ensures ExpandFrom(groups[0..]) == at[0..] && PutFirst(disk, at, data, 0) == disk
  {
    ExpandFromIsExpand(groups);
    assert groups[0..] == groups;
  }

  lemma WriteEnds(groups: seq<Group>, at: seq<int>, done: nat, n: nat)
    requires done <= |at| && n <= |at| && ExpandFrom(groups[|groups|..]) == at[done..]
    ensures Cap(done, n) == n
  {
    assert |at[done..]| == 0;
  }

  /** The groups are written one after the other. */
  method WriteGroups(disk: seq<Sector>, groups: seq<Group>, data: seq<Sector>) returns (disk': seq<Sector>)
    requires |data| <= |Expand(groups)| && Within(Expand(groups), |disk|)
    ensures disk' == PutFirst(disk, Expand(groups), data, |data|)
  {
    hide Expand, ExpandFrom, Within, Put, PutFirst, WriteRun;
    ghost var at := Expand(groups);
    WriteStarts(disk, groups, at, data);
    disk' := disk;
    var n := |data|;
    var i, groupOffset := 0, 0;
    while i < |groups|
      invariant 0 <= i <= |groups| && 0 <= groupOffset <= |at|
      invariant ExpandFrom(groups[i..]) == at[groupOffset..]
      invariant disk' == PutFirst(disk, at, data, Cap(groupOffset, n))
    {
      WriteStep(disk, groups, i, at, data, groupOffset);
      var g := groups[i];
      var m := Cap(groupOffset + g.numSectors, n) - Cap(groupOffset, n);
      if m > 0 {
        disk' := WriteRun(disk', g.firstSector, data[groupOffset..groupOffset + m]);
      }
      groupOffset := groupOffset + g.numSectors;
      i := i + 1;
    }
    WriteEnds(groups, at, groupOffset, n);
  }

  lemma {:induction false} PutOutside(disk: seq<Sector>, at: seq<int>, data: seq<Sector>, p: nat)
    requires |at| == |data| && Within(at, |disk|) && p < |disk| && p !in at
    ensures Put(disk, at, data)[p] == disk[p]
  {
    if at != [] {
      var n := |at| - 1;
      PutOutside(disk, at[..n], data[..n], p);
      assert at == at[..n] + [at[n]];
    }
  }

  lemma {:induction false} PutAt(disk: seq<Sector>, at: seq<int>, data: seq<Sector>, k: nat)
    requires |at| == |data| && Within(at, |disk|) && Distinct(at) && k < |at|
    ensures Put(disk, at, data)[at[k]] == data[k]
  {
    var n := |at| - 1;
    if k < n {
      PutAt(disk, at[..n], data[..n], k);
    }
  }

  lemma PutHits(disk: seq<Sector>, all: seq<int>, data: seq<Sector>, k: nat)
    requires k < |data| <= |all| && Within(all, |disk|) && Distinct(all)
    ensures Put(disk, all[..|data|], data)[all[k]] == data[k]
  {
    PutAt(disk, all[..|data|], data, k);
  }

  lemma PutMisses(disk: seq<Sector>, all: seq<int>, data: seq<Sector>, p: nat)
    requires |data| <= |all| && Within(all, |disk|) && p < |disk| && forall j :: 0 <= j < |data| ==> all[j] != p
    ensures Put(disk, all[..|data|], data)[p] == disk[p]
  {
    PutOutside(disk, all[..|data|], data, p);
  }

  // ----- ranges of the chain

  lemma CeilAtMost(x: nat, d: nat, k: int)
    requires d > 0
    ensures (x + d - 1) / d <= k <==> x <= k * d
  {
    var c := (x + d - 1) / d;
    assert x <= c * d < x + d;
    assert c <= k ==> c * d <= k * d;
    assert c > k ==> (c - 1) * d >= k * d;
  }

  /** The clusters needed for a range are there exactly when its last sector is. */
  lemma NeededFits(l: Layout, i: nat, n: nat, clusters: nat)
    requires ValidLayout(l)
    ensures ClustersNeeded(l, i, n) <= clusters <==> i + n <= clusters * l.sectorsPerCluster
  {
    var d := l.sectorsPerCluster;
    CeilAtMost(n + i % d, d, clusters - i / d);
    assert i == (i / d) * d + i % d;
    assert (clusters - i / d) * d == clusters * d - (i / d) * d;
  }

  /** A range needs no cluster before its first one. */
  lemma NeededFromStart(l: Layout, i: nat, n: nat)
    requires ValidLayout(l)
    ensures i / l.sectorsPerCluster <= ClustersNeeded(l, i, n)
    ensures n > 0 ==> i / l.sectorsPerCluster < ClustersNeeded(l, i, n)
  {
    var d := l.sectorsPerCluster;
    CeilAtMost(n + i % d, d, 0);
    CeilAtMost(n + i % d, d, -1);
  }

  function Places(l: Layout, clusters: seq<nat>, i: nat, n: nat): seq<int>
    requires ValidLayout(l) && ClustersNeeded(l, i, n) <= |clusters|
  {
    NeededFromStart(l, i, n);
    Cover(l, clusters, i / l.sectorsPerCluster, ClustersNeeded(l, i, n), i % l.sectorsPerCluster)
  }

  lemma Rows(a: nat, b: nat, c: nat, d: nat)
    requires a <= b <= c
    ensures b * d == a * d + (b - a) * d <= c * d
  {
  }

  lemma PlacesLength(l: Layout, clusters: seq<nat>, i: nat, n: nat)
    requires ValidLayout(l) && ClustersNeeded(l, i, n) <= |clusters|
    ensures n <= |Places(l, clusters, i, n)|
    ensures n > 0 ==> i + |Places(l, clusters, i, n)| <= Length(l, clusters)
  {
    hide Cover, ClustersNeeded;
    var d := l.sectorsPerCluster;
    var start, stop := i / d, ClustersNeeded(l, i, n);
    NeededFromStart(l, i, n);
    CoverLength(l, clusters, start, stop, i % d);
    NeededFits(l, i, n, stop);
    Rows(start, stop, |clusters|, d);
    assert i == start * d + i % d;
  }

  lemma PlaceIsRow(l: Layout, clusters: seq<nat>, i: nat, start: nat, stop: nat, skip: nat, j: nat)
    requires ValidLayout(l) && i == start * l.sectorsPerCluster + skip && start <= stop <= |clusters|
      && skip < l.sectorsPerCluster
    requires j < |Cover(l, clusters, start, stop, skip)|
    ensures (i + j) / l.sectorsPerCluster < |clusters|
    ensures Cover(l, clusters, start, stop, skip)[j] == SectorAt(l, clusters, i + j)
  {
    hide SectorAt, Cover;
    CoverAt(l, clusters, start, stop, skip, j);
  }

  /** The groups built for a range lead to the sectors of the range, in order. */
  lemma PlaceIs(l: Layout, clusters: seq<nat>, i: nat, n: nat, j: nat)
    requires ValidLayout(l) && ClustersNeeded(l, i, n) <= |clusters| && j < |Places(l, clusters, i, n)|
    ensures (i + j) / l.sectorsPerCluster < |clusters|
    ensures Places(l, clusters, i, n)[j] == SectorAt(l, clusters, i + j)
  {
    hide SectorAt, Cover;
    NeededFromStart(l, i, n);
    ModBelow(i, l.sectorsPerCluster);
    PlaceIsRow(l, clusters, i, i / l.sectorsPerCluster, ClustersNeeded(l, i, n), i % l.sectorsPerCluster, j);
  }

  lemma PlacesFine(l: Layout, clusters: seq<nat>, sectors: nat, i: nat, n: nat)
    requires Placed(l, clusters, sectors) && ClustersNeeded(l, i, n) <= |clusters|
    ensures Within(Places(l, clusters, i, n), sectors) && Distinct(Places(l, clusters, i, n))
  {
    hide SectorAt, FirstSectorOfCluster, Places, ClustersNeeded;
    var at := Places(l, clusters, i, n);
    forall j | 0 <= j < |at| ensures 0 <= at[j] < sectors {
      PlaceIs(l, clusters, i, n, j);
      SectorInVolumeAt(l, clusters, sectors, i + j);
    }
    forall j, k | 0 <= j < k < |at| ensures at[j] != at[k] {
      PlaceIs(l, clusters, i, n, j);
      PlaceIs(l, clusters, i, n, k);
      SectorsApart(l, clusters, sectors, i + j, i + k);
    }
  }

  lemma SectorInVolumeAt(l: Layout, clusters: seq<nat>, sectors: nat, s: nat)
    requires Placed(l, clusters, sectors) && s / l.sectorsPerCluster < |clusters|
    ensures 0 <= SectorAt(l, clusters, s) < sectors
  {
    ModBelow(s, l.sectorsPerCluster);
    var c := clusters[s / l.sectorsPerCluster];
    assert (c - 2) * l.sectorsPerCluster >= 0;
  }

  lemma ViewAt(l: Layout, clusters: seq<nat>, disk: seq<Sector>, s: nat)
    requires Placed(l, clusters, |disk|) && s < Length(l, clusters)
    ensures s / l.sectorsPerCluster < |clusters| && 0 <= SectorAt(l, clusters, s) < |disk|
    ensures View(l, clusters, disk)[s] == disk[SectorAt(l, clusters, s)]
  {
    hide FirstSectorOfCluster;
    InChain(l, clusters, s);
    SectorInVolumeAt(l, clusters, |disk|, s);
  }

  lemma NeededInView(l: Layout, clusters: seq<nat>, sectors: nat, i: nat, n: nat)
    requires Placed(l, clusters, sectors) && i + n <= Length(l, clusters)
    ensures ValidLayout(l) && ClustersNeeded(l, i, n) <= |clusters|
  {
    NeededFits(l, i, n, |clusters|);
  }

  /** Reading along the groups gives that part of the chain. */
  lemma PickIsView(l: Layout, clusters: seq<nat>, disk: seq<Sector>, i: nat, n: nat)
    requires Placed(l, clusters, |disk|) && i + n <= Length(l, clusters)
    ensures ClustersNeeded(l, i, n) <= |clusters|
    ensures n <= |Places(l, clusters, i, n)| && Within(Places(l, clusters, i, n), |disk|)
    ensures Pick(disk, Places(l, clusters, i, n)[..n]) == View(l, clusters, disk)[i..i + n]
  {
    hide SectorAt, FirstSectorOfCluster, Places, ClustersNeeded, Length;
    NeededInView(l, clusters, |disk|, i, n);
    PlacesLength(l, clusters, i, n);
    PlacesFine(l, clusters, |disk|, i, n);
    var at := Places(l, clusters, i, n);
    forall j | 0 <= j < n ensures disk[at[j]] == View(l, clusters, disk)[i + j] {
      PlaceIs(l, clusters, i, n, j);
      ViewAt(l, clusters, disk, i + j);
    }
  }

  function Overwrite(v: seq<Sector>, i: nat, data: seq<Sector>): seq<Sector>
    requires i + |data| <= |v|
  {
    v[..i] + data + v[i + |data|..]
  }

  lemma PlacesMiss(l: Layout, clusters: seq<nat>, sectors: nat, i: nat, n: nat, s: nat, j: nat)
    requires Placed(l, clusters, sectors) && ClustersNeeded(l, i, n) <= |clusters|
    requires s / l.sectorsPerCluster < |clusters| && j < |Places(l, clusters, i, n)| && s != i + j
    ensures Places(l, clusters, i, n)[j] != SectorAt(l, clusters, s)
  {
    hide SectorAt, FirstSectorOfCluster, Places, ClustersNeeded;
    PlaceIs(l, clusters, i, n, j);
    SectorsApart(l, clusters, sectors, i + j, s);
  }

  /** The sectors of the chain from the `i`-th on are at the places `all`, and no other one is. */
  ghost predicate Hits(l: Layout, clusters: seq<nat>, all: seq<int>, i: nat, n: nat, s: nat, p: int) {
    && n <= |all|
    && (i <= s < i + n ==> all[s - i] == p)
    && (!(i <= s < i + n) ==> forall j :: 0 <= j < n ==> all[j] != p)
  }

  lemma PlacedLayout(l: Layout, clusters: seq<nat>, sectors: nat)
    requires Placed(l, clusters, sectors)
    ensures ValidLayout(l)
  {
  }

  lemma PlacesHit(l: Layout, clusters: seq<nat>, sectors: nat, i: nat, n: nat, s: nat)
    requires Placed(l, clusters, sectors) && ClustersNeeded(l, i, n) <= |clusters|
    requires n <= |Places(l, clusters, i, n)| && s / l.sectorsPerCluster < |clusters|
    ensures Hits(l, clusters, Places(l, clusters, i, n), i, n, s, SectorAt(l, clusters, s))
  {
    hide SectorAt, FirstSectorOfCluster, Places, ClustersNeeded, Placed;
    PlacedLayout(l, clusters, sectors);
    var all := Places(l, clusters, i, n);
    forall j | 0 <= j < n ensures all[j] == SectorAt(l, clusters, s) <==> i + j == s {
      PlaceIs(l, clusters, i, n, j);
      if i + j != s {
        PlacesMiss(l, clusters, sectors, i, n, s, j);
      }
    }
  }

  /** Where a sector of the chain ends up when part of the chain is written. */
  lemma PutSector(l: Layout, clusters: seq<nat>, disk: seq<Sector>, all: seq<int>, i: nat, data: seq<Sector>, s: nat,
                  p: nat)
    requires Hits(l, clusters, all, i, |data|, s, p) && p < |disk|
    requires Within(all, |disk|) && Distinct(all)
    ensures Put(disk, all[..|data|], data)[p] == if i <= s < i + |data| then data[s - i] else disk[p]
  {
    hide Put;
    if i <= s < i + |data| {
      PutHits(disk, all, data, s - i);
    } else {
      PutMisses(disk, all, data, p);
    }
  }

  /** Writing along the groups overwrites that part of the chain and no other sector of the volume. */
  lemma PutIsOverwrite(l: Layout, clusters: seq<nat>, disk: seq<Sector>, i: nat, data: seq<Sector>)
    requires Placed(l, clusters, |disk|) && i + |data| <= Length(l, clusters)
    ensures var n := |data|;
      && ClustersNeeded(l, i, n) <= |clusters|
      && n <= |Places(l, clusters, i, n)| && Within(Places(l, clusters, i, n), |disk|)
      && var disk' := PutFirst(disk, Places(l, clusters, i, n), data, n);
         && View(l, clusters, disk') == Overwrite(View(l, clusters, disk), i, data)
         && forall p: nat :: p < |disk| && p !in Places(l, clusters, i, n) ==> disk'[p] == disk[p]
  {
    hide SectorAt, FirstSectorOfCluster, Places, ClustersNeeded, Put, Length;
    var n := |data|;
    NeededInView(l, clusters, |disk|, i, n);
    PlacesLength(l, clusters, i, n);
    PlacesFine(l, clusters, |disk|, i, n);
    var all := Places(l, clusters, i, n);
    var disk' := PutFirst(disk, all, data, n);
    assert data[..n] == data;
    OverwrittenView(l, clusters, disk, disk', i, data);
    forall p: nat | p < |disk| && p !in all ensures disk'[p] == disk[p] {
      PutOutside(disk, all[..n], data, p);
    }
  }

  lemma OverwrittenView(l: Layout, clusters: seq<nat>, disk: seq<Sector>, disk': seq<Sector>, i: nat, data: seq<Sector>)
    requires Placed(l, clusters, |disk|) && ClustersNeeded(l, i, |data|) <= |clusters|
      && i + |data| <= Length(l, clusters)
    requires |data| <= |Places(l, clusters, i, |data|)|
    requires Within(Places(l, clusters, i, |data|), |disk|) && Distinct(Places(l, clusters, i, |data|))
    requires disk' == Put(disk, Places(l, clusters, i, |data|)[..|data|], data)
    ensures View(l, clusters, disk') == Overwrite(View(l, clusters, disk), i, data)
  {
    hide SectorAt, FirstSectorOfCluster, Places, ClustersNeeded, Put, Length;
    forall s | 0 <= s < Length(l, clusters)
      ensures View(l, clusters, disk')[s] == Overwrite(View(l, clusters, disk), i, data)[s]
    {
      ViewAt(l, clusters, disk, s);
      ViewAt(l, clusters, disk', s);
      PlacesHit(l, clusters, |disk|, i, |data|, s);
      PutSector(l, clusters, disk, Places(l, clusters, i, |data|), i, data, s, SectorAt(l, clusters, s));
    }
  }

  // ----- the rest of the volume

  /** The sector `p` of the volume belongs to one of the clusters. */
  ghost predicate InClusters(l: Layout, clusters: seq<nat>, p: int) {
    exists c :: c in clusters && FirstSectorOfCluster(l, c) <= p < FirstSectorOfCluster(l, c) + l.sectorsPerCluster
  }

  /** Only sectors of these clusters differ. */
  ghost predicate Untouched(l: Layout, clusters: seq<nat>, disk: seq<Sector>, disk': seq<Sector>) {
    |disk| == |disk'| && forall p: nat :: p < |disk| && !InClusters(l, clusters, p) ==> disk'[p] == disk[p]
  }

  lemma PlacesInClusters(l: Layout, clusters: seq<nat>, disk: seq<Sector>, disk': seq<Sector>, i: nat, n: nat)
    requires ValidLayout(l) && ClustersNeeded(l, i, n) <= |clusters| && |disk| == |disk'|
    requires forall p: nat :: p < |disk| && p !in Places(l, clusters, i, n) ==> disk'[p] == disk[p]
    ensures Untouched(l, clusters, disk, disk')
  {
    hide FirstSectorOfCluster, Places, ClustersNeeded;
    var at := Places(l, clusters, i, n);
    forall j | 0 <= j < |at| ensures InClusters(l, clusters, at[j]) {
      PlaceIs(l, clusters, i, n, j);
      ModBelow(i + j, l.sectorsPerCluster);
      assert clusters[(i + j) / l.sectorsPerCluster] in clusters;
    }
  }

  lemma UntouchedTwice(l: Layout, a: seq<nat>, b: seq<nat>, d0: seq<Sector>, d1: seq<Sector>, d2: seq<Sector>)
    requires Untouched(l, a, d0, d1) && Untouched(l, b, d1, d2) && a <= b
    ensures Untouched(l, b, d0, d2)
  {
    forall p | InClusters(l, a, p) ensures InClusters(l, b, p) {
      var c :| c in a && FirstSectorOfCluster(l, c) <= p < FirstSectorOfCluster(l, c) + l.sectorsPerCluster;
      assert c in b;
    }
  }

  /** A chain that shares no cluster with those written reads as before. */
  lemma OtherViewKept(l: Layout, clusters: seq<nat>, t: seq<nat>, disk: seq<Sector>, disk': seq<Sector>)
    requires Placed(l, t, |disk|) && Untouched(l, clusters, disk, disk')
    requires forall c :: c in clusters ==> c !in t
    ensures View(l, t, disk') == View(l, t, disk)
  {
    hide FirstSectorOfCluster;
    forall s | 0 <= s < Length(l, t) ensures View(l, t, disk')[s] == View(l, t, disk)[s] {
      ViewAt(l, t, disk, s);
      ViewAt(l, t, disk', s);
      var p := SectorAt(l, t, s);
      ModBelow(s, l.sectorsPerCluster);
      if InClusters(l, clusters, p) {
        var c :| c in clusters && FirstSectorOfCluster(l, c) <= p < FirstSectorOfCluster(l, c) + l.sectorsPerCluster;
        PlacesApart(l, c, p - FirstSectorOfCluster(l, c), t[s / l.sectorsPerCluster], s % l.sectorsPerCluster);
      }
    }
  }
}
