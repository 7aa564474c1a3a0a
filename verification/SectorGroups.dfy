/**
 Turning a range of sectors of a cluster chain into runs of sectors of the volume, and
 transferring data along such runs.
 */
module SectorGroups {
  import opened Basics

  datatype Layout = Layout(sectorsPerCluster: nat, firstDataSector: nat)

  predicate ValidLayout(l: Layout) {
    l.sectorsPerCluster > 0
  }

  function FirstSectorOfCluster(l: Layout, c: int): int {
    l.firstDataSector + (c - 2) * l.sectorsPerCluster
  }

  /** The sector of the volume that holds the `s`-th sector of the chain. */
  function SectorAt(l: Layout, clusters: seq<nat>, s: nat): int
    requires ValidLayout(l) && s / l.sectorsPerCluster < |clusters|
  {
    FirstSectorOfCluster(l, clusters[s / l.sectorsPerCluster]) + s % l.sectorsPerCluster
  }

  datatype Group = Group(nextCluster: int, firstSector: int, numSectors: nat)

  function Range(first: int, n: nat): seq<int> {
    seq(n, k => first + k)
  }

  /** The sectors a list of groups stands for, in order. */
  function Expand(groups: seq<Group>): seq<int> {
    if groups == [] then []
    else
      var last := groups[|groups| - 1];
      Expand(groups[..|groups| - 1]) + Range(last.firstSector, last.numSectors)
  }

  /** The sectors of the clusters `start` to `stop`, without the first `skip` ones. */
  function Cover(l: Layout, clusters: seq<nat>, start: nat, stop: nat, skip: nat): seq<int>
    requires start <= stop <= |clusters| && skip <= l.sectorsPerCluster
    decreases stop
  {
    if start == stop then []
    else
      var s := if stop - 1 == start then skip else 0;
      Cover(l, clusters, start, stop - 1, skip)
        + Range(FirstSectorOfCluster(l, clusters[stop - 1]) + s, l.sectorsPerCluster - s)
  }

  // ----- arithmetic

  lemma DivMod(q: nat, r: nat, d: nat)
    requires r < d
    ensures (q * d + r) / d == q && (q * d + r) % d == r
  {
    var n := q * d + r;
    assert n == (n / d) * d + n % d;
    var k := n / d;
    assert k < q ==> (k + 1) * d <= q * d;
    assert k > q ==> (q + 1) * d <= k * d;
  }

  lemma NextCluster(l: Layout, c: int)
    ensures FirstSectorOfCluster(l, c + 1) == FirstSectorOfCluster(l, c) + l.sectorsPerCluster
  {
    assert (c + 1 - 2) * l.sectorsPerCluster == (c - 2) * l.sectorsPerCluster + l.sectorsPerCluster;
  }

  /** Clusters do not overlap. */
  lemma ClustersApart(l: Layout, c: int, d: int)
    requires c < d
    ensures FirstSectorOfCluster(l, c) + l.sectorsPerCluster <= FirstSectorOfCluster(l, d)
  {
    assert (c - 2 + 1) * l.sectorsPerCluster <= (d - 2) * l.sectorsPerCluster;
  }

  // ----- the data area of the volume

  /** `s` is the sector number `r` of the cluster `c`. */
  predicate IsSectorOf(l: Layout, s: int, c: int, r: int) {
    0 <= r < l.sectorsPerCluster && s == FirstSectorOfCluster(l, c) + r
  }

  /** The data area starts with cluster 2. */
  lemma DataStartsWithClusterTwo(l: Layout)
    ensures FirstSectorOfCluster(l, 2) == l.firstDataSector
  {
  }

  /** A sector is in the data area exactly if it is one of a cluster from 2 on. */
  lemma DataSectorIff(l: Layout, s: int)
    requires ValidLayout(l)
    ensures l.firstDataSector <= s <==> exists c, r :: 2 <= c && IsSectorOf(l, s, c, r)
  {
    hide FirstSectorOfCluster;
    DataStartsWithClusterTwo(l);
    if l.firstDataSector <= s {
      var n, d := s - l.firstDataSector, l.sectorsPerCluster;
      ClusterAfter(l, n / d);
      assert n == n / d * d + n % d;
      assert IsSectorOf(l, s, n / d + 2, n % d);
    }
    if c, r :| 2 <= c && IsSectorOf(l, s, c, r) {
      if c > 2 {
        ClustersApart(l, 2, c);
      }
    }
  }

  lemma {:induction false} ClusterAfter(l: Layout, k: nat)
    ensures FirstSectorOfCluster(l, k + 2) == l.firstDataSector + k * l.sectorsPerCluster
  {
    DataStartsWithClusterTwo(l);
    if k > 0 {
      ClusterAfter(l, k - 1);
      NextCluster(l, k + 1);
      assert k * l.sectorsPerCluster == (k - 1) * l.sectorsPerCluster + l.sectorsPerCluster;
    }
  }

  /** ... and of no other. */
  lemma SectorOfOneCluster(l: Layout, s: int, c: int, r: int, d: int, q: int)
    requires IsSectorOf(l, s, c, r) && IsSectorOf(l, s, d, q)
    ensures c == d && r == q
  {
    hide FirstSectorOfCluster;
    if c < d {
      ClustersApart(l, c, d);
    } else if d < c {
      ClustersApart(l, d, c);
    }
  }

  // ----- the runs

  lemma CoverLength(l: Layout, clusters: seq<nat>, start: nat, stop: nat, skip: nat)
    requires start <= stop <= |clusters| && skip <= l.sectorsPerCluster
    ensures |Cover(l, clusters, start, stop, skip)| == if start == stop then 0
      else (stop - start) * l.sectorsPerCluster - skip
    decreases stop
  {
    if start < stop {
      CoverLength(l, clusters, start, stop - 1, skip);
      assert (stop - start) * l.sectorsPerCluster == (stop - 1 - start) * l.sectorsPerCluster + l.sectorsPerCluster;
    }
  }

  lemma RowIndex(start: nat, last: nat, spc: nat, skip: nat, j: nat, shorter: nat)
    requires start <= last && shorter == (if start == last then 0 else (last - start) * spc - skip) && shorter <= j
    ensures start * spc + skip + j == last * spc + (if start == last then skip else 0) + (j - shorter)
  {
    assert last * spc == start * spc + (last - start) * spc;
  }

  /** Each sector of the range once, in order, where the chain puts it on the volume. */
  lemma {:induction false} CoverAt(l: Layout, clusters: seq<nat>, start: nat, stop: nat, skip: nat, j: nat)
    requires ValidLayout(l) && start <= stop <= |clusters| && skip < l.sectorsPerCluster
    requires j < |Cover(l, clusters, start, stop, skip)|
    ensures var s := start * l.sectorsPerCluster + skip + j;
      && s / l.sectorsPerCluster < |clusters|
      && Cover(l, clusters, start, stop, skip)[j] == SectorAt(l, clusters, s)
      && IsSectorOf(l, Cover(l, clusters, start, stop, skip)[j], clusters[s / l.sectorsPerCluster],
           s % l.sectorsPerCluster)
    decreases stop
  {
    hide FirstSectorOfCluster;
    var shorter := Cover(l, clusters, start, stop - 1, skip);
    if j < |shorter| {
      CoverAt(l, clusters, start, stop - 1, skip, j);
    } else {
      CoverLength(l, clusters, start, stop - 1, skip);
      var r := (if stop - 1 == start then skip else 0) + (j - |shorter|);
      RowIndex(start, stop - 1, l.sectorsPerCluster, skip, j, |shorter|);
      DivMod(stop - 1, r, l.sectorsPerCluster);
    }
  }

  lemma ExpandMore(groups: seq<Group>, g: Group)
    ensures Expand(groups + [g]) == Expand(groups) + Range(g.firstSector, g.numSectors)
  {
    assert (groups + [g])[..|groups|] == groups;
  }

  lemma RangeMore(first: int, n: nat, m: nat)
    ensures Range(first, n) + Range(first + n, m) == Range(first, n + m)
  {
  }

  /** A run always ends where the cluster it expects next begins. */
  ghost predicate RunEnds(l: Layout, g: Group) {
    g.firstSector + g.numSectors == FirstSectorOfCluster(l, g.nextCluster)
  }

  /** No two successive groups could have been one. */
  ghost predicate Maximal(groups: seq<Group>) {
    forall i :: 0 < i < |groups| ==> groups[i].firstSector != groups[i - 1].firstSector + groups[i - 1].numSectors
  }

  /** The range of clusters a range of sectors needs. */
  function ClustersNeeded(l: Layout, sectorIdx: nat, numSectors: nat): nat
    requires ValidLayout(l)
  {
    var offset := sectorIdx % l.sectorsPerCluster;
    sectorIdx / l.sectorsPerCluster + (numSectors + offset + l.sectorsPerCluster - 1) / l.sectorsPerCluster
  }

  function RunAt(l: Layout, c: nat, offset: nat): Group
    requires offset <= l.sectorsPerCluster
  {
    Group(c + 1, FirstSectorOfCluster(l, c) + offset, l.sectorsPerCluster - offset)
  }

  lemma NewRun(l: Layout, clusters: seq<nat>, start: nat, i: nat, skip: nat, groups: seq<Group>)
    requires ValidLayout(l) && start <= i < |clusters| && skip < l.sectorsPerCluster
    requires Expand(groups) == Cover(l, clusters, start, i, skip) && Maximal(groups)
    requires groups == []
      || (RunEnds(l, groups[|groups| - 1]) && groups[|groups| - 1].nextCluster != clusters[i] && start < i)
    ensures var g := RunAt(l, clusters[i], if i == start then skip else 0);
      && Expand(groups + [g]) == Cover(l, clusters, start, i + 1, skip)
      && Maximal(groups + [g])
      && RunEnds(l, g)
  {
    hide FirstSectorOfCluster, Expand;
    ExpandMore(groups, RunAt(l, clusters[i], if i == start then skip else 0));
    NextCluster(l, clusters[i]);
    if groups != [] {
      RunBreaks(l, groups[|groups| - 1], clusters[i]);
    }
  }

  lemma LongerRunCovers(l: Layout, clusters: seq<nat>, start: nat, i: nat, skip: nat, groups: seq<Group>, g: Group)
    requires ValidLayout(l) && start < i < |clusters| && skip < l.sectorsPerCluster
    requires Expand(groups + [g]) == Cover(l, clusters, start, i, skip) && RunEnds(l, g) && g.nextCluster == clusters[i]
    ensures Expand(groups + [Longer(l, g)]) == Cover(l, clusters, start, i + 1, skip)
  {
    hide FirstSectorOfCluster, Expand, Range;
    ExpandMore(groups, g);
    ExpandMore(groups, Longer(l, g));
    RangeMore(g.firstSector, g.numSectors, l.sectorsPerCluster);
    var a, b, c := Expand(groups), Range(g.firstSector, g.numSectors),
      Range(g.firstSector + g.numSectors, l.sectorsPerCluster);
    assert a + (b + c) == a + b + c;
  }

  /** A group with one more cluster. */
  function Longer(l: Layout, g: Group): Group {
    Group(g.nextCluster + 1, g.firstSector, g.numSectors + l.sectorsPerCluster)
  }

  lemma LongerRun(l: Layout, clusters: seq<nat>, start: nat, i: nat, skip: nat, groups: seq<Group>, g: Group)
    requires ValidLayout(l) && start < i < |clusters| && skip < l.sectorsPerCluster
    requires Expand(groups + [g]) == Cover(l, clusters, start, i, skip) && Maximal(groups + [g])
    requires RunEnds(l, g) && g.nextCluster == clusters[i]
    ensures Expand(groups + [Longer(l, g)]) == Cover(l, clusters, start, i + 1, skip)
    ensures Maximal(groups + [Longer(l, g)]) && RunEnds(l, Longer(l, g))
  {
    hide FirstSectorOfCluster, Expand, Cover, Range;
    LongerRunCovers(l, clusters, start, i, skip, groups, g);
    NextCluster(l, clusters[i]);
    var was, now := groups + [g], groups + [Longer(l, g)];
    forall k | 0 < k < |now| ensures now[k].firstSector != now[k - 1].firstSector + now[k - 1].numSectors {
      assert was[k].firstSector == now[k].firstSector && was[k - 1] == now[k - 1];
    }
  }

  /** The groups cover the clusters before `i`; only the pending one can still grow. */
  ghost predicate Built(l: Layout, clusters: seq<nat>, start: nat, i: nat, skip: nat, groups: seq<Group>,
                        pending: Option<Group>)
    requires start <= i <= |clusters| && skip <= l.sectorsPerCluster
  {
    var all := if pending.Some? then groups + [pending.value] else groups;
    && Expand(all) == Cover(l, clusters, start, i, skip)
    && Maximal(all)
    && (pending.Some? ==> RunEnds(l, pending.value))
    && if i == start then pending.None? && groups == [] else pending.Some?
  }

  lemma BuiltNewRun(l: Layout, clusters: seq<nat>, start: nat, i: nat, skip: nat, groups: seq<Group>,
                    pending: Option<Group>)
    requires ValidLayout(l) && start <= i < |clusters| && skip < l.sectorsPerCluster
    requires Built(l, clusters, start, i, skip, groups, pending)
    requires pending.Some? ==> clusters[i] != pending.value.nextCluster
    ensures Built(l, clusters, start, i + 1, skip, if pending.Some? then groups + [pending.value] else groups,
                  Some(RunAt(l, clusters[i], if i == start then skip else 0)))
  {
    hide Expand, Cover, FirstSectorOfCluster, Maximal, RunEnds, RunAt;
    NewRun(l, clusters, start, i, skip, if pending.Some? then groups + [pending.value] else groups);
  }

  lemma BuiltLongerRun(l: Layout, clusters: seq<nat>, start: nat, i: nat, skip: nat, groups: seq<Group>, g: Group)
    requires ValidLayout(l) && start <= i < |clusters| && skip < l.sectorsPerCluster
    requires Built(l, clusters, start, i, skip, groups, Some(g)) && clusters[i] == g.nextCluster
    ensures Built(l, clusters, start, i + 1, skip, groups,
                  Some(Longer(l, g)))
  {
    hide Expand, Cover, FirstSectorOfCluster, Maximal, RunEnds;
    LongerRun(l, clusters, start, i, skip, groups, g);
  }

  /** The inner `_determineSectorGroups`: successive clusters that are neighbours on the volume make one group. */
  method BuildGroups(l: Layout, clusters: seq<nat>, clusterIdx: nat, chainLength: nat, skip: nat)
      returns (groups: seq<Group>, complete: bool)
    requires ValidLayout(l) && clusterIdx <= |clusters| && clusterIdx <= chainLength && skip < l.sectorsPerCluster
    ensures complete <==> chainLength <= |clusters|
    ensures Expand(groups) == Cover(l, clusters, clusterIdx, if complete then chainLength else |clusters|, skip)
    ensures Maximal(groups)
  {
    hide Expand, Cover, Maximal, RunAt, FirstSectorOfCluster, RunEnds, Built;
    var sectorOffset := skip;
    groups := [];
    var group: Option<Group> := None;
    var i := clusterIdx;
    BuiltNothing(l, clusters, clusterIdx, skip);
    while i < chainLength && i < |clusters|
      invariant clusterIdx <= i <= |clusters| && i <= chainLength
      invariant sectorOffset == if i == clusterIdx then skip else 0
      invariant Built(l, clusters, clusterIdx, i, skip, groups, group)
    {
      groups, group := AddCluster(l, clusters, clusterIdx, i, skip, sectorOffset, groups, group);
      sectorOffset := 0;
      i := i + 1;
    }
    BuiltAll(l, clusters, clusterIdx, i, skip, groups, group);
    if group.Some? {
      groups := groups + [group.value];
    }
    complete := i == chainLength;
  }

  /** One turn of its loop. */
  method AddCluster(l: Layout, clusters: seq<nat>, ghost start: nat, i: nat, ghost skip: nat, sectorOffset: nat,
                    groups: seq<Group>, pending: Option<Group>) returns (groups': seq<Group>, pending': Option<Group>)
    requires ValidLayout(l) && start <= i < |clusters| && skip < l.sectorsPerCluster
    requires sectorOffset == if i == start then skip else 0
    requires Built(l, clusters, start, i, skip, groups, pending)
    ensures Built(l, clusters, start, i + 1, skip, groups', pending')
  {
    hide Expand, Cover, Maximal, FirstSectorOfCluster, RunEnds, Built;
    var c := clusters[i];
    if pending.Some? && c == pending.value.nextCluster {
      BuiltLongerRun(l, clusters, start, i, skip, groups, pending.value);
      groups' := groups;
      pending' := Some(Longer(l, pending.value));
    } else {
      BuiltNewRun(l, clusters, start, i, skip, groups, pending);
      groups' := if pending.Some? then groups + [pending.value] else groups;
      pending' := Some(RunAt(l, c, sectorOffset));
    }
  }

  lemma BuiltNothing(l: Layout, clusters: seq<nat>, start: nat, skip: nat)
    requires start <= |clusters| && skip <= l.sectorsPerCluster
    ensures Built(l, clusters, start, start, skip, [], None)
  {
  }

  lemma BuiltAll(l: Layout, clusters: seq<nat>, start: nat, i: nat, skip: nat, groups: seq<Group>,
                 pending: Option<Group>)
    requires start <= i <= |clusters| && skip <= l.sectorsPerCluster
    requires Built(l, clusters, start, i, skip, groups, pending)
    ensures var all := if pending.Some? then groups + [pending.value] else groups;
      Expand(all) == Cover(l, clusters, start, i, skip) && Maximal(all)
  {
  }

  lemma RunBreaks(l: Layout, g: Group, c: int)
    requires ValidLayout(l) && RunEnds(l, g) && c != g.nextCluster
    ensures g.firstSector + g.numSectors != FirstSectorOfCluster(l, c)
  {
    if c < g.nextCluster {
      ClustersApart(l, c, g.nextCluster);
    } else {
      ClustersApart(l, g.nextCluster, c);
    }
  }
}
