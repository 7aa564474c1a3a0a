/**
 Cluster chains in the file allocation table: walking them, and growing them one cluster
 at a time while the table stays well formed.
 */
module FatChains {

  /** What `fetchFromFAT` reports for an entry. */
  datatype Status = Free | Eof | Bad | Reserved | Invalid | Link(next: nat)

  type Fat = seq<Status>

  /** An element of the cache of a chain, or the error met on the way to it. */
  datatype Cell = Cluster(n: nat) | End | Failed

  // ----- what an entry of the table can say

  datatype FatType = Fat12 | Fat16 | Fat32

  /** The type of a volume follows from the number of its clusters. */
  function TypeFor(clusterCount: nat): FatType {
    if clusterCount < 4085 then Fat12 else if clusterCount < 65525 then Fat16 else Fat32
  }

  function Prefix(ty: FatType): nat {
    match ty
    case Fat12 => 0xF00
    case Fat16 => 0xFF00
    case Fat32 => 0x0FFFFF00
  }

  /** What `fetchFromFAT` makes of a value. */
  function Decode(ty: FatType, value: nat): Status {
    if value == 0 then Free
    else if value == 1 then Invalid
    else if value > Prefix(ty) + 0xF8 then Eof
    else if value == Prefix(ty) + 0xF7 then Bad
    else if value > Prefix(ty) + 0xF0 then Reserved
    else Link(value)
  }

  /** What a number stored in an entry is read back as: 28 bits of it count. */
  function ReadBack(ty: FatType, value: nat): Status {
    Decode(ty, value % 0x1000_0000)
  }

  /** The numbers of clusters that a link can hold. */
  predicate Linkable(ty: FatType, n: nat) {
    2 <= n <= Prefix(ty) + 0xF0
  }

  lemma LinkableIff(ty: FatType, n: nat)
    ensures ReadBack(ty, n) == Link(n) <==> Linkable(ty, n)
  {
  }

  // ----- chains on values

  function After(fat: Fat, c: nat): Cell {
    if c >= |fat| then Failed
    else match fat[c]
      case Link(next) => Cluster(next)
      case Eof => End
      case _ => Failed
  }

  /** The `i`-th element of the chain that starts at cluster `c`; past the end it is End. */
  function Walk(fat: Fat, c: nat, i: nat): Cell
    decreases i
  {
    if i == 0 then Cluster(c)
    else match After(fat, c)
      case Cluster(next) => Walk(fat, next, i - 1)
      case other => other
  }

  lemma {:induction false} WalkOneMore(fat: Fat, c: nat, i: nat)
    ensures Walk(fat, c, i + 1) ==
      match Walk(fat, c, i)
      case Cluster(n) => After(fat, n)
      case other => other
    decreases i
  {
    if i > 0 && After(fat, c).Cluster? {
      WalkOneMore(fat, After(fat, c).n, i - 1);
    }
  }

  predicate Follows(fat: Fat, s: seq<nat>, i: nat)
    requires i + 1 < |s|
  {
    s[i] < |fat| && fat[s[i]] == Link(s[i + 1])
  }

  /** `s` is a whole chain: each cluster links to the next, and the last one is marked eof. */
  ghost predicate IsChain(fat: Fat, s: seq<nat>) {
    && s != []
    && (forall i :: 0 <= i < |s| ==> s[i] < |fat|)
    && (forall i: nat :: i + 1 < |s| ==> Follows(fat, s, i))
    && fat[s[|s| - 1]] == Eof
  }

  predicate Allocated(fat: Fat, c: nat) {
    c < |fat| && (fat[c].Link? || fat[c].Eof?)
  }

  ghost predicate Ends(fat: Fat, c: nat) {
    exists s :: IsChain(fat, s) && s[0] == c
  }

  ghost predicate LinksAreAllocated(fat: Fat) {
    forall c :: 0 <= c < |fat| && fat[c].Link? ==> 2 <= fat[c].next && Allocated(fat, fat[c].next)
  }

  ghost predicate LinksAreInjective(fat: Fat) {
    forall c, d :: 0 <= c < |fat| && 0 <= d < |fat| && fat[c].Link? && fat[d] == fat[c] ==> c == d
  }

  ghost predicate ChainsEnd(fat: Fat) {
    forall c :: Allocated(fat, c) ==> Ends(fat, c)
  }

  /** Links lead to allocated clusters, numbered from 2 on, no two to the same one, and every chain ends. */
  ghost predicate WellFormed(fat: Fat) {
    LinksAreAllocated(fat) && LinksAreInjective(fat) && ChainsEnd(fat)
  }

  lemma ChainTail(fat: Fat, s: seq<nat>, k: nat)
    requires IsChain(fat, s) && k < |s|
    ensures IsChain(fat, s[k..])
  {
    forall i: nat | i + 1 < |s[k..]| ensures Follows(fat, s[k..], i) {
      assert Follows(fat, s, k + i);
    }
  }

  /** A chain is determined by its first cluster. */
  lemma {:induction false} ChainIsUnique(fat: Fat, s: seq<nat>, t: seq<nat>)
    requires IsChain(fat, s) && IsChain(fat, t) && s[0] == t[0]
    ensures s == t
  {
    assert |s| > 1 ==> Follows(fat, s, 0);
    assert |t| > 1 ==> Follows(fat, t, 0);
    if |s| > 1 && |t| > 1 {
      ChainTail(fat, s, 1);
      ChainTail(fat, t, 1);
      ChainIsUnique(fat, s[1..], t[1..]);
      assert s == [s[0]] + s[1..] && t == [t[0]] + t[1..];
    } else {
      assert |s| == |t| == 1;
    }
  }

  /** No cluster occurs twice in a chain: chains are acyclic. */
  lemma ChainIsAcyclic(fat: Fat, s: seq<nat>, i: nat, j: nat)
    requires IsChain(fat, s) && i < j < |s|
    ensures s[i] != s[j]
  {
    if s[i] == s[j] {
      ChainTail(fat, s, i);
      ChainTail(fat, s, j);
      ChainIsUnique(fat, s[i..], s[j..]);
    }
  }

  ghost predicate IsHead(fat: Fat, c: nat) {
    Allocated(fat, c) && forall d :: 0 <= d < |fat| ==> fat[d] != Link(c)
  }

  /** Two chains that start at different heads have no cluster in common. */
  lemma {:induction false} ChainsAreDisjoint(fat: Fat, s: seq<nat>, t: seq<nat>, i: nat, j: nat)
    requires WellFormed(fat) && IsChain(fat, s) && IsChain(fat, t)
    requires IsHead(fat, s[0]) && IsHead(fat, t[0]) && s[0] != t[0]
    requires i < |s| && j < |t|
    ensures s[i] != t[j]
    decreases i
  {
    hide LinksAreAllocated, ChainsEnd;
    assert i > 0 ==> Follows(fat, s, i - 1);
    assert j > 0 ==> Follows(fat, t, j - 1);
    if s[i] == t[j] && i > 0 && j > 0 {
      ChainsAreDisjoint(fat, s, t, i - 1, j - 1);
    }
  }

  /** Walking along a chain meets its clusters, then the end. */
  lemma {:induction false} WalkFollowsChain(fat: Fat, s: seq<nat>, i: nat)
    requires IsChain(fat, s)
    ensures Walk(fat, s[0], i) == if i < |s| then Cluster(s[i]) else End
  {
    if i > 0 && |s| > 1 {
      ChainTail(fat, s, 1);
      WalkFollowsChain(fat, s[1..], i - 1);
      assert Follows(fat, s, 0);
    } else if i > 0 {
      assert fat[s[0]] == Eof;
    }
  }

  // ----- the two steps that add a cluster, first with a link that reads back

  function Marked(fat: Fat, added: nat): (fat': Fat)
    requires added < |fat|
    ensures |fat'| == |fat|
  {
    fat[added := Eof]
  }

  function Linked(fat: Fat, last: nat, added: nat): Fat
    requires last < |fat| && added < |fat|
  {
    Marked(fat, added)[last := Link(added)]
  }

  /** Marking a free cluster does not touch any chain. */
  lemma MarkedKeepsChain(fat: Fat, added: nat, s: seq<nat>)
    requires IsChain(fat, s) && added < |fat| && fat[added] == Free
    ensures IsChain(Marked(fat, added), s) && added !in s
  {
    forall i | 0 <= i < |s| ensures s[i] != added {
      if i + 1 < |s| {
        assert Follows(fat, s, i);
      }
    }
    forall i: nat | i + 1 < |s| ensures Follows(Marked(fat, added), s, i) {
      assert Follows(fat, s, i);
    }
  }

  /** ... nor any cache. */
  lemma MarkedKeepsCache(fat: Fat, added: nat, s: seq<nat>, cache: seq<Cell>)
    requires IsChain(fat, s) && CacheAgrees(fat, s[0], cache) && added < |fat| && fat[added] == Free
    ensures CacheAgrees(Marked(fat, added), s[0], cache)
  {
    MarkedKeepsChain(fat, added, s);
    forall i | 0 <= i < |cache| ensures cache[i] == Walk(Marked(fat, added), s[0], i) {
      WalkFollowsChain(fat, s, i);
      WalkFollowsChain(Marked(fat, added), s, i);
    }
  }

  lemma MarkedIsChain(fat: Fat, added: nat)
    requires added < |fat|
    ensures IsChain(Marked(fat, added), [added])
  {
  }

  lemma MarkedIsWellFormed(fat: Fat, added: nat)
    requires WellFormed(fat) && added < |fat| && fat[added] == Free
    ensures WellFormed(Marked(fat, added)) && IsHead(Marked(fat, added), added)
  {
    var fat' := Marked(fat, added);
    forall c | Allocated(fat', c) ensures Ends(fat', c) {
      if c == added {
        assert IsChain(fat', [added]);
      } else {
        assert Ends(fat, c);
        var s :| IsChain(fat, s) && s[0] == c;
        MarkedKeepsChain(fat, added, s);
      }
    }
  }

  /** Linking lengthens the chain that ended at `last` and leaves the others alone. */
  lemma LinkedChain(fat: Fat, last: nat, added: nat, s: seq<nat>)
    requires IsChain(fat, s) && last < |fat| && fat[last] == Eof && added < |fat| && fat[added] == Free
    ensures IsChain(Linked(fat, last, added), if s[|s| - 1] == last then s + [added] else s)
  {
    var fat' := Linked(fat, last, added);
    MarkedKeepsChain(fat, added, s);
    forall i | 0 <= i < |s| ensures s[i] != added && fat'[s[i]] == if s[i] == last then Link(added) else fat[s[i]] {
      assert s[i] in s;
    }
    var s' := if s[|s| - 1] == last then s + [added] else s;
    forall i: nat | i + 1 < |s'| ensures Follows(fat', s', i) {
      if i + 1 < |s| {
        assert Follows(fat, s, i);
      }
    }
  }

  lemma LinkedIsWellFormed(fat: Fat, last: nat, added: nat)
    requires WellFormed(fat) && last < |fat| && fat[last] == Eof && 2 <= added < |fat| && fat[added] == Free
    ensures WellFormed(Linked(fat, last, added))
  {
    var fat' := Linked(fat, last, added);
    forall c | 0 <= c < |fat'| && fat'[c].Link?
      ensures 2 <= fat'[c].next && Allocated(fat', fat'[c].next)
    {
      assert c != last ==> Allocated(fat, fat[c].next);
    }
    forall c | Allocated(fat', c) ensures Ends(fat', c) {
      if c == added {
        assert IsChain(fat', [added]);
      } else {
        assert Allocated(fat, c) && Ends(fat, c);
        var s :| IsChain(fat, s) && s[0] == c;
        LinkedChain(fat, last, added, s);
      }
    }
    forall c, d | 0 <= c < |fat'| && 0 <= d < |fat'| && fat'[c].Link? && fat'[d] == fat'[c] ensures c == d {
      assert c != last ==> Allocated(fat, fat[c].next);
      assert d != last ==> Allocated(fat, fat[d].next);
    }
  }

  // ----- the link as the table can hold it

  /** The table after `added` has been marked as an end and its number stored at `last`. */
  function Appended(ty: FatType, fat: Fat, last: nat, added: nat): Fat
    requires last < |fat| && added < |fat|
  {
    Marked(fat, added)[last := ReadBack(ty, added)]
  }

  lemma AppendedIsLinkedIff(ty: FatType, fat: Fat, last: nat, added: nat)
    requires last < |fat| && added < |fat|
    ensures Appended(ty, fat, last, added) == Linked(fat, last, added) <==> Linkable(ty, added)
  {
    LinkableIff(ty, added);
    assert Appended(ty, fat, last, added)[last] == ReadBack(ty, added);
    assert Linked(fat, last, added)[last] == Link(added);
  }

  /** The chain that ended at `last` goes on to the new cluster exactly if a link can hold its number. */
  lemma AppendedChainIff(ty: FatType, fat: Fat, s: seq<nat>, added: nat)
    requires IsChain(fat, s) && added < |fat| && fat[added] == Free
    ensures IsChain(Appended(ty, fat, s[|s| - 1], added), s + [added]) <==> Linkable(ty, added)
  {
    var last := s[|s| - 1];
    var fat' := Appended(ty, fat, last, added);
    LinkableIff(ty, added);
    AppendedIsLinkedIff(ty, fat, last, added);
    if Linkable(ty, added) {
      LinkedChain(fat, last, added, s);
    } else {
      assert !Follows(fat', s + [added], |s| - 1);
    }
  }

  /** One cluster can be added behind `last` with the search of a volume of that many clusters. */
  ghost predicate CanAppend(clusterCount: nat, fat: Fat, last: nat, added: nat) {
    && clusterCount <= |fat| && WellFormed(fat)
    && 2 <= last <= added < clusterCount && fat[last] == Eof && fat[added] == Free
    && forall k :: last <= k < added ==> fat[k] != Free
  }

  /** Growing chains keeps every table of a volume well formed. */
  ghost predicate GrowthIsSafe(clusterCount: nat) {
    forall fat, last, added ::
      CanAppend(clusterCount, fat, last, added) ==> WellFormed(Appended(TypeFor(clusterCount), fat, last, added))
  }

  /** A table with the chain 2, 3 and one free cluster, the first whose number no link can hold. */
  function TopHeavy(clusterCount: nat): Fat {
    seq(clusterCount, i =>
      if i == 2 then Link(3) else if i == 3 then Eof
      else if i == Prefix(TypeFor(clusterCount)) + 0xF1 then Free else Bad)
  }

  /**
   The only free cluster is found and marked, but the link to it reads as reserved: the file 2, 3
   cannot be read any more.
   */
  lemma TopClusterIsLost(clusterCount: nat)
    requires clusterCount > Prefix(TypeFor(clusterCount)) + 0xF1
    ensures var ty, fat, added := TypeFor(clusterCount), TopHeavy(clusterCount), Prefix(TypeFor(clusterCount)) + 0xF1;
      && CanAppend(clusterCount, fat, 3, added) && IsChain(fat, [2, 3])
      && Appended(ty, fat, 3, added)[3] == Reserved && Walk(Appended(ty, fat, 3, added), 2, 2) == Failed
      && !WellFormed(Appended(ty, fat, 3, added))
  {
    var fat := TopHeavy(clusterCount);
    assert IsChain(fat, [2, 3]) && IsChain(fat, [3]) by {
      assert Follows(fat, [2, 3], 0);
    }
    assert WellFormed(fat) by {
      assert forall c :: 0 <= c < |fat| && fat[c].Link? ==> c == 2;
      assert Ends(fat, 2) && Ends(fat, 3);
      assert forall c :: Allocated(fat, c) ==> c == 2 || c == 3;
    }
    var ty, added := TypeFor(clusterCount), Prefix(TypeFor(clusterCount)) + 0xF1;
    var fat' := Appended(ty, fat, 3, added);
    assert fat'[3] == Reserved && fat'[2] == Link(3);
    assert After(fat', 2) == Cluster(3) && After(fat', 3) == Failed;
    assert Walk(fat', 3, 1) == Failed;
    assert !Allocated(fat', fat'[2].next);
  }

  /**
   The volumes on which growing is safe: all but those of 4082 to 4084 clusters, of 65522 to
   65524, and of more than 0x0FFFFFF1.
   */
  lemma GrowthIsSafeIff(clusterCount: nat)
    ensures GrowthIsSafe(clusterCount) <==> clusterCount <= Prefix(TypeFor(clusterCount)) + 0xF1
    ensures GrowthIsSafe(clusterCount)
       <==> !(4082 <= clusterCount < 4085 || 65522 <= clusterCount < 65525 || clusterCount > 0x0FFFFFF1)
  {
    hide WellFormed, IsChain;
    var ty := TypeFor(clusterCount);
    if clusterCount <= Prefix(ty) + 0xF1 {
      forall fat, last, added | CanAppend(clusterCount, fat, last, added)
        ensures WellFormed(Appended(ty, fat, last, added))
      {
        LinkedIsWellFormed(fat, last, added);
        AppendedIsLinkedIff(ty, fat, last, added);
      }
    } else {
      TopClusterIsLost(clusterCount);
    }
  }

  // ----- the volume and the chains open on it

  /** The part of a volume the chains work on: `storeToFAT`, `fetchFromFAT` and the search for free clusters. */
  class Volume {
    const clusterCount: nat
    var fat: Fat

    function Type(): FatType {
      TypeFor(clusterCount)
    }

    /** The volumes of `GrowthIsSafeIff`. */
    predicate LinksReadBack() {
      clusterCount <= Prefix(Type()) + 0xF1
    }

    lemma LinksReadBackIff()
      ensures LinksReadBack() <==> GrowthIsSafe(clusterCount)
    {
      GrowthIsSafeIff(clusterCount);
    }

    constructor (fat: Fat, clusterCount: nat)
      requires clusterCount <= |fat|
      ensures this.fat == fat && this.clusterCount == clusterCount && (WellFormed(fat) ==> Valid())
    {
      this.fat := fat;
      this.clusterCount := clusterCount;
    }

    ghost predicate Valid()
      reads this
    {
      clusterCount <= |fat| && WellFormed(fat)
    }

    /** The first free cluster from the hint on is marked as the end of a chain of its own; None when there is none. */
    method AllocateInFAT(hint: nat) returns (r: Cell)
      requires clusterCount <= |fat|
      modifies this
      ensures clusterCount <= |fat| && (old(Valid()) ==> Valid() && (r.Cluster? ==> IsHead(fat, r.n)))
      ensures match r
        case Cluster(n) =>
          && hint <= n < clusterCount && old(fat[n]) == Free && fat == old(Marked(fat, n))
          && (forall k :: hint <= k < n ==> old(fat[k]) != Free)
        case _ => fat == old(fat) && forall k :: hint <= k < clusterCount ==> fat[k] != Free
    {
      var num := hint;
      while num < clusterCount
        invariant hint <= num && (forall k :: hint <= k < num && k < clusterCount ==> fat[k] != Free)
        invariant fat == old(fat)
        decreases clusterCount - num
      {
        if fat[num] == Free {
          if Valid() {
            MarkedIsWellFormed(fat, num);
          }
          fat := fat[num := Eof];
          return Cluster(num);
        }
        num := num + 1;
      }
      r := Failed;
    }

    /** One more cluster behind `last`, the end of a chain, whatever the table makes of its number. */
    method AppendTo(last: nat) returns (added: Cell)
      requires clusterCount <= |fat| && last < |fat|
      modifies this
      ensures |fat| == |old(fat)|
      ensures match added
        case Cluster(n) =>
          && last <= n < clusterCount <= |fat| && old(fat[n]) == Free
               && (forall k :: last <= k < n ==> old(fat[k]) != Free)
          && fat == old(Appended(Type(), fat, last, n))
          && (Linkable(Type(), n) ==> fat == old(Linked(fat, last, n)))
          && (old(Valid() && fat[last] == Eof) && Linkable(Type(), n) ==> Valid())
        case _ => fat == old(fat) && forall k :: last <= k < clusterCount ==> fat[k] != Free
    {
      ghost var before := fat;
      added := AllocateInFAT(last);
      if added.Cluster? {
        fat := fat[last := ReadBack(Type(), added.n)];
        AppendedIsLinkedIff(Type(), before, last, added.n);
        if Linkable(Type(), added.n) && WellFormed(before) && before[last] == Eof {
          LinkedIsWellFormed(before, last, added.n);
        }
      }
    }
  }

  /** A cache holds the first cells of the chain, in order, and nothing after the end. */
  ghost predicate CacheAgrees(fat: Fat, first: nat, cache: seq<Cell>) {
    && cache != []
    && (forall i :: 0 <= i < |cache| ==> cache[i] == Walk(fat, first, i))
    && (forall i :: 0 <= i < |cache| - 1 ==> cache[i].Cluster?)
    && !cache[|cache| - 1].Failed?
  }

  class ClusterChain {
    const vol: Volume
    const firstCluster: nat
    var cache: seq<Cell>

    constructor (vol: Volume, firstCluster: nat)
      ensures this.vol == vol && this.firstCluster == firstCluster && Valid() && cache == [Cluster(firstCluster)]
    {
      this.vol := vol;
      this.firstCluster := firstCluster;
      cache := [Cluster(firstCluster)];
    }

    /** The cache is a prefix of the chain on disk, the whole of it once it ends in eof. */
    ghost predicate Valid()
      reads this, vol
    {
      CacheAgrees(vol.fat, firstCluster, cache)
    }

    predicate IsComplete()
      reads this
    {
      cache != [] && cache[|cache| - 1] == End
    }

    /** The `i`-th cell of the chain, read from the table only as far as needed. */
    method ExtendCacheToInclude(i: nat) returns (r: Cell)
      requires Valid()
      modifies this
      ensures Valid() && old(cache) <= cache
      ensures r == Walk(vol.fat, firstCluster, i)
      ensures r.Failed? || i < |cache| || IsComplete()
    {
      while i >= |cache| && !IsComplete()
        invariant Valid() && old(cache) <= cache
        decreases i - |cache|
      {
        WalkOneMore(vol.fat, firstCluster, |cache| - 1);
        var d := After(vol.fat, cache[|cache| - 1].n);
        if d.Failed? {
          WalkStays(vol.fat, firstCluster, |cache|, i);
          return Failed;
        }
        cache := cache + [d];
      }
      if i < |cache| {
        r := cache[i];
      } else {
        WalkStays(vol.fat, firstCluster, |cache| - 1, i);
        r := End;
      }
    }

    /**
     Lengthens a chain, whose end is known, to `count` clusters.  If links can hold the numbers
     of the new clusters, each of them was free, every other chain is left alone, and the table
     is well formed whether or not there was room; without room the cache has lost its eof but
     is still a prefix of the chain.  Otherwise the cache lists a chain that the table does not have.
     */
    method ExpandChainToLength(count: nat) returns (ok: bool)
      requires vol.Valid() && Valid() && IsComplete() && |cache| - 1 <= count
      modifies this, vol
      ensures vol.clusterCount <= |vol.fat|
      ensures NewWithin(old(cache[..|cache| - 1]), cache, old(cache[|cache| - 2].n), vol.clusterCount)
      ensures if NewLinkable(vol.Type(), cache, |old(cache)| - 1)
        then vol.Valid() && Valid()
             && Expanded(old(vol.fat), vol.fat, old(cache), cache, count, vol.clusterCount, ok)
        else !Valid()
    {
      hide *;
      ghost var fat0, was := vol.fat, cache;
      ghost var s, last0 := ExpansionStartsHere();
      cache := cache[..|cache| - 1];
      ghost var cache0 := cache;
      SizeIs();
      NothingNew(vol.Type(), cache0, last0, vol.clusterCount);
      ok, s := AddClusters(count, fat0, cache0, s, last0);
      WithEnd(vol.Type(), vol.fat, firstCluster, cache0, cache, last0, vol.clusterCount);
      if NewLinkable(vol.Type(), cache, |cache0|) {
        ExpandedNow(fat0, vol.fat, firstCluster, was, cache0, cache, s, last0, count, vol.clusterCount, ok);
      }
      if ok {
        cache := cache + [End];
      }
      AgreesIsValid();
    }

    lemma SizeIs()
      requires vol.Valid()
      ensures vol.clusterCount <= |vol.fat|
    {
    }

    lemma ExpansionStartsHere() returns (s: seq<nat>, last0: nat)
      requires Valid() && IsComplete()
      ensures |cache| >= 2 && cache[|cache| - 2] == Cluster(last0) && last0 < |vol.fat| && vol.fat[last0] == Eof
      ensures Growing(vol.fat, vol.fat, firstCluster, cache[..|cache| - 1], cache[..|cache| - 1],
                      s, last0, vol.clusterCount)
    {
      hide WellFormed, CacheAgrees, Growing, IsChain;
      s, last0 := ExpansionStarts(vol.fat, firstCluster, cache, vol.clusterCount);
    }

    lemma AgreesIsValid()
      ensures Valid() <==> CacheAgrees(vol.fat, firstCluster, cache)
    {
    }

    /** The inner `addCluster`: the cache holds clusters only, its last one marked as an end. */
    method AddClusters(count: nat, ghost fat0: Fat, ghost cache0: seq<Cell>, ghost s0: seq<nat>, ghost last0: nat)
        returns (ok: bool, ghost s: seq<nat>)
      requires vol.Valid() && cache == cache0 != [] && |cache| <= count && last0 < |fat0| && fat0[last0] == Eof
      requires Growing(fat0, vol.fat, firstCluster, cache0, cache, s0, last0, vol.clusterCount)
      modifies this`cache, vol
      ensures vol.clusterCount <= |vol.fat| && cache0 <= cache && NewWithin(cache0, cache, last0, vol.clusterCount)
      ensures cache != [] && cache[|cache| - 1].Cluster? && |cache| <= count
      ensures if NewLinkable(vol.Type(), cache, |cache0|)
        then vol.Valid() && Growing(fat0, vol.fat, firstCluster, cache0, cache, s, last0, vol.clusterCount)
             && Stopped(vol.fat, cache, count, vol.clusterCount, ok)
        else Broken(vol.fat, cache)
      ensures ok <==> |cache| == count
    {
      hide Growing, WellFormed, IsChain, NewLinkable, Broken, NewWithin;
      s := s0;
      NothingNew(vol.Type(), cache0, last0, vol.clusterCount);
      GrowingLast(fat0, vol.fat, firstCluster, cache0, cache, s, last0, vol.clusterCount);
      while |cache| < count
        invariant vol.clusterCount <= |vol.fat| && cache0 <= cache && |cache| <= count
        invariant NewWithin(cache0, cache, last0, vol.clusterCount)
        invariant var last := cache[|cache| - 1];
          last.Cluster? && last0 <= last.n < |vol.fat| && vol.fat[last.n] == Eof
        invariant if NewLinkable(vol.Type(), cache, |cache0|)
          then vol.Valid() && Growing(fat0, vol.fat, firstCluster, cache0, cache, s, last0, vol.clusterCount)
          else Broken(vol.fat, cache)
      {
        ghost var fat, was, last := vol.fat, cache, cache[|cache| - 1].n;
        var added := vol.AppendTo(cache[|cache| - 1].n);
        if !added.Cluster? {
          return false, s;
        }
        if NewLinkable(vol.Type(), cache, |cache0|) {
          GrowingLast(fat0, fat, firstCluster, cache0, cache, s, last0, vol.clusterCount);
          if Linkable(vol.Type(), added.n) {
            GrowsOnce(fat0, fat, firstCluster, cache0, cache, s, last0, vol.clusterCount, added.n);
          } else {
            BreaksHere(vol.Type(), fat, cache, added.n);
          }
        } else {
          StaysBroken(vol.Type(), fat, cache, added.n);
        }
        s, cache := s + [added.n], cache + [added];
        NewAdded(vol.Type(), cache0, was, added.n, last0, vol.clusterCount);
      }
      ok := true;
    }

    /** The same seen from outside: the chain `s` becomes `t`. */
    method Lengthen(count: nat, ghost s: seq<nat>) returns (ok: bool, ghost t: seq<nat>)
      requires vol.Valid() && vol.LinksReadBack() && 2 <= firstCluster
      requires Valid() && IsComplete() && IsChain(vol.fat, s) && s[0] == firstCluster && |s| <= count
      modifies this, vol
      ensures vol.Valid() && Valid() && IsChain(vol.fat, t) && t[0] == firstCluster && s <= t
      ensures AllWithin(t, |s|, s[|s| - 1], vol.clusterCount) && Grown(old(vol.fat), vol.fat, s, t)
      ensures ok ==> IsComplete() && |t| == count
      ensures LengthenedTo(vol.fat, s, t, count, vol.clusterCount, ok)
    {
      hide WellFormed, IsChain, CacheAgrees, Expanded, AllWithin, Lists, Grown, LengthenedTo;
      ghost var was := cache;
      CompleteLists(vol.fat, s, was);
      LastIsData(vol.fat, s);
      ghost var fat0 := vol.fat;
      ok := ExpandChainToLength(count);
      AllLinkable(vol, was, cache);
      t := GrownChain(fat0, vol.fat, s, was, cache, count, vol.clusterCount, ok);
      ChangedWhereGrown(fat0, vol.fat, was, cache, count, vol.clusterCount, ok);
      ExpandedGrows(fat0, vol.fat, s, t, was, cache);
      ExpandedReaches(fat0, vol.fat, s, t, was, cache, count, vol.clusterCount, ok);
    }
  }

  // ----- what has been added to a cache

  /** Links can hold the numbers of the clusters from the `k`-th cell on. */
  ghost predicate NewLinkable(ty: FatType, cache: seq<Cell>, k: nat) {
    forall i :: k <= i < |cache| && cache[i].Cluster? ==> Linkable(ty, cache[i].n)
  }

  /** The table does not have the link from one cluster of the cache to the next; later clusters have larger numbers. */
  ghost predicate Broken(fat: Fat, cache: seq<Cell>) {
    exists i: nat :: BrokenAt(fat, cache, i)
  }

  predicate BrokenAt(fat: Fat, cache: seq<Cell>, i: nat) {
    && i + 1 < |cache| && cache[i].Cluster? && cache[i + 1].Cluster? && After(fat, cache[i].n) != cache[i + 1]
    && cache[|cache| - 1].Cluster? && cache[i].n < cache[|cache| - 1].n
  }

  lemma NothingNew(ty: FatType, cache0: seq<Cell>, last0: nat, limit: nat)
    ensures NewLinkable(ty, cache0, |cache0|) && NewWithin(cache0, cache0, last0, limit)
  {
  }

  lemma NewAdded(ty: FatType, cache0: seq<Cell>, cache: seq<Cell>, added: nat, last0: nat, limit: nat)
    requires cache0 <= cache && NewWithin(cache0, cache, last0, limit) && last0 <= added < limit
    ensures NewWithin(cache0, cache + [Cluster(added)], last0, limit)
    ensures NewLinkable(ty, cache + [Cluster(added)], |cache0|)
       <==> NewLinkable(ty, cache, |cache0|) && Linkable(ty, added)
  {
    var longer := cache + [Cluster(added)];
    assert longer[|cache|] == Cluster(added);
    assert forall i :: 0 <= i < |cache| ==> longer[i] == cache[i];
  }

  lemma BreaksHere(ty: FatType, fat: Fat, cache: seq<Cell>, added: nat)
    requires cache != [] && cache[|cache| - 1].Cluster? && cache[|cache| - 1].n < added < |fat| && !Linkable(ty, added)
    ensures Broken(Appended(ty, fat, cache[|cache| - 1].n, added), cache + [Cluster(added)])
  {
    LinkableIff(ty, added);
    assert BrokenAt(Appended(ty, fat, cache[|cache| - 1].n, added), cache + [Cluster(added)], |cache| - 1);
  }

  lemma StaysBroken(ty: FatType, fat: Fat, cache: seq<Cell>, added: nat)
    requires Broken(fat, cache) && cache[|cache| - 1].n < added < |fat|
    ensures Broken(Appended(ty, fat, cache[|cache| - 1].n, added), cache + [Cluster(added)])
  {
    var i: nat :| BrokenAt(fat, cache, i);
    assert BrokenAt(Appended(ty, fat, cache[|cache| - 1].n, added), cache + [Cluster(added)], i);
  }

  lemma BrokenDisagrees(fat: Fat, first: nat, cache: seq<Cell>, longer: seq<Cell>)
    requires Broken(fat, cache) && cache <= longer
    ensures !CacheAgrees(fat, first, longer)
  {
    var i: nat :| BrokenAt(fat, cache, i);
    WalkOneMore(fat, first, i);
    assert longer[i] == cache[i] && longer[i + 1] == cache[i + 1];
  }

  /** The end, put back behind the clusters, changes none of this. */
  lemma WithEnd(ty: FatType, fat: Fat, first: nat, cache0: seq<Cell>, cache: seq<Cell>, last0: nat, limit: nat)
    requires cache0 <= cache && NewWithin(cache0, cache, last0, limit)
    requires NewLinkable(ty, cache, |cache0|) || Broken(fat, cache)
    ensures NewWithin(cache0, cache + [End], last0, limit)
    ensures NewLinkable(ty, cache + [End], |cache0|) <==> NewLinkable(ty, cache, |cache0|)
    ensures !NewLinkable(ty, cache, |cache0|) ==>
      !CacheAgrees(fat, first, cache) && !CacheAgrees(fat, first, cache + [End])
  {
    assert forall i :: 0 <= i < |cache| ==> (cache + [End])[i] == cache[i];
    if !NewLinkable(ty, cache, |cache0|) {
      BrokenDisagrees(fat, first, cache, cache);
      BrokenDisagrees(fat, first, cache, cache + [End]);
    }
  }

  lemma AllLinkable(vol: Volume, was: seq<Cell>, cache: seq<Cell>)
    requires |was| >= 2 && vol.LinksReadBack() && was[|was| - 2].Cluster? && 2 <= was[|was| - 2].n
    requires NewWithin(was[..|was| - 1], cache, was[|was| - 2].n, vol.clusterCount)
    ensures NewLinkable(vol.Type(), cache, |was| - 1)
  {
  }

  /** No cluster is free from `low` on. */
  ghost predicate NoRoom(fat: Fat, low: nat, limit: nat) {
    forall k :: low <= k < limit && k < |fat| ==> fat[k] != Free
  }

  /**
   A chain `s`, now `t`, to which clusters were added for a length of `count`: the number that
   it lacked and no more, or as many as there were, no cluster being free behind the last one.
   */
  ghost predicate LengthenedTo(fat: Fat, s: seq<nat>, t: seq<nat>, count: nat, limit: nat, ok: bool) {
    && t != []
    && if ok then |t| == if |s| < count then count else |s|
       else |t| < count && NoRoom(fat, t[|t| - 1], limit)
  }

  /** As many clusters as asked for, or no room for another. */
  ghost predicate Stopped(fat: Fat, cache: seq<Cell>, count: nat, limit: nat, ok: bool) {
    if ok then |cache| == count
    else cache != [] && |cache| < count && cache[|cache| - 1].Cluster? && NoRoom(fat, cache[|cache| - 1].n, limit)
  }

  /**
   What expanding a chain to `count` clusters does to the table and to the cache, complete
   before.  When there is room the cache is complete again; when there is none it has lost
   its eof and ends with the last cluster of the chain.
   */
  ghost predicate Expanded(fat0: Fat, fat: Fat, was: seq<Cell>, cache: seq<Cell>, count: nat, limit: nat, ok: bool) {
    && |was| >= 2 && was[|was| - 2].Cluster? && cache != []
    && was[..|was| - 1] <= cache
    && (if ok then cache[|cache| - 1] == End && |cache| == count + 1
        else
          var last := cache[|cache| - 1];
          last.Cluster? && |cache| < count && After(fat, last.n) == End && NoRoom(fat, last.n, limit))
    && NewWithin(was[..|was| - 1], cache, was[|was| - 2].n, limit)
    && GrownFrom(fat0, fat, was[..|was| - 1], cache)
    && OthersKept(fat0, fat, was[|was| - 2].n)
  }

  lemma ExpandedNow(fat0: Fat, fat: Fat, first: nat, was: seq<Cell>, cache0: seq<Cell>, cache: seq<Cell>, s: seq<nat>,
                    last0: nat, count: nat, limit: nat, ok: bool)
    requires |was| >= 2 && was[|was| - 2] == Cluster(last0) && cache0 == was[..|was| - 1] && cache != []
    requires Growing(fat0, fat, first, cache0, cache, s, last0, limit)
    requires Stopped(fat, cache, count, limit, ok)
    ensures var now := if ok then cache + [End] else cache;
      CacheAgrees(fat, first, now) && Expanded(fat0, fat, was, now, count, limit, ok)
  {
    hide Growing, CacheAgrees, NewWithin, GrownFrom, OthersKept, NoRoom;
    GrowingEnds(fat0, fat, first, cache0, cache, s, last0, limit);
  }

  /** The new clusters are found from the old end of the chain on. */
  ghost predicate NewWithin(cache: seq<Cell>, cache': seq<Cell>, last: nat, limit: nat) {
    forall i :: |cache| <= i < |cache'| && cache'[i].Cluster? ==> last <= cache'[i].n < limit
  }

  /**
   The table differs from what it was only at the old end of the chain and at clusters that were free
   and are now in it.
   */
  ghost predicate GrownFrom(fat: Fat, fat': Fat, cache: seq<Cell>, cache': seq<Cell>) {
    && |fat'| == |fat|
    && cache != []
    && (forall i :: |cache| <= i < |cache'| && cache'[i].Cluster? ==> cache'[i].n < |fat| && fat[cache'[i].n] == Free)
    && forall c :: 0 <= c < |fat| && fat'[c] != fat[c] ==>
         cache[|cache| - 1] == Cluster(c) || (fat[c] == Free && Cluster(c) in cache')
  }

  ghost predicate OthersKept(fat: Fat, fat': Fat, last: nat) {
    && |fat'| == |fat|
    && forall t :: IsChain(fat, t) && t[|t| - 1] != last ==> IsChain(fat', t)
  }

  /** The state between two additions: the chain so far is `s`, and only it has changed. */
  ghost predicate Growing(fat0: Fat, fat: Fat, first: nat, cache0: seq<Cell>, cache: seq<Cell>, s: seq<nat>,
                          last0: nat, limit: nat) {
    && IsChain(fat, s) && s[0] == first && Lists(cache, s)
    && cache0 <= cache && GrownFrom(fat0, fat, cache0, cache) && OthersKept(fat0, fat, last0)
    && cache0[|cache0| - 1] == Cluster(last0)
    && (s[|s| - 1] == last0 || fat0[s[|s| - 1]] == Free)
    && AllWithin(s, |cache0|, last0, limit)
  }

  /** The cache holds exactly the clusters `s`. */
  ghost predicate Lists(cache: seq<Cell>, s: seq<nat>) {
    |cache| == |s| && forall i :: 0 <= i < |s| ==> cache[i] == Cluster(s[i])
  }

  ghost predicate AllWithin(s: seq<nat>, start: nat, low: nat, limit: nat) {
    forall i :: start <= i < |s| ==> low <= s[i] < limit
  }

  lemma ListsMore(cache0: seq<Cell>, cache: seq<Cell>, s: seq<nat>, last0: nat, limit: nat, added: nat)
    requires Lists(cache, s) && cache0 <= cache && AllWithin(s, |cache0|, last0, limit) && last0 <= added < limit
    ensures Lists(cache + [Cluster(added)], s + [added]) && cache0 <= cache + [Cluster(added)]
    ensures AllWithin(s + [added], |cache0|, last0, limit)
  {
  }

  lemma GrowingStarts(fat0: Fat, first: nat, cache0: seq<Cell>, s: seq<nat>, limit: nat)
    requires IsChain(fat0, s) && s[0] == first && |cache0| == |s|
    requires forall i :: 0 <= i < |s| ==> cache0[i] == Cluster(s[i])
    ensures Growing(fat0, fat0, first, cache0, cache0, s, s[|s| - 1], limit) && fat0[s[|s| - 1]] == Eof
  {
  }

  lemma LastIsData(fat: Fat, s: seq<nat>)
    requires WellFormed(fat) && IsChain(fat, s) && 2 <= s[0]
    ensures 2 <= s[|s| - 1]
  {
    assert |s| > 1 ==> Follows(fat, s, |s| - 2);
  }

  lemma ExpansionStarts(fat: Fat, first: nat, cache: seq<Cell>, limit: nat) returns (s: seq<nat>, last0: nat)
    requires CacheAgrees(fat, first, cache) && cache[|cache| - 1] == End
    ensures IsChain(fat, s) && s[0] == first && s[|s| - 1] == last0
    ensures |cache| >= 2 && cache[|cache| - 2] == Cluster(last0) && last0 < |fat| && fat[last0] == Eof
    ensures Growing(fat, fat, first, cache[..|cache| - 1], cache[..|cache| - 1], s, last0, limit)
  {
    s := CompleteIsChain(fat, first, cache);
    last0 := s[|s| - 1];
    GrowingStarts(fat, first, cache[..|cache| - 1], s, limit);
  }

  lemma GrowingLast(fat0: Fat, fat: Fat, first: nat, cache0: seq<Cell>, cache: seq<Cell>, s: seq<nat>, last0: nat,
                    limit: nat)
    requires Growing(fat0, fat, first, cache0, cache, s, last0, limit)
    ensures cache != [] && s != [] && cache[|cache| - 1] == Cluster(s[|s| - 1])
    ensures s[|s| - 1] < |fat| && fat[s[|s| - 1]] == Eof
    ensures last0 <= s[|s| - 1] && last0 < |fat| && fat[last0] != Free && cache0 != []
      && cache0[|cache0| - 1] == Cluster(last0)
    ensures s[|s| - 1] == last0 || (fat0[s[|s| - 1]] == Free && Cluster(s[|s| - 1]) in cache)
  {
    var k := |cache0| - 1;
    assert cache[k] == cache0[k] && s[k] == last0;
    assert k < |s| - 1 ==> Follows(fat, s, k);
  }

  lemma GrowingEnds(fat0: Fat, fat: Fat, first: nat, cache0: seq<Cell>, cache: seq<Cell>, s: seq<nat>, last0: nat,
                    limit: nat)
    requires Growing(fat0, fat, first, cache0, cache, s, last0, limit)
    ensures CacheAgrees(fat, first, cache) && CacheAgrees(fat, first, cache + [End])
    ensures cache0 <= cache && OthersKept(fat0, fat, last0)
    ensures GrownFrom(fat0, fat, cache0, cache) && GrownFrom(fat0, fat, cache0, cache + [End])
    ensures cache[|cache| - 1].Cluster? && After(fat, cache[|cache| - 1].n) == End
    ensures NewWithin(cache0, cache, last0, limit) && NewWithin(cache0, cache + [End], last0, limit)
  {
    ChainAgrees(fat, s, cache);
    ChainAgrees(fat, s, cache + [End]);
    assert forall c :: c in cache ==> c in cache + [End];
  }

  lemma GrowsOnce(fat0: Fat, fat: Fat, first: nat, cache0: seq<Cell>, cache: seq<Cell>, s: seq<nat>, last0: nat,
                  limit: nat, added: nat)
    requires Growing(fat0, fat, first, cache0, cache, s, last0, limit)
    requires s[|s| - 1] <= added < limit
    requires added < |fat| && fat[added] == Free && fat0[last0] == Eof
    ensures Growing(fat0, Linked(fat, s[|s| - 1], added), first, cache0, cache + [Cluster(added)],
                    s + [added], last0, limit)
  {
    var last := s[|s| - 1];
    GrowingLast(fat0, fat, first, cache0, cache, s, last0, limit);
    LinkedChain(fat, last, added, s);
    GrownWithOthers(fat0, fat, cache0, cache, last0, last, added);
    ListsMore(cache0, cache, s, last0, limit, added);
  }

  lemma GrownWithOthers(fat0: Fat, fat: Fat, cache0: seq<Cell>, cache: seq<Cell>, last0: nat, last: nat, added: nat)
    requires GrownFrom(fat0, fat, cache0, cache) && cache0 <= cache && cache0[|cache0| - 1] == Cluster(last0)
    requires OthersKept(fat0, fat, last0) && last0 < |fat| && fat[last0] != Free
    requires added < |fat| && fat[added] == Free && last < |fat| && fat[last] == Eof
    requires last == last0 || (fat0[last] == Free && Cluster(last) in cache)
    ensures GrownFrom(fat0, Linked(fat, last, added), cache0, cache + [Cluster(added)])
    ensures OthersKept(fat0, Linked(fat, last, added), last0) && fat0[added] == Free
  {
    AddedWasFree(fat0, fat, cache0, cache, last0, added);
    LinkedOthers(fat0, fat, last0, last, added);
    GrownFurther(fat0, fat, cache0, cache, last0, last, added);
  }

  /** A cluster that is free now was free at the start. */
  lemma AddedWasFree(fat0: Fat, fat: Fat, cache0: seq<Cell>, cache: seq<Cell>, last0: nat, added: nat)
    requires GrownFrom(fat0, fat, cache0, cache) && added < |fat| && fat[added] == Free
    requires cache0[|cache0| - 1] == Cluster(last0) && last0 < |fat| && fat[last0] != Free
    ensures fat0[added] == Free
  {
  }

  lemma GrownFurther(fat0: Fat, fat: Fat, cache0: seq<Cell>, cache: seq<Cell>, last0: nat, last: nat, added: nat)
    requires GrownFrom(fat0, fat, cache0, cache) && cache0 <= cache && cache0[|cache0| - 1] == Cluster(last0)
    requires added < |fat| && fat0[added] == Free && last < |fat|
    requires last == last0 || (fat0[last] == Free && Cluster(last) in cache)
    ensures GrownFrom(fat0, Linked(fat, last, added), cache0, cache + [Cluster(added)])
  {
    var cache' := cache + [Cluster(added)];
    assert Cluster(added) in cache';
    assert forall c :: c in cache ==> c in cache';
  }

  lemma LinkedOthers(fat0: Fat, fat: Fat, last0: nat, last: nat, added: nat)
    requires OthersKept(fat0, fat, last0)
    requires last < |fat| && fat[last] == Eof && added < |fat| && fat[added] == Free
    requires last == last0 || fat0[last] == Free
    ensures OthersKept(fat0, Linked(fat, last, added), last0)
  {
    forall t | IsChain(fat0, t) && t[|t| - 1] != last0 ensures IsChain(Linked(fat, last, added), t) {
      LinkedChain(fat, last, added, t);
    }
  }

  /** A complete cache lists a whole chain. */
  lemma CompleteIsChain(fat: Fat, first: nat, cache: seq<Cell>) returns (s: seq<nat>)
    requires CacheAgrees(fat, first, cache) && cache[|cache| - 1] == End
    ensures IsChain(fat, s) && s[0] == first && |s| == |cache| - 1
    ensures forall i :: 0 <= i < |s| ==> cache[i] == Cluster(s[i])
  {
    s := seq(|cache| - 1, i requires 0 <= i < |cache| - 1 => cache[i].n);
    forall i | 0 <= i < |s| ensures After(fat, s[i]) == cache[i + 1] {
      WalkOneMore(fat, first, i);
    }
    assert After(fat, s[|s| - 1]) == End;
  }

  lemma ChainAgrees(fat: Fat, s: seq<nat>, cache: seq<Cell>)
    requires IsChain(fat, s) && |s| <= |cache| <= |s| + 1
    requires forall i :: 0 <= i < |s| ==> cache[i] == Cluster(s[i])
    requires |cache| > |s| ==> cache[|s|] == End
    ensures CacheAgrees(fat, s[0], cache)
  {
    forall i | 0 <= i < |cache| ensures cache[i] == Walk(fat, s[0], i) {
      WalkFollowsChain(fat, s, i);
    }
  }

  lemma {:induction false} LinkedWalk(fat: Fat, last: nat, added: nat, first: nat, cache: seq<Cell>, i: nat)
    requires CacheAgrees(fat, first, cache) && i < |cache| && cache[i].Cluster?
    requires last < |fat| && fat[last] == Eof && added < |fat| && fat[added] == Free
    ensures Walk(Linked(fat, last, added), first, i) == cache[i]
  {
    if i > 0 {
      LinkedWalk(fat, last, added, first, cache, i - 1);
      WalkOneMore(fat, first, i - 1);
      WalkOneMore(Linked(fat, last, added), first, i - 1);
    }
  }

  /**
   Growing a chain keeps the cache of every other open chain right.  The one cache it
   invalidates is a complete one of the same chain, such as that of a second handle.
   */
  lemma OtherCacheSurvivesIff(fat: Fat, last: nat, added: nat, first: nat, cache: seq<Cell>)
    requires CacheAgrees(fat, first, cache)
    requires last < |fat| && fat[last] == Eof && added < |fat| && fat[added] == Free
    ensures CacheAgrees(Linked(fat, last, added), first, cache)
       <==> !(cache[|cache| - 1] == End && cache[|cache| - 2] == Cluster(last))
  {
    var fat' := Linked(fat, last, added);
    forall i | 0 <= i < |cache| && cache[i].Cluster? ensures cache[i] == Walk(fat', first, i) {
      LinkedWalk(fat, last, added, first, cache, i);
    }
    if cache[|cache| - 1] == End {
      WalkOneMore(fat, first, |cache| - 2);
      WalkOneMore(fat', first, |cache| - 2);
    }
  }

  /** Two handles on the file of cluster 2 know it to its end; one of them adds cluster 3. */
  lemma SecondHandleIsStale()
    ensures var fat, cache := [Reserved, Eof, Eof, Free], [Cluster(2), End];
      CanAppend(4, fat, 2, 3) && CacheAgrees(fat, 2, cache) && !CacheAgrees(Appended(Fat12, fat, 2, 3), 2, cache)
  {
    var fat, cache := [Reserved, Eof, Eof, Free], [Cluster(2), End];
    assert Walk(fat, 2, 1) == End && Walk(fat, 2, 0) == Cluster(2);
    assert CacheAgrees(fat, 2, cache);
    AppendedIsLinkedIff(Fat12, fat, 2, 3);
    OtherCacheSurvivesIff(fat, 2, 3, 2, cache);
    assert WellFormed(fat) by {
      assert IsChain(fat, [1]) && IsChain(fat, [2]);
    }
  }

  /** Past the end, or past an error, nothing changes any more. */
  lemma {:induction false} WalkStays(fat: Fat, c: nat, i: nat, j: nat)
    requires i <= j && !Walk(fat, c, i).Cluster?
    ensures Walk(fat, c, j) == Walk(fat, c, i)
    decreases j - i
  {
    if i < j {
      WalkOneMore(fat, c, i);
      WalkStays(fat, c, i + 1, j);
    }
  }

  /** The clusters in a cache. */
  function KnownClusters(cache: seq<Cell>): seq<nat> {
    if cache == [] || !cache[0].Cluster? then [] else [cache[0].n] + KnownClusters(cache[1..])
  }

  lemma {:induction false} KnownIs(cache: seq<Cell>, s: seq<nat>)
    requires |s| <= |cache| <= |s| + 1 && forall i :: 0 <= i < |s| ==> cache[i] == Cluster(s[i])
    requires |cache| > |s| ==> !cache[|s|].Cluster?
    ensures KnownClusters(cache) == s
  {
    if s != [] {
      KnownIs(cache[1..], s[1..]);
      assert s == [s[0]] + s[1..];
    }
  }

  /** A cache knows a prefix of the chain, and all of it once it is complete. */
  lemma CacheKnows(fat: Fat, s: seq<nat>, cache: seq<Cell>)
    requires IsChain(fat, s) && CacheAgrees(fat, s[0], cache)
    ensures KnownClusters(cache) <= s
    ensures |KnownClusters(cache)| == if cache[|cache| - 1] == End then |cache| - 1 else |cache|
    ensures cache[|cache| - 1] == End || After(fat, cache[|cache| - 1].n) == End ==> KnownClusters(cache) == s
  {
    var n := if cache[|cache| - 1] == End then |cache| - 1 else |cache|;
    forall i | 0 <= i < |cache| ensures cache[i] == if i < |s| then Cluster(s[i]) else End {
      WalkFollowsChain(fat, s, i);
    }
    assert |cache| > |s| ==> cache[|s|] == End;
    assert n <= |s|;
    KnownIs(cache, s[..n]);
    if n > 0 && n < |s| {
      assert Follows(fat, s, n - 1);
    }
  }

  /** Of the first `count` clusters of a chain, all those that exist are known. */
  predicate Knows(known: seq<nat>, s: seq<nat>, count: nat) {
    known <= s && (if count <= |s| then count <= |known| else known == s)
  }

  /** A cache that holds the cell before `count`, or is complete. */
  lemma CacheReaches(fat: Fat, s: seq<nat>, cache: seq<Cell>, count: nat)
    requires IsChain(fat, s) && CacheAgrees(fat, s[0], cache) && count > 0
    requires cache[|cache| - 1] == End || count <= |cache|
    ensures Knows(KnownClusters(cache), s, count)
  {
    hide KnownClusters, IsChain, CacheAgrees;
    CacheKnows(fat, s, cache);
  }

  lemma CellAt(fat: Fat, s: seq<nat>, cache: seq<Cell>, i: nat)
    requires IsChain(fat, s) && CacheAgrees(fat, s[0], cache) && (i < |cache| || cache[|cache| - 1] == End)
    ensures !Walk(fat, s[0], i).Failed?
    ensures Walk(fat, s[0], i) == End <==> |s| <= i
    ensures Walk(fat, s[0], i) == End ==> cache[|cache| - 1] == End
  {
    WalkFollowsChain(fat, s, i);
  }

  ghost function ChainFrom(fat: Fat, c: nat): (s: seq<nat>)
    requires Ends(fat, c)
    ensures IsChain(fat, s) && s[0] == c
  {
    var s :| IsChain(fat, s) && s[0] == c;
    s
  }

  /**
   Growing the chain `s` to `t` changes the table only at the old end and at the new
   clusters, which were free.
   */
  ghost predicate Grown(fat: Fat, fat': Fat, s: seq<nat>, t: seq<nat>) {
    && s != [] && s <= t && |fat'| == |fat|
    && (forall i :: |s| <= i < |t| ==> t[i] < |fat| && fat[t[i]] == Free)
    && forall c :: 0 <= c < |fat| && fat'[c] != fat[c] ==> c == s[|s| - 1] || (fat[c] == Free && c in t)
  }

  lemma GrownNot(fat: Fat, s: seq<nat>)
    requires IsChain(fat, s)
    ensures Grown(fat, fat, s, s)
  {
  }

  lemma ChainIsAllocated(fat: Fat, s: seq<nat>, i: nat)
    requires IsChain(fat, s) && i < |s|
    ensures s[i] < |fat| && fat[s[i]] != Free && (i + 1 < |s| ==> fat[s[i]].Link?) && s[|s| - 1] < |fat|
  {
    assert i + 1 < |s| ==> Follows(fat, s, i);
  }

  lemma GrownTwice(f0: Fat, f1: Fat, f2: Fat, s: seq<nat>, t: seq<nat>, u: seq<nat>)
    requires IsChain(f1, t) && Grown(f0, f1, s, t) && Grown(f1, f2, t, u)
    ensures Grown(f0, f2, s, u)
  {
    hide IsChain;
    forall c | c in t ensures c < |f1| && f1[c] != Free {
      var i :| 0 <= i < |t| && t[i] == c;
      ChainIsAllocated(f1, t, i);
    }
    assert t[|s| - 1] == s[|s| - 1];
    forall c: nat | c < |f1| && f1[c] == Free ensures f0[c] == Free {
      assert s[|s| - 1] in t;
    }
    forall i | |s| <= i < |u| ensures u[i] < |f0| && f0[u[i]] == Free {
      assert i < |t| ==> u[i] == t[i];
    }
    forall c: nat | c < |f0| && f2[c] != f0[c] ensures c == s[|s| - 1] || (f0[c] == Free && c in u) {
      assert c in t ==> c in u;
      if c == t[|t| - 1] && |t| > |s| {
        assert f0[t[|t| - 1]] == Free && t[|t| - 1] in t;
      }
    }
  }

  /** Any other chain is as it was, and shares no cluster with what has been added. */
  lemma GrowthKeepsChain(fat: Fat, fat': Fat, s: seq<nat>, t: seq<nat>, other: seq<nat>)
    requires IsChain(fat, s) && Grown(fat, fat', s, t) && IsChain(fat, other) && other[|other| - 1] != s[|s| - 1]
    ensures IsChain(fat', other) && forall i :: |s| <= i < |t| ==> t[i] !in other
  {
    forall i | 0 <= i < |other| ensures other[i] < |fat| && fat'[other[i]] == fat[other[i]] != Free {
      ChainIsAllocated(fat, other, i);
      ChainIsAllocated(fat, s, |s| - 1);
    }
    forall i: nat | i + 1 < |other| ensures Follows(fat', other, i) {
      assert Follows(fat, other, i);
    }
  }

  /** A head that is not the chain that has grown is still a head. */
  lemma GrowthKeepsHead(fat: Fat, fat': Fat, s: seq<nat>, t: seq<nat>, c: nat)
    requires IsChain(fat, s) && Grown(fat, fat', s, t) && IsChain(fat', t)
    requires IsHead(fat, c) && c !in s
    ensures IsHead(fat', c) && c !in t
  {
    forall i | 0 <= i < |t| ensures t[i] != c {
      assert i < |s| ==> t[i] == s[i];
    }
    assert t[|s| - 1] == s[|s| - 1];
    forall d | 0 <= d < |fat'| ensures fat'[d] != Link(c) {
      if fat'[d] != fat[d] {
        assert d in t;
        var i :| 0 <= i < |t| && t[i] == d;
        assert i + 1 < |t| ==> Follows(fat', t, i);
      }
    }
  }

  /** The chain an expanded cache belongs to. */
  lemma GrownChain(fat0: Fat, fat: Fat, s: seq<nat>, cache: seq<Cell>, cache': seq<Cell>, count: nat, limit: nat,
                   ok: bool)
      returns (t: seq<nat>)
    requires s != [] && |cache| == |s| + 1 && Lists(cache[..|s|], s)
    requires WellFormed(fat) && CacheAgrees(fat, s[0], cache') && Expanded(fat0, fat, cache, cache', count, limit, ok)
    ensures IsChain(fat, t) && t[0] == s[0] && s <= t
    ensures cache' != [] && (ok ==> |t| == count && cache'[|cache'| - 1] == End)
    ensures AllWithin(t, |s|, s[|s| - 1], limit)
    ensures |t| <= |cache'| <= |t| + 1 && Lists(cache'[..|t|], t) && (|cache'| > |t| ==> cache'[|t|] == End)
  {
    assert cache'[0] == cache[..|s|][0] == Cluster(s[0]);
    assert After(fat, s[0]) != Failed by {
      if |cache'| > 1 {
        assert cache'[1] == Walk(fat, s[0], 1);
      }
    }
    assert Allocated(fat, s[0]);
    t := ChainFrom(fat, s[0]);
    CacheKnows(fat, t, cache');
    forall i | 0 <= i < |t| ensures cache'[i] == Cluster(t[i]) {
      WalkFollowsChain(fat, t, i);
    }
    assert |s| <= |t|;
    forall i | 0 <= i < |s| ensures s[i] == t[i] {
      assert cache'[i] == cache[..|s|][i];
    }
  }

  lemma ChangedWhereGrown(fat0: Fat, fat: Fat, was: seq<Cell>, cache: seq<Cell>, count: nat, limit: nat, ok: bool)
    requires Expanded(fat0, fat, was, cache, count, limit, ok)
    ensures |was| >= 2 && GrownFrom(fat0, fat, was[..|was| - 1], cache)
  {
  }

  /** ... and how the table has changed. */
  lemma ExpandedGrows(fat0: Fat, fat: Fat, s: seq<nat>, t: seq<nat>, cache: seq<Cell>, cache': seq<Cell>)
    requires IsChain(fat0, s) && |cache| >= |s| && Lists(cache[..|s|], s) && s <= t
    requires GrownFrom(fat0, fat, cache[..|s|], cache')
    requires |t| <= |cache'| <= |t| + 1 && Lists(cache'[..|t|], t) && (|cache'| > |t| ==> cache'[|t|] == End)
    ensures Grown(fat0, fat, s, t)
  {
    hide IsChain;
    ChainIsAllocated(fat0, s, |s| - 1);
    forall i | 0 <= i < |t| ensures cache'[i] == Cluster(t[i]) {
      assert cache'[..|t|][i] == cache'[i];
    }
    assert cache[..|s|][|s| - 1] == Cluster(s[|s| - 1]);
    forall c | 0 <= c < |fat0| && fat[c] != fat0[c] ensures c == s[|s| - 1] || (fat0[c] == Free && c in t) {
      if Cluster(c) in cache' {
        var i :| 0 <= i < |cache'| && cache'[i] == Cluster(c);
        assert i < |t| && t[i] == c;
      }
    }
  }

  /** ... and what the chain has for its new length. */
  lemma ExpandedReaches(fat0: Fat, fat: Fat, s: seq<nat>, t: seq<nat>, cache: seq<Cell>, cache': seq<Cell>, count: nat,
                        limit: nat, ok: bool)
    requires s != [] && s <= t && |s| <= count && Expanded(fat0, fat, cache, cache', count, limit, ok)
    requires ok ==> |t| == count
    requires |t| <= |cache'| <= |t| + 1 && Lists(cache'[..|t|], t) && (|cache'| > |t| ==> cache'[|t|] == End)
    ensures LengthenedTo(fat, s, t, count, limit, ok)
  {
    if !ok {
      assert |cache'| == |t|;
      assert cache'[..|t|][|t| - 1] == Cluster(t[|t| - 1]);
    }
  }

  /** A complete cache lists the clusters of the chain, then the end. */
  lemma CompleteLists(fat: Fat, s: seq<nat>, cache: seq<Cell>)
    requires IsChain(fat, s) && CacheAgrees(fat, s[0], cache) && cache[|cache| - 1] == End
    ensures s != [] && |cache| == |s| + 1 && Lists(cache[..|s|], s)
    ensures cache[|cache| - 2].n == s[|s| - 1]
  {
    CacheKnows(fat, s, cache);
    forall i | 0 <= i < |s| ensures cache[i] == Cluster(s[i]) {
      WalkFollowsChain(fat, s, i);
    }
  }
}
