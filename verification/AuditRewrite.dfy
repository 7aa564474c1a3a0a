/**
 Deleting a range of the audit log: the newer records are chained again after what is
 left, in the order of the walk, newest first.
 */
module AuditRewrite {
  import opened Basics
  import opened AuditChain
  import opened AuditCheck

  datatype Outcome = Rewritten(storage: Storage) | AssertionFailed | NeverEnds

  /** The records walked before `newest`; None when the walk never ends. */
  function Recent(records: map<Id, Record>, id: Id, newest: Id, seen: set<Id>): Option<seq<Record>>
    decreases records.Keys - seen
  {
    if id !in records then Some([])
    else if id in seen then None
    else if records[id].id == newest then Some([])
    else
      var rest := Recent(records, records[id].previousId, newest, seen + {id});
      if rest.None? then None else Some([records[id]] + rest.value)
  }

  /** The walk that deletes the range. */
  function Deleted(records: map<Id, Record>, id: Id, oldest: Id): (r: map<Id, Record>)
    requires WellKeyed(records)
    ensures WellKeyed(r) && r.Keys <= records.Keys
    decreases records.Keys
  {
    if id !in records then records
    else
      var left := records - {id};
      if id == oldest then left else Deleted(left, records[id].previousId, oldest)
  }

  function Readded(s: Storage, recent: seq<Record>): Storage
    decreases |recent|
  {
    if recent == [] then s
    else Readded(Dropped(AddUnsafe(s, recent[0].payload), recent[0].id), recent[1..])
  }

  function Dropped(s: Storage, id: Id): Storage {
    s.(records := s.records - {id})
  }

  function Rewrite(s: Storage, newest: Id, oldest: Id): Outcome
    requires WellKeyed(s.records)
  {
    if newest !in s.records || oldest !in s.records then AssertionFailed
    else
      var recent := if s.lastId.None? then Some([]) else Recent(s.records, s.lastId.value, newest, {});
      if recent.None? then NeverEnds
      else
        var left := Storage(Deleted(s.records, newest, oldest), Some(s.records[oldest].previousId));
        Rewritten(Readded(left, recent.value))
  }

  // ----- the walks on a chain

  /** The records of ranks m down to j + 1. */
  function Newer(log: seq<Payload>, j: nat, m: nat): (r: seq<Record>)
    requires j <= m <= |log|
    ensures |r| == m - j
    decreases m
  {
    if j == m then [] else [RecordAt(log, m)] + Newer(log, j, m - 1)
  }

  lemma {:induction false} NewerAt(log: seq<Payload>, j: nat, m: nat, k: nat)
    requires j <= m <= |log| && k < m - j
    ensures Newer(log, j, m)[k] == RecordAt(log, m - k)
    decreases m
  {
    if k > 0 {
      NewerAt(log, j, m - 1, k - 1);
    }
  }

  lemma {:induction false} RecentOnChain(records: map<Id, Record>, log: seq<Payload>, j: nat, m: nat, seen: set<Id>)
    requires 0 < j <= m <= |log| && Holds(records, log) && SeenAbove(seen, log, m)
    ensures Recent(records, IdOf(log[..m]), IdOf(log[..j]), seen) == Some(Newer(log, j, m))
    decreases m
  {
    var id := IdOf(log[..m]);
    assert HasRecord(records, log, m);
    if id in seen {
      var x: nat :| m < x <= |log| && id == IdOf(log[..x]);
      SameIds(log, m, x);
    }
    if j < m {
      if id == IdOf(log[..j]) {
        SameIds(log, m, j);
      }
      SeenNext(seen, log, m);
      RecentOnChain(records, log, j, m - 1, seen + {id});
    }
  }

  lemma SeenNext(seen: set<Id>, log: seq<Payload>, m: nat)
    requires 0 < m <= |log| && SeenAbove(seen, log, m)
    ensures SeenAbove(seen + {IdOf(log[..m])}, log, m - 1)
  {
    forall other | other in seen + {IdOf(log[..m])}
      ensures exists x: nat :: m - 1 < x <= |log| && other == IdOf(log[..x])
    {
      if other == IdOf(log[..m]) {
        assert m - 1 < m <= |log|;
      } else {
        var x: nat :| m < x <= |log| && other == IdOf(log[..x]);
      }
    }
  }

  ghost predicate Between(id: Id, log: seq<Payload>, i: nat, j: nat)
    requires j <= |log|
  {
    exists k: nat :: i <= k <= j && id == IdOf(log[..k])
  }

  /** Deleting from rank j down to rank i. */
  lemma {:induction false} DeletedOnChain(records: map<Id, Record>, log: seq<Payload>, i: nat, j: nat)
    requires 0 < i <= j <= |log| && WellKeyed(records)
    requires forall k: nat :: i <= k <= j ==> HasRecord(records, log, k)
    ensures var left := Deleted(records, IdOf(log[..j]), IdOf(log[..i]));
      forall id :: id in left <==> id in records && !Between(id, log, i, j)
    ensures var left := Deleted(records, IdOf(log[..j]), IdOf(log[..i]));
      forall id :: id in left ==> left[id] == records[id]
    decreases j
  {
    var id := IdOf(log[..j]);
    assert HasRecord(records, log, j);
    var left := records - {id};
    if i == j {
      forall other ensures Between(other, log, i, j) <==> other == id {
      }
    } else {
      if id == IdOf(log[..i]) {
        SameIds(log, i, j);
      }
      forall k: nat | i <= k <= j - 1 ensures HasRecord(left, log, k) {
        assert HasRecord(records, log, k);
        if IdOf(log[..k]) == id {
          SameIds(log, k, j);
        }
      }
      DeletedOnChain(left, log, i, j - 1);
      forall other ensures Between(other, log, i, j) <==> other == id || Between(other, log, i, j - 1) {
        if other == id {
          assert i <= j <= j && other == IdOf(log[..j]);
        }
      }
    }
  }

  // ----- chaining again

  function Reverse(s: seq<Payload>): (r: seq<Payload>)
    ensures |r| == |s| && forall i :: 0 <= i < |r| ==> r[i] == s[|s| - 1 - i]
  {
    seq(|s|, i requires 0 <= i < |s| => s[|s| - 1 - i])
  }

  /** `kept`, the deleted range and the newer payloads, oldest first. */
  datatype Split = Split(kept: seq<Payload>, range: seq<Payload>, newer: seq<Payload>) {
    function Log(): seq<Payload> {
      kept + range + newer
    }

    function NewLog(): seq<Payload> {
      kept + Reverse(newer)
    }

    /** The identifier of the m-th newer record before the deletion. */
    function OldId(m: nat): Id
      requires m <= |newer|
    {
      IdOf(kept + range + newer[..m])
    }

    /** The identifier of the i-th record chained again. */
    function NewId(i: nat): Id
      requires i <= |newer|
    {
      IdOf(kept + Reverse(newer)[..i])
    }
  }

  /** The records have the content that their identifiers tell. */
  ghost predicate WellHashed(records: map<Id, Record>) {
    forall id :: id in records ==> id.Hash? && records[id] == Record(id, id.previousId, id.payload)
  }

  /** The i-th new record has been deleted again, as the old record it coincides with. */
  ghost predicate Killed(x: Split, i: nat, k: nat)
    requires i <= |x.newer|
  {
    exists m: nat :: 1 <= m <= |x.newer| && i <= |x.newer| - m + 1 <= k && x.OldId(m) == x.NewId(i)
  }

  ghost predicate IsNew(x: Split, id: Id, k: nat)
    requires k <= |x.newer|
  {
    exists i: nat :: 1 <= i <= k && id == x.NewId(i) && !Killed(x, i, k)
  }

  ghost predicate IsOld(x: Split, id: Id, k: nat)
    requires k <= |x.newer|
  {
    exists m: nat :: 1 <= m <= |x.newer| - k && id == x.OldId(m)
  }

  /** After k of the newer records have been chained again. */
  ghost predicate After(x: Split, s: Storage, k: nat)
    requires k <= |x.newer|
  {
    && LastId(s) == x.NewId(k)
    && WellHashed(s.records)
    && forall id :: id in s.records <==> IsPrefixId(id, x.kept) || IsNew(x, id, k) || IsOld(x, id, k)
  }

  lemma NewIdStep(x: Split, k: nat)
    requires k < |x.newer|
    ensures x.NewId(k + 1) == Hash(x.NewId(k), x.newer[|x.newer| - 1 - k])
  {
    var log := x.kept + Reverse(x.newer)[..k + 1];
    assert log[..|log| - 1] == x.kept + Reverse(x.newer)[..k];
  }

  lemma IdsDiffer(x: Split, i: nat, j: nat)
    requires i <= |x.newer| && j <= |x.newer|
    ensures x.OldId(i) == x.OldId(j) ==> i == j
    ensures x.NewId(i) == x.NewId(j) ==> i == j
    ensures IsPrefixId(x.OldId(i), x.kept) ==> |x.range| + i == 0
    ensures IsPrefixId(x.NewId(i), x.kept) ==> i == 0
  {
    if x.OldId(i) == x.OldId(j) {
      IdOfInjective(x.kept + x.range + x.newer[..i], x.kept + x.range + x.newer[..j]);
    }
    if x.NewId(i) == x.NewId(j) {
      IdOfInjective(x.kept + Reverse(x.newer)[..i], x.kept + Reverse(x.newer)[..j]);
    }
    if k: nat :| 0 < k <= |x.kept| && x.OldId(i) == IdOf(x.kept[..k]) {
      IdOfInjective(x.kept + x.range + x.newer[..i], x.kept[..k]);
    }
    if k: nat :| 0 < k <= |x.kept| && x.NewId(i) == IdOf(x.kept[..k]) {
      IdOfInjective(x.kept + Reverse(x.newer)[..i], x.kept[..k]);
    }
  }

  /** Killing goes on: only the old record dropped by this step is added to those dropped before. */
  lemma KilledNext(x: Split, i: nat, k: nat)
    requires 1 <= i <= k + 1 <= |x.newer|
    ensures Killed(x, i, k + 1) <==> (i <= k && Killed(x, i, k)) || x.OldId(|x.newer| - k) == x.NewId(i)
  {
    var d := |x.newer| - k;
    if x.OldId(d) == x.NewId(i) {
      assert 1 <= d <= |x.newer| && i <= |x.newer| - d + 1 <= k + 1;
    }
    if Killed(x, i, k + 1) {
      var m: nat :| 1 <= m <= |x.newer| && i <= |x.newer| - m + 1 <= k + 1 && x.OldId(m) == x.NewId(i);
      assert m == d || |x.newer| - m + 1 <= k;
    }
  }

  lemma IsNewNext(x: Split, id: Id, k: nat)
    requires k < |x.newer|
    ensures IsNew(x, id, k + 1) <==> id != x.OldId(|x.newer| - k) && (id == x.NewId(k + 1) || IsNew(x, id, k))
  {
    if IsNew(x, id, k + 1) {
      var i: nat :| 1 <= i <= k + 1 && id == x.NewId(i) && !Killed(x, i, k + 1);
      KilledNext(x, i, k);
    }
    if id != x.OldId(|x.newer| - k) {
      if id == x.NewId(k + 1) {
        KilledNext(x, k + 1, k);
        assert 1 <= k + 1 <= k + 1 && id == x.NewId(k + 1) && !Killed(x, k + 1, k + 1);
      } else if IsNew(x, id, k) {
        var i: nat :| 1 <= i <= k && id == x.NewId(i) && !Killed(x, i, k);
        KilledNext(x, i, k);
        assert 1 <= i <= k + 1 && id == x.NewId(i) && !Killed(x, i, k + 1);
      }
    }
  }

  lemma IsOldNext(x: Split, id: Id, k: nat)
    requires k < |x.newer|
    ensures IsOld(x, id, k + 1) <==> id != x.OldId(|x.newer| - k) && IsOld(x, id, k)
  {
    if IsOld(x, id, k + 1) {
      var m: nat :| 1 <= m <= |x.newer| - (k + 1) && id == x.OldId(m);
      IdsDiffer(x, m, |x.newer| - k);
      assert 1 <= m <= |x.newer| - k;
    }
    if id != x.OldId(|x.newer| - k) && IsOld(x, id, k) {
      var m: nat :| 1 <= m <= |x.newer| - k && id == x.OldId(m);
      assert m <= |x.newer| - (k + 1);
    }
  }

  lemma AddThenDrop(s: Storage, payload: Payload, id: Id)
    requires WellHashed(s.records)
    ensures var s' := Dropped(AddUnsafe(s, payload), id);
      && LastId(s') == Hash(LastId(s), payload)
      && WellHashed(s'.records)
      && forall other :: other in s'.records <==> other != id && (other in s.records || other == LastId(s'))
  {
  }

  /** One turn of the last loop. */
  lemma ReaddStep(x: Split, s: Storage, k: nat)
    requires k < |x.newer| && After(x, s, k)
    ensures After(x, Dropped(AddUnsafe(s, x.newer[|x.newer| - 1 - k]), x.OldId(|x.newer| - k)), k + 1)
  {
    hide IsNew, IsOld, IsPrefixId, WellHashed, AddUnsafe, Dropped, IdOf;
    var d := x.OldId(|x.newer| - k);
    var s' := Dropped(AddUnsafe(s, x.newer[|x.newer| - 1 - k]), d);
    AddThenDrop(s, x.newer[|x.newer| - 1 - k], d);
    NewIdStep(x, k);
    IdsDiffer(x, |x.newer| - k, 0);
    forall id ensures id in s'.records <==> IsPrefixId(id, x.kept) || IsNew(x, id, k + 1) || IsOld(x, id, k + 1) {
      IsNewNext(x, id, k);
      IsOldNext(x, id, k);
      assert id in s'.records <==> id != d && (id in s.records || id == x.NewId(k + 1));
      assert id in s.records <==> IsPrefixId(id, x.kept) || IsNew(x, id, k) || IsOld(x, id, k);
    }
  }

  lemma LogParts(x: Split, m: nat)
    requires m <= |x.newer|
    ensures |x.Log()| == |x.kept| + |x.range| + |x.newer|
    ensures x.Log()[..|x.kept| + |x.range| + m] == x.kept + x.range + x.newer[..m]
    ensures m > 0 ==> x.Log()[|x.kept| + |x.range| + m - 1] == x.newer[m - 1]
  {
  }

  /** The old records of the newer part, as the walk lists them. */
  lemma RecentRecord(x: Split, k: nat)
    requires k < |x.newer|
    ensures |x.Log()| == |x.kept| + |x.range| + |x.newer|
    ensures var recent := Newer(x.Log(), |x.kept| + |x.range|, |x.Log()|);
      recent[k].payload == x.newer[|x.newer| - 1 - k] && recent[k].id == x.OldId(|x.newer| - k)
  {
    hide x.Log;
    LogParts(x, |x.newer| - k);
    NewerAt(x.Log(), |x.kept| + |x.range|, |x.Log()|, k);
  }

  lemma {:induction false} ReaddAll(x: Split, s: Storage, k: nat)
    requires k <= |x.newer| && After(x, s, k)
    ensures var recent := Newer(x.Log(), |x.kept| + |x.range|, |x.Log()|);
      After(x, Readded(s, recent[k..]), |x.newer|)
    decreases |x.newer| - k
  {
    var recent := Newer(x.Log(), |x.kept| + |x.range|, |x.Log()|);
    if k < |x.newer| {
      RecentRecord(x, k);
      ReaddStep(x, s, k);
      assert recent[k..][0] == recent[k] && recent[k..][1..] == recent[k + 1..];
      ReaddAll(x, Dropped(AddUnsafe(s, recent[k].payload), recent[k].id), k + 1);
    }
  }

  // ----- the state the last loop starts from

  function Newest(x: Split): Id {
    IdOf(x.kept + x.range)
  }

  function Oldest(x: Split): Id
    requires x.range != []
  {
    IdOf(x.kept + x.range[..1])
  }

  lemma ChainIsWellHashed(s: Storage, log: seq<Payload>)
    requires IsChain(s, log)
    ensures WellHashed(s.records) && WellKeyed(s.records)
  {
    forall id | id in s.records ensures id.Hash? && s.records[id] == Record(id, id.previousId, id.payload) {
      var k: nat :| 0 < k <= |log| && id == IdOf(log[..k]);
      assert HasRecord(s.records, log, k);
      IdOfStep(log, k);
    }
  }

  lemma RangeIds(x: Split)
    requires x.range != []
    ensures |x.Log()| == |x.kept| + |x.range| + |x.newer|
    ensures Newest(x) == IdOf(x.Log()[..|x.kept| + |x.range|])
    ensures Oldest(x) == IdOf(x.Log()[..|x.kept| + 1])
    ensures x.NewId(0) == IdOf(x.Log()[..|x.kept|])
    ensures x.Log()[..|x.Log()|] == x.Log()
  {
    assert x.Log()[..|x.kept| + |x.range|] == x.kept + x.range;
    assert x.Log()[..|x.kept| + 1] == x.kept + x.range[..1];
    assert x.Log()[..|x.kept|] == x.kept == x.kept + Reverse(x.newer)[..0];
  }

  lemma NotBetween(log: seq<Payload>, k: nat, i: nat, j: nat)
    requires k <= |log| && j <= |log| && !(i <= k <= j)
    ensures !Between(IdOf(log[..k]), log, i, j)
  {
    if Between(IdOf(log[..k]), log, i, j) {
      var other: nat :| i <= other <= j && IdOf(log[..k]) == IdOf(log[..other]);
      SameIds(log, k, other);
    }
  }

  /** Without the range: the kept records and the newer ones. */
  lemma OutsideRange(x: Split, k: nat)
    requires x.range != [] && 0 < k <= |x.Log()|
    requires !Between(IdOf(x.Log()[..k]), x.Log(), |x.kept| + 1, |x.kept| + |x.range|)
    ensures IsPrefixId(IdOf(x.Log()[..k]), x.kept) || IsOld(x, IdOf(x.Log()[..k]), 0)
  {
    hide IdOf;
    var log, a, b := x.Log(), |x.kept|, |x.kept| + |x.range|;
    if k <= a {
      assert log[..k] == x.kept[..k];
    } else {
      assert k > b;
      LogParts(x, k - b);
      assert 1 <= k - b <= |x.newer| - 0 && IdOf(log[..k]) == x.OldId(k - b);
    }
  }

  lemma KeptIsOutside(x: Split, id: Id)
    requires x.range != [] && IsPrefixId(id, x.kept)
    ensures |x.Log()| == |x.kept| + |x.range| + |x.newer|
    ensures IsPrefixId(id, x.Log()) && !Between(id, x.Log(), |x.kept| + 1, |x.kept| + |x.range|)
  {
    hide IdOf;
    var k: nat :| 0 < k <= |x.kept| && id == IdOf(x.kept[..k]);
    assert x.Log()[..k] == x.kept[..k];
    NotBetween(x.Log(), k, |x.kept| + 1, |x.kept| + |x.range|);
  }

  lemma OldIsOutside(x: Split, id: Id)
    requires x.range != [] && IsOld(x, id, 0)
    ensures |x.Log()| == |x.kept| + |x.range| + |x.newer|
    ensures IsPrefixId(id, x.Log()) && !Between(id, x.Log(), |x.kept| + 1, |x.kept| + |x.range|)
  {
    hide IdOf;
    var b := |x.kept| + |x.range|;
    var m: nat :| 1 <= m <= |x.newer| - 0 && id == x.OldId(m);
    LogParts(x, m);
    assert id == IdOf(x.Log()[..b + m]);
    NotBetween(x.Log(), b + m, |x.kept| + 1, b);
  }

  lemma NoneIsNew(x: Split, id: Id)
    ensures !IsNew(x, id, 0)
  {
  }

  lemma LeftIff(x: Split, id: Id)
    requires x.range != []
    ensures |x.Log()| == |x.kept| + |x.range| + |x.newer|
    ensures IsPrefixId(id, x.Log()) && !Between(id, x.Log(), |x.kept| + 1, |x.kept| + |x.range|)
      <==> IsPrefixId(id, x.kept) || IsOld(x, id, 0)
  {
    hide IdOf, Between, IsOld;
    LogParts(x, 0);
    if IsPrefixId(id, x.Log()) && !Between(id, x.Log(), |x.kept| + 1, |x.kept| + |x.range|) {
      var k: nat :| 0 < k <= |x.Log()| && id == IdOf(x.Log()[..k]);
      OutsideRange(x, k);
    }
    if IsPrefixId(id, x.kept) {
      KeptIsOutside(x, id);
    } else if IsOld(x, id, 0) {
      OldIsOutside(x, id);
    }
  }

  lemma StartsAfterZero(s: Storage, x: Split)
    requires x.range != [] && IsChain(s, x.Log()) && WellKeyed(s.records)
    ensures Oldest(x) in s.records
    ensures After(x, Storage(Deleted(s.records, Newest(x), Oldest(x)), Some(s.records[Oldest(x)].previousId)), 0)
  {
    hide IdOf, x.Log, IsPrefixId, IsOld, IsNew, Between;
    var log, a, b := x.Log(), |x.kept|, |x.kept| + |x.range|;
    RangeIds(x);
    ChainIsWellHashed(s, log);
    assert HasRecord(s.records, log, a + 1);
    IdOfStep(log, a + 1);
    DeletedOnChain(s.records, log, a + 1, b);
    var left := Deleted(s.records, Newest(x), Oldest(x));
    forall id ensures id in left <==> IsPrefixId(id, x.kept) || IsNew(x, id, 0) || IsOld(x, id, 0) {
      NoneIsNew(x, id);
      IdIsPrefix(s, log, id);
      LeftIff(x, id);
    }
  }

  lemma IdIsPrefix(s: Storage, log: seq<Payload>, id: Id)
    requires IsChain(s, log)
    ensures id in s.records <==> IsPrefixId(id, log)
  {
    if IsPrefixId(id, log) {
      var k: nat :| 0 < k <= |log| && id == IdOf(log[..k]);
      assert HasRecord(s.records, log, k);
    }
  }

  // ----- main results

  /** Some newer record, when it is deleted, has the identifier of one that has just been chained again. */
  predicate Collides(x: Split) {
    exists m: nat :: 1 <= m <= |x.newer| && |x.range| + 2 * m <= |x.newer| + 1
      && Reverse(x.newer)[..|x.range| + m] == x.range + x.newer[..m]
  }

  /** Equal identifiers are equal sequences of payloads. */
  lemma SameIdIff(x: Split, m: nat, i: nat)
    requires m <= |x.newer| && i <= |x.newer|
    ensures x.OldId(m) == x.NewId(i) <==> x.range + x.newer[..m] == Reverse(x.newer)[..i]
  {
    var was, now := x.kept + x.range + x.newer[..m], x.kept + Reverse(x.newer)[..i];
    assert was == x.kept + (x.range + x.newer[..m]);
    assert was[|x.kept|..] == x.range + x.newer[..m];
    assert now[|x.kept|..] == Reverse(x.newer)[..i];
    if x.OldId(m) == x.NewId(i) {
      IdOfInjective(was, now);
    }
  }

  lemma CollidesIffKilled(x: Split)
    requires x.range != []
    ensures Collides(x) <==> exists i: nat :: 1 <= i <= |x.newer| && Killed(x, i, |x.newer|)
  {
    hide IdOf;
    var n := |x.newer|;
    if Collides(x) {
      var m: nat :| 1 <= m <= n && |x.range| + 2 * m <= n + 1
        && Reverse(x.newer)[..|x.range| + m] == x.range + x.newer[..m];
      var i := |x.range| + m;
      SameIdIff(x, m, i);
      assert 1 <= m <= n && i <= n - m + 1 <= n && x.OldId(m) == x.NewId(i);
      assert Killed(x, i, n);
    }
    if i: nat :| 1 <= i <= n && Killed(x, i, n) {
      var m: nat :| 1 <= m <= n && i <= n - m + 1 <= n && x.OldId(m) == x.NewId(i);
      SameIdIff(x, m, i);
      assert |x.range + x.newer[..m]| == |Reverse(x.newer)[..i]|;
    }
  }

  lemma NewIdIsPrefix(x: Split, id: Id)
    ensures IsPrefixId(id, x.NewLog())
      <==> IsPrefixId(id, x.kept) || exists i: nat :: 1 <= i <= |x.newer| && id == x.NewId(i)
  {
    var log, a := x.NewLog(), |x.kept|;
    if IsPrefixId(id, log) {
      var k: nat :| 0 < k <= |log| && id == IdOf(log[..k]);
      if k <= a {
        assert log[..k] == x.kept[..k];
      } else {
        assert log[..k] == x.kept + Reverse(x.newer)[..k - a];
        assert 1 <= k - a <= |x.newer| && id == x.NewId(k - a);
      }
    }
    if IsPrefixId(id, x.kept) {
      var k: nat :| 0 < k <= a && id == IdOf(x.kept[..k]);
      assert log[..k] == x.kept[..k];
    }
    if i: nat :| 1 <= i <= |x.newer| && id == x.NewId(i) {
      assert log[..a + i] == x.kept + Reverse(x.newer)[..i];
    }
  }

  lemma WellHashedHolds(records: map<Id, Record>, log: seq<Payload>)
    requires WellHashed(records) && forall id :: IsPrefixId(id, log) ==> id in records
    ensures Holds(records, log)
  {
    forall k: nat | 0 < k <= |log| ensures HasRecord(records, log, k) {
      assert IsPrefixId(IdOf(log[..k]), log);
      IdOfStep(log, k);
    }
  }

  /** What the last loop leaves. */
  lemma EndsAfterAll(x: Split, s: Storage)
    requires x.range != [] && After(x, s, |x.newer|)
    ensures LastId(s) == IdOf(x.NewLog())
    ensures forall id :: id in s.records ==> IsPrefixId(id, x.NewLog())
    ensures IsChain(s, x.NewLog()) <==> !Collides(x)
  {
    var n := |x.newer|;
    assert x.kept + Reverse(x.newer)[..n] == x.NewLog();
    CollidesIffKilled(x);
    forall id | id in s.records ensures IsPrefixId(id, x.NewLog()) {
      NewIdIsPrefix(x, id);
      if IsNew(x, id, n) {
        var i: nat :| 1 <= i <= n && id == x.NewId(i) && !Killed(x, i, n);
      }
    }
    if i: nat :| 1 <= i <= n && Killed(x, i, n) {
      LostRecord(x, s, i);
    } else {
      forall id | IsPrefixId(id, x.NewLog()) ensures id in s.records {
        NewIdIsPrefix(x, id);
        if i: nat :| 1 <= i <= n && id == x.NewId(i) {
          assert !Killed(x, i, n);
          assert IsNew(x, id, n);
        }
      }
      WellHashedHolds(s.records, x.NewLog());
    }
  }

  lemma LostRecord(x: Split, s: Storage, i: nat)
    requires 1 <= i <= |x.newer| && After(x, s, |x.newer|) && Killed(x, i, |x.newer|)
    ensures x.NewId(i) !in s.records && !IsChain(s, x.NewLog())
  {
    var id := x.NewId(i);
    IdsDiffer(x, i, i);
    if IsNew(x, id, |x.newer|) {
      var j: nat :| 1 <= j <= |x.newer| && id == x.NewId(j) && !Killed(x, j, |x.newer|);
      IdsDiffer(x, i, j);
    }
    NewIdIsPrefix(x, id);
    if IsChain(s, x.NewLog()) {
      IdIsPrefix(s, x.NewLog(), id);
    }
  }

  /**
   Deleting a range of a chain leaves the chain of what was kept and of the newer payloads
   in reversed order, and nothing else, exactly when no identifier collides.
   */
  lemma RewriteIsChainIff(s: Storage, x: Split)
    requires x.range != [] && IsChain(s, x.Log()) && WellKeyed(s.records)
    ensures var r := Rewrite(s, Newest(x), Oldest(x));
      && r.Rewritten?
      && LastId(r.storage) == IdOf(x.NewLog())
      && (forall id :: id in r.storage.records ==> IsPrefixId(id, x.NewLog()))
      && (IsChain(r.storage, x.NewLog()) <==> !Collides(x))
  {
    hide IdOf, x.Log, x.NewLog, IsPrefixId, IsChain, After, Collides, Recent, Readded, Newer;
    var log, b := x.Log(), |x.kept| + |x.range|;
    RangeIds(x);
    StartsAfterZero(s, x);
    WalkToRange(s, x);
    var left := Storage(Deleted(s.records, Newest(x), Oldest(x)), Some(s.records[Oldest(x)].previousId));
    var recent := Newer(log, b, |log|);
    assert recent[0..] == recent;
    ReaddAll(x, left, 0);
    EndsAfterAll(x, Readded(left, recent));
  }

  lemma WalkToRange(s: Storage, x: Split)
    requires x.range != [] && IsChain(s, x.Log())
    ensures |x.Log()| == |x.kept| + |x.range| + |x.newer|
    ensures s.lastId.Some? && Newest(x) in s.records
    ensures Recent(s.records, s.lastId.value, Newest(x), {}) == Some(Newer(x.Log(), |x.kept| + |x.range|, |x.Log()|))
  {
    var log, b := x.Log(), |x.kept| + |x.range|;
    RangeIds(x);
    assert HasRecord(s.records, log, b);
    RecentOnChain(s.records, log, b, |log|, {});
  }

  /** Distinct payloads cannot collide: it is enough that the last one is not the first one of the range. */
  lemma DistinctPayloadsNeverCollide(x: Split)
    requires x.range != [] && (x.newer != [] ==> x.newer[|x.newer| - 1] != x.range[0])
    ensures !Collides(x)
  {
    forall m: nat | 1 <= m <= |x.newer| && |x.range| + 2 * m <= |x.newer| + 1
      ensures Reverse(x.newer)[..|x.range| + m] != x.range + x.newer[..m]
    {
      assert Reverse(x.newer)[..|x.range| + m][0] == x.newer[|x.newer| - 1];
      assert (x.range + x.newer[..m])[0] == x.range[0];
    }
  }

  lemma {:induction false} ReverseKeepsPayloads(s: seq<Payload>)
    ensures multiset(Reverse(s)) == multiset(s)
  {
    if s == [] {
      assert Reverse(s) == [];
    } else {
      var rest := s[..|s| - 1];
      assert s == rest + [s[|s| - 1]];
      assert Reverse(s) == [s[|s| - 1]] + Reverse(rest);
      ReverseKeepsPayloads(rest);
    }
  }

  /** No payload is lost but those of the range. */
  lemma OnlyRangeIsLost(x: Split)
    ensures multiset(x.NewLog()) == multiset(x.Log()) - multiset(x.range)
  {
    ReverseKeepsPayloads(x.newer);
  }

  /** Two newer records, the last one a repetition of the deleted one: the chain ends in the void. */
  lemma RepetitionCanLoseARecord(a: Payload, b: Payload, s: Storage)
    requires IsChain(s, [a, b, a]) && WellKeyed(s.records)
    ensures var x := Split([], [a], [b, a]);
      var r := Rewrite(s, Newest(x), Oldest(x));
      r.Rewritten? && LastId(r.storage) == IdOf([a, b]) && !IsChain(r.storage, [a, b])
  {
    var x := Split([], [a], [b, a]);
    assert x.Log() == [a, b, a];
    assert Reverse(x.newer) == [a, b];
    assert x.NewLog() == [a, b];
    assert Reverse(x.newer)[..|x.range| + 1] == [a, b] == x.range + x.newer[..1];
    RewriteIsChainIff(s, x);
  }

  // ----- the object

  class AuditCore {
    var storage: Storage

    constructor (storage: Storage)
      ensures this.storage == storage
    {
      this.storage := storage;
    }

    method Put(record: Record)
      modifies this
      ensures storage == PutRecord(old(storage), record)
    {
      storage := storage.(records := storage.records[record.id := record]);
    }

    method Del(id: Id)
      modifies this
      ensures storage == Dropped(old(storage), id)
    {
      storage := storage.(records := storage.records - {id});
    }

    /** With the lock held. */
    method Add(payload: Payload) returns (record: Record)
      modifies this
      ensures storage == AddUnsafe(old(storage), payload) && record == NewRecord(old(storage), payload)
    {
      var previousId := if storage.lastId.Some? then storage.lastId.value else Null;
      record := Record(Null, previousId, payload);
      record := record.(id := CreateHash(record));
      Put(record);
      storage := storage.(lastId := Some(record.id));
    }

    /** The records walked before `newest`. */
    method RecentRecords(newest: Id) returns (recent: Option<seq<Record>>)
      ensures recent == if storage.lastId.None? then Some([])
        else Recent(storage.records, storage.lastId.value, newest, {})
    {
      if storage.lastId.None? {
        return Some([]);
      }
      var records, id, seen, found := storage.records, storage.lastId.value, {}, [];
      ghost var all := Recent(records, id, newest, seen);
      assert all.Some? ==> [] + all.value == all.value;
      while id in records
        invariant all ==
          (var rest := Recent(records, id, newest, seen); if rest.None? then None else Some(found + rest.value))
        decreases records.Keys - seen
      {
        if id in seen {
          return None;
        }
        var record := records[id];
        if record.id == newest {
          assert found + [] == found;
          return Some(found);
        }
        var rest := Recent(records, record.previousId, newest, seen + {id});
        assert rest.Some? ==> found + ([record] + rest.value) == found + [record] + rest.value;
        id, seen, found := record.previousId, seen + {id}, found + [record];
      }
      assert found + [] == found;
      return Some(found);
    }

    method DeleteRange(newest: Id, oldest: Id)
      requires WellKeyed(storage.records)
      modifies this
      ensures storage == old(storage).(records := Deleted(old(storage).records, newest, oldest))
    {
      var id := newest;
      while id in storage.records
        invariant WellKeyed(storage.records) && storage.lastId == old(storage).lastId
        invariant Deleted(storage.records, id, oldest) == Deleted(old(storage).records, newest, oldest)
        decreases storage.records.Keys
      {
        var record := storage.records[id];
        Del(record.id);
        if record.id == oldest {
          return;
        }
        id := record.previousId;
      }
    }

    method DeleteRangeAndRewrite(newest: Id, oldest: Id) returns (o: Outcome)
      requires WellKeyed(storage.records)
      modifies this
      ensures o == Rewrite(old(storage), newest, oldest)
      ensures storage == if o.Rewritten? then o.storage else old(storage)
    {
      if newest !in storage.records || oldest !in storage.records {
        return AssertionFailed;
      }
      var oldestRecord := storage.records[oldest];
      var recent := RecentRecords(newest);
      if recent.None? {
        return NeverEnds;
      }
      DeleteRange(newest, oldest);
      storage := storage.(lastId := Some(oldestRecord.previousId));
      ghost var left := storage;
      var i := 0;
      while i < |recent.value|
        invariant i <= |recent.value|
        invariant Readded(left, recent.value) == Readded(storage, recent.value[i..])
      {
        var record := Add(recent.value[i].payload);
        Del(recent.value[i].id);
        assert recent.value[i..][1..] == recent.value[i + 1..];
        i := i + 1;
      }
      assert recent.value[0..] == recent.value;
      return Rewritten(storage);
    }
  }
}
