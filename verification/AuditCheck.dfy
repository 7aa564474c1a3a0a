/** Checking a stretch of the audit log, whatever has happened to the storage. */
module AuditCheck {
  import opened Basics
  import opened AuditChain

  /** How a walk with `getFrom` ends: the source has no guard against a cycle and never returns from one. */
  datatype Walk = Found | Ended | Endless

  datatype Verdict =
    | Valid(count: nat)
    | Missing(id: Id, count: nat)
    | Altered(id: Id, count: nat, record: Record)
    | Hangs

  /** Looking for a record by its field `id` along the previous identifiers; `seen` has been passed already. */
  function Seek(records: map<Id, Record>, id: Id, target: Id, seen: set<Id>): Walk
    decreases records.Keys - seen
  {
    if id !in records then Ended
    else if id in seen then Endless
    else if records[id].id == target then Found
    else Seek(records, records[id].previousId, target, seen + {id})
  }

  /** The loop over the stretch; a genuine record precedes its own hash, so that it ends. */
  function CheckFrom(records: map<Id, Record>, oldest: Id, newest: Id, count: nat): Verdict
    decreases newest
  {
    if newest == oldest then Valid(count)
    else if newest !in records then Missing(newest, count)
    else if newest != CreateHash(records[newest]) then Altered(newest, count, records[newest])
    else CheckFrom(records, oldest, records[newest].previousId, count + 1)
  }

  function Check(s: Storage, oldest: Id, newest: Id): Verdict {
    if s.lastId == Some(newest) then CheckFrom(s.records, oldest, newest, 0)
    else if s.lastId.None? then Missing(newest, 0)
    else
      match Seek(s.records, s.lastId.value, newest, {})
      case Found => CheckFrom(s.records, oldest, newest, 0)
      case Ended => Missing(newest, 0)
      case Endless => Hangs
  }

  // ----- what the check finds

  /** The record of rank `k` is there with its content, whatever its field `id`. */
  ghost predicate Genuine(records: map<Id, Record>, log: seq<Payload>, k: nat)
    requires 0 < k <= |log|
  {
    IdOf(log[..k]) in records && CreateHash(records[IdOf(log[..k])]) == IdOf(log[..k])
  }

  lemma {:induction false} SameIds(log: seq<Payload>, i: nat, j: nat)
    requires i <= |log| && j <= |log| && IdOf(log[..i]) == IdOf(log[..j])
    ensures i == j
  {
    IdOfInjective(log[..i], log[..j]);
    assert |log[..i]| == i && |log[..j]| == j;
  }

  /** A genuine record leads the loop to the one before. */
  lemma CheckStep(records: map<Id, Record>, log: seq<Payload>, oldest: Id, j: nat, count: nat)
    requires 0 < j <= |log| && Genuine(records, log, j) && oldest != IdOf(log[..j])
    ensures CheckFrom(records, oldest, IdOf(log[..j]), count)
      == CheckFrom(records, oldest, IdOf(log[..j - 1]), count + 1)
  {
    IdOfStep(log, j);
  }

  /** An intact stretch is found valid, with its length. */
  lemma {:induction false} IntactIsValid(records: map<Id, Record>, log: seq<Payload>, i: nat, j: nat, count: nat)
    requires i <= j <= |log|
    requires forall k: nat :: i < k <= j ==> Genuine(records, log, k)
    ensures CheckFrom(records, IdOf(log[..i]), IdOf(log[..j]), count) == Valid(count + j - i)
    decreases j
  {
    if i < j {
      if IdOf(log[..i]) == IdOf(log[..j]) {
        SameIds(log, i, j);
      }
      CheckStep(records, log, IdOf(log[..i]), j, count);
      IntactIsValid(records, log, i, j - 1, count + 1);
    }
  }

  function Report(records: map<Id, Record>, id: Id, count: nat): Verdict {
    if id in records then Altered(id, count, records[id]) else Missing(id, count)
  }

  /** The newest damage is reported, with the number of valid records after it. */
  lemma {:induction false} DamageIsReported(records: map<Id, Record>, log: seq<Payload>, i: nat, k: nat, j: nat,
                                            count: nat)
    requires i < k <= j <= |log|
    requires !Genuine(records, log, k) && forall m: nat :: k < m <= j ==> Genuine(records, log, m)
    ensures CheckFrom(records, IdOf(log[..i]), IdOf(log[..j]), count) == Report(records, IdOf(log[..k]), count + j - k)
    decreases j
  {
    if IdOf(log[..i]) == IdOf(log[..j]) {
      SameIds(log, i, j);
    }
    if k < j {
      CheckStep(records, log, IdOf(log[..i]), j, count);
      DamageIsReported(records, log, i, k, j - 1, count + 1);
    }
  }

  /** The newest record of the stretch that is not genuine, if there is one. */
  lemma {:induction false} NewestDamage(records: map<Id, Record>, log: seq<Payload>, i: nat, j: nat) returns (k: nat)
    requires i < j <= |log| && exists m: nat :: i < m <= j && !Genuine(records, log, m)
    ensures i < k <= j && !Genuine(records, log, k) && forall m: nat :: k < m <= j ==> Genuine(records, log, m)
    decreases j
  {
    if Genuine(records, log, j) {
      k := NewestDamage(records, log, i, j - 1);
    } else {
      k := j;
    }
  }

  /**
   From the newest record down, the check accepts exactly the intact stretches that end at
   the oldest identifier, and returns their length.
   */
  lemma {:induction false} ValidIff(records: map<Id, Record>, log: seq<Payload>, oldest: Id, j: nat, count: nat, n: nat)
    requires j <= |log|
    ensures CheckFrom(records, oldest, IdOf(log[..j]), count) == Valid(n) <==>
      exists i: nat :: i <= j && oldest == IdOf(log[..i]) && n == count + j - i && Intact(records, log, i, j)
    decreases j
  {
    hide CheckFrom, IdOf, Genuine;
    if i: nat :| i <= j && oldest == IdOf(log[..i]) && n == count + j - i && Intact(records, log, i, j) {
      IntactIsValid(records, log, i, j, count);
    }
    if CheckFrom(records, oldest, IdOf(log[..j]), count) == Valid(n) {
      if oldest != IdOf(log[..j]) {
        PassedIsGenuine(records, log, oldest, j, count, n);
        CheckStep(records, log, oldest, j, count);
        ValidIff(records, log, oldest, j - 1, count + 1, n);
        var i: nat :| i <= j - 1 && oldest == IdOf(log[..i]) && n == count + 1 + j - 1 - i
          && Intact(records, log, i, j - 1);
        assert forall k: nat :: i < k <= j ==> k == j || Genuine(records, log, k);
        assert Intact(records, log, i, j);
      } else {
        assert n == count + j - j && Intact(records, log, j, j) by {
          EndIsCounted(records, oldest, count, n);
        }
      }
    }
  }

  /** No record of the stretch is damaged. */
  ghost predicate Intact(records: map<Id, Record>, log: seq<Payload>, i: nat, j: nat)
    requires j <= |log|
  {
    forall k: nat :: i < k <= j ==> Genuine(records, log, k)
  }

  lemma EndIsCounted(records: map<Id, Record>, oldest: Id, count: nat, n: nat)
    requires CheckFrom(records, oldest, oldest, count) == Valid(n)
    ensures n == count
  {
  }

  lemma PassedIsGenuine(records: map<Id, Record>, log: seq<Payload>, oldest: Id, j: nat, count: nat, n: nat)
    requires j <= |log| && CheckFrom(records, oldest, IdOf(log[..j]), count) == Valid(n) && oldest != IdOf(log[..j])
    ensures j > 0 && Genuine(records, log, j)
  {
  }

  // ----- the walk to the newest record of the stretch

  ghost predicate SeenAbove(seen: set<Id>, log: seq<Payload>, m: nat) {
    forall id :: id in seen ==> exists x: nat :: m < x <= |log| && id == IdOf(log[..x])
  }

  /** Down an intact chain the walk reaches the target, and sees whether its record is there. */
  lemma {:induction false} SeekDown(records: map<Id, Record>, log: seq<Payload>, j: nat, m: nat, seen: set<Id>)
    requires 0 < j <= m <= |log| && SeenAbove(seen, log, m)
    requires forall k: nat :: j < k <= m ==> HasRecord(records, log, k)
    requires IdOf(log[..j]) in records ==> records[IdOf(log[..j])].id == IdOf(log[..j])
    ensures Seek(records, IdOf(log[..m]), IdOf(log[..j]), seen) == if IdOf(log[..j]) in records then Found else Ended
    decreases m
  {
    var id := IdOf(log[..m]);
    if id in seen {
      var x: nat :| m < x <= |log| && id == IdOf(log[..x]);
      SameIds(log, m, x);
    }
    if j < m {
      assert HasRecord(records, log, m);
      if id == IdOf(log[..j]) {
        SameIds(log, m, j);
      }
      assert SeenAbove(seen + {id}, log, m - 1) by {
        forall other | other in seen + {id} ensures exists x: nat :: m - 1 < x <= |log| && other == IdOf(log[..x]) {
          if other == id {
            assert m - 1 < m <= |log|;
          } else {
            var x: nat :| m < x <= |log| && other == IdOf(log[..x]);
          }
        }
      }
      SeekDown(records, log, j, m - 1, seen + {id});
    }
  }

  lemma HoldsIsGenuine(records: map<Id, Record>, log: seq<Payload>, k: nat)
    requires 0 < k <= |log| && HasRecord(records, log, k)
    ensures Genuine(records, log, k)
  {
    IdOfStep(log, k);
  }

  /** Above an intact part of the chain the search for the newest record changes nothing. */
  lemma NewestIsReached(s: Storage, log: seq<Payload>, oldest: Id, j: nat)
    requires LastId(s) == IdOf(log) && 0 < j <= |log| && oldest != IdOf(log[..j])
    requires forall k: nat :: j < k <= |log| ==> HasRecord(s.records, log, k)
    requires IdOf(log[..j]) in s.records ==> s.records[IdOf(log[..j])].id == IdOf(log[..j])
    ensures Check(s, oldest, IdOf(log[..j])) == CheckFrom(s.records, oldest, IdOf(log[..j]), 0)
  {
    SeekDown(s.records, log, j, |log|, {});
    assert log[..|log|] == log;
  }

  lemma HeldAreGenuine(records: map<Id, Record>, log: seq<Payload>, k: nat, j: nat)
    requires k <= j <= |log| && forall m: nat :: k < m <= j ==> HasRecord(records, log, m)
    ensures forall m: nat :: k < m <= j ==> Genuine(records, log, m)
  {
    forall m: nat | k < m <= j ensures Genuine(records, log, m) {
      HoldsIsGenuine(records, log, m);
    }
  }

  lemma DamageBelowHeld(records: map<Id, Record>, log: seq<Payload>, i: nat, k: nat, j: nat)
    requires i < k <= j <= |log| && !Genuine(records, log, k)
    requires forall m: nat :: k < m <= |log| ==> HasRecord(records, log, m)
    ensures CheckFrom(records, IdOf(log[..i]), IdOf(log[..j]), 0) == Report(records, IdOf(log[..k]), j - k)
  {
    HeldAreGenuine(records, log, k, j);
    DamageIsReported(records, log, i, k, j, 0);
  }

  lemma RecordHasItsId(records: map<Id, Record>, log: seq<Payload>, k: nat, j: nat)
    requires 0 < k <= j <= |log| && (k < j ==> HasRecord(records, log, j))
    requires IdOf(log[..k]) in records ==> records[IdOf(log[..k])].id == IdOf(log[..k])
    ensures IdOf(log[..j]) in records ==> records[IdOf(log[..j])].id == IdOf(log[..j])
  {
  }

  lemma IdsDiffer(log: seq<Payload>, i: nat, j: nat)
    requires i < j <= |log|
    ensures IdOf(log[..i]) != IdOf(log[..j])
  {
    if IdOf(log[..i]) == IdOf(log[..j]) {
      SameIds(log, i, j);
    }
  }

  lemma HeldIsReached(s: Storage, log: seq<Payload>, i: nat, k: nat, j: nat)
    requires LastId(s) == IdOf(log) && i < k <= j <= |log|
    requires forall m: nat :: k < m <= |log| ==> HasRecord(s.records, log, m)
    requires IdOf(log[..k]) in s.records ==> s.records[IdOf(log[..k])].id == IdOf(log[..k])
    ensures Check(s, IdOf(log[..i]), IdOf(log[..j])) == CheckFrom(s.records, IdOf(log[..i]), IdOf(log[..j]), 0)
  {
    hide *;
    IdsDiffer(log, i, j);
    RecordHasItsId(s.records, log, k, j);
    NewestIsReached(s, log, IdOf(log[..i]), j);
  }

  // ----- main results

  /** Between any two identifiers of a chain the check returns the distance. */
  lemma ChainIsValid(s: Storage, log: seq<Payload>, i: nat, j: nat)
    requires LastId(s) == IdOf(log) && Holds(s.records, log) && i <= j <= |log| && 0 < j
    ensures Check(s, IdOf(log[..i]), IdOf(log[..j])) == Valid(j - i)
  {
    forall k: nat | i < k <= j ensures Genuine(s.records, log, k) {
      HoldsIsGenuine(s.records, log, k);
    }
    IntactIsValid(s.records, log, i, j, 0);
    assert HasRecord(s.records, log, j);
    assert log[..|log|] == log;
    SeekDown(s.records, log, j, |log|, {});
  }

  /** The empty stretch before the first record is an exception: it is only valid when the log has been emptied. */
  lemma BeforeTheFirstIsValidIff(s: Storage, log: seq<Payload>)
    requires IsChain(s, log)
    ensures Check(s, Null, Null) == if s.lastId == Some(Null) then Valid(0) else Missing(Null, 0)
  {
    if s.lastId.Some? && s.lastId.value != Null {
      SeekNull(s.records, log, |log|, {});
      assert log[..|log|] == log;
    }
  }

  lemma {:induction false} SeekNull(records: map<Id, Record>, log: seq<Payload>, m: nat, seen: set<Id>)
    requires m <= |log| && SeenAbove(seen, log, m) && Holds(records, log)
    requires forall id :: id in records ==> IsPrefixId(id, log)
    ensures Seek(records, IdOf(log[..m]), Null, seen) == Ended
    decreases m
  {
    var id := IdOf(log[..m]);
    if id in seen {
      var x: nat :| m < x <= |log| && id == IdOf(log[..x]);
      SameIds(log, m, x);
    }
    if id in records {
      var x: nat :| 0 < x <= |log| && id == IdOf(log[..x]);
      SameIds(log, m, x);
      assert HasRecord(records, log, m);
      assert SeenAbove(seen + {id}, log, m - 1) by {
        forall other | other in seen + {id} ensures exists x: nat :: m - 1 < x <= |log| && other == IdOf(log[..x]) {
          if other == id {
            assert m - 1 < m <= |log|;
          } else {
            var x: nat :| m < x <= |log| && other == IdOf(log[..x]);
          }
        }
      }
      SeekNull(records, log, m - 1, seen + {id});
    }
  }

  /** ... in particular after any calls of `add`, in whatever interleaving and with whatever failures. */
  lemma AddsThenCheck(run: seq<State>, log0: seq<Payload>, i: nat, j: nat)
    requires IsRun(run, log0)
    requires var log := log0 + Added(run[|run| - 1].calls); i <= j <= |log| && 0 < j
    ensures var s := run[|run| - 1];
      var log := log0 + Added(s.calls);
      Check(s.storage, IdOf(log[..i]), IdOf(log[..j])) == Valid(j - i)
  {
    var s := run[|run| - 1];
    AddsExtendTheChain(run, log0, |run| - 1);
    ChainIsValid(s.storage, log0 + Added(s.calls), i, j);
  }

  /**
   A record of the stretch that is removed, or replaced by another one put under the same
   identifier, is reported wherever it is, whatever has become of the older ones.
   */
  lemma DamageIsFound(s: Storage, log: seq<Payload>, i: nat, k: nat, j: nat)
    requires LastId(s) == IdOf(log) && i < k <= j <= |log|
    requires forall m: nat :: k < m <= |log| ==> HasRecord(s.records, log, m)
    requires IdOf(log[..k]) in s.records ==> s.records[IdOf(log[..k])].id == IdOf(log[..k])
    requires !Genuine(s.records, log, k)
    ensures Check(s, IdOf(log[..i]), IdOf(log[..j])) == Report(s.records, IdOf(log[..k]), j - k)
  {
    DamageBelowHeld(s.records, log, i, k, j);
    HeldIsReached(s, log, i, k, j);
  }

  /** Each record is stored under its field `id`, as `put` does. */
  ghost predicate WellKeyed(records: map<Id, Record>) {
    forall id :: id in records ==> records[id].id == id
  }

  /** No stretch with a damaged record passes. */
  lemma DamagedIsNeverValid(s: Storage, log: seq<Payload>, i: nat, j: nat)
    requires i < j <= |log| && exists m: nat :: i < m <= j && !Genuine(s.records, log, m)
    ensures !Check(s, IdOf(log[..i]), IdOf(log[..j])).Valid?
  {
    hide Genuine, Seek;
    var m: nat :| i < m <= j && !Genuine(s.records, log, m);
    var verdict := CheckFrom(s.records, IdOf(log[..i]), IdOf(log[..j]), 0);
    if verdict.Valid? {
      ValidIff(s.records, log, IdOf(log[..i]), j, 0, verdict.count);
      var x: nat :| x <= j && IdOf(log[..i]) == IdOf(log[..x]) && verdict.count == j - x
        && Intact(s.records, log, x, j);
      SameIds(log, i, x);
    }
  }

  /**
   A damaged stretch never passes; when the records above it are genuine, the newest damage is
   reported, with the number of genuine records of the stretch above it.
   */
  lemma AnyDamageIsFound(s: Storage, log: seq<Payload>, i: nat, j: nat) returns (k: nat)
    requires LastId(s) == IdOf(log) && i < j <= |log| && WellKeyed(s.records)
    requires exists m: nat :: i < m <= j && !Genuine(s.records, log, m)
    ensures i < k <= j && !Genuine(s.records, log, k) && forall m: nat :: k < m <= j ==> Genuine(s.records, log, m)
    ensures !Check(s, IdOf(log[..i]), IdOf(log[..j])).Valid?
    ensures (forall m: nat :: j < m <= |log| ==> Genuine(s.records, log, m)) ==>
      Check(s, IdOf(log[..i]), IdOf(log[..j])) == Report(s.records, IdOf(log[..k]), j - k)
  {
    hide Check;
    k := NewestDamage(s.records, log, i, j);
    DamagedIsNeverValid(s, log, i, j);
    if forall m: nat :: j < m <= |log| ==> Genuine(s.records, log, m) {
      forall m: nat | k < m <= |log| ensures HasRecord(s.records, log, m) {
        GenuineIsHeld(s.records, log, m);
      }
      DamageIsFound(s, log, i, k, j);
    }
  }

  lemma GenuineIsHeld(records: map<Id, Record>, log: seq<Payload>, k: nat)
    requires 0 < k <= |log| && WellKeyed(records) && Genuine(records, log, k)
    ensures HasRecord(records, log, k)
  {
    IdOfStep(log, k);
  }

  // ----- the loops

  /** The walk, as the loop over `getFrom` makes it. */
  method SeekLoop(records: map<Id, Record>, newest: Id, target: Id) returns (w: Walk)
    ensures w == Seek(records, newest, target, {})
  {
    var id, seen := newest, {};
    while id in records
      invariant Seek(records, newest, target, {}) == Seek(records, id, target, seen)
      decreases records.Keys - seen
    {
      if id in seen {
        return Endless;
      }
      if records[id].id == target {
        return Found;
      }
      id, seen := records[id].previousId, seen + {id};
    }
    return Ended;
  }

  method CheckIntegrity(s: Storage, oldest: Id, newest: Id) returns (v: Verdict)
    ensures v == Check(s, oldest, newest)
  {
    if s.lastId != Some(newest) {
      if s.lastId.None? {
        return Missing(newest, 0);
      }
      var w := SeekLoop(s.records, s.lastId.value, newest);
      if w.Endless? {
        return Hangs;
      }
      if w.Ended? {
        return Missing(newest, 0);
      }
    }
    var nValid := 0;
    var id := newest;
    while id != oldest
      invariant CheckFrom(s.records, oldest, newest, 0) == CheckFrom(s.records, oldest, id, nValid)
      decreases id
    {
      if id !in s.records {
        return Missing(id, nValid);
      }
      var record := s.records[id];
      if id != CreateHash(record) {
        return Altered(id, nValid, record);
      }
      id, nValid := record.previousId, nValid + 1;
    }
    return Valid(nValid);
  }
}
