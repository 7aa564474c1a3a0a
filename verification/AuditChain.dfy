/**
 The audit log: records chained by their hashes, appended by concurrent calls of `add`
 that are serialised by a lock made of promises.

 Identifiers are symbolic: the hash of a record is a term of its content, so that distinct
 contents have distinct hashes and no record precedes itself.
 */
module AuditChain {
  import opened Basics

  /**
   The data, event, subject and time of a record, as far as the hash covers them: it leaves
   out the keys named `id` at every depth.
   */
  type Payload = string

  /** `Other`: a string that is not the hash of any record. */
  datatype Id = Null | Hash(previousId: Id, payload: Payload) | Other(text: string)

  datatype Record = Record(id: Id, previousId: Id, payload: Payload)

  datatype Storage = Storage(records: map<Id, Record>, lastId: Option<Id>)

  /** The hash does not cover the field `id`. */
  function CreateHash(r: Record): Id {
    Hash(r.previousId, r.payload)
  }

  /** `getLastId() ?? NULL_ID` */
  function LastId(s: Storage): Id {
    if s.lastId.Some? then s.lastId.value else Null
  }

  function NewRecord(s: Storage, payload: Payload): Record {
    Record(Hash(LastId(s), payload), LastId(s), payload)
  }

  function PutRecord(s: Storage, r: Record): Storage {
    s.(records := s.records[r.id := r])
  }

  function SetLastId(s: Storage, id: Id): Storage {
    s.(lastId := Some(id))
  }

  /** `_addUnsafe`, when no operation of the storage fails. */
  function AddUnsafe(s: Storage, payload: Payload): Storage {
    var r := NewRecord(s, payload);
    SetLastId(PutRecord(s, r), r.id)
  }

  // ----- chains

  /** The identifier of the last record of a chain with these payloads, oldest first. */
  function IdOf(log: seq<Payload>): (id: Id)
    ensures id.Null? <==> log == []
    ensures !id.Other?
  {
    if log == [] then Null else Hash(IdOf(log[..|log| - 1]), log[|log| - 1])
  }

  function RecordAt(log: seq<Payload>, k: nat): Record
    requires 0 < k <= |log|
  {
    Record(IdOf(log[..k]), IdOf(log[..k - 1]), log[k - 1])
  }

  ghost predicate HasRecord(records: map<Id, Record>, log: seq<Payload>, k: nat)
    requires 0 < k <= |log|
  {
    IdOf(log[..k]) in records && records[IdOf(log[..k])] == RecordAt(log, k)
  }

  ghost predicate Holds(records: map<Id, Record>, log: seq<Payload>) {
    forall k: nat :: 0 < k <= |log| ==> HasRecord(records, log, k)
  }

  ghost predicate IsPrefixId(id: Id, log: seq<Payload>) {
    exists k: nat :: 0 < k <= |log| && id == IdOf(log[..k])
  }

  /** The storage holds the records of the chain, whose last one is the newest, and nothing else. */
  ghost predicate IsChain(s: Storage, log: seq<Payload>) {
    && LastId(s) == IdOf(log)
    && Holds(s.records, log)
    && forall id :: id in s.records ==> IsPrefixId(id, log)
  }

  /** No record has two successors. */
  ghost predicate NoFork(records: map<Id, Record>) {
    forall a, b :: a in records && b in records && records[a].previousId == records[b].previousId ==> a == b
  }

  lemma {:induction false} IdOfInjective(a: seq<Payload>, b: seq<Payload>)
    requires IdOf(a) == IdOf(b)
    ensures a == b
  {
    if a != [] && b != [] {
      IdOfInjective(a[..|a| - 1], b[..|b| - 1]);
      assert a == a[..|a| - 1] + [a[|a| - 1]];
      assert b == b[..|b| - 1] + [b[|b| - 1]];
    }
  }

  lemma IdOfStep(log: seq<Payload>, k: nat)
    requires 0 < k <= |log|
    ensures IdOf(log[..k]) == Hash(IdOf(log[..k - 1]), log[k - 1])
  {
    assert log[..k][..k - 1] == log[..k - 1];
  }

  lemma IdOfAppend(log: seq<Payload>, payload: Payload)
    ensures IdOf(log + [payload]) == Hash(IdOf(log), payload)
    ensures forall k: nat :: k <= |log| ==> (log + [payload])[..k] == log[..k]
    ensures (log + [payload])[..|log| + 1] == log + [payload]
  {
    var longer := log + [payload];
    assert longer[..|longer| - 1] == log && longer[|longer| - 1] == payload;
    assert longer[..|log| + 1] == longer;
    forall k: nat | k <= |log| ensures longer[..k] == log[..k] {
    }
  }

  /** The record put by an add completes the chain with its payload. */
  lemma HoldsAppend(records: map<Id, Record>, log: seq<Payload>, payload: Payload)
    requires Holds(records, log)
    ensures var r := Record(Hash(IdOf(log), payload), IdOf(log), payload);
      Holds(records[r.id := r], log) && Holds(records[r.id := r], log + [payload])
  {
    var r := Record(Hash(IdOf(log), payload), IdOf(log), payload);
    var longer := log + [payload];
    var after := records[r.id := r];
    IdOfAppend(log, payload);
    forall k: nat | 0 < k <= |longer| ensures HasRecord(after, longer, k) {
      if k <= |log| {
        assert HasRecord(records, log, k);
        if IdOf(longer[..k]) == r.id {
          IdOfInjective(log[..k], longer);
        }
      }
    }
    forall k: nat | 0 < k <= |log| ensures HasRecord(after, log, k) {
      assert HasRecord(after, longer, k);
    }
  }

  lemma AddUnsafeExtends(s: Storage, log: seq<Payload>, payload: Payload)
    requires IsChain(s, log)
    ensures IsChain(AddUnsafe(s, payload), log + [payload])
  {
    IdOfAppend(log, payload);
    HoldsAppend(s.records, log, payload);
    var s', longer := AddUnsafe(s, payload), log + [payload];
    forall id | id in s'.records ensures IsPrefixId(id, longer) {
      if id in s.records {
        var k: nat :| 0 < k <= |log| && id == IdOf(log[..k]);
        assert id == IdOf(longer[..k]);
      } else {
        assert id == IdOf(longer[..|longer|]);
      }
    }
  }

  /** Along a chain the previous identifiers are distinct. */
  lemma ChainHasNoFork(s: Storage, log: seq<Payload>)
    requires IsChain(s, log)
    ensures NoFork(s.records)
  {
    forall a, b | a in s.records && b in s.records && s.records[a].previousId == s.records[b].previousId
      ensures a == b
    {
      var j: nat :| 0 < j <= |log| && a == IdOf(log[..j]);
      var k: nat :| 0 < k <= |log| && b == IdOf(log[..k]);
      assert HasRecord(s.records, log, j) && HasRecord(s.records, log, k);
      IdOfInjective(log[..j - 1], log[..k - 1]);
      assert |log[..j - 1]| == |log[..k - 1]|;
    }
  }

  // ----- the lock

  /** How far a call of `add` has come; `Done(ok)`: its lock is released. */
  datatype Phase =
    | Waiting
    | Reading
    | Putting(record: Record)
    | Linking(record: Record)
    | Linked
    | Done(ok: bool)

  /** Calls are numbered in the order of their calls of `acquireLock`. */
  datatype Call = Call(payload: Payload, phase: Phase)

  /** A record was put when the chain had that many payloads. */
  datatype Attempt = Attempt(position: nat, payload: Payload)

  datatype State = State(
    calls: seq<Call>,
    storage: Storage,
    log: seq<Payload>,   // history: the payloads chained so far
    orphans: set<Id>,    // history: the records put by a call that failed to link them
    puts: seq<Attempt>)  // history: the records put

  datatype Event =
    | Acquire(payload: Payload)
    | Enter(call: nat)
    | Read(call: nat)
    | Put(call: nat)
    | Link(call: nat)
    | Release(call: nat)
    | Fail(call: nat)

  predicate Enabled(s: State, e: Event) {
    match e
    case Acquire(_) => true
    // the promise of the previous call has been resolved
    case Enter(t) => t < |s.calls| && s.calls[t].phase.Waiting? && (t == 0 || s.calls[t - 1].phase.Done?)
    case Read(t) => t < |s.calls| && s.calls[t].phase.Reading?
    case Put(t) => t < |s.calls| && s.calls[t].phase.Putting?
    case Link(t) => t < |s.calls| && s.calls[t].phase.Linking?
    case Release(t) => t < |s.calls| && s.calls[t].phase.Linked?
    // an operation of the storage rejects; the lock is released all the same
    case Fail(t) =>
      && t < |s.calls|
      && (s.calls[t].phase.Reading? || s.calls[t].phase.Putting? || s.calls[t].phase.Linking?)
  }

  function Moved(s: State, t: nat, phase: Phase): State
    requires t < |s.calls|
  {
    s.(calls := s.calls[t := s.calls[t].(phase := phase)])
  }

  function Step(s: State, e: Event): State
    requires Enabled(s, e)
  {
    match e
    case Acquire(payload) => s.(calls := s.calls + [Call(payload, Waiting)])
    case Enter(t) => Moved(s, t, Reading)
    case Read(t) => Moved(s, t, Putting(NewRecord(s.storage, s.calls[t].payload)))
    case Put(t) =>
      var r := s.calls[t].phase.record;
      var puts := s.puts + [Attempt(|s.log|, s.calls[t].payload)];
      Moved(s.(storage := PutRecord(s.storage, r), puts := puts), t, Linking(r))
    case Link(t) =>
      var r := s.calls[t].phase.record;
      Moved(s.(storage := SetLastId(s.storage, r.id), log := s.log + [s.calls[t].payload]), t, Linked)
    case Release(t) => Moved(s, t, Done(true))
    case Fail(t) =>
      var p := s.calls[t].phase;
      Moved(s.(orphans := s.orphans + if p.Linking? then {p.record.id} else {}), t, Done(false))
  }

  function Initial(storage: Storage, log: seq<Payload>): State {
    State([], storage, log, {}, [])
  }

  // ----- the invariant

  predicate InTurn(c: Call) {
    !c.phase.Waiting? && !c.phase.Done?
  }

  /** The calls before the one whose turn it is are done, those after it wait. */
  ghost predicate Exclusive(s: State) {
    forall i, j :: 0 <= i < j < |s.calls| && !s.calls[j].phase.Waiting? ==> s.calls[i].phase.Done?
  }

  ghost predicate IsNewest(s: State, r: Record, payload: Payload) {
    r == Record(Hash(IdOf(s.log), payload), IdOf(s.log), payload)
  }

  ghost predicate TurnInv(s: State, c: Call) {
    match c.phase
    case Putting(r) => IsNewest(s, r, c.payload)
    case Linking(r) => IsNewest(s, r, c.payload) && r.id in s.storage.records && s.storage.records[r.id] == r
    case _ => true
  }

  predicate BeingLinked(s: State, id: Id) {
    exists i :: 0 <= i < |s.calls| && s.calls[i].phase.Linking? && s.calls[i].phase.record.id == id
  }

  /** The payloads of the calls that have been linked, in the order of the lock. */
  function Added(calls: seq<Call>): seq<Payload> {
    if calls == [] then []
    else
      var c := calls[|calls| - 1];
      Added(calls[..|calls| - 1]) + if c.phase.Linked? || c.phase == Done(true) then [c.payload] else []
  }

  ghost predicate Inv(s: State, log0: seq<Payload>) {
    && Exclusive(s)
    && (forall i :: 0 <= i < |s.calls| ==> TurnInv(s, s.calls[i]))
    && s.log == log0 + Added(s.calls)
    && LastId(s.storage) == IdOf(s.log)
    && Holds(s.storage.records, s.log)
    && (forall id :: id in s.storage.records ==> IsPrefixId(id, s.log) || id in s.orphans || BeingLinked(s, id))
    && (forall id :: id in s.storage.records
         ==> s.storage.records[id].id == id && id == CreateHash(s.storage.records[id]))
  }

  lemma {:induction false} AddedOfWaiting(calls: seq<Call>, t: nat)
    requires t <= |calls| && forall i :: t <= i < |calls| ==> calls[i].phase.Waiting?
    ensures Added(calls) == Added(calls[..t])
    decreases |calls|
  {
    if t == |calls| {
      assert calls[..t] == calls;
    } else {
      AddedOfWaiting(calls[..|calls| - 1], t);
      assert calls[..|calls| - 1][..t] == calls[..t];
    }
  }

  lemma OthersWait(s: State, t: nat)
    requires Exclusive(s) && t < |s.calls| && !s.calls[t].phase.Done?
    ensures forall i :: t < i < |s.calls| ==> s.calls[i].phase.Waiting?
  {
  }

  /** When the call `t` moves from one phase to another, it is linked or it is not. */
  lemma AddedWhenMoved(s: State, t: nat, phase: Phase)
    requires Exclusive(s) && t < |s.calls| && !s.calls[t].phase.Done?
    ensures Added(Moved(s, t, phase).calls) ==
      Added(s.calls[..t]) + if phase.Linked? || phase == Done(true) then [s.calls[t].payload] else []
  {
    var calls := Moved(s, t, phase).calls;
    OthersWait(s, t);
    AddedOfWaiting(calls, t + 1);
    assert calls[..t + 1][..t] == s.calls[..t];
  }

  lemma AddedNow(s: State, t: nat)
    requires Exclusive(s) && t < |s.calls| && !s.calls[t].phase.Done?
    ensures Added(s.calls) == Added(s.calls[..t]) + if s.calls[t].phase.Linked? then [s.calls[t].payload] else []
  {
    AddedWhenMoved(s, t, s.calls[t].phase);
    assert Moved(s, t, s.calls[t].phase).calls == s.calls;
  }

  lemma MovedExclusive(s: State, t: nat, phase: Phase)
    requires Exclusive(s) && t < |s.calls| && !s.calls[t].phase.Done?
    requires s.calls[t].phase.Waiting? ==> t == 0 || s.calls[t - 1].phase.Done?
    requires phase.Waiting? ==> s.calls[t].phase.Waiting?
    ensures Exclusive(Moved(s, t, phase))
  {
    OthersWait(s, t);
    if t > 0 && s.calls[t].phase.Waiting? {
      assert forall i :: 0 <= i < t - 1 ==> s.calls[i].phase.Done?;
    }
  }

  /** The phase of one call changes, nothing else does; a call that leaves `Linking` has left an orphan. */
  lemma MovedInv(s: State, log0: seq<Payload>, t: nat, phase: Phase, orphans: set<Id>)
    requires Inv(s, log0) && t < |s.calls| && !s.calls[t].phase.Done? && s.orphans <= orphans
    requires s.calls[t].phase.Waiting? ==> t == 0 || s.calls[t - 1].phase.Done?
    requires !phase.Waiting? && !phase.Linking? && (phase.Linked? || phase == Done(true) <==> s.calls[t].phase.Linked?)
    requires phase.Putting? ==> IsNewest(s, phase.record, s.calls[t].payload)
    requires s.calls[t].phase.Linking? ==> s.calls[t].phase.record.id in orphans
    ensures Inv(Moved(s.(orphans := orphans), t, phase), log0)
  {
    var s' := Moved(s.(orphans := orphans), t, phase);
    MovedExclusive(s.(orphans := orphans), t, phase);
    AddedWhenMoved(s, t, phase);
    AddedNow(s, t);
    forall i | 0 <= i < |s'.calls| ensures TurnInv(s', s'.calls[i]) {
      assert TurnInv(s, s.calls[i]);
    }
    forall id | id in s'.storage.records ensures IsPrefixId(id, s'.log) || id in s'.orphans || BeingLinked(s', id) {
      if BeingLinked(s, id) {
        var i :| 0 <= i < |s.calls| && s.calls[i].phase.Linking? && s.calls[i].phase.record.id == id;
        assert i == t || s'.calls[i] == s.calls[i];
      }
    }
  }

  lemma AcquireInv(s: State, log0: seq<Payload>, payload: Payload)
    requires Inv(s, log0)
    ensures Inv(Step(s, Acquire(payload)), log0)
  {
    var s' := Step(s, Acquire(payload));
    AddedOfWaiting(s'.calls, |s.calls|);
    assert s'.calls[..|s.calls|] == s.calls;
    forall id | BeingLinked(s, id) ensures BeingLinked(s', id) {
      var i :| 0 <= i < |s.calls| && s.calls[i].phase.Linking? && s.calls[i].phase.record.id == id;
      assert s'.calls[i] == s.calls[i];
    }
  }

  /** No other call is in turn. */
  lemma OnlyInTurn(s: State, t: nat)
    requires Exclusive(s) && t < |s.calls| && InTurn(s.calls[t])
    ensures forall i :: 0 <= i < |s.calls| && i != t ==> !InTurn(s.calls[i])
  {
  }

  lemma PutTurns(s: State, log0: seq<Payload>, t: nat)
    requires Inv(s, log0) && Enabled(s, Put(t))
    ensures var s' := Step(s, Put(t)); forall i :: 0 <= i < |s'.calls| ==> TurnInv(s', s'.calls[i])
  {
    hide Holds, Added, IdOf;
    OnlyInTurn(s, t);
    assert TurnInv(s, s.calls[t]);
  }

  lemma PutListed(s: State, log0: seq<Payload>, t: nat)
    requires Inv(s, log0) && Enabled(s, Put(t))
    ensures var s' := Step(s, Put(t));
      forall id :: id in s'.storage.records ==> IsPrefixId(id, s'.log) || id in s'.orphans || BeingLinked(s', id)
  {
    hide Holds, Added, IdOf, IsPrefixId;
    var s' := Step(s, Put(t));
    OnlyInTurn(s, t);
    assert s'.calls[t].phase.Linking?;
  }

  lemma PutInv(s: State, log0: seq<Payload>, t: nat)
    requires Inv(s, log0) && Enabled(s, Put(t))
    ensures Inv(Step(s, Put(t)), log0)
  {
    hide IsPrefixId, IdOf, BeingLinked, Holds;
    var r := s.calls[t].phase.record;
    assert TurnInv(s, s.calls[t]);
    MovedExclusive(s, t, Linking(r));
    AddedWhenMoved(s, t, Linking(r));
    AddedNow(s, t);
    HoldsAppend(s.storage.records, s.log, s.calls[t].payload);
    PutTurns(s, log0, t);
    PutListed(s, log0, t);
  }

  lemma LinkTurns(s: State, log0: seq<Payload>, t: nat)
    requires Inv(s, log0) && Enabled(s, Link(t))
    ensures var s' := Step(s, Link(t)); forall i :: 0 <= i < |s'.calls| ==> TurnInv(s', s'.calls[i])
  {
    hide Holds, Added, IdOf;
    OnlyInTurn(s, t);
  }

  lemma LinkListed(s: State, log0: seq<Payload>, t: nat)
    requires Inv(s, log0) && Enabled(s, Link(t))
    ensures var s' := Step(s, Link(t));
      forall id :: id in s'.storage.records ==> IsPrefixId(id, s'.log) || id in s'.orphans || BeingLinked(s', id)
  {
    hide Holds, Added, IdOf;
    var s' := Step(s, Link(t));
    OnlyInTurn(s, t);
    assert TurnInv(s, s.calls[t]);
    IdOfAppend(s.log, s.calls[t].payload);
    forall id | id in s'.storage.records ensures IsPrefixId(id, s'.log) || id in s'.orphans || BeingLinked(s', id) {
      if IsPrefixId(id, s.log) {
        var k: nat :| 0 < k <= |s.log| && id == IdOf(s.log[..k]);
        assert id == IdOf(s'.log[..k]);
      } else if BeingLinked(s, id) {
        assert id == IdOf(s'.log[..|s'.log|]);
      }
    }
  }

  lemma LinkInv(s: State, log0: seq<Payload>, t: nat)
    requires Inv(s, log0) && Enabled(s, Link(t))
    ensures Inv(Step(s, Link(t)), log0)
  {
    hide IsPrefixId, IdOf, BeingLinked, Holds;
    var c := s.calls[t];
    var r := c.phase.record;
    assert TurnInv(s, c);
    MovedExclusive(s, t, Linked);
    AddedWhenMoved(s, t, Linked);
    AddedNow(s, t);
    HoldsAppend(s.storage.records, s.log, c.payload);
    assert s.storage.records[r.id := r] == s.storage.records;
    IdOfAppend(s.log, c.payload);
    LinkTurns(s, log0, t);
    LinkListed(s, log0, t);
  }

  lemma StepInv(s: State, log0: seq<Payload>, e: Event)
    requires Inv(s, log0) && Enabled(s, e)
    ensures Inv(Step(s, e), log0)
  {
    match e
    case Acquire(payload) => AcquireInv(s, log0, payload);
    case Put(t) => PutInv(s, log0, t);
    case Link(t) => LinkInv(s, log0, t);
    case Enter(t) => MovedInv(s, log0, t, Reading, s.orphans);
    case Read(t) => MovedInv(s, log0, t, Putting(NewRecord(s.storage, s.calls[t].payload)), s.orphans);
    case Release(t) => MovedInv(s, log0, t, Done(true), s.orphans);
    case Fail(t) =>
      var p := s.calls[t].phase;
      MovedInv(s, log0, t, Done(false), s.orphans + if p.Linking? then {p.record.id} else {});
  }

  // ----- whole runs

  ghost predicate StepAt(run: seq<State>, i: nat)
    requires i + 1 < |run|
  {
    exists e :: Enabled(run[i], e) && run[i + 1] == Step(run[i], e)
  }

  /** Any calls, any interleaving, any failures, from a storage that holds a chain. */
  ghost predicate IsRun(run: seq<State>, log0: seq<Payload>) {
    && |run| > 0
    && IsChain(run[0].storage, log0) && run[0] == Initial(run[0].storage, log0)
    && forall i: nat :: i + 1 < |run| ==> StepAt(run, i)
  }

  lemma InitialInv(s: Storage, log0: seq<Payload>)
    requires IsChain(s, log0)
    ensures Inv(Initial(s, log0), log0)
  {
    forall id | id in s.records ensures s.records[id].id == id && id == CreateHash(s.records[id]) {
      var k: nat :| 0 < k <= |log0| && id == IdOf(log0[..k]);
      assert HasRecord(s.records, log0, k);
      IdOfStep(log0, k);
    }
    assert log0 + [] == log0;
  }

  lemma {:induction false} RunInv(run: seq<State>, log0: seq<Payload>, i: nat)
    requires IsRun(run, log0) && i < |run|
    ensures Inv(run[i], log0)
  {
    if i == 0 {
      InitialInv(run[0].storage, log0);
    } else {
      RunInv(run, log0, i - 1);
      assert StepAt(run, i - 1);
      var e :| Enabled(run[i - 1], e) && run[i] == Step(run[i - 1], e);
      StepInv(run[i - 1], log0, e);
    }
  }

  /**
   Whatever the interleaving and the failures, the chain walked from the last identifier is
   complete: the old one, then the payloads of the calls that succeeded, in lock order.
   */
  lemma AddsExtendTheChain(run: seq<State>, log0: seq<Payload>, i: nat)
    requires IsRun(run, log0) && i < |run|
    ensures var s := run[i];
      LastId(s.storage) == IdOf(log0 + Added(s.calls)) && Holds(s.storage.records, log0 + Added(s.calls))
  {
    RunInv(run, log0, i);
  }

  /**
   At most one call at a time is between its entry and the release of its lock, and the lock is handed
   on in order.
   */
  lemma OneCallAtATime(run: seq<State>, log0: seq<Payload>, i: nat, t: nat, u: nat)
    requires IsRun(run, log0) && i < |run| && t < u < |run[i].calls|
    ensures !run[i].calls[u].phase.Waiting? ==> run[i].calls[t].phase.Done?
  {
    RunInv(run, log0, i);
  }

  /** With the record being linked, if there is one, the storage is a chain. */
  lemma LinkingCompletesChain(s: State, log0: seq<Payload>, t: nat)
    requires Inv(s, log0) && s.orphans == {} && t < |s.calls| && s.calls[t].phase.Linking?
    ensures IsChain(Storage(s.storage.records, Some(s.calls[t].phase.record.id)), s.log + [s.calls[t].payload])
  {
    hide Added, IdOf;
    var r := s.calls[t].phase.record;
    var longer := s.log + [s.calls[t].payload];
    OnlyInTurn(s, t);
    assert TurnInv(s, s.calls[t]);
    HoldsAppend(s.storage.records, s.log, s.calls[t].payload);
    assert s.storage.records[r.id := r] == s.storage.records;
    IdOfAppend(s.log, s.calls[t].payload);
    forall id | id in s.storage.records ensures IsPrefixId(id, longer) {
      if IsPrefixId(id, s.log) {
        var k: nat :| 0 < k <= |s.log| && id == IdOf(s.log[..k]);
        assert id == IdOf(longer[..k]);
      } else {
        assert id == IdOf(longer[..|longer|]);
      }
    }
  }

  /** As long as no call has failed to link the record it had put, no record has two successors. */
  lemma AddsNeverFork(run: seq<State>, log0: seq<Payload>, i: nat)
    requires IsRun(run, log0) && i < |run| && run[i].orphans == {}
    ensures NoFork(run[i].storage.records)
  {
    hide NoFork, Holds, IsPrefixId, Exclusive, IsRun;
    var s := run[i];
    RunInv(run, log0, i);
    if t: nat :| t < |s.calls| && s.calls[t].phase.Linking? {
      LinkingCompletesChain(s, log0, t);
      ChainHasNoFork(Storage(s.storage.records, Some(s.calls[t].phase.record.id)), s.log + [s.calls[t].payload]);
    } else {
      ChainHasNoFork(s.storage, s.log);
    }
  }

  // ----- which puts make the chain fork

  function IdPut(log: seq<Payload>, a: Attempt): Id
    requires a.position <= |log|
  {
    Hash(IdOf(log[..a.position]), a.payload)
  }

  /** The record of a put follows the chain as it was then. */
  predicate IsPut(records: map<Id, Record>, log: seq<Payload>, low: nat, a: Attempt) {
    && low <= a.position <= |log|
    && IdPut(log, a) in records
    && records[IdPut(log, a)] == Record(IdPut(log, a), IdOf(log[..a.position]), a.payload)
  }

  ghost predicate WasPut(puts: seq<Attempt>, log: seq<Payload>, id: Id) {
    exists a :: a in puts && a.position <= |log| && id == IdPut(log, a)
  }

  /** Every record is in the chain there was at the start or has been put at the end of a later one. */
  ghost predicate PutsInv(s: State, log0: seq<Payload>) {
    && log0 <= s.log
    && (forall a :: a in s.puts ==> IsPut(s.storage.records, s.log, |log0|, a))
    && (forall id :: id in s.storage.records ==> IsPrefixId(id, log0) || WasPut(s.puts, s.log, id))
  }

  lemma PutPuts(s: State, log0: seq<Payload>, t: nat)
    requires Inv(s, log0) && PutsInv(s, log0) && Enabled(s, Put(t))
    ensures PutsInv(Step(s, Put(t)), log0)
  {
    hide IdOf, Added, Holds, Exclusive, IsPrefixId;
    var s' := Step(s, Put(t));
    var a := Attempt(|s.log|, s.calls[t].payload);
    assert TurnInv(s, s.calls[t]);
    assert s.log[..|s.log|] == s.log;
    assert a in s'.puts && IsPut(s'.storage.records, s'.log, |log0|, a);
    forall b | b in s.puts ensures IsPut(s'.storage.records, s'.log, |log0|, b) {
      assert IsPut(s.storage.records, s.log, |log0|, b);
    }
    forall id | id in s'.storage.records ensures IsPrefixId(id, log0) || WasPut(s'.puts, s'.log, id) {
      if id == IdPut(s'.log, a) {
        assert WasPut(s'.puts, s'.log, id);
      } else if WasPut(s.puts, s.log, id) {
        var b :| b in s.puts && b.position <= |s.log| && id == IdPut(s.log, b);
        assert b in s'.puts;
      }
    }
  }

  lemma LinkPuts(s: State, log0: seq<Payload>, t: nat)
    requires PutsInv(s, log0) && Enabled(s, Link(t))
    ensures PutsInv(Step(s, Link(t)), log0)
  {
    hide IdOf, IsPrefixId;
    var s' := Step(s, Link(t));
    forall k: nat | k <= |s.log| ensures s'.log[..k] == s.log[..k] {
    }
    forall a | a in s'.puts ensures IsPut(s'.storage.records, s'.log, |log0|, a) {
      assert IsPut(s.storage.records, s.log, |log0|, a);
    }
    forall id | id in s'.storage.records ensures IsPrefixId(id, log0) || WasPut(s'.puts, s'.log, id) {
      if WasPut(s.puts, s.log, id) {
        var a :| a in s.puts && a.position <= |s.log| && id == IdPut(s.log, a);
        assert id == IdPut(s'.log, a);
      }
    }
  }

  lemma {:induction false} RunPuts(run: seq<State>, log0: seq<Payload>, i: nat)
    requires IsRun(run, log0) && i < |run|
    ensures PutsInv(run[i], log0)
  {
    hide IdOf, Added, Holds, Exclusive, IsPrefixId;
    if i > 0 {
      RunPuts(run, log0, i - 1);
      RunInv(run, log0, i - 1);
      assert StepAt(run, i - 1);
      var e :| Enabled(run[i - 1], e) && run[i] == Step(run[i - 1], e);
      match e
      case Put(t) => PutPuts(run[i - 1], log0, t);
      case Link(t) => LinkPuts(run[i - 1], log0, t);
      case _ =>
    }
  }

  /** Between two records that were linked, one payload only has been put. */
  ghost predicate OnePayloadEach(puts: seq<Attempt>) {
    forall a, b :: a in puts && b in puts && a.position == b.position ==> a.payload == b.payload
  }

  /** Where in the chain a record stands. */
  lemma PlaceOf(s: State, log0: seq<Payload>, id: Id) returns (k: nat)
    requires Inv(s, log0) && PutsInv(s, log0) && id in s.storage.records
    ensures k <= |s.log| && s.storage.records[id].previousId == IdOf(s.log[..k])
    ensures k < |log0| ==> id == IdOf(s.log[..k + 1])
    ensures k >= |log0| ==> exists a :: a in s.puts && a.position == k && id == IdPut(s.log, a)
  {
    hide Holds, Exclusive, Added;
    if IsPrefixId(id, log0) {
      var m: nat :| 0 < m <= |log0| && id == IdOf(log0[..m]);
      k := m - 1;
      IdOfStep(log0, m);
      assert log0[..m] == s.log[..m] && log0[..k] == s.log[..k];
    } else {
      var a :| a in s.puts && a.position <= |s.log| && id == IdPut(s.log, a);
      assert IsPut(s.storage.records, s.log, |log0|, a);
      k := a.position;
    }
  }

  /** Two records have the same predecessor exactly if two different payloads were put at the same position. */
  lemma ForkIff(run: seq<State>, log0: seq<Payload>, i: nat)
    requires IsRun(run, log0) && i < |run|
    ensures NoFork(run[i].storage.records) <==> OnePayloadEach(run[i].puts)
  {
    hide Inv, PutsInv, IsRun, IdOf;
    var s := run[i];
    RunInv(run, log0, i);
    RunPuts(run, log0, i);
    if OnePayloadEach(s.puts) {
      forall x, y | x in s.storage.records && y in s.storage.records
                    && s.storage.records[x].previousId == s.storage.records[y].previousId
        ensures x == y
      {
        var j := PlaceOf(s, log0, x);
        var k := PlaceOf(s, log0, y);
        IdOfInjective(s.log[..j], s.log[..k]);
        assert |s.log[..j]| == |s.log[..k]|;
      }
    } else {
      var a, b :| a in s.puts && b in s.puts && a.position == b.position && a.payload != b.payload;
      PutsAreRecords(s, log0, a);
      PutsAreRecords(s, log0, b);
    }
  }

  lemma PutsAreRecords(s: State, log0: seq<Payload>, a: Attempt)
    requires PutsInv(s, log0) && a in s.puts
    ensures IsPut(s.storage.records, s.log, |log0|, a)
  {
  }

  /** A call that has not ended never keeps the others waiting for ever: some call can move. */
  lemma SomeCallCanMove(run: seq<State>, log0: seq<Payload>, i: nat)
    requires IsRun(run, log0) && i < |run|
    requires exists t :: 0 <= t < |run[i].calls| && !run[i].calls[t].phase.Done?
    ensures exists e :: Enabled(run[i], e) && !e.Acquire? && !e.Fail?
  {
    var s := run[i];
    RunInv(run, log0, i);
    var t :| 0 <= t < |s.calls| && !s.calls[t].phase.Done?;
    t := FirstUnfinished(s.calls, t);
    match s.calls[t].phase
    case Waiting => assert Enabled(s, Enter(t));
    case Reading => assert Enabled(s, Read(t));
    case Putting(_) => assert Enabled(s, Put(t));
    case Linking(_) => assert Enabled(s, Link(t));
    case Linked => assert Enabled(s, Release(t));
  }

  lemma {:induction false} FirstUnfinished(calls: seq<Call>, t: nat) returns (first: nat)
    requires t < |calls| && !calls[t].phase.Done?
    ensures first < |calls| && !calls[first].phase.Done? && (first == 0 || calls[first - 1].phase.Done?)
  {
    if t == 0 || calls[t - 1].phase.Done? {
      first := t;
    } else {
      first := FirstUnfinished(calls, t - 1);
    }
  }

  // ----- a call that fails between its two writes

  ghost predicate Reaches(s: State) {
    exists run: seq<State> :: IsRun(run, []) && run[0].storage == Storage(map[], None) && run[|run| - 1] == s
  }

  lemma ReachInitial()
    ensures Reaches(Initial(Storage(map[], None), []))
  {
    var run := [Initial(Storage(map[], None), [])];
    assert IsChain(run[0].storage, []);
    assert IsRun(run, []);
  }

  lemma ReachStep(s: State, e: Event)
    requires Reaches(s) && Enabled(s, e)
    ensures Reaches(Step(s, e))
  {
    var run: seq<State> :| IsRun(run, []) && run[0].storage == Storage(map[], None) && run[|run| - 1] == s;
    var longer := run + [Step(s, e)];
    forall i: nat | i + 1 < |longer| ensures StepAt(longer, i) {
      if i + 1 < |run| {
        assert StepAt(run, i);
        assert longer[i] == run[i] && longer[i + 1] == run[i + 1];
      } else {
        assert longer[i] == s && longer[i + 1] == Step(s, e);
      }
    }
    assert IsRun(longer, []);
  }

  /** The call made when the others are done puts its record. */
  lemma ReachPut(s: State, payload: Payload) returns (s': State)
    requires Reaches(s) && forall c: Call :: c in s.calls ==> c.phase.Done?
    ensures Reaches(s') && s'.log == s.log && s'.orphans == s.orphans
    ensures s'.puts == s.puts + [Attempt(|s.log|, payload)]
    ensures s'.storage == PutRecord(s.storage, NewRecord(s.storage, payload))
    ensures s'.calls == s.calls + [Call(payload, Linking(NewRecord(s.storage, payload)))]
  {
    var t := |s.calls|;
    ReachStep(s, Acquire(payload));
    var s1 := Step(s, Acquire(payload));
    assert t > 0 ==> s1.calls[t - 1] == s.calls[t - 1] && s.calls[t - 1] in s.calls;
    ReachStep(s1, Enter(t));
    var s2 := Step(s1, Enter(t));
    ReachStep(s2, Read(t));
    var s3 := Step(s2, Read(t));
    ReachStep(s3, Put(t));
    s' := Step(s3, Put(t));
  }

  /** The next record then has the same predecessor as the one that was never linked. */
  lemma FailedLinkCanFork(a: Payload, b: Payload)
    requires a != b
    ensures exists s: State :: Reaches(s) && !NoFork(s.storage.records)
  {
    ReachInitial();
    var s := Initial(Storage(map[], None), []);
    var s1 := ReachPut(s, a);
    ReachStep(s1, Fail(0));
    var s2 := Step(s1, Fail(0));
    var s3 := ReachPut(s2, b);
    assert Hash(Null, a) in s3.storage.records && Hash(Null, b) in s3.storage.records;
  }

  /** The same record put again after its link has failed is no fork. */
  lemma RetryIsNoFork(a: Payload)
    ensures exists s: State :: Reaches(s) && s.orphans != {} && |s.puts| == 2 && NoFork(s.storage.records)
  {
    ReachInitial();
    var s := Initial(Storage(map[], None), []);
    var s1 := ReachPut(s, a);
    ReachStep(s1, Fail(0));
    var s2 := Step(s1, Fail(0));
    var s3 := ReachPut(s2, a);
    assert s3.puts == [Attempt(0, a), Attempt(0, a)];
    var run: seq<State> :| IsRun(run, []) && run[|run| - 1] == s3;
    ForkIff(run, [], |run| - 1);
  }

  // ----- what the events of a run come to

  /** A run with its events. */
  ghost predicate Follows(run: seq<State>, events: seq<Event>, log0: seq<Payload>) {
    && |run| == |events| + 1
    && IsChain(run[0].storage, log0) && run[0] == Initial(run[0].storage, log0)
    && forall i: nat :: i < |events| ==> FollowsAt(run, events, i)
  }

  predicate FollowsAt(run: seq<State>, events: seq<Event>, i: nat)
    requires |run| == |events| + 1 && i < |events|
  {
    Enabled(run[i], events[i]) && run[i + 1] == Step(run[i], events[i])
  }

  /** The payloads that `add` was called with. */
  function Acquired(events: seq<Event>): seq<Payload> {
    if events == [] then []
    else
      var e := events[|events| - 1];
      Acquired(events[..|events| - 1]) + if e.Acquire? then [e.payload] else []
  }

  predicate IsOfCall(e: Event, t: nat) {
    match e
    case Acquire(_) => false
    case Enter(u) => u == t
    case Read(u) => u == t
    case Put(u) => u == t
    case Link(u) => u == t
    case Release(u) => u == t
    case Fail(u) => u == t
  }

  /** What happened to one call. */
  function OfCall(events: seq<Event>, t: nat): seq<Event> {
    if events == [] then []
    else
      var e := events[|events| - 1];
      OfCall(events[..|events| - 1], t) + if IsOfCall(e, t) then [e] else []
  }

  /** The payloads of the calls whose record was linked, in the order of the links. */
  function LinkedPayloads(events: seq<Event>): seq<Payload> {
    if events == [] then []
    else
      var before := events[..|events| - 1];
      LinkedPayloads(before)
      + match events[|events| - 1]
        case Link(t) => if t < |Acquired(before)| then [Acquired(before)[t]] else []
        case _ => []
  }

  /** A call goes through its five steps in order; one of the three operations of the storage may be its last. */
  predicate PhaseIs(phase: Phase, es: seq<Event>, t: nat) {
    match phase
    case Waiting => es == []
    case Reading => es == [Enter(t)]
    case Putting(_) => es == [Enter(t), Read(t)]
    case Linking(_) => es == [Enter(t), Read(t), Put(t)]
    case Linked => es == [Enter(t), Read(t), Put(t), Link(t)]
    case Done(ok) =>
      if ok then es == [Enter(t), Read(t), Put(t), Link(t), Release(t)]
      else es == [Enter(t), Fail(t)] || es == [Enter(t), Read(t), Fail(t)] || FailedToLink(es, t)
  }

  predicate FailedToLink(es: seq<Event>, t: nat) {
    es == [Enter(t), Read(t), Put(t), Fail(t)]
  }

  /** No call has failed to link the record that it had put. */
  ghost predicate NoneFailed(events: seq<Event>, n: nat) {
    forall t: nat :: t < n ==> !FailedToLink(OfCall(events, t), t)
  }

  ghost predicate HistoryIs(s: State, events: seq<Event>, log0: seq<Payload>) {
    && |s.calls| == |Acquired(events)|
    && (forall t: nat :: t < |s.calls| ==>
          s.calls[t].payload == Acquired(events)[t] && PhaseIs(s.calls[t].phase, OfCall(events, t), t))
    && s.log == log0 + LinkedPayloads(events)
    && (forall t: nat :: t >= |s.calls| ==> OfCall(events, t) == [])
    && (s.orphans == {} <==> NoneFailed(events, |s.calls|))
  }

  lemma OneMore(events: seq<Event>, e: Event)
    ensures Acquired(events + [e]) == Acquired(events) + if e.Acquire? then [e.payload] else []
    ensures forall t: nat :: OfCall(events + [e], t) == OfCall(events, t) + if IsOfCall(e, t) then [e] else []
    ensures LinkedPayloads(events + [e]) == LinkedPayloads(events)
      + if e.Link? && e.call < |Acquired(events)| then [Acquired(events)[e.call]] else []
  {
    assert (events + [e])[..|events|] == events;
  }

  lemma PhaseAfter(s: State, events: seq<Event>, e: Event, t: nat)
    requires Enabled(s, e) && t < |Step(s, e).calls|
    requires t < |s.calls| ==> PhaseIs(s.calls[t].phase, OfCall(events, t), t)
    requires t >= |s.calls| ==> OfCall(events, t) == []
    ensures PhaseIs(Step(s, e).calls[t].phase, OfCall(events + [e], t), t)
  {
    hide Acquired, OfCall, LinkedPayloads;
    OneMore(events, e);
  }

  lemma StepHistory(s: State, events: seq<Event>, log0: seq<Payload>, e: Event)
    requires HistoryIs(s, events, log0) && Enabled(s, e)
    ensures HistoryIs(Step(s, e), events + [e], log0)
  {
    hide Acquired, OfCall, LinkedPayloads, PhaseIs, NoneFailed;
    OneMore(events, e);
    OrphansStep(s, events, e);
    var s', more := Step(s, e), events + [e];
    forall t: nat | t < |s'.calls|
      ensures s'.calls[t].payload == Acquired(more)[t] && PhaseIs(s'.calls[t].phase, OfCall(more, t), t)
    {
      PhaseAfter(s, events, e, t);
    }
    if e.Link? {
      assert s.calls[e.call].payload == Acquired(events)[e.call];
    }
  }

  lemma LastOfFailed(es: seq<Event>, e: Event, t: nat, phase: Phase)
    requires PhaseIs(phase, es, t)
    ensures phase.Done? || (FailedToLink(es + [e], t) <==> e == Fail(t) && phase.Linking?)
  {
    assert (es + [e])[|es|] == e;
    assert e == Fail(t) && FailedToLink(es + [e], t) ==> |es| == 3;
  }

  /** The calls that have failed to link their record after an event. */
  lemma FailedAfter(s: State, events: seq<Event>, e: Event, t: nat)
    requires Enabled(s, e)
    requires t < |s.calls| ==> PhaseIs(s.calls[t].phase, OfCall(events, t), t)
    requires t >= |s.calls| ==> OfCall(events, t) == []
    ensures FailedToLink(OfCall(events + [e], t), t)
       <==> FailedToLink(OfCall(events, t), t) || (e == Fail(t) && s.calls[t].phase.Linking?)
  {
    hide OfCall, Acquired, LinkedPayloads;
    OneMore(events, e);
    if t < |s.calls| {
      LastOfFailed(OfCall(events, t), e, t, s.calls[t].phase);
    }
  }

  /** A record is an orphan from the moment its link fails. */
  lemma OrphansStep(s: State, events: seq<Event>, e: Event)
    requires Enabled(s, e)
    requires forall t: nat :: t < |s.calls| ==> PhaseIs(s.calls[t].phase, OfCall(events, t), t)
    requires forall t: nat :: t >= |s.calls| ==> OfCall(events, t) == []
    requires s.orphans == {} <==> NoneFailed(events, |s.calls|)
    ensures Step(s, e).orphans == {} <==> NoneFailed(events + [e], |Step(s, e).calls|)
  {
    hide OfCall, PhaseIs, FailedToLink;
    var s', more := Step(s, e), events + [e];
    forall t: nat
      ensures FailedToLink(OfCall(more, t), t)
         <==> FailedToLink(OfCall(events, t), t) || (e == Fail(t) && s.calls[t].phase.Linking?)
    {
      FailedAfter(s, events, e, t);
    }
    NothingFailed(events);
    assert !FailedToLink(OfCall(events, |s.calls|), |s.calls|);
    if e.Fail? && s.calls[e.call].phase.Linking? {
      assert s.calls[e.call].phase.record.id in s'.orphans;
      assert FailedToLink(OfCall(more, e.call), e.call);
    } else {
      assert s'.orphans == s.orphans;
    }
  }

  lemma NothingFailed(events: seq<Event>)
    ensures forall t: nat :: OfCall(events, t) == [] ==> !FailedToLink(OfCall(events, t), t)
  {
  }

  lemma {:induction false} HistoryAt(run: seq<State>, events: seq<Event>, log0: seq<Payload>)
    requires Follows(run, events, log0)
    ensures HistoryIs(run[|run| - 1], events, log0)
  {
    hide HistoryIs, Step, IsChain;
    if events == [] {
      NoHistory(run[0].storage, log0);
    } else {
      var n := |events| - 1;
      FollowsShorter(run, events, log0);
      HistoryAt(run[..n + 1], events[..n], log0);
      assert FollowsAt(run, events, n);
      StepHistory(run[n], events[..n], log0, events[n]);
      assert events == events[..n] + [events[n]];
    }
  }

  lemma NoHistory(storage: Storage, log0: seq<Payload>)
    ensures HistoryIs(Initial(storage, log0), [], log0)
  {
  }

  lemma FollowsShorter(run: seq<State>, events: seq<Event>, log0: seq<Payload>)
    requires Follows(run, events, log0) && events != []
    ensures Follows(run[..|events|], events[..|events| - 1], log0)
  {
    hide IsChain, Step, Enabled;
    var shorter, fewer := run[..|events|], events[..|events| - 1];
    forall i: nat | i < |fewer| ensures FollowsAt(shorter, fewer, i) {
      assert FollowsAt(run, events, i);
    }
  }

  lemma FollowsIsRun(run: seq<State>, events: seq<Event>, log0: seq<Payload>)
    requires Follows(run, events, log0)
    ensures IsRun(run, log0)
  {
    hide IsChain, Step, Enabled;
    forall i: nat | i + 1 < |run| ensures StepAt(run, i) {
      assert FollowsAt(run, events, i);
    }
  }

  /**
   The calls are those of `add`, in their order, and each goes through its steps in order; the
   chain is the old one and the payloads of the calls whose link was stored, in the order of the links.
   */
  lemma CallsTakeTheirSteps(run: seq<State>, events: seq<Event>, log0: seq<Payload>)
    requires Follows(run, events, log0)
    ensures var s := run[|run| - 1];
      && |s.calls| == |Acquired(events)|
      && (forall t: nat :: t < |s.calls| ==>
            s.calls[t].payload == Acquired(events)[t] && PhaseIs(s.calls[t].phase, OfCall(events, t), t))
      && LastId(s.storage) == IdOf(log0 + LinkedPayloads(events))
      && Holds(s.storage.records, log0 + LinkedPayloads(events))
  {
    hide Step, Enabled, IsChain, Holds, PhaseIs;
    HistoryAt(run, events, log0);
    FollowsIsRun(run, events, log0);
    RunInv(run, log0, |run| - 1);
  }

  /** No record has two successors as long as no call has failed at the link, after its put. */
  lemma ForksOnlyAfterFailedLink(run: seq<State>, events: seq<Event>, log0: seq<Payload>)
    requires Follows(run, events, log0)
    requires NoneFailed(events, |Acquired(events)|)
    ensures NoFork(run[|run| - 1].storage.records)
  {
    hide Step, Enabled, IsChain, Holds, PhaseIs, NoFork;
    HistoryAt(run, events, log0);
    FollowsIsRun(run, events, log0);
    AddsNeverFork(run, log0, |run| - 1);
  }

  // ----- no call goes on for ever

  /** How many events a call has had, or may have had when it has failed. */
  function Age(phase: Phase): (n: nat)
    ensures 1 <= n <= 6
  {
    match phase
    case Waiting => 1
    case Reading => 2
    case Putting(_) => 3
    case Linking(_) => 4
    case Linked => 5
    case Done(_) => 6
  }

  function Ages(calls: seq<Call>): (n: nat)
    ensures n <= 6 * |calls|
  {
    if calls == [] then 0 else Ages(calls[..|calls| - 1]) + Age(calls[|calls| - 1].phase)
  }

  lemma {:induction false} AgesMoved(calls: seq<Call>, t: nat, c: Call)
    requires t < |calls|
    ensures Ages(calls[t := c]) == Ages(calls) - Age(calls[t].phase) + Age(c.phase)
  {
    var n := |calls| - 1;
    if t < n {
      assert calls[t := c][..n] == calls[..n][t := c];
      AgesMoved(calls[..n], t, c);
    } else {
      assert calls[t := c][..n] == calls[..n];
    }
  }

  lemma AgesGrow(s: State, e: Event)
    requires Enabled(s, e)
    ensures Ages(s.calls) < Ages(Step(s, e).calls)
  {
    hide Ages, Age;
    match e
    case Acquire(payload) =>
      AgesAppend(s.calls, Call(payload, Waiting));
    case _ =>
      AgesMoved(s.calls, e.call, Step(s, e).calls[e.call]);
      AgeGrows(s, e);
  }

  lemma AgesAppend(calls: seq<Call>, c: Call)
    ensures Ages(calls + [c]) == Ages(calls) + Age(c.phase)
  {
    assert (calls + [c])[..|calls|] == calls;
  }

  lemma AgeGrows(s: State, e: Event)
    requires Enabled(s, e) && !e.Acquire?
    ensures Age(s.calls[e.call].phase) < Age(Step(s, e).calls[e.call].phase)
  {
  }

  /** A run has at most six events for each call of `add`. */
  lemma {:induction false} EventsAreBounded(run: seq<State>, events: seq<Event>, log0: seq<Payload>)
    requires Follows(run, events, log0)
    ensures |events| <= Ages(run[|run| - 1].calls) <= 6 * |Acquired(events)|
  {
    hide Step, Enabled, IsChain, HistoryIs, Ages;
    HistoryCounts(run, events, log0);
    if events != [] {
      var n := |events| - 1;
      FollowsShorter(run, events, log0);
      EventsAreBounded(run[..n + 1], events[..n], log0);
      assert FollowsAt(run, events, n);
      AgesGrow(run[n], events[n]);
    }
  }

  lemma HistoryCounts(run: seq<State>, events: seq<Event>, log0: seq<Payload>)
    requires Follows(run, events, log0)
    ensures |run[|run| - 1].calls| == |Acquired(events)|
  {
    hide Step, Enabled, IsChain, PhaseIs;
    HistoryAt(run, events, log0);
  }
}
