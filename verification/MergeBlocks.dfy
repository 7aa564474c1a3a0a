/**
 Merging the blocks of a child disk into its parent directory, with bounded concurrency, a
 lagging checkpoint, crashes at any point and resumption from whatever checkpoint reached
 the disk.

 One step is one turn of the event loop or the landing of one write on the remote.  Writes
 of a single file and renames are atomic.
 */
module MergeBlocks {
  import opened Basics

  type Data = Bytes

  /**
   `Rename`: both disks are directories with the same compression, block files are moved.
   `Copy`: any other case (among them every chain with several children), blocks are read
   from the child and rewritten in the parent, and the BAT is only saved at the end.
   */
  datatype Mode = Rename | Copy

  /** The two disks before the merge; their keys are their allocation tables. */
  datatype Merge = Merge(child: map<nat, Data>, parent: map<nat, Data>, mode: Mode, concurrency: nat)

  /** What `mergeBlock` still has to do for one block. */
  datatype Phase =
    | Moving(existed: bool)  // the block has not been transferred; `existed`: its bit was set when it started
    | Moved                  // renamed, its bit is not set yet
    | Saving                 // its bit is set in memory, the BAT is to be written
    | Writing(table: set<nat>)  // the BAT as it was when its writing started is on its way to the disk
    | Marking                // about to set its bit in memory
    | Merged                 // the promise of mergeBlock is about to be fulfilled

  datatype Disk = Disk(
    parentFiles: map<nat, Data>,
    childFiles: map<nat, Data>,
    bat: set<nat>,
    checkpoint: Option<nat>)  // `currentBlock` in the state file, if there is one

  datatype Session =
    | Down
    | Up(
        resuming: bool,
        base: nat,                 // `currentBlock` when the session started
        atOpen: set<nat>,          // the BAT read from the disk when the session started
        bat: set<nat>,             // the BAT in memory
        next: nat,                 // every block of the child below it has been started (or skipped)
        merging: map<nat, Phase>,
        current: nat,              // `currentBlock` in memory
        snapshots: set<nat>,       // values of `currentBlock` whose write may still land
        sealed: bool,              // the final BAT has been written
        before: set<nat>)          // history: the blocks already transferred when it started

  datatype State = State(
    disk: Disk,
    session: Session,
    moved: set<nat>,      // history: the blocks whose data has reached the parent
    tornCrashes: nat)     // history: crashes that left a transferred block out of the BAT on disk

  datatype Event =
    | Open(first: nat)
    | Start(block: nat)
    | Move(block: nat)
    | Flag(block: nat)
    | Write(block: nat)
    | Save(block: nat)
    | Mark(block: nat)
    | Finish(block: nat)
    | Land(value: nat)
    | Seal
    | Crash

  predicate IsFirst(m: Merge, first: nat) {
    && (forall b :: b in m.child ==> first <= b)
    && (m.child.Keys != {} ==> first in m.child)
  }

  /** `block` is the next item of `toMerge`. */
  predicate IsNext(m: Merge, u: Session, block: nat)
    requires u.Up?
  {
    block in m.child && u.next <= block && forall b :: b in m.child && u.next <= b ==> block <= b
  }

  predicate InPhase(u: Session, block: nat, p: Phase)
    requires u.Up?
  {
    block in u.merging && u.merging[block] == p
  }

  predicate IsMoving(u: Session, block: nat)
    requires u.Up?
  {
    block in u.merging && u.merging[block].Moving?
  }

  /** `writeBlockAllocationTable` is synchronized: one call at a time writes the BAT. */
  predicate NoneWrites(u: Session)
    requires u.Up?
  {
    forall b :: b in u.merging ==> !u.merging[b].Writing?
  }

  predicate NothingToStart(m: Merge, u: Session)
    requires u.Up?
  {
    forall b :: b in m.child ==> b < u.next
  }

  /** The transfer of a block succeeds: its source is there, or a resumed merge finds it in the parent. */
  predicate CanTransfer(m: Merge, s: State, block: nat)
    requires s.session.Up?
  {
    block in s.disk.childFiles || (m.mode.Rename? && s.session.resuming && block in s.disk.parentFiles)
  }

  predicate Enabled(m: Merge, s: State, e: Event) {
    match e
    case Open(first) => s.session.Down? && (s.disk.checkpoint.None? ==> IsFirst(m, first))
    case Crash => s.session.Up?
    case Land(v) => s.session.Up? && v in s.session.snapshots
    case Seal => s.session.Up? && !s.session.sealed && s.session.merging == map[] && NothingToStart(m, s.session)
    case Start(b) => s.session.Up? && IsNext(m, s.session, b)
      && (m.concurrency == 0 || |s.session.merging| < m.concurrency)
    case Move(b) => s.session.Up? && IsMoving(s.session, b) && CanTransfer(m, s, b)
    case Flag(b) => s.session.Up? && InPhase(s.session, b, Moved)
    case Write(b) => s.session.Up? && InPhase(s.session, b, Saving) && NoneWrites(s.session)
    case Save(b) => s.session.Up? && b in s.session.merging && s.session.merging[b].Writing?
    case Mark(b) => s.session.Up? && InPhase(s.session, b, Marking)
    case Finish(b) => s.session.Up? && InPhase(s.session, b, Merged)
  }

  predicate IsMin(r: nat, bs: set<nat>) {
    r in bs && forall b :: b in bs ==> r <= b
  }

  ghost function Min(bs: set<nat>): (r: nat)
    requires bs != {}
    ensures IsMin(r, bs)
  {
    HasMin(bs);
    var r :| IsMin(r, bs);
    r
  }

  lemma HasMin(bs: set<nat>)
    requires bs != {}
    ensures exists r :: IsMin(r, bs)
  {
    var r := FindMin(bs);
  }

  lemma {:induction false} FindMin(bs: set<nat>) returns (r: nat)
    requires bs != {}
    ensures IsMin(r, bs)
  {
    var x :| x in bs;
    var rest := bs - {x};
    assert forall b :: b in bs ==> b == x || b in rest;
    if rest == {} {
      r := x;
    } else {
      var least := FindMin(rest);
      r := if x <= least then x else least;
    }
  }

  /** Some block has reached the parent but the BAT on disk does not list it. */
  predicate Torn(s: State) {
    !(s.moved <= s.disk.bat)
  }

  function OpenSession(s: State, first: nat): State
    requires s.session.Down?
  {
    var start := if s.disk.checkpoint.Some? then s.disk.checkpoint.value else first;
    s.(disk := s.disk.(checkpoint := Some(start)),
       session := Up(s.disk.checkpoint.Some?, start, s.disk.bat, s.disk.bat, start, map[], start, {start}, false,
         s.moved))
  }

  function Transfer(m: Merge, s: State, block: nat): State
    requires s.session.Up? && IsMoving(s.session, block)
  {
    var u := s.session;
    if block !in s.disk.childFiles then
      // ENOENT while resuming: the block has been found in the parent
      s.(session := u.(merging := u.merging[block := Marking]))
    else if m.mode.Rename? then
      s.(disk := s.disk.(parentFiles := s.disk.parentFiles[block := s.disk.childFiles[block]],
                         childFiles := s.disk.childFiles - {block}),
         session := u.(merging := u.merging[block := if u.merging[block].existed then Marking else Moved]),
         moved := s.moved + {block})
    else
      s.(disk := s.disk.(parentFiles := s.disk.parentFiles[block := s.disk.childFiles[block]]),
         session := u.(merging := u.merging[block := Marking]),
         moved := s.moved + {block})
  }

  ghost function Step(m: Merge, s: State, e: Event): State
    requires Enabled(m, s, e)
  {
    var u := s.session;
    match e
    case Open(first) => OpenSession(s, first)
    case Crash => s.(session := Down, tornCrashes := s.tornCrashes + if Torn(s) then 1 else 0)
    case Land(v) => s.(disk := s.disk.(checkpoint := Some(v)))
    case Seal => s.(disk := s.disk.(bat := u.bat), session := u.(sealed := true))
    case Start(b) => s.(session := u.(next := b + 1, merging := u.merging[b := Moving(b in u.bat)]))
    case Move(b) => Transfer(m, s, b)
    case Flag(b) => s.(session := u.(bat := u.bat + {b}, merging := u.merging[b := Saving]))
    case Write(b) => s.(session := u.(merging := u.merging[b := Writing(u.bat)]))
    case Save(b) => s.(disk := s.disk.(bat := u.merging[b].table), session := u.(merging := u.merging[b := Marking]))
    case Mark(b) => s.(session := u.(bat := u.bat + {b}, merging := u.merging[b := Merged]))
    case Finish(b) =>
      var least := Min(u.merging.Keys);
      s.(session := u.(current := least, merging := u.merging - {b}, snapshots := u.snapshots + {least}))
  }

  function Initial(m: Merge): State {
    State(Disk(m.parent, m.child, m.parent.Keys, None), Down, {}, 0)
  }

  // ----- the invariant, for any number of crashes

  ghost predicate DiskInv(m: Merge, s: State) {
    && s.moved <= m.child.Keys
    && (forall b :: b in s.disk.parentFiles <==> b in m.parent || b in s.moved)
    && (forall b :: b in s.disk.parentFiles ==>
          s.disk.parentFiles[b] == if b in s.moved then m.child[b] else m.parent[b])
    && (forall b :: b in s.disk.childFiles <==> b in m.child && (m.mode.Copy? || b !in s.moved))
    && (forall b :: b in s.disk.childFiles ==> s.disk.childFiles[b] == m.child[b])
    && (forall b :: b in m.parent ==> b in s.disk.bat)
    && (forall b :: b in s.disk.bat ==> b in m.parent || b in s.moved)
  }

  /** Every block of the child below `v` has been transferred. */
  ghost predicate Safe(m: Merge, s: State, v: nat) {
    forall b :: b in m.child && b < v ==> b in s.moved
  }

  ghost predicate CheckpointsSafe(m: Merge, s: State) {
    && (s.disk.checkpoint.Some? ==> Safe(m, s, s.disk.checkpoint.value))
    && (s.disk.checkpoint.None? ==> s.moved == {} && s.session.Down?)
    && (s.session.Up? ==>
          && Safe(m, s, s.session.base)
          && Safe(m, s, s.session.current)
          && (forall v :: v in s.session.snapshots ==> Safe(m, s, v))
          && (forall b :: b in s.session.merging ==> s.session.current <= b)
          && s.session.base <= s.session.current <= s.session.next)
  }

  ghost predicate TableInv(m: Merge, s: State) {
    s.session.Up? ==>
      && s.session.atOpen <= s.disk.bat <= s.session.bat
      && (forall b :: b in s.session.bat ==> b in m.parent || b in s.moved)
      && (forall b :: b in s.session.bat
           ==> b in s.session.atOpen || (b in m.child && s.session.base <= b < s.session.next))
  }

  ghost predicate TaskInv(m: Merge, s: State, b: nat)
    requires s.session.Up? && b in s.session.merging
  {
    var u := s.session;
    && b in m.child
    && u.base <= b < u.next
    && match u.merging[b]
       case Moving(existed) => existed ==> b in u.atOpen
       case Moved => b in s.moved && m.mode.Rename?
       case Saving => b in s.moved && b in u.bat && m.mode.Rename?
       case Writing(table) => b in s.moved && m.mode.Rename? && b in table && s.disk.bat <= table <= u.bat
       case Marking => b in s.moved
       case Merged => b in s.moved && b in u.bat
  }

  ghost predicate OneWrites(u: Session)
    requires u.Up?
  {
    forall b, c :: b in u.merging && c in u.merging && u.merging[b].Writing? && u.merging[c].Writing? ==> b == c
  }

  ghost predicate TasksInv(m: Merge, s: State)
    requires s.session.Up?
  {
    (forall b :: b in s.session.merging ==> TaskInv(m, s, b)) && OneWrites(s.session)
  }

  ghost predicate SessionInv(m: Merge, s: State) {
    s.session.Up? ==>
      && TasksInv(m, s)
      && (forall b :: b in m.child && s.session.base <= b < s.session.next && b !in s.session.merging ==>
            b in s.moved && b in s.session.bat)
      && s.session.before <= s.moved
      && (!s.session.resuming ==> s.session.before == {})
      && (forall b :: b in s.moved && b !in s.session.before ==>
            s.session.base <= b < s.session.next && !IsMoving(s.session, b))
      && (s.session.sealed ==>
            s.session.merging == map[] && NothingToStart(m, s.session) && s.disk.bat == s.session.bat)
  }

  ghost predicate Inv(m: Merge, s: State) {
    DiskInv(m, s) && CheckpointsSafe(m, s) && TableInv(m, s) && SessionInv(m, s)
  }

  lemma InitialInv(m: Merge)
    ensures Inv(m, Initial(m))
  {
  }

  lemma OpenInv(m: Merge, s: State, first: nat)
    requires Inv(m, s) && Enabled(m, s, Open(first))
    ensures Inv(m, OpenSession(s, first))
  {
  }

  lemma CrashInv(m: Merge, s: State)
    requires Inv(m, s) && s.session.Up?
    ensures Inv(m, Step(m, s, Crash))
  {
  }

  lemma LandTasks(m: Merge, s: State, v: nat)
    requires Inv(m, s) && Enabled(m, s, Land(v))
    ensures TasksInv(m, Step(m, s, Land(v)))
  {
    hide DiskInv, CheckpointsSafe, Safe, TableInv, Min, CanTransfer;
    forall b | b in s.session.merging ensures TaskInv(m, Step(m, s, Land(v)), b) {
      assert TaskInv(m, s, b);
    }
  }

  lemma LandInv(m: Merge, s: State, v: nat)
    requires Inv(m, s) && Enabled(m, s, Land(v))
    ensures Inv(m, Step(m, s, Land(v)))
  {
    hide Min, CanTransfer, TasksInv;
    LandTasks(m, s, v);
  }

  lemma SealInv(m: Merge, s: State)
    requires Inv(m, s) && Enabled(m, s, Seal)
    ensures Inv(m, Step(m, s, Seal))
  {
  }

  lemma StartTasks(m: Merge, s: State, b: nat)
    requires Inv(m, s) && Enabled(m, s, Start(b))
    ensures TasksInv(m, Step(m, s, Start(b)))
  {
    hide DiskInv, Safe, Min;
    var s' := Step(m, s, Start(b));
    forall c | c in s'.session.merging ensures TaskInv(m, s', c) {
      assert c == b || TaskInv(m, s, c);
    }
  }

  lemma StartSession(m: Merge, s: State, b: nat)
    requires Inv(m, s) && Enabled(m, s, Start(b))
    ensures SessionInv(m, Step(m, s, Start(b)))
  {
    hide DiskInv, CheckpointsSafe, TableInv, TasksInv, Safe, Min;
    var s' := Step(m, s, Start(b));
    StartTasks(m, s, b);
    assert !s.session.sealed;
    forall c | c in m.child && s'.session.base <= c < s'.session.next && c !in s'.session.merging
      ensures c in s'.moved && c in s'.session.bat
    {
      assert c < s.session.next;
    }
    forall c | c in s'.moved && c !in s'.session.before
      ensures s'.session.base <= c < s'.session.next && !IsMoving(s'.session, c)
    {
      assert c != b && !IsMoving(s.session, c);
    }
  }

  lemma StartInv(m: Merge, s: State, b: nat)
    requires Inv(m, s) && Enabled(m, s, Start(b))
    ensures Inv(m, Step(m, s, Start(b)))
  {
    hide DiskInv, TableInv, CheckpointsSafe, SessionInv, Min;
    var s' := Step(m, s, Start(b));
    StartSession(m, s, b);
    assert s'.session.merging.Keys == s.session.merging.Keys + {b};
    StartTables(m, s, b);
    StartCheckpoints(m, s, b);
  }

  lemma StartTables(m: Merge, s: State, b: nat)
    requires Inv(m, s) && Enabled(m, s, Start(b))
    ensures DiskInv(m, Step(m, s, Start(b))) && TableInv(m, Step(m, s, Start(b)))
  {
    hide SessionInv, CheckpointsSafe, Min;
  }

  lemma StartCheckpoints(m: Merge, s: State, b: nat)
    requires Inv(m, s) && Enabled(m, s, Start(b))
    ensures CheckpointsSafe(m, Step(m, s, Start(b)))
  {
    hide SessionInv, TableInv, DiskInv, Min;
    assert s.session.merging[b := Moving(b in s.session.bat)].Keys == s.session.merging.Keys + {b};
  }

  /** A block that has been transferred advances to a later phase, the tables growing on the way. */
  function Advance(s: State, b: nat, p: Phase, bat: set<nat>, diskBat: set<nat>): State
    requires s.session.Up?
  {
    s.(disk := s.disk.(bat := diskBat),
       session := s.session.(bat := bat, merging := s.session.merging[b := p]))
  }

  ghost predicate CanAdvance(m: Merge, s: State, b: nat, p: Phase, bat: set<nat>, diskBat: set<nat>) {
    && s.session.Up?
    && b in s.session.merging && !s.session.merging[b].Moving? && b in s.moved
    && (bat == s.session.bat || bat == s.session.bat + {b})
    && (diskBat == s.disk.bat || s.session.merging[b] == Writing(diskBat))
    && (p == Marking || (p == Saving && m.mode.Rename? && b in bat) || (p == Merged && b in bat)
        || (p == Writing(bat) && NoneWrites(s.session) && m.mode.Rename? && b in bat && diskBat == s.disk.bat))
  }

  lemma AdvanceTasks(m: Merge, s: State, b: nat, p: Phase, bat: set<nat>, diskBat: set<nat>)
    requires Inv(m, s) && CanAdvance(m, s, b, p, bat, diskBat)
    ensures TasksInv(m, Advance(s, b, p, bat, diskBat))
  {
    hide DiskInv, CheckpointsSafe, Safe;
    var s' := Advance(s, b, p, bat, diskBat);
    forall c | c in s'.session.merging ensures TaskInv(m, s', c) {
      assert TaskInv(m, s, c);
    }
  }

  lemma AdvanceSession(m: Merge, s: State, b: nat, p: Phase, bat: set<nat>, diskBat: set<nat>)
    requires Inv(m, s) && CanAdvance(m, s, b, p, bat, diskBat)
    ensures SessionInv(m, Advance(s, b, p, bat, diskBat))
  {
    hide DiskInv, CheckpointsSafe, TableInv, TasksInv, Safe;
    var s' := Advance(s, b, p, bat, diskBat);
    AdvanceTasks(m, s, b, p, bat, diskBat);
    assert b in s'.session.merging;
    forall c | c in s'.moved && c !in s'.session.before
      ensures s'.session.base <= c < s'.session.next && !IsMoving(s'.session, c)
    {
      assert !IsMoving(s.session, c);
    }
  }

  lemma AdvanceInv(m: Merge, s: State, b: nat, p: Phase, bat: set<nat>, diskBat: set<nat>)
    requires Inv(m, s) && CanAdvance(m, s, b, p, bat, diskBat)
    ensures Inv(m, Advance(s, b, p, bat, diskBat))
  {
    AdvanceSession(m, s, b, p, bat, diskBat);
    assert TaskInv(m, s, b);
    assert TableInv(m, Advance(s, b, p, bat, diskBat));
  }

  lemma TransferTasks(m: Merge, s: State, b: nat)
    requires Inv(m, s) && Enabled(m, s, Move(b))
    ensures TasksInv(m, Transfer(m, s, b))
  {
    hide CheckpointsSafe, TableInv, Safe, TasksInv;
    var s' := Transfer(m, s, b);
    TransferRange(m, s, b);
    TasksAfterMove(m, s, s', b, s'.session.merging[b]);
  }

  lemma TasksAfterMove(m: Merge, s: State, s': State, b: nat, p: Phase)
    requires s.session.Up? && TasksInv(m, s) && b in s.session.merging
    requires s'.session == s.session.(merging := s.session.merging[b := p]) && s'.disk.bat == s.disk.bat
    requires s.moved <= s'.moved && b in s'.moved && (p == Marking || (p == Moved && m.mode.Rename?))
    ensures TasksInv(m, s')
  {
    forall c | c in s'.session.merging ensures TaskInv(m, s', c) {
      assert c == b || TaskInv(m, s, c);
    }
    assert TaskInv(m, s, b);
  }

  lemma TransferRange(m: Merge, s: State, b: nat)
    requires Inv(m, s) && Enabled(m, s, Move(b))
    ensures s.session.base <= b < s.session.next && b in m.child
  {
    hide CheckpointsSafe, Safe, DiskInv, TableInv;
    assert TaskInv(m, s, b);
  }

  lemma TransferSession(m: Merge, s: State, b: nat)
    requires Inv(m, s) && Enabled(m, s, Move(b))
    ensures SessionInv(m, Transfer(m, s, b))
  {
    hide CheckpointsSafe, TableInv, DiskInv, TasksInv, Safe;
    var s' := Transfer(m, s, b);
    TransferTasks(m, s, b);
    TransferRange(m, s, b);
    assert b in s'.session.merging;
    forall c | c in s'.moved && c !in s'.session.before
      ensures s'.session.base <= c < s'.session.next && !IsMoving(s'.session, c)
    {
      if c != b {
        assert c in s.moved && !IsMoving(s.session, c);
        assert IsMoving(s'.session, c) <==> IsMoving(s.session, c);
      }
    }
  }

  lemma TransferDisk(m: Merge, s: State, b: nat)
    requires Inv(m, s) && Enabled(m, s, Move(b))
    ensures DiskInv(m, Transfer(m, s, b))
  {
    assert TaskInv(m, s, b);
  }

  lemma TransferTables(m: Merge, s: State, b: nat)
    requires Inv(m, s) && Enabled(m, s, Move(b))
    ensures CheckpointsSafe(m, Transfer(m, s, b)) && TableInv(m, Transfer(m, s, b))
  {
    hide DiskInv, SessionInv;
  }

  lemma TransferInv(m: Merge, s: State, b: nat)
    requires Inv(m, s) && Enabled(m, s, Move(b))
    ensures Inv(m, Transfer(m, s, b))
  {
    hide DiskInv, SessionInv, CheckpointsSafe, TableInv;
    TransferTables(m, s, b);
    TransferSession(m, s, b);
    TransferDisk(m, s, b);
  }

  lemma FinishChecks(m: Merge, s: State, b: nat)
    requires Inv(m, s) && Enabled(m, s, Finish(b))
    ensures CheckpointsSafe(m, Step(m, s, Finish(b)))
    ensures s.session.current <= Step(m, s, Finish(b)).session.current <= b
  {
    var least := Min(s.session.merging.Keys);
    assert TaskInv(m, s, least);
    forall c | c in m.child && c < least ensures c in s.moved {
      assert c !in s.session.merging;
    }
  }

  lemma FinishSession(m: Merge, s: State, b: nat)
    requires Inv(m, s) && Enabled(m, s, Finish(b))
    ensures SessionInv(m, Step(m, s, Finish(b)))
  {
    hide DiskInv, CheckpointsSafe, TableInv, Safe;
    var s' := Step(m, s, Finish(b));
    assert TaskInv(m, s, b);
    forall c | c in s'.session.merging ensures TaskInv(m, s', c) {
      assert TaskInv(m, s, c);
    }
    forall c | c in s'.moved && c !in s'.session.before
      ensures s'.session.base <= c < s'.session.next && !IsMoving(s'.session, c)
    {
      assert !IsMoving(s.session, c);
    }
  }

  lemma FinishInv(m: Merge, s: State, b: nat)
    requires Inv(m, s) && Enabled(m, s, Finish(b))
    ensures Inv(m, Step(m, s, Finish(b)))
  {
    hide CheckpointsSafe, SessionInv;
    FinishChecks(m, s, b);
    FinishSession(m, s, b);
  }

  lemma StepInv(m: Merge, s: State, e: Event)
    requires Inv(m, s) && Enabled(m, s, e)
    ensures Inv(m, Step(m, s, e))
  {
    var u := s.session;
    match e
    case Open(first) => OpenInv(m, s, first);
    case Crash => CrashInv(m, s);
    case Land(v) => LandInv(m, s, v);
    case Seal => SealInv(m, s);
    case Start(b) => StartInv(m, s, b);
    case Move(b) => TransferInv(m, s, b);
    case Finish(b) => FinishInv(m, s, b);
    case Flag(b) => AdvanceStep(m, s, b, e, Saving, u.bat + {b}, s.disk.bat);
    case Write(b) => AdvanceStep(m, s, b, e, Writing(u.bat), u.bat, s.disk.bat);
    case Save(b) => AdvanceStep(m, s, b, e, Marking, u.bat, u.merging[b].table);
    case Mark(b) => AdvanceStep(m, s, b, e, Merged, u.bat + {b}, s.disk.bat);
  }

  lemma AdvanceStep(m: Merge, s: State, b: nat, e: Event, p: Phase, bat: set<nat>, diskBat: set<nat>)
    requires Inv(m, s) && Enabled(m, s, e)
    requires (e == Flag(b) && p == Saving && bat == s.session.bat + {b} && diskBat == s.disk.bat)
          || (e == Write(b) && p == Writing(bat) && bat == s.session.bat && diskBat == s.disk.bat)
          || (e == Save(b) && p == Marking && bat == s.session.bat && s.session.merging[b] == Writing(diskBat))
          || (e == Mark(b) && p == Merged && bat == s.session.bat + {b} && diskBat == s.disk.bat)
    ensures Inv(m, Step(m, s, e))
  {
    assert TaskInv(m, s, b);
    AdvanceInv(m, s, b, p, bat, diskBat);
    assert Step(m, s, e) == Advance(s, b, p, bat, diskBat);
  }

  // ----- which blocks a checkpoint may skip

  /** Every block of the child below `v` is listed in `bat`. */
  ghost predicate Covered(m: Merge, v: nat, bat: set<nat>) {
    forall b :: b in m.child && b < v ==> b in bat
  }

  /** The session found every transferred block in the BAT it opened. */
  predicate OpenedClean(u: Session)
    requires u.Up?
  {
    u.before <= u.atOpen
  }

  /** In such a session a block is in the BAT on disk before any checkpoint can skip it. */
  ghost predicate Persisted(m: Merge, s: State)
    requires s.session.Up?
  {
    var u := s.session;
    && (s.disk.checkpoint.Some? ==> Covered(m, s.disk.checkpoint.value, s.disk.bat))
    && (forall v :: v in u.snapshots ==> Covered(m, v, s.disk.bat))
    && (forall b :: b in u.merging && (u.merging[b].Marking? || u.merging[b].Merged?) ==> b in s.disk.bat)
    && (forall b :: b in m.child && b < u.next && b !in u.merging ==> b in s.disk.bat)
  }

  ghost predicate CrashesInv(m: Merge, s: State) {
    && (s.tornCrashes == 0 ==> if s.session.Down? then !Torn(s) else OpenedClean(s.session))
    && (s.tornCrashes <= 1 ==>
          if s.session.Up? then Covered(m, s.session.base, s.session.atOpen)
          else s.disk.checkpoint.Some? ==> Covered(m, s.disk.checkpoint.value, s.disk.bat))
    && (s.session.Up? && OpenedClean(s.session) ==> Persisted(m, s))
  }

  lemma OpenPersists(m: Merge, s: State, first: nat)
    requires Inv(m, s) && CrashesInv(m, s) && Enabled(m, s, Open(first))
    ensures CrashesInv(m, OpenSession(s, first))
  {
    var s' := OpenSession(s, first);
    if OpenedClean(s'.session) {
      assert Safe(m, s', s'.session.base);
    }
  }

  lemma CrashPersists(m: Merge, s: State)
    requires Inv(m, s) && CrashesInv(m, s) && s.session.Up?
    ensures CrashesInv(m, Step(m, s, Crash))
  {
    if !Torn(s) {
      assert Safe(m, s, s.disk.checkpoint.value);
    }
  }

  lemma TransferPersists(m: Merge, s: State, b: nat)
    requires m.mode.Rename? && Inv(m, s) && CrashesInv(m, s) && Enabled(m, s, Move(b))
    ensures CrashesInv(m, Transfer(m, s, b))
  {
    assert TaskInv(m, s, b);
  }

  lemma FinishPersists(m: Merge, s: State, b: nat)
    requires Inv(m, s) && CrashesInv(m, s) && Enabled(m, s, Finish(b))
    ensures CrashesInv(m, Step(m, s, Finish(b)))
  {
    if OpenedClean(s.session) {
      var least := Min(s.session.merging.Keys);
      assert TaskInv(m, s, least);
      assert Covered(m, least, s.disk.bat);
    }
  }

  lemma AdvancePersists(m: Merge, s: State, b: nat, p: Phase, bat: set<nat>, diskBat: set<nat>)
    requires Inv(m, s) && CrashesInv(m, s) && CanAdvance(m, s, b, p, bat, diskBat)
    requires p == Saving || p.Writing? || b in diskBat
      || (p == Merged && s.session.merging[b].Marking? && diskBat == s.disk.bat)
    ensures CrashesInv(m, Advance(s, b, p, bat, diskBat))
  {
    var s' := Advance(s, b, p, bat, diskBat);
    assert s.disk.bat <= diskBat;
    if OpenedClean(s.session) {
      assert Persisted(m, s');
    }
  }

  lemma QuietPersists(m: Merge, s: State, e: Event)
    requires Inv(m, s) && CrashesInv(m, s) && Enabled(m, s, e)
    requires e.Land? || e.Seal? || e.Start?
    ensures CrashesInv(m, Step(m, s, e))
  {
    hide DiskInv, CheckpointsSafe, Safe, Min, CanTransfer;
    if e.Start? {
      assert e.block >= s.session.next;
    }
  }

  lemma OtherPersists(m: Merge, s: State, e: Event)
    requires m.mode.Rename? && Inv(m, s) && CrashesInv(m, s) && Enabled(m, s, e)
    requires e.Flag? || e.Write? || e.Save? || e.Mark?
    ensures CrashesInv(m, Step(m, s, e))
  {
    hide CrashesInv, DiskInv, CheckpointsSafe, TableInv;
    var u := s.session;
    assert TaskInv(m, s, e.block);
    match e
    case Flag(b) => AdvancePersists(m, s, b, Saving, u.bat + {b}, s.disk.bat);
    case Write(b) => AdvancePersists(m, s, b, Writing(u.bat), u.bat, s.disk.bat);
    case Save(b) => AdvancePersists(m, s, b, Marking, u.bat, u.merging[b].table);
    case Mark(b) => AdvancePersists(m, s, b, Merged, u.bat + {b}, s.disk.bat);
  }

  lemma StepPersists(m: Merge, s: State, e: Event)
    requires m.mode.Rename? && Inv(m, s) && CrashesInv(m, s) && Enabled(m, s, e)
    ensures CrashesInv(m, Step(m, s, e))
  {
    match e
    case Open(first) => OpenPersists(m, s, first);
    case Crash => CrashPersists(m, s);
    case Move(b) => TransferPersists(m, s, b);
    case Finish(b) => FinishPersists(m, s, b);
    case Land(_) => QuietPersists(m, s, e);
    case Seal => QuietPersists(m, s, e);
    case Start(_) => QuietPersists(m, s, e);
    case _ => OtherPersists(m, s, e);
  }

  // ----- whole runs

  ghost predicate StepAt(m: Merge, run: seq<State>, i: nat)
    requires i + 1 < |run|
  {
    exists e :: Enabled(m, run[i], e) && run[i + 1] == Step(m, run[i], e)
  }

  ghost predicate IsRun(m: Merge, run: seq<State>) {
    && |run| > 0
    && run[0] == Initial(m)
    && forall i: nat :: i + 1 < |run| ==> StepAt(m, run, i)
  }

  lemma {:induction false} RunInv(m: Merge, run: seq<State>, i: nat)
    requires IsRun(m, run) && i < |run|
    ensures Inv(m, run[i])
    ensures m.mode.Rename? ==> CrashesInv(m, run[i])
  {
    if i == 0 {
      InitialInv(m);
    } else {
      RunInv(m, run, i - 1);
      assert StepAt(m, run, i - 1);
      var e :| Enabled(m, run[i - 1], e) && run[i] == Step(m, run[i - 1], e);
      StepInv(m, run[i - 1], e);
      if m.mode.Rename? {
        StepPersists(m, run[i - 1], e);
      }
    }
  }

  /** The parent directory holds the merged disk: what a reader of its BAT and block files sees. */
  ghost predicate IsMergeResult(m: Merge, d: Disk) {
    && d.bat == m.parent.Keys + m.child.Keys
    && forall b :: b in d.bat ==>
         b in d.parentFiles && d.parentFiles[b] == if b in m.child then m.child[b] else m.parent[b]
  }

  lemma SealedResult(m: Merge, s: State)
    requires Inv(m, s) && s.session.Up? && s.session.sealed
    ensures IsMergeResult(m, s.disk) <==> Covered(m, s.session.base, s.session.atOpen)
  {
    var u := s.session;
    if Covered(m, u.base, u.atOpen) {
      forall b | b in m.child ensures b in s.disk.bat && b in s.moved {
        if b < u.base {
          assert Safe(m, s, u.base);
        }
      }
      assert s.disk.bat == m.parent.Keys + m.child.Keys;
    } else {
      var b :| b in m.child && b < u.base && b !in u.atOpen;
      assert b !in s.disk.bat;
    }
  }

  // ----- main results

  /** A merge that ran to its end is right exactly when its last session found every block it skipped in the BAT. */
  lemma MergeIsRightIff(m: Merge, run: seq<State>)
    requires IsRun(m, run)
    requires run[|run| - 1].session.Up? && run[|run| - 1].session.sealed
    ensures var s := run[|run| - 1];
      IsMergeResult(m, s.disk) <==> Covered(m, s.session.base, s.session.atOpen)
  {
    RunInv(m, run, |run| - 1);
    SealedResult(m, run[|run| - 1]);
  }

  /** By rename: one torn crash is survived, wherever it happens and whichever checkpoint had landed. */
  lemma OneTornCrashIsSurvived(m: Merge, run: seq<State>)
    requires IsRun(m, run) && m.mode.Rename?
    requires run[|run| - 1].session.Up? && run[|run| - 1].session.sealed
    requires TornCrashes(run) <= 1
    ensures IsMergeResult(m, run[|run| - 1].disk)
  {
    TornCrashesAreCounted(m, run);
    RunInv(m, run, |run| - 1);
    SealedResult(m, run[|run| - 1]);
  }

  function Crashes(run: seq<State>): nat {
    if |run| < 2 then 0
    else Crashes(run[..|run| - 1]) + if run[|run| - 2].session.Up? && run[|run| - 1].session.Down? then 1 else 0
  }

  /** A block file of the parent is missing from the table on the disk. */
  predicate TornDisk(d: Disk) {
    !(d.parentFiles.Keys <= d.bat)
  }

  /** The crashes that left the disk so. */
  function TornCrashes(run: seq<State>): nat {
    if |run| < 2 then 0
    else
      var s, s' := run[|run| - 2], run[|run| - 1];
      TornCrashes(run[..|run| - 1]) + if s.session.Up? && s'.session.Down? && TornDisk(s.disk) then 1 else 0
  }

  lemma TornIff(m: Merge, s: State)
    requires Inv(m, s)
    ensures Torn(s) <==> TornDisk(s.disk)
  {
  }

  lemma {:induction false} TornCrashesAreCounted(m: Merge, run: seq<State>)
    requires IsRun(m, run)
    ensures run[|run| - 1].tornCrashes == TornCrashes(run) <= Crashes(run)
  {
    hide Inv, Torn, TornDisk, CanTransfer;
    if |run| > 1 {
      var shorter := run[..|run| - 1];
      forall i: nat | i + 1 < |shorter| ensures StepAt(m, shorter, i) {
        assert StepAt(m, run, i);
      }
      TornCrashesAreCounted(m, shorter);
      RunInv(m, run, |run| - 2);
      TornIff(m, run[|run| - 2]);
      assert StepAt(m, run, |run| - 2);
    }
  }

  /** ... so one crash, at any point, is always survived. */
  lemma OneCrashIsSurvived(m: Merge, run: seq<State>)
    requires IsRun(m, run) && m.mode.Rename? && Crashes(run) <= 1
    requires run[|run| - 1].session.Up? && run[|run| - 1].session.sealed
    ensures IsMergeResult(m, run[|run| - 1].disk)
  {
    TornCrashesAreCounted(m, run);
    OneTornCrashIsSurvived(m, run);
  }

  ghost predicate NotTornYet(s: State) {
    s.tornCrashes == 0 ==> if s.session.Down? then !Torn(s) else OpenedClean(s.session)
  }

  lemma {:induction false} NotTornYetAt(m: Merge, run: seq<State>, i: nat)
    requires IsRun(m, run) && i < |run|
    ensures NotTornYet(run[i])
  {
    if i > 0 {
      NotTornYetAt(m, run, i - 1);
      assert StepAt(m, run, i - 1);
      var e :| Enabled(m, run[i - 1], e) && run[i] == Step(m, run[i - 1], e);
    }
  }

  /** In both modes: any number of crashes is survived if none of them tears the BAT. */
  lemma UntornCrashesAreSurvived(m: Merge, run: seq<State>)
    requires IsRun(m, run)
    requires run[|run| - 1].session.Up? && run[|run| - 1].session.sealed
    requires TornCrashes(run) == 0
    ensures IsMergeResult(m, run[|run| - 1].disk)
  {
    TornCrashesAreCounted(m, run);
    var s := run[|run| - 1];
    RunInv(m, run, |run| - 1);
    NotTornYetAt(m, run, |run| - 1);
    SealedResult(m, s);
    assert Safe(m, s, s.session.base);
  }

  predicate BeingListed(p: Phase) {
    p.Moved? || p.Saving? || p.Writing?
  }

  /** No block is between its rename and the writing of its bit. */
  predicate NoneInBetween(u: Session)
    requires u.Up?
  {
    forall b :: b in u.merging ==> !BeingListed(u.merging[b])
  }

  ghost predicate CleanCrashes(run: seq<State>) {
    forall i: nat :: i + 1 < |run| && run[i].session.Up? && run[i + 1].session.Down? ==> NoneInBetween(run[i].session)
  }

  /** By rename, a transferred block that the BAT on disk does not list is on its way there. */
  ghost predicate Listed(s: State) {
    && s.tornCrashes == 0
    && forall b :: b in s.moved && b !in s.disk.bat ==>
         s.session.Up? && b in s.session.merging && BeingListed(s.session.merging[b])
  }

  lemma ListedStep(m: Merge, s: State, e: Event)
    requires Inv(m, s) && m.mode.Rename? && Listed(s) && Enabled(m, s, e)
    requires e.Crash? ==> NoneInBetween(s.session)
    ensures Listed(Step(m, s, e))
  {
    hide DiskInv, CheckpointsSafe, Min, Safe;
    var s' := Step(m, s, e);
    assert e.Save? ==> TaskInv(m, s, e.block);
    assert e.Move? ==> TaskInv(m, s, e.block);
    forall b | b in s'.moved && b !in s'.disk.bat
      ensures s'.session.Up? && b in s'.session.merging
        && BeingListed(s'.session.merging[b])
    {
      if s.session.Up? && b in s.session.merging {
        assert TaskInv(m, s, b);
      }
    }
  }

  lemma {:induction false} ListedAt(m: Merge, run: seq<State>, i: nat)
    requires IsRun(m, run) && m.mode.Rename? && CleanCrashes(run) && i < |run|
    ensures Listed(run[i])
  {
    hide Inv, Listed;
    if i == 0 {
      assert Listed(Initial(m)) by {
        ListedInitially(m);
      }
    } else {
      ListedAt(m, run, i - 1);
      RunInv(m, run, i - 1);
      assert StepAt(m, run, i - 1);
      var e :| Enabled(m, run[i - 1], e) && run[i] == Step(m, run[i - 1], e);
      ListedStep(m, run[i - 1], e);
    }
  }

  lemma ListedInitially(m: Merge)
    ensures Listed(Initial(m))
  {
  }

  /**
   By rename: any number of crashes is survived if none comes between the rename of a block and the
   writing of its bit.
   */
  lemma CleanCrashesAreSurvived(m: Merge, run: seq<State>)
    requires IsRun(m, run) && m.mode.Rename? && CleanCrashes(run)
    requires run[|run| - 1].session.Up? && run[|run| - 1].session.sealed
    ensures IsMergeResult(m, run[|run| - 1].disk)
  {
    ListedAt(m, run, |run| - 1);
    TornCrashesAreCounted(m, run);
    UntornCrashesAreSurvived(m, run);
  }

  /**
   Conservation, by rename, through any number of crashes: each block of the child is in
   exactly one place, and the old block of the parent is intact until it is replaced.
   */
  lemma BlocksAreConserved(m: Merge, run: seq<State>, i: nat, b: nat)
    requires IsRun(m, run) && i < |run| && m.mode.Rename?
    ensures var d := run[i].disk;
      if b in m.child && b !in d.childFiles then b in d.parentFiles && d.parentFiles[b] == m.child[b]
      else
        && (b in m.child ==> d.childFiles[b] == m.child[b])
        && (b in d.parentFiles <==> b in m.parent)
        && (b in m.parent ==> d.parentFiles[b] == m.parent[b])
  {
    RunInv(m, run, i);
  }

  /**
   No step of `mergeBlock` fails: a block missing from the child is always found in the parent, and
   only when resuming.
   */
  lemma TransfersNeverFail(m: Merge, run: seq<State>, i: nat, b: nat)
    requires IsRun(m, run) && i < |run| && run[i].session.Up? && b in run[i].session.merging
    ensures var s := run[i];
      && b in m.child
      && (IsMoving(s.session, b) ==> CanTransfer(m, s, b))
      && (IsMoving(s.session, b) && b !in s.disk.childFiles ==> s.disk.parentFiles[b] == m.child[b])
      && (!IsMoving(s.session, b) || s.session.merging[b].existed ==> b in s.disk.parentFiles)
  {
    RunInv(m, run, i);
    assert TaskInv(m, run[i], b);
  }

  /**
   Whatever value of `currentBlock` is in memory, on disk or on its way there, every smaller block of
   the child is merged.
   */
  lemma CheckpointsAreSafe(m: Merge, run: seq<State>, i: nat, v: nat)
    requires IsRun(m, run) && i < |run|
    requires run[i].disk.checkpoint == Some(v)
      || (run[i].session.Up? && (v == run[i].session.current || v in run[i].session.snapshots))
    ensures forall b :: b in m.child && b < v ==>
      b in run[i].disk.parentFiles && run[i].disk.parentFiles[b] == m.child[b]
  {
    RunInv(m, run, i);
    assert Safe(m, run[i], v);
  }

  /** `currentBlock` never decreases within a session and never passes a block still being merged. */
  lemma CurrentBlockIsMonotone(m: Merge, run: seq<State>, i: nat, b: nat)
    requires IsRun(m, run) && i + 1 < |run| && run[i].session.Up? && run[i + 1].session.Up?
    ensures run[i].session.current <= run[i + 1].session.current
    ensures b in run[i + 1].session.merging ==> run[i + 1].session.current <= b
  {
    hide DiskInv, TableInv, TasksInv, Safe, Step, Enabled;
    RunInv(m, run, i);
    RunInv(m, run, i + 1);
    assert StepAt(m, run, i);
    var e :| Enabled(m, run[i], e) && run[i + 1] == Step(m, run[i], e);
    CurrentGrows(m, run[i], e);
  }

  lemma CurrentGrows(m: Merge, s: State, e: Event)
    requires Inv(m, s) && Enabled(m, s, e) && s.session.Up? && Step(m, s, e).session.Up?
    ensures s.session.current <= Step(m, s, e).session.current
  {
    hide Inv, CanTransfer, Min;
    if e.Finish? {
      FinishChecks(m, s, e.block);
    }
  }

  /** The step from one state of a run to the next. */
  lemma EventBetween(m: Merge, run: seq<State>, i: nat) returns (e: Event)
    requires IsRun(m, run) && i + 1 < |run|
    ensures Enabled(m, run[i], e) && run[i + 1] == Step(m, run[i], e)
  {
    assert StepAt(m, run, i);
    e :| Enabled(m, run[i], e) && run[i + 1] == Step(m, run[i], e);
  }

  /**
   When a block has been merged, `currentBlock` becomes the least of the blocks that were
   being merged, that block included, and this value may be written from then on.
   */
  lemma CheckpointIsLeast(m: Merge, run: seq<State>, i: nat, b: nat)
    requires IsRun(m, run) && i + 1 < |run| && run[i].session.Up? && run[i + 1].session.Up?
    requires b in run[i].session.merging && b !in run[i + 1].session.merging
    ensures IsMin(run[i + 1].session.current, run[i].session.merging.Keys)
    ensures run[i + 1].session.snapshots == run[i].session.snapshots + {run[i + 1].session.current}
  {
    hide Transfer;
    var e := EventBetween(m, run, i);
    assert e.Finish? by {
      OnlyFinishRemoves(m, run[i], e, b);
    }
  }

  lemma OnlyFinishRemoves(m: Merge, s: State, e: Event, b: nat)
    requires Enabled(m, s, e) && s.session.Up? && b in s.session.merging
    requires Step(m, s, e).session.Up? && b !in Step(m, s, e).session.merging
    ensures e.Finish?
  {
    hide Min, IsNext, CanTransfer;
  }

  /** As long as no block has been merged it does not change. */
  lemma CheckpointWaits(m: Merge, run: seq<State>, i: nat)
    requires IsRun(m, run) && i + 1 < |run| && run[i].session.Up? && run[i + 1].session.Up?
    requires run[i].session.merging.Keys <= run[i + 1].session.merging.Keys
    ensures run[i + 1].session.current == run[i].session.current
    ensures run[i + 1].session.snapshots == run[i].session.snapshots
  {
    var e := EventBetween(m, run, i);
    OthersWait(m, run[i], e);
  }

  lemma OthersWait(m: Merge, s: State, e: Event)
    requires Enabled(m, s, e) && s.session.Up? && Step(m, s, e).session.Up?
    ensures var u, u' := s.session, Step(m, s, e).session;
      if e.Finish? then e.block in u.merging.Keys && e.block !in u'.merging.Keys
      else u'.current == u.current && u'.snapshots == u.snapshots
  {
    hide Min, IsNext, CanTransfer;
  }

  /**
   The checkpoint is not left behind: after a block has been merged while no smaller one than `v` was,
   it is at least `v`.
   */
  lemma {:induction false} CheckpointCatchesUp(m: Merge, run: seq<State>, i: nat, j: nat, b: nat, v: nat)
    requires IsRun(m, run) && Uncrashed(run, i, j) && i < j
    requires b in run[i].session.merging && b !in run[i + 1].session.merging
    requires forall other :: other in run[i].session.merging ==> v <= other
    ensures v <= run[j].session.current
    decreases j
  {
    hide Step, Enabled, StepAt;
    if j == i + 1 {
      CheckpointIsLeast(m, run, i, b);
    } else {
      CheckpointCatchesUp(m, run, i, j - 1, b, v);
      CurrentBlockIsMonotone(m, run, j - 1, 0);
    }
  }

  /**
   The table goes to the disk as it was when its writing started, one call writing at a time ...
   */
  lemma TableLandsAsTaken(m: Merge, run: seq<State>, i: nat, b: nat)
    requires IsRun(m, run) && i + 1 < |run| && run[i].session.Up? && run[i + 1].session.Up?
    requires b in run[i].session.merging
    ensures var p := run[i].session.merging[b];
      p.Writing? ==> InPhase(run[i + 1].session, b, p) || run[i + 1].disk.bat == p.table
    ensures b in run[i + 1].session.merging && run[i + 1].session.merging[b].Writing? ==>
      || run[i + 1].session.merging[b] == run[i].session.merging[b]
      || (run[i + 1].session.merging[b] == Writing(run[i].session.bat) && NoneWrites(run[i].session))
  {
    hide Min, CanTransfer;
    var e := EventBetween(m, run, i);
    RunInv(m, run, i);
    MergingIsBehind(m, run[i]);
  }

  /** ... and changes in no other way until the last one is written. */
  lemma TableChangesOnly(m: Merge, run: seq<State>, i: nat)
    requires IsRun(m, run) && i + 1 < |run| && run[i].disk.bat != run[i + 1].disk.bat
    ensures run[i].session.Up? && run[i + 1].session.Up?
    ensures var u, u' := run[i].session, run[i + 1].session;
      || (u'.sealed && run[i + 1].disk.bat == u'.bat)
      || exists b :: InPhase(u, b, Writing(run[i + 1].disk.bat)) && InPhase(u', b, Marking)
  {
    hide Min, IsNext, CanTransfer;
    var e := EventBetween(m, run, i);
    if e.Save? {
      assert InPhase(run[i].session, e.block, Writing(run[i + 1].disk.bat))
        && InPhase(run[i + 1].session, e.block, Marking);
    }
  }

  /** Any value that `currentBlock` has had in a session may be the next to land, late ones included. */
  lemma {:induction false} AnyValueMayLand(m: Merge, run: seq<State>, i: nat, j: nat) returns (longer: seq<State>)
    requires IsRun(m, run) && Uncrashed(run, i, j) && i <= j
    ensures run[i].session.current in run[j].session.snapshots
    ensures longer == run[..j + 1] + [run[j].(disk := run[j].disk.(checkpoint := Some(run[i].session.current)))]
    ensures IsRun(m, longer)
  {
    hide Min, IsNext, CanTransfer;
    var v := run[i].session.current;
    ValueIsKept(m, run, i, j);
    var s := run[j].(disk := run[j].disk.(checkpoint := Some(v)));
    longer := run[..j + 1] + [s];
    assert Enabled(m, run[j], Land(v)) && s == Step(m, run[j], Land(v));
    forall k: nat | k + 1 < |longer| ensures StepAt(m, longer, k) {
      if k < j {
        assert StepAt(m, run, k) && longer[k] == run[k] && longer[k + 1] == run[k + 1];
      } else {
        assert longer[k] == run[j] && longer[k + 1] == s;
      }
    }
  }

  lemma {:induction false} ValueIsKept(m: Merge, run: seq<State>, i: nat, j: nat)
    requires IsRun(m, run) && Uncrashed(run, i, j) && i <= j
    ensures run[i].session.current in run[j].session.snapshots
    decreases j
  {
    hide Min, IsNext, CanTransfer, Step, Enabled, StepAt;
    if i < j {
      ValueIsKept(m, run, i, j - 1);
      var e := EventBetween(m, run, j - 1);
      ValuesGrow(m, run[j - 1], e);
    } else {
      CurrentMayLand(m, run, i);
    }
  }

  lemma ValuesGrow(m: Merge, s: State, e: Event)
    requires Enabled(m, s, e) && s.session.Up? && Step(m, s, e).session.Up?
    ensures s.session.snapshots <= Step(m, s, e).session.snapshots
    ensures s.session.current in s.session.snapshots
      ==> Step(m, s, e).session.current in Step(m, s, e).session.snapshots
  {
    hide Min, IsNext, CanTransfer;
  }

  lemma {:induction false} CurrentMayLand(m: Merge, run: seq<State>, i: nat)
    requires IsRun(m, run) && i < |run| && run[i].session.Up?
    ensures run[i].session.current in run[i].session.snapshots
  {
    hide Min, IsNext, CanTransfer;
    var e := EventBetween(m, run, i - 1);
    if run[i - 1].session.Up? {
      CurrentMayLand(m, run, i - 1);
      ValuesGrow(m, run[i - 1], e);
    }
  }

  /** No more blocks than the limit are merged at once. */
  lemma {:induction false} LimitIsRespected(m: Merge, run: seq<State>, i: nat)
    requires IsRun(m, run) && i < |run| && run[i].session.Up? && m.concurrency > 0
    ensures |run[i].session.merging| <= m.concurrency
  {
    hide Min, IsNext, CanTransfer, Step, Enabled, StepAt;
    if i > 0 {
      var e := EventBetween(m, run, i - 1);
      if run[i - 1].session.Up? {
        LimitIsRespected(m, run, i - 1);
        MoreAreMerged(m, run[i - 1], e);
      } else {
        SessionStartsAtCheckpoint(m, run, i - 1);
      }
    }
  }

  /** A step adds one block at most, below the limit. */
  lemma MoreAreMerged(m: Merge, s: State, e: Event)
    requires Enabled(m, s, e) && s.session.Up? && Step(m, s, e).session.Up?
    ensures var before, after := s.session.merging, Step(m, s, e).session.merging;
      |after| <= |before| || (|after| == |before| + 1 && (m.concurrency > 0 ==> |before| < m.concurrency))
  {
    hide Min, IsNext, CanTransfer;
    var before, after := s.session.merging, Step(m, s, e).session.merging;
    assert after.Keys <= before.Keys || (e.Start? && after.Keys == before.Keys + {e.block});
    assert |after| == |after.Keys| && |before| == |before.Keys|;
    if after.Keys <= before.Keys {
      SmallerSet(after.Keys, before.Keys);
    }
  }

  /** Below the limit the next block can be started, whatever else is being merged. */
  lemma AnotherCanStart(m: Merge, run: seq<State>, i: nat)
    requires IsRun(m, run) && i < |run| && run[i].session.Up? && !NothingToStart(m, run[i].session)
    requires m.concurrency == 0 || |run[i].session.merging| < m.concurrency
    ensures exists b :: Enabled(m, run[i], Start(b)) && IsNext(m, run[i].session, b)
    ensures forall b :: Enabled(m, run[i], Start(b)) ==>
      b !in run[i].session.merging
      && Step(m, run[i], Start(b)).session.merging.Keys == run[i].session.merging.Keys + {b}
  {
    var s := run[i];
    RunInv(m, run, i);
    NextExists(m, s.session);
    MergingIsBehind(m, s);
  }

  lemma MergingIsBehind(m: Merge, s: State)
    requires Inv(m, s) && s.session.Up?
    ensures forall b :: b in s.session.merging ==> b < s.session.next
  {
    forall b | b in s.session.merging ensures b < s.session.next {
      assert TaskInv(m, s, b);
    }
  }

  lemma NextExists(m: Merge, u: Session)
    requires u.Up? && !NothingToStart(m, u)
    ensures exists b :: IsNext(m, u, b)
  {
    var left := set b | b in m.child && u.next <= b;
    var missing :| missing in m.child && !(missing < u.next);
    assert missing in left;
    forall b | b in m.child && u.next <= b ensures Min(left) <= b {
      assert b in left;
    }
    assert IsNext(m, u, Min(left));
  }

  /**
   A session starts from the checkpoint on the disk, or from the first block of the child
   when there is none, with the table on the disk.
   */
  lemma SessionStartsAtCheckpoint(m: Merge, run: seq<State>, i: nat)
    requires IsRun(m, run) && i + 1 < |run| && run[i].session.Down? && run[i + 1].session.Up?
    ensures var u := run[i + 1].session;
      && u.resuming == run[i].disk.checkpoint.Some?
      && u.base == u.current == u.next && run[i + 1].disk == run[i].disk.(checkpoint := Some(u.base))
      && (if u.resuming then u.base == run[i].disk.checkpoint.value else IsFirst(m, u.base))
      && u.atOpen == u.bat == run[i].disk.bat && u.merging == map[] && !u.sealed
  {
    var e := EventBetween(m, run, i);
  }

  /** A session is never stuck before it is sealed: without a crash there is always something to do. */
  lemma SessionCanProceed(m: Merge, run: seq<State>, i: nat)
    requires IsRun(m, run) && i < |run| && run[i].session.Up? && !run[i].session.sealed
    ensures exists e :: Enabled(m, run[i], e) && !e.Crash? && !e.Land?
  {
    var s := run[i];
    var u := s.session;
    if u.merging != map[] {
      var b :| b in u.merging;
      TransfersNeverFail(m, run, i, b);
      match u.merging[b]
      case Moving(_) => assert Enabled(m, s, Move(b));
      case Moved => assert Enabled(m, s, Flag(b));
      case Saving =>
        if c :| c in u.merging && u.merging[c].Writing? {
          assert Enabled(m, s, Save(c));
        } else {
          assert Enabled(m, s, Write(b));
        }
      case Writing(_) => assert Enabled(m, s, Save(b));
      case Marking => assert Enabled(m, s, Mark(b));
      case Merged => assert Enabled(m, s, Finish(b));
    } else if NothingToStart(m, u) {
      assert Enabled(m, s, Seal);
    } else {
      var left := set b | b in m.child && u.next <= b;
      var missing :| missing in m.child && !(missing < u.next);
      assert missing in left;
      forall b | b in m.child && u.next <= b ensures Min(left) <= b {
        assert b in left;
      }
      assert Enabled(m, s, Start(Min(left)));
    }
  }

  // ----- a session that does not crash comes to its end

  /** How far a block of the child has come in the session. */
  function Stage(u: Session, b: nat): nat
    requires u.Up?
  {
    if b >= u.next then 1
    else if b !in u.merging then 8
    else match u.merging[b]
      case Moving(_) => 2
      case Moved => 3
      case Saving => 4
      case Writing(_) => 5
      case Marking => 6
      case Merged => 7
  }

  function UpTo(m: Merge, u: Session, stage: nat): set<nat>
    requires u.Up?
  {
    set b | b in m.child && Stage(u, b) <= stage
  }

  /** How many steps, other than late writes of the checkpoint, the session still has to take. */
  function Fuel(m: Merge, u: Session): nat
    requires u.Up?
  {
    |UpTo(m, u, 1)| + |UpTo(m, u, 2)| + |UpTo(m, u, 3)| + |UpTo(m, u, 4)| + |UpTo(m, u, 5)| + |UpTo(m, u, 6)|
    + |UpTo(m, u, 7)| + if u.sealed then 0 else 1
  }

  lemma SmallerSet(a: set<nat>, b: set<nat>)
    requires a <= b
    ensures |a| <= |b|
    ensures a != b ==> |a| < |b|
  {
    var rest := b - a;
    assert b == a + rest;
    assert a != b ==> rest != {};
  }

  /** The sets of blocks that have not come further only shrink. */
  lemma LaterStages(m: Merge, u: Session, u': Session, stage: nat)
    requires u.Up? && u'.Up? && forall b :: b in m.child ==> Stage(u, b) <= Stage(u', b)
    ensures UpTo(m, u', stage) <= UpTo(m, u, stage)
    ensures |UpTo(m, u', stage)| <= |UpTo(m, u, stage)|
    ensures forall b :: b in m.child && Stage(u, b) <= stage < Stage(u', b) ==>
      |UpTo(m, u', stage)| < |UpTo(m, u, stage)|
  {
    SmallerSet(UpTo(m, u', stage), UpTo(m, u, stage));
    forall b | b in m.child && Stage(u, b) <= stage < Stage(u', b)
      ensures |UpTo(m, u', stage)| < |UpTo(m, u, stage)|
    {
      assert b in UpTo(m, u, stage) && b !in UpTo(m, u', stage);
    }
  }

  lemma FuelDecreases(m: Merge, u: Session, u': Session, b: nat)
    requires u.Up? && u'.Up? && u'.sealed == u.sealed && forall c :: c in m.child ==> Stage(u, c) <= Stage(u', c)
    requires b in m.child && Stage(u, b) < Stage(u', b)
    ensures Fuel(m, u') < Fuel(m, u)
  {
    hide Stage, UpTo;
    StageIs(u, b);
    StageIs(u', b);
    LaterStages(m, u, u', 1);
    LaterStages(m, u, u', 2);
    LaterStages(m, u, u', 3);
    LaterStages(m, u, u', 4);
    LaterStages(m, u, u', 5);
    LaterStages(m, u, u', 6);
    LaterStages(m, u, u', 7);
  }

  lemma StageIs(u: Session, b: nat)
    requires u.Up?
    ensures 1 <= Stage(u, b) <= 8
  {
  }

  lemma StepStages(m: Merge, s: State, e: Event, b: nat)
    requires Inv(m, s) && s.session.Up? && Enabled(m, s, e) && !e.Crash? && !e.Land? && !e.Seal? && b in m.child
    ensures var u, u' := s.session, Step(m, s, e).session;
      u'.Up? && u'.sealed == u.sealed && Stage(u, b) <= Stage(u', b) && (b == e.block ==> Stage(u, b) < Stage(u', b))
  {
    hide DiskInv, CheckpointsSafe, TableInv, Safe, Min;
    if b in s.session.merging {
      assert TaskInv(m, s, b);
    }
  }

  lemma StepFuel(m: Merge, s: State, e: Event)
    requires Inv(m, s) && s.session.Up? && Enabled(m, s, e) && !e.Crash? && !e.Land?
    ensures Step(m, s, e).session.Up? && Fuel(m, Step(m, s, e).session) < Fuel(m, s.session)
  {
    hide Inv, Stage, CanTransfer, Min;
    var s' := Step(m, s, e);
    if e.Seal? {
      SealFuel(m, s);
    } else {
      BlockIsChilds(m, s, e);
      forall b | b in m.child ensures Stage(s.session, b) <= Stage(s'.session, b) {
        StepStages(m, s, e, b);
      }
      StepStages(m, s, e, e.block);
      FuelDecreases(m, s.session, s'.session, e.block);
    }
  }

  lemma BlockIsChilds(m: Merge, s: State, e: Event)
    requires Inv(m, s) && s.session.Up? && Enabled(m, s, e) && !e.Crash? && !e.Land? && !e.Seal?
    ensures e.block in m.child
  {
    hide DiskInv, CheckpointsSafe, TableInv, Safe, Min;
    if !e.Start? {
      assert TaskInv(m, s, e.block);
    }
  }

  lemma SealFuel(m: Merge, s: State)
    requires Enabled(m, s, Seal)
    ensures Fuel(m, Step(m, s, Seal).session) < Fuel(m, s.session)
  {
    var u := s.session;
    var u' := Step(m, s, Seal).session;
    forall k: nat ensures UpTo(m, u, k) == UpTo(m, u', k) {
      forall b ensures Stage(u, b) == Stage(u', b) {
      }
    }
  }

  ghost predicate Uncrashed(run: seq<State>, i: nat, j: nat) {
    i <= j < |run| && forall k :: i <= k <= j ==> run[k].session.Up?
  }

  /** The steps from state `i` to state `j` that did something in memory. */
  function Turns(run: seq<State>, i: nat, j: nat): nat
    requires i <= j < |run|
  {
    if i == j then 0 else Turns(run, i, j - 1) + if run[j - 1].session != run[j].session then 1 else 0
  }

  /**
   A session that does not crash takes at most its fuel in steps, seven for each block and one, and is
   sealed by then.
   */
  lemma {:induction false} SessionIsBounded(m: Merge, run: seq<State>, i: nat, j: nat)
    requires IsRun(m, run) && Uncrashed(run, i, j)
    ensures Turns(run, i, j) + Fuel(m, run[j].session) <= Fuel(m, run[i].session) <= 7 * |m.child| + 1
    ensures Turns(run, i, j) == Fuel(m, run[i].session) ==> run[j].session.sealed
    decreases j
  {
    hide Fuel, Inv, IsRun, StepAt;
    FuelIsBounded(m, run[i].session);
    FuelIsBounded(m, run[j].session);
    if i < j {
      SessionIsBounded(m, run, i, j - 1);
      TurnFuel(m, run, j - 1);
    }
  }

  lemma TurnFuel(m: Merge, run: seq<State>, j: nat)
    requires IsRun(m, run) && j + 1 < |run| && run[j].session.Up? && run[j + 1].session.Up?
    ensures Fuel(m, run[j + 1].session) + (if run[j].session != run[j + 1].session then 1 else 0)
      <= Fuel(m, run[j].session)
  {
    hide Fuel, Inv, Enabled, Min;
    RunInv(m, run, j);
    assert StepAt(m, run, j);
    var e :| Enabled(m, run[j], e) && run[j + 1] == Step(m, run[j], e);
    if !e.Land? {
      StepFuel(m, run[j], e);
    }
  }

  lemma FuelIsBounded(m: Merge, u: Session)
    requires u.Up?
    ensures Fuel(m, u) <= 7 * |m.child| + 1
    ensures Fuel(m, u) == 0 ==> u.sealed
  {
    forall k: nat ensures |UpTo(m, u, k)| <= |m.child| {
      SmallerSet(UpTo(m, u, k), m.child.Keys);
    }
  }

  /** From any state of a session, steps that never crash lead to its end. */
  lemma {:induction false} SessionCanFinish(m: Merge, run: seq<State>) returns (longer: seq<State>)
    requires IsRun(m, run) && run[|run| - 1].session.Up?
    ensures IsRun(m, longer) && run <= longer && Uncrashed(longer, |run| - 1, |longer| - 1)
    ensures longer[|longer| - 1].session.sealed
    decreases Fuel(m, run[|run| - 1].session)
  {
    hide Fuel, Inv, IsMergeResult;
    var s := run[|run| - 1];
    if s.session.sealed {
      longer := run;
    } else {
      SessionCanProceed(m, run, |run| - 1);
      var e :| Enabled(m, s, e) && !e.Crash? && !e.Land?;
      RunInv(m, run, |run| - 1);
      StepFuel(m, s, e);
      RunExtends(m, run, e);
      longer := SessionCanFinish(m, run + [Step(m, s, e)]);
    }
  }

  lemma RunExtends(m: Merge, run: seq<State>, e: Event)
    requires IsRun(m, run) && Enabled(m, run[|run| - 1], e)
    ensures IsRun(m, run + [Step(m, run[|run| - 1], e)])
  {
    var longer := run + [Step(m, run[|run| - 1], e)];
    forall i: nat | i + 1 < |longer| ensures StepAt(m, longer, i) {
      if i + 1 < |run| {
        assert StepAt(m, run, i);
        assert longer[i] == run[i] && longer[i + 1] == run[i + 1];
      } else {
        assert longer[i] == run[|run| - 1];
      }
    }
  }

  // ----- the loops that choose where to start and what to merge

  /** The first block allocated in the child, or the size of its table. */
  method FirstAllocated(m: Merge, maxTableEntries: nat) returns (currentBlock: nat)
    requires forall b :: b in m.child ==> b < maxTableEntries
    ensures IsFirst(m, currentBlock) && currentBlock <= maxTableEntries
  {
    currentBlock := 0;
    while currentBlock < maxTableEntries && currentBlock !in m.child
      invariant currentBlock <= maxTableEntries
      invariant forall b :: b in m.child ==> currentBlock <= b
    {
      currentBlock := currentBlock + 1;
    }
  }

  /** The blocks to merge, in ascending order: those of the child from `start` on. */
  method ToMerge(m: Merge, start: nat, maxTableEntries: nat) returns (toMerge: seq<nat>)
    requires forall b :: b in m.child ==> b < maxTableEntries
    ensures forall b :: b in toMerge <==> b in m.child && start <= b
    ensures forall i, j :: 0 <= i < j < |toMerge| ==> toMerge[i] < toMerge[j]
  {
    toMerge := [];
    var block := start;
    while block < maxTableEntries
      invariant start <= block
      invariant forall b :: b in toMerge <==> b in m.child && start <= b < block
      invariant forall i :: 0 <= i < |toMerge| ==> toMerge[i] < block
      invariant forall i, j :: 0 <= i < j < |toMerge| ==> toMerge[i] < toMerge[j]
    {
      if block in m.child {
        toMerge := toMerge + [block];
      }
      block := block + 1;
    }
  }

  /** Taking the items of that list in order, as `asyncEach` does, is what `Start` does. */
  lemma NextItemIsStarted(m: Merge, u: Session, toMerge: seq<nat>, i: nat)
    requires u.Up? && i < |toMerge|
    requires forall b :: b in toMerge <==> b in m.child && u.base <= b
    requires forall j, k :: 0 <= j < k < |toMerge| ==> toMerge[j] < toMerge[k]
    requires u.next == if i == 0 then u.base else toMerge[i - 1] + 1
    ensures forall b :: IsNext(m, u, b) <==> b == toMerge[i]
  {
    assert toMerge[i] in toMerge;
    assert i > 0 ==> toMerge[i - 1] in toMerge;
    assert forall j :: 0 <= j < i ==> toMerge[j] < u.next;
    forall b | b in m.child && u.next <= b ensures toMerge[i] <= b {
      assert b in toMerge;
      var k :| 0 <= k < |toMerge| && toMerge[k] == b;
      assert i <= k;
    }
  }
}
