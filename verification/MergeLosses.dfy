/** The runs of a merge that end with a block missing, and the way they are reached. */
module MergeLosses {
  import opened Basics
  import opened MergeBlocks

  ghost predicate Reaches(m: Merge, s: State, crashes: nat) {
    exists run :: IsRun(m, run) && run[|run| - 1] == s && Crashes(run) == crashes
  }

  lemma ReachInitial(m: Merge)
    ensures Reaches(m, Initial(m), 0)
  {
    var run := [Initial(m)];
    assert IsRun(m, run);
    assert Crashes(run) == 0;
  }

  lemma ReachStep(m: Merge, s: State, crashes: nat, e: Event, s': State)
    requires Reaches(m, s, crashes) && Enabled(m, s, e) && s' == Step(m, s, e)
    ensures Reaches(m, s', crashes + if e.Crash? then 1 else 0)
  {
    var run :| IsRun(m, run) && run[|run| - 1] == s && Crashes(run) == crashes;
    var longer := run + [s'];
    forall i: nat | i + 1 < |longer| ensures StepAt(m, longer, i) {
      if i + 1 < |run| {
        assert StepAt(m, run, i);
        assert longer[i] == run[i] && longer[i + 1] == run[i + 1];
      } else {
        assert longer[i] == s && longer[i + 1] == s';
      }
    }
    assert longer[..|longer| - 1] == run;
    assert Crashes(longer) == crashes + if e.Crash? then 1 else 0;
  }

  /** The end of the life of a block merged alone: its bit is set, then the checkpoint moves to it. */
  function Alone(u: Session, b: nat, bat: set<nat>): Session
    requires u.Up?
  {
    u.(next := b + 1, bat := bat + {b}, current := b, snapshots := u.snapshots + {b}, merging := map[])
  }

  lemma ReachMergedAlone(m: Merge, s: State, crashes: nat, b: nat)
    requires s.session.Up? && s.session.merging == map[b := Marking] && s.session.next == b + 1
    requires Reaches(m, s, crashes)
    ensures Reaches(m, s.(session := Alone(s.session, b, s.session.bat)), crashes)
  {
    var u := s.session;
    var marked := s.(session := u.(bat := u.bat + {b}, merging := map[b := Merged]));
    assert u.merging[b := Merged] == map[b := Merged];
    ReachStep(m, s, crashes, Mark(b), marked);
    var done := s.(session := Alone(u, b, u.bat));
    assert done == Step(m, marked, Finish(b)) by {
      assert marked.session.merging.Keys == {b};
      assert marked.session.merging - {b} == map[];
    }
    ReachStep(m, marked, crashes, Finish(b), done);
  }

  lemma ReachStarted(m: Merge, s: State, crashes: nat, b: nat)
    requires s.session.Up? && s.session.merging == map[] && IsNext(m, s.session, b) && Reaches(m, s, crashes)
    ensures Reaches(m, s.(session := s.session.(next := b + 1, merging := map[b := Moving(b in s.session.bat)])),
      crashes)
  {
    ReachStep(m, s, crashes, Start(b),
      s.(session := s.session.(next := b + 1, merging := map[b := Moving(b in s.session.bat)])));
  }

  /** A resumed merge finds `b` in the parent: only the BAT in memory learns of it. */
  lemma ReachFoundAgain(m: Merge, s: State, crashes: nat, b: nat)
    requires s.session.Up? && s.session.resuming && s.session.merging == map[] && IsNext(m, s.session, b)
    requires m.mode.Rename? && b !in s.disk.childFiles && b in s.disk.parentFiles && Reaches(m, s, crashes)
    ensures Reaches(m, s.(session := Alone(s.session, b, s.session.bat)), crashes)
  {
    var u := s.session;
    ReachStarted(m, s, crashes, b);
    var started := s.(session := u.(next := b + 1, merging := map[b := Moving(b in u.bat)]));
    var found := s.(session := u.(next := b + 1, merging := map[b := Marking]));
    assert started.session.merging[b := Marking] == map[b := Marking];
    ReachStep(m, started, crashes, Move(b), found);
    ReachMergedAlone(m, found, crashes, b);
    assert Alone(found.session, b, u.bat) == Alone(u, b, u.bat);
  }

  /** A block is transferred and goes straight to `Marking`: it is copied, or its bit was already set. */
  function Transferred(m: Merge, d: Disk, b: nat): Disk
    requires b in d.childFiles
  {
    d.(parentFiles := d.parentFiles[b := d.childFiles[b]],
       childFiles := if m.mode.Rename? then d.childFiles - {b} else d.childFiles)
  }

  lemma ReachTransferred(m: Merge, s: State, crashes: nat, b: nat)
    requires s.session.Up? && s.session.merging == map[] && IsNext(m, s.session, b)
    requires (m.mode.Copy? || b in s.session.bat) && b in s.disk.childFiles && Reaches(m, s, crashes)
    ensures Reaches(m,
      State(Transferred(m, s.disk, b), Alone(s.session, b, s.session.bat), s.moved + {b}, s.tornCrashes), crashes)
  {
    var u := s.session;
    ReachStarted(m, s, crashes, b);
    var started := s.(session := u.(next := b + 1, merging := map[b := Moving(b in u.bat)]));
    var moved := State(Transferred(m, s.disk, b), u.(next := b + 1, merging := map[b := Marking]),
                       s.moved + {b}, s.tornCrashes);
    assert started.session.merging[b := Marking] == map[b := Marking];
    ReachStep(m, started, crashes, Move(b), moved);
    ReachMergedAlone(m, moved, crashes, b);
    assert Alone(moved.session, b, u.bat) == Alone(u, b, u.bat);
  }

  lemma ReachOpened(m: Merge, s: State, crashes: nat)
    requires s.session.Down? && (s.disk.checkpoint.None? ==> IsFirst(m, 0)) && Reaches(m, s, crashes)
    ensures Reaches(m, OpenSession(s, 0), crashes)
  {
    ReachStep(m, s, crashes, Open(0), OpenSession(s, 0));
  }

  /** A checkpoint lands, and the process dies having torn the BAT. */
  lemma ReachCrashed(m: Merge, s: State, crashes: nat, v: nat)
    requires s.session.Up? && v in s.session.snapshots && Torn(s) && Reaches(m, s, crashes)
    ensures Reaches(m, State(s.disk.(checkpoint := Some(v)), Down, s.moved, s.tornCrashes + 1), crashes + 1)
  {
    var landed := s.(disk := s.disk.(checkpoint := Some(v)));
    ReachStep(m, s, crashes, Land(v), landed);
    ReachStep(m, landed, crashes, Crash, State(landed.disk, Down, s.moved, s.tornCrashes + 1));
  }

  lemma ReachSealed(m: Merge, s: State, crashes: nat)
    requires s.session.Up? && !s.session.sealed && s.session.merging == map[] && NothingToStart(m, s.session)
    requires Reaches(m, s, crashes)
    ensures Reaches(m, s.(disk := s.disk.(bat := s.session.bat), session := s.session.(sealed := true)), crashes)
  {
    ReachStep(m, s, crashes, Seal, s.(disk := s.disk.(bat := s.session.bat), session := s.session.(sealed := true)));
  }

  // ----- by rename, two crashes

  /** Two blocks in the child, the second one also in the parent. */
  function TwoBlocks(): Merge {
    Merge(map[0 := [1], 1 := [1]], map[1 := [0]], Rename, 1)
  }

  /** The first session dies between the rename of block 0 and the write of the BAT. */
  function TornOnce(): State {
    State(Disk(map[0 := [1], 1 := [0]], map[1 := [1]], {1}, Some(0)), Down, {0}, 1)
  }

  lemma ReachTornOnce()
    ensures Reaches(TwoBlocks(), TornOnce(), 1)
  {
    var m := TwoBlocks();
    ReachInitial(m);
    ReachOpened(m, Initial(m), 0);
    var s1 := OpenSession(Initial(m), 0);
    assert 0 !in s1.session.bat;
    ReachStarted(m, s1, 0, 0);
    var s2 := s1.(session := s1.session.(next := 1, merging := map[0 := Moving(false)]));
    var s3 := State(Transferred(m, s2.disk, 0), s2.session.(merging := map[0 := Moved]), {0}, 0);
    assert s2.session.merging[0 := Moved] == map[0 := Moved];
    ReachStep(m, s2, 0, Move(0), s3);
    ReachCrashed(m, s3, 0, 0);
    assert Transferred(m, s2.disk, 0).childFiles == map[1 := [1]];
    assert m.parent.Keys == {1};
  }

  /** The second one finds block 0 in the parent, moves block 1, persists 1 as the checkpoint, and dies. */
  function TornTwice(): State {
    State(Disk(map[0 := [1], 1 := [1]], map[], {1}, Some(1)), Down, {0, 1}, 2)
  }

  lemma ReachTornTwice()
    ensures Reaches(TwoBlocks(), TornTwice(), 2)
  {
    var m := TwoBlocks();
    ReachTornOnce();
    ReachOpened(m, TornOnce(), 1);
    var s1 := OpenSession(TornOnce(), 0);
    ReachFoundAgain(m, s1, 1, 0);
    var s2 := s1.(session := Alone(s1.session, 0, s1.session.bat));
    ReachTransferred(m, s2, 1, 1);
    var s3 := State(Transferred(m, s2.disk, 1), Alone(s2.session, 1, s2.session.bat), s2.moved + {1}, 1);
    assert 0 in s3.moved && 0 !in s3.disk.bat;
    ReachCrashed(m, s3, 1, 1);
    assert s3.disk.childFiles == map[];
    assert s3.moved == {0, 1};
  }

  /** The third session starts at block 1: no BAT on disk ever lists block 0. */
  lemma TwoCrashesCanLoseABlock()
    ensures exists s ::
      Reaches(TwoBlocks(), s, 2) && s.session.Up? && s.session.sealed && !IsMergeResult(TwoBlocks(), s.disk)
  {
    var m := TwoBlocks();
    ReachTornTwice();
    ReachOpened(m, TornTwice(), 2);
    var s1 := OpenSession(TornTwice(), 0);
    ReachFoundAgain(m, s1, 2, 1);
    var s2 := s1.(session := Alone(s1.session, 1, s1.session.bat));
    ReachSealed(m, s2, 2);
    assert 0 in m.child && 0 !in s2.session.bat;
  }

  // ----- by copy, one crash

  /** Two blocks to copy into a parent that has neither. */
  function TwoCopies(): Merge {
    Merge(map[0 := [1], 1 := [1]], map[], Copy, 1)
  }

  /** Both blocks have been copied, 1 is the checkpoint, and no BAT has been written. */
  lemma ReachCopied() returns (s: State)
    ensures Reaches(TwoCopies(), s, 1) && s.session.Down? && s.disk.checkpoint == Some(1) && s.disk.bat == {}
    ensures 1 in s.disk.childFiles
  {
    var m := TwoCopies();
    ReachInitial(m);
    ReachOpened(m, Initial(m), 0);
    var s1 := OpenSession(Initial(m), 0);
    ReachTransferred(m, s1, 0, 0);
    var s2 := State(Transferred(m, s1.disk, 0), Alone(s1.session, 0, s1.session.bat), s1.moved + {0}, 0);
    ReachTransferred(m, s2, 0, 1);
    var s3 := State(Transferred(m, s2.disk, 1), Alone(s2.session, 1, s2.session.bat), s2.moved + {1}, 0);
    assert m.parent.Keys == {};
    assert 0 in s3.moved && 0 !in s3.disk.bat;
    ReachCrashed(m, s3, 0, 1);
    s := State(s3.disk.(checkpoint := Some(1)), Down, s3.moved, 1);
  }

  lemma OneCrashCanLoseACopiedBlock()
    ensures exists s ::
      Reaches(TwoCopies(), s, 1) && s.session.Up? && s.session.sealed && !IsMergeResult(TwoCopies(), s.disk)
  {
    var m := TwoCopies();
    var s0 := ReachCopied();
    ReachOpened(m, s0, 1);
    var s1 := OpenSession(s0, 0);
    ReachTransferred(m, s1, 1, 1);
    var s2 := State(Transferred(m, s1.disk, 1), Alone(s1.session, 1, s1.session.bat), s1.moved + {1}, s1.tornCrashes);
    ReachSealed(m, s2, 1);
    assert 0 in m.child && 0 !in s2.session.bat;
  }
}
