/**
 The end of a merge: the merged parent is renamed over the last child, and the files that
 are not used any more are deleted.  The process can die and be restarted at any point.
 */
module Cleanup {
  import opened Basics
  import opened Aliases

  /** Opening `p` gives the VHD `id`. */
  predicate Opens(files: Files, p: Path, id: nat) {
    var d := Resolve(files, p);
    d.Some? && d.value in files && files[d.value].Vhd? && files[d.value].id == id
  }

  /** A VHD directory under its own name. */
  predicate IsDirectory(files: Files, p: Path) {
    p in files && files[p].Vhd? && files[p].isDirectory
  }

  datatype Chain = Chain(parent: Path, middle: set<Path>, target: Path, removeUnused: bool, files: Files)

  function Members(c: Chain): set<Path> {
    {c.parent, c.target} + c.middle
  }

  /** Where the data of a member is when the cleanup starts. */
  function DataOf(c: Chain, p: Path): Path {
    var d := Resolve(c.files, p);
    if d.Some? then d.value else p
  }

  /** The merged disk. */
  function MergedId(c: Chain): nat
    requires WellFormed(c)
  {
    c.files[DataOf(c, c.parent)].id
  }

  /**
   Every member opens, its data is its own, and the parent, the target and the middle children
   are distinct; the number of a VHD is its own.
   */
  ghost predicate WellFormed(c: Chain) {
    && c.parent != c.target && c.parent !in c.middle && c.target !in c.middle
    && (forall p :: p in Members(c) ==>
          p in c.files && Resolve(c.files, p).Some? && DataOf(c, p) in c.files && c.files[DataOf(c, p)].Vhd?)
    && (forall p, q :: p in Members(c) && q in Members(c) && p != q ==> DataOf(c, p) != DataOf(c, q))
    && (forall p, q :: p in c.files && q in c.files && c.files[p].Vhd? && c.files[q].Vhd? && p != q ==>
          c.files[p].id != c.files[q].id)
  }

  /**
   The rename keeps the meaning of the parent's name: no alias, or two, whose directories take
   the text of the parent to the same place.
   */
  predicate MovesWell(c: Chain) {
    && (IsAlias(c.parent) <==> IsAlias(c.target))
    && (IsAlias(c.parent) && c.parent in c.files && c.files[c.parent].Link? ==>
          ResolveFrom(c.target, c.files[c.parent].text) == ResolveFrom(c.parent, c.files[c.parent].text))
  }

  datatype Removal = Todo | Resolved(data: Path) | DataGone(data: Path) | Gone

  datatype Stage =
    | WritingState
    | ResolvingTarget
    | Renaming(oldTarget: Option<Path>)
    | UnlinkingOld(oldData: Path)
    | Deleting(removals: map<Path, Removal>)
    | Done

  datatype Process = Down | Up(resuming: bool, stage: Stage)

  /** The step recorded in the state file. */
  datatype Recorded = AtMergeBlocks | AtCleanup | NoState

  datatype State = State(
    files: Files,
    recorded: Recorded,
    process: Process,
    crashed: bool,
    leaked: bool)   // history: the old data of the target could not be deleted

  datatype Event =
    | Begin(resuming: bool)
    | WriteState(ok: bool)
    | ResolveTarget
    | RenameParent
    | UnlinkOld(ok: bool)
    | ResolveChild(child: Path)
    | UnlinkData(child: Path)
    | UnlinkAlias(child: Path)
    | FinishCleanup
    | LateCheckpoint
    | Crash

  function InitialRemovals(c: Chain): map<Path, Removal> {
    if c.removeUnused then map p | p in c.middle :: Todo else map[]
  }

  predicate Removing(s: State, child: Path) {
    s.process.Up? && s.process.stage.Deleting? && child in s.process.stage.removals
  }

  function RemovalOf(s: State, child: Path): Removal
    requires Removing(s, child)
  {
    s.process.stage.removals[child]
  }

  predicate Enabled(c: Chain, s: State, e: Event) {
    match e
    // a session that starts over with the blocks first opens the parent, and refuses a directory without alias
    case Begin(resuming) =>
      && s.process.Down? && (s.crashed ==> resuming) && !s.recorded.NoState?
      && (s.recorded.AtMergeBlocks? ==>
            c.parent in s.files && Resolve(s.files, c.parent).Some? && !IsDirectory(s.files, c.parent))
    case WriteState(_) => s.process.Up? && s.process.stage.WritingState?
    case ResolveTarget => s.process.Up? && s.process.stage.ResolvingTarget?
      && (IsAlias(c.target) ==> Resolve(s.files, c.target).Some?)
    // a file cannot be renamed over a directory
    case RenameParent =>
      && s.process.Up? && s.process.stage.Renaming?
      && if c.parent in s.files then !IsDirectory(s.files, c.target) else s.process.resuming
    case UnlinkOld(_) => s.process.Up? && s.process.stage.UnlinkingOld?
    case ResolveChild(p) => Removing(s, p) && RemovalOf(s, p).Todo? && Resolve(s.files, p).Some?
    // deleting what is not there is no error
    case UnlinkData(p) => Removing(s, p) && RemovalOf(s, p).Resolved?
    case UnlinkAlias(p) => Removing(s, p) && RemovalOf(s, p).DataGone?
    case FinishCleanup =>
      && s.process.Up? && s.process.stage.Deleting?
      && forall p :: p in s.process.stage.removals ==> s.process.stage.removals[p].Gone?
    // a throttled write of the state issued while merging can land at any time
    case LateCheckpoint => s.process.Up? && !s.process.stage.Done?
    case Crash => s.process.Up? && !s.process.stage.Done?
  }

  function At(s: State, stage: Stage): State
    requires s.process.Up?
  {
    s.(process := s.process.(stage := stage))
  }

  function WithRemoval(s: State, child: Path, r: Removal): State
    requires s.process.Up? && s.process.stage.Deleting?
  {
    At(s, Deleting(s.process.stage.removals[child := r]))
  }

  function Step(c: Chain, s: State, e: Event): State
    requires Enabled(c, s, e)
  {
    match e
    case Begin(resuming) => s.(process := Up(resuming, WritingState))
    case WriteState(ok) => At(if ok then s.(recorded := AtCleanup) else s, ResolvingTarget)
    case ResolveTarget => At(s, Renaming(if IsAlias(c.target) then Resolve(s.files, c.target) else None))
    case RenameParent =>
      if c.parent !in s.files then At(s, Deleting(InitialRemovals(c)))
      else
        var renamed := s.(files := (s.files - {c.parent})[c.target := s.files[c.parent]]);
        if s.process.stage.oldTarget.Some? then At(renamed, UnlinkingOld(s.process.stage.oldTarget.value))
        else At(renamed, Deleting(InitialRemovals(c)))
    case UnlinkOld(ok) =>
      var after := if ok then s.(files := s.files - {s.process.stage.oldData}) else s.(leaked := true);
      At(after, Deleting(InitialRemovals(c)))
    case ResolveChild(p) => WithRemoval(s, p, Resolved(Resolve(s.files, p).value))
    case UnlinkData(p) =>
      var d := RemovalOf(s, p).data;
      WithRemoval(s.(files := s.files - {d}), p, if d == p then Gone else DataGone(d))
    case UnlinkAlias(p) => WithRemoval(s.(files := s.files - {p}), p, Gone)
    case FinishCleanup => At(s.(recorded := NoState), Done)
    case LateCheckpoint => s.(recorded := AtMergeBlocks)
    case Crash => s.(process := Down, crashed := true)
  }

  function Initial(c: Chain): State {
    State(c.files, AtMergeBlocks, Down, false, false)
  }

  // ----- the invariant

  /** What the parent's name held is under one of the two names, and the data it leads to is there. */
  ghost predicate Carried(c: Chain, files: Files)
    requires WellFormed(c)
  {
    && c.target in files
    && files[c.target] == (if c.parent in files then c.files[c.target] else c.files[c.parent])
    && (IsAlias(c.parent) ==> DataOf(c, c.parent) in files)
  }

  /** Apart from the target, files are only deleted, never changed or created. */
  ghost predicate OnlyDeletes(c: Chain, files: Files) {
    forall q :: q in files && q != c.target ==> q in c.files && files[q] == c.files[q]
  }

  predicate Unused(c: Chain, q: Path) {
    c.removeUnused && exists p :: p in c.middle && (q == p || q == DataOf(c, p))
  }

  predicate MayVanish(c: Chain, q: Path) {
    q == c.parent || (IsAlias(c.target) && q == DataOf(c, c.target)) || Unused(c, q)
  }

  ghost predicate FilesInv(c: Chain, files: Files)
    requires WellFormed(c)
  {
    && Carried(c, files)
    && OnlyDeletes(c, files)
    && (forall q :: q in c.files && q !in files ==> MayVanish(c, q))
    && (if c.parent in files then files == c.files else !IsDirectory(c.files, c.target))
  }

  ghost predicate RemovalInv(c: Chain, files: Files, p: Path, r: Removal) {
    match r
    case Todo => true
    case Resolved(d) => d == DataOf(c, p)
    case DataGone(d) => d == DataOf(c, p) && d !in files && IsAlias(p)
    case Gone => p !in files && DataOf(c, p) !in files
  }

  /** The old data of the target is gone, except if the deletion failed or an earlier session died before it. */
  ghost predicate OldTargetGone(c: Chain, s: State) {
    !s.crashed && !s.leaked && IsAlias(c.target) ==> DataOf(c, c.target) !in s.files
  }

  ghost predicate StageInv(c: Chain, s: State) {
    s.process.Up? ==>
      match s.process.stage
      case WritingState => true
      case ResolvingTarget => true
      case Renaming(o) => c.parent in s.files ==> o == if IsAlias(c.target) then Some(DataOf(c, c.target)) else None
      case UnlinkingOld(o) => c.parent !in s.files && IsAlias(c.target) && o == DataOf(c, c.target)
      case Deleting(removals) =>
        && c.parent !in s.files && OldTargetGone(c, s)
        && removals.Keys == InitialRemovals(c).Keys
        && forall p :: p in removals ==> RemovalInv(c, s.files, p, removals[p])
      case Done =>
        && c.parent !in s.files && OldTargetGone(c, s) && s.recorded.NoState?
        && forall p :: p in InitialRemovals(c) ==> RemovalInv(c, s.files, p, Gone)
  }

  /** Before the first crash nothing is found already done. */
  ghost predicate FirstSession(c: Chain, s: State) {
    && (s.process.Up? && !s.process.resuming ==> !s.crashed)
    && (!s.crashed
         && (s.process.Down? || s.process.stage.WritingState? || s.process.stage.ResolvingTarget?
              || s.process.stage.Renaming?) ==>
          s.files == c.files)
    && (s.process.Up? || s.crashed ==> !IsDirectory(c.files, c.parent))
    && (s.process.Down? && !s.crashed ==> s.recorded.AtMergeBlocks?)
  }

  ghost predicate Inv(c: Chain, s: State)
    requires WellFormed(c)
  {
    FilesInv(c, s.files) && StageInv(c, s) && FirstSession(c, s)
  }

  lemma InitialInv(c: Chain)
    requires WellFormed(c)
    ensures Inv(c, Initial(c))
  {
  }

  /** The data of a member is not a member, unless it is that member itself. */
  lemma DataIsPrivate(c: Chain, p: Path, q: Path)
    requires WellFormed(c) && p in Members(c) && q in Members(c)
    ensures !IsAlias(p) ==> DataOf(c, p) == p && c.files[p].Vhd?
    ensures DataOf(c, p) == q ==> p == q && !IsAlias(p)
    ensures IsAlias(p) ==> c.files[p].Link? && !NamesAlias(c.files[p].text)
    ensures IsAlias(p) ==> DataOf(c, p) == ResolveFrom(p, c.files[p].text)
  {
    hide IsAlias;
  }

  lemma RenameFiles(c: Chain, s: State)
    requires WellFormed(c) && Inv(c, s) && Enabled(c, s, RenameParent)
    ensures FilesInv(c, Step(c, s, RenameParent).files) && c.parent !in Step(c, s, RenameParent).files
  {
    hide IsAlias, ResolveFrom;
    DataIsPrivate(c, c.parent, c.target);
    DataIsPrivate(c, c.target, c.parent);
    DataIsPrivate(c, c.parent, c.parent);
  }

  lemma RenameInv(c: Chain, s: State)
    requires WellFormed(c) && Inv(c, s) && Enabled(c, s, RenameParent)
    ensures Inv(c, Step(c, s, RenameParent))
  {
    hide IsAlias, FilesInv, DataOf, Resolve, WellFormed;
    RenameFiles(c, s);
    if c.parent !in s.files {
      assert s.crashed by {
        GoneAfterCrash(c, s);
      }
    }
  }

  lemma GoneAfterCrash(c: Chain, s: State)
    requires WellFormed(c) && FirstSession(c, s) && s.process.Up? && s.process.stage.Renaming? && c.parent !in s.files
    ensures s.crashed
  {
    assert c.parent in Members(c);
  }

  lemma UnlinkOldInv(c: Chain, s: State, ok: bool)
    requires WellFormed(c) && Inv(c, s) && Enabled(c, s, UnlinkOld(ok))
    ensures Inv(c, Step(c, s, UnlinkOld(ok)))
  {
    hide IsAlias;
    DataIsPrivate(c, c.target, c.target);
    assert c.parent in Members(c) && c.target in Members(c);
  }

  lemma ResolveChildInv(c: Chain, s: State, p: Path)
    requires WellFormed(c) && Inv(c, s) && Enabled(c, s, ResolveChild(p))
    ensures Inv(c, Step(c, s, ResolveChild(p)))
  {
    hide IsAlias, Resolve, DataOf, FilesInv, StageInv;
    RemovalHolds(c, s, p);
    ResolvesToData(c, s, p);
    RemovalMoves(c, s, p, Resolved(DataOf(c, p)));
  }

  lemma RemovalHolds(c: Chain, s: State, p: Path)
    requires StageInv(c, s) && Removing(s, p)
    ensures RemovalInv(c, s.files, p, RemovalOf(s, p)) && c.removeUnused && p in c.middle && c.parent !in s.files
  {
    hide IsAlias, DataOf;
    assert p in InitialRemovals(c);
  }

  lemma ResolvesToData(c: Chain, s: State, p: Path)
    requires WellFormed(c) && FilesInv(c, s.files) && p in c.middle && Resolve(s.files, p).Some?
    ensures Resolve(s.files, p) == Some(DataOf(c, p))
  {
    hide IsAlias;
    assert p in Members(c);
  }

  /** One removal moves on, the others stay where they are. */
  lemma RemovalMoves(c: Chain, s: State, p: Path, r: Removal)
    requires StageInv(c, s) && Removing(s, p) && RemovalInv(c, s.files, p, r)
    ensures StageInv(c, WithRemoval(s, p, r))
  {
    hide IsAlias, DataOf, Resolve;
    var removals := s.process.stage.removals[p := r];
    assert removals.Keys == s.process.stage.removals.Keys;
  }

  lemma UnlinkDataFiles(c: Chain, files: Files, p: Path)
    requires WellFormed(c) && FilesInv(c, files) && c.parent !in files && c.removeUnused && p in c.middle
    ensures FilesInv(c, files - {DataOf(c, p)})
  {
    hide IsAlias, NamesAlias, ResolveFrom;
    assert p in Members(c) && c.parent in Members(c) && c.target in Members(c);
    DataIsPrivate(c, p, c.target);
    assert Unused(c, DataOf(c, p));
  }

  /** Deleting a file moves one removal on and leaves the others where they are. */
  lemma RemovalAdvances(c: Chain, s: State, gone: Path, p: Path, r: Removal)
    requires StageInv(c, s) && Removing(s, p) && RemovalInv(c, s.files - {gone}, p, r)
    ensures StageInv(c, WithRemoval(s.(files := s.files - {gone}), p, r))
  {
    hide IsAlias, DataOf, Resolve;
    var files, removals := s.files - {gone}, s.process.stage.removals[p := r];
    assert removals.Keys == s.process.stage.removals.Keys;
    forall q | q in removals ensures RemovalInv(c, files, q, removals[q]) {
      assert q == p || RemovalInv(c, s.files, q, s.process.stage.removals[q]);
    }
  }

  lemma UnlinkDataInv(c: Chain, s: State, p: Path)
    requires WellFormed(c) && Inv(c, s) && Enabled(c, s, UnlinkData(p))
    ensures Inv(c, Step(c, s, UnlinkData(p)))
  {
    hide IsAlias, WellFormed, FilesInv, DataOf, StageInv, Resolve;
    var d := RemovalOf(s, p).data;
    RemovalHolds(c, s, p);
    assert p in Members(c);
    UnlinkDataFiles(c, s.files, p);
    DataIsPrivate(c, p, p);
    RemovalAdvances(c, s, d, p, if d == p then Gone else DataGone(d));
  }

  lemma UnlinkAliasFiles(c: Chain, files: Files, p: Path)
    requires WellFormed(c) && FilesInv(c, files) && c.parent !in files && c.removeUnused && p in c.middle && IsAlias(p)
    ensures FilesInv(c, files - {p})
  {
    hide IsAlias;
    assert p in Members(c);
    DataIsPrivate(c, c.parent, p);
    assert Unused(c, p);
  }

  lemma UnlinkAliasInv(c: Chain, s: State, p: Path)
    requires WellFormed(c) && Inv(c, s) && Enabled(c, s, UnlinkAlias(p))
    ensures Inv(c, Step(c, s, UnlinkAlias(p)))
  {
    hide IsAlias, WellFormed, FilesInv, DataOf, StageInv, Resolve;
    RemovalHolds(c, s, p);
    UnlinkAliasFiles(c, s.files, p);
    RemovalAdvances(c, s, p, p, Gone);
  }

  lemma StepInv(c: Chain, s: State, e: Event)
    requires WellFormed(c) && Inv(c, s) && Enabled(c, s, e)
    ensures Inv(c, Step(c, s, e))
  {
    match e
    case RenameParent => RenameInv(c, s);
    case UnlinkOld(ok) => UnlinkOldInv(c, s, ok);
    case ResolveChild(p) => ResolveChildInv(c, s, p);
    case UnlinkData(p) => UnlinkDataInv(c, s, p);
    case UnlinkAlias(p) => UnlinkAliasInv(c, s, p);
    case _ =>
  }

  // ----- whole runs

  ghost predicate StepAt(c: Chain, run: seq<State>, i: nat)
    requires i + 1 < |run|
  {
    exists e :: Enabled(c, run[i], e) && run[i + 1] == Step(c, run[i], e)
  }

  ghost predicate IsRun(c: Chain, run: seq<State>) {
    && |run| > 0
    && run[0] == Initial(c)
    && forall i: nat :: i + 1 < |run| ==> StepAt(c, run, i)
  }

  lemma {:induction false} RunInv(c: Chain, run: seq<State>, i: nat)
    requires WellFormed(c) && IsRun(c, run) && i < |run|
    ensures Inv(c, run[i])
  {
    if i == 0 {
      InitialInv(c);
    } else {
      RunInv(c, run, i - 1);
      assert StepAt(c, run, i - 1);
      var e :| Enabled(c, run[i - 1], e) && run[i] == Step(c, run[i - 1], e);
      StepInv(c, run[i - 1], e);
    }
  }

  /** Where the merged data is. */
  function MergedPath(c: Chain, files: Files): Path {
    if IsAlias(c.parent) then DataOf(c, c.parent) else if c.parent in files then c.parent else c.target
  }

  /** Through any crashes and resumptions the merged data is never deleted, whatever the names lead to. */
  lemma MergedDataIsKept(c: Chain, run: seq<State>, i: nat)
    requires WellFormed(c) && IsRun(c, run) && i < |run|
    ensures var at := MergedPath(c, run[i].files);
      at in run[i].files && run[i].files[at] == c.files[DataOf(c, c.parent)]
  {
    hide IsAlias, ResolveFrom;
    RunInv(c, run, i);
    DataIsPrivate(c, c.parent, c.target);
    DataIsPrivate(c, c.parent, c.parent);
  }

  /**
   While the rename keeps the meaning of the parent's name, the merged disk opens under that
   name until the rename and under the name of the target from then on.
   */
  lemma MergedDataStaysReachable(c: Chain, run: seq<State>, i: nat)
    requires WellFormed(c) && IsRun(c, run) && i < |run|
    requires MovesWell(c)
    ensures Opens(run[i].files, if c.parent in run[i].files then c.parent else c.target, MergedId(c))
  {
    hide IsAlias, ResolveFrom;
    RunInv(c, run, i);
    MergedDataIsKept(c, run, i);
    DataIsPrivate(c, c.parent, c.target);
    DataIsPrivate(c, c.parent, c.parent);
  }

  /** Under which name, or none, the merged disk opens at the end is decided by the names alone. */
  lemma TargetOpensIff(c: Chain, run: seq<State>)
    requires WellFormed(c) && IsRun(c, run)
    requires run[|run| - 1].process.Up? && run[|run| - 1].process.stage.Done?
    ensures Opens(run[|run| - 1].files, c.target, MergedId(c)) <==> MovesWell(c)
  {
    hide IsAlias, ResolveFrom;
    var files := run[|run| - 1].files;
    RunInv(c, run, |run| - 1);
    MergedDataIsKept(c, run, |run| - 1);
    DataIsPrivate(c, c.parent, c.target);
    DataIsPrivate(c, c.parent, c.parent);
    if Opens(files, c.target, MergedId(c)) && IsAlias(c.parent) {
      OneMergedDisk(c, files, Resolve(files, c.target).value);
    }
  }

  /** No other file has the number of the merged disk. */
  lemma OneMergedDisk(c: Chain, files: Files, p: Path)
    requires WellFormed(c) && FilesInv(c, files) && IsAlias(c.parent)
    requires p in files && files[p].Vhd? && files[p].id == MergedId(c)
    ensures p == DataOf(c, c.parent)
  {
    hide IsAlias, ResolveFrom;
    DataIsPrivate(c, c.parent, c.parent);
    assert c.parent in Members(c) && c.target in Members(c);
    assert p == c.target ==> files[p] == c.files[c.target];
  }

  /** Two aliases in one directory move well. */
  lemma SameDirectoryMovesWell(c: Chain)
    requires DirOf(c.parent) == DirOf(c.target) && (IsAlias(c.parent) <==> IsAlias(c.target))
    ensures MovesWell(c)
  {
  }

  /**
   Two aliases, the first of which was created for its data: they move well exactly if as many
   levels above the target is the directory that the parent shares with its data.
   */
  lemma CreatedAliasMovesWellIff(c: Chain)
    requires WellFormed(c) && IsAlias(c.parent) && IsAlias(c.target) && Normal(DataOf(c, c.parent))
    requires c.files[c.parent] == Link(Relative(DirOf(c.parent), DataOf(c, c.parent)))
    ensures var data := DataOf(c, c.parent);
      var n := Common(DirOf(c.parent), data);
      MovesWell(c) <==> Above(DirOf(c.target), |DirOf(c.parent)| - n) == data[..n]
  {
    hide IsAlias, Relative, Above, Common, Follow;
    DataIsPrivate(c, c.parent, c.parent);
    assert c.parent in Members(c);
    MovedAliasResolvesIff(c.parent, c.target, DataOf(c, c.parent));
  }

  /**
   The rename succeeds, or finds the parent gone in a session that resumes, exactly if the
   target is no directory; the old data is never the merged data.
   */
  lemma RenameIsSafe(c: Chain, run: seq<State>, i: nat)
    requires WellFormed(c) && IsRun(c, run) && i < |run| && run[i].process.Up?
    ensures run[i].process.stage.Renaming? ==>
      (Enabled(c, run[i], RenameParent) <==> !IsDirectory(c.files, c.target))
    ensures run[i].process.stage.UnlinkingOld? ==> run[i].process.stage.oldData != DataOf(c, c.parent)
  {
    hide IsAlias, ResolveFrom;
    RunInv(c, run, i);
    assert c.parent in Members(c) && c.target in Members(c);
  }

  /** A directory is never replaced: no session gets past the rename, and no file is touched. */
  lemma DirectoryIsNeverReplaced(c: Chain, run: seq<State>, i: nat)
    requires WellFormed(c) && IsRun(c, run) && i < |run| && IsDirectory(c.files, c.target)
    ensures run[i].files == c.files
    ensures run[i].process.Up? ==>
      var stage := run[i].process.stage; stage.WritingState? || stage.ResolvingTarget? || stage.Renaming?
  {
    hide IsAlias, ResolveFrom;
    RunInv(c, run, i);
  }

  /** A run with its events. */
  ghost predicate Follows(c: Chain, run: seq<State>, events: seq<Event>) {
    && |run| == |events| + 1 && run[0] == Initial(c)
    && forall i: nat :: i < |events| ==> FollowsAt(c, run, events, i)
  }

  predicate FollowsAt(c: Chain, run: seq<State>, events: seq<Event>, i: nat)
    requires |run| == |events| + 1 && i < |events|
  {
    Enabled(c, run[i], events[i]) && run[i + 1] == Step(c, run[i], events[i])
  }

  lemma FollowsIsRun(c: Chain, run: seq<State>, events: seq<Event>)
    requires Follows(c, run, events)
    ensures IsRun(c, run)
  {
    hide Enabled, Step;
    forall i: nat | i + 1 < |run| ensures StepAt(c, run, i) {
      assert FollowsAt(c, run, events, i);
    }
  }

  lemma RunHasEvents(c: Chain, run: seq<State>) returns (events: seq<Event>)
    requires IsRun(c, run)
    ensures Follows(c, run, events)
  {
    hide Enabled, Step;
    events := [];
    for i := 0 to |run| - 1
      invariant |events| == i
      invariant forall j: nat :: j < i ==> Enabled(c, run[j], events[j]) && run[j + 1] == Step(c, run[j], events[j])
    {
      assert StepAt(c, run, i);
      var e :| Enabled(c, run[i], e) && run[i + 1] == Step(c, run[i], e);
      events := events + [e];
    }
  }

  /** What a state remembers is what has happened. */
  lemma {:induction false} MemoryIs(c: Chain, run: seq<State>, events: seq<Event>)
    requires Follows(c, run, events)
    ensures run[|run| - 1].crashed <==> Crash in events
    ensures run[|run| - 1].leaked <==> UnlinkOld(false) in events
  {
    hide Enabled, Resolve, IsAlias;
    if events != [] {
      var n := |events| - 1;
      var shorter, before := run[..n + 1], events[..n];
      forall i: nat | i < n ensures FollowsAt(c, shorter, before, i) {
        assert FollowsAt(c, run, events, i);
      }
      MemoryIs(c, shorter, before);
      assert FollowsAt(c, run, events, n);
      assert events == before + [events[n]];
    }
  }

  /**
   What is left at the end: everything but the parent's name, the unused children and the
   target's old data, unless a crash or a failed deletion leaked it.
   */
  lemma WhatIsLeft(c: Chain, run: seq<State>, events: seq<Event>, q: Path)
    requires WellFormed(c) && Follows(c, run, events) && q in c.files
    requires run[|run| - 1].process.Up? && run[|run| - 1].process.stage.Done?
    ensures var s := run[|run| - 1];
      && (!MayVanish(c, q) ==> q in s.files && s.files[q] == if q == c.target then c.files[c.parent] else c.files[q])
      && (MayVanish(c, q) && q in s.files ==>
            (Crash in events || UnlinkOld(false) in events) && IsAlias(c.target) && q == DataOf(c, c.target))
  {
    hide IsAlias, DataOf, Resolve;
    var s := run[|run| - 1];
    FollowsIsRun(c, run, events);
    MemoryIs(c, run, events);
    RunInv(c, run, |run| - 1);
    if Unused(c, q) {
      var p :| p in c.middle && (q == p || q == DataOf(c, p));
      assert p in InitialRemovals(c);
      assert RemovalInv(c, s.files, p, Gone);
    }
  }

  // ----- three chains that go wrong

  lemma OneStep(c: Chain, run: seq<State>, e: Event) returns (longer: seq<State>)
    requires IsRun(c, run) && Enabled(c, run[|run| - 1], e)
    ensures IsRun(c, longer) && longer != [] && longer[|longer| - 1] == Step(c, run[|run| - 1], e)
  {
    longer := run + [Step(c, run[|run| - 1], e)];
    forall i: nat | i + 1 < |longer| ensures StepAt(c, longer, i) {
      if i + 1 < |run| {
        assert StepAt(c, run, i);
        assert longer[i] == run[i] && longer[i + 1] == run[i + 1];
      } else {
        assert longer[i] == run[|run| - 1];
      }
    }
  }

  /** Up to the rename. */
  lemma ReachRename(c: Chain) returns (run: seq<State>)
    requires WellFormed(c) && !IsDirectory(c.files, c.parent)
    ensures IsRun(c, run) && run != []
    ensures run[|run| - 1] == State(c.files, AtCleanup,
      Up(false, Renaming(if IsAlias(c.target) then Resolve(c.files, c.target) else None)), false, false)
  {
    hide IsAlias, Resolve;
    MembersResolve(c);
    run := [Initial(c)];
    run := OneStep(c, run, Begin(false));
    run := OneStep(c, run, WriteState(true));
    run := OneStep(c, run, ResolveTarget);
  }

  lemma MembersResolve(c: Chain)
    requires WellFormed(c)
    ensures c.parent in c.files && Resolve(c.files, c.parent).Some? && Resolve(c.files, c.target).Some?
  {
    assert c.parent in Members(c) && c.target in Members(c);
  }

  /** The cleanup of two disks, when the target is an alias, to its end. */
  lemma ReachEnd(c: Chain) returns (run: seq<State>)
    requires WellFormed(c) && c.middle == {} && IsAlias(c.target) && !IsDirectory(c.files, c.parent)
    ensures IsRun(c, run) && run != [] && run[|run| - 1].process.Up? && run[|run| - 1].process.stage.Done?
  {
    hide IsAlias, Resolve, WellFormed;
    run := ReachRename(c);
    MembersResolve(c);
    assert !IsDirectory(c.files, c.target) by {
      AliasIsNoDirectory(c);
    }
    run := OneStep(c, run, RenameParent);
    run := OneStep(c, run, UnlinkOld(true));
    run := OneStep(c, run, FinishCleanup);
  }

  /** A session that died can be taken up again exactly if the file records the cleanup or the parent is still there. */
  lemma ResumesIff(c: Chain, run: seq<State>, i: nat)
    requires WellFormed(c) && IsRun(c, run) && i < |run| && run[i].process.Down? && run[i].crashed
    requires !run[i].recorded.NoState?
    ensures Enabled(c, run[i], Begin(true)) <==> run[i].recorded.AtCleanup? || c.parent in run[i].files
  {
    hide IsAlias, Resolve, WellFormed;
    RunInv(c, run, i);
    MembersResolve(c);
  }

  /** Dying right after the rename does no harm: the next session finds the parent gone and comes to the end. */
  lemma CrashAfterRenameIsSurvived(c: Chain) returns (run: seq<State>)
    requires WellFormed(c) && c.middle == {} && IsAlias(c.target) && !IsDirectory(c.files, c.parent) && MovesWell(c)
    ensures IsRun(c, run) && run != [] && run[|run| - 1].crashed
    ensures run[|run| - 1].process.Up? && run[|run| - 1].process.stage.Done?
    ensures Opens(run[|run| - 1].files, c.target, MergedId(c))
  {
    hide IsAlias, Resolve, WellFormed, Opens, MovesWell;
    run := ReachRenamed(c);
    run := OneStep(c, run, Crash);
    run := OneStep(c, run, Begin(true));
    run := OneStep(c, run, WriteState(true));
    TargetResolves(c, run);
    run := OneStep(c, run, ResolveTarget);
    run := OneStep(c, run, RenameParent);
    run := OneStep(c, run, FinishCleanup);
    TargetOpensIff(c, run);
  }

  ghost predicate Stuck(c: Chain, s: State) {
    forall e :: !Enabled(c, s, e)
  }

  /**
   Unless a checkpoint that was still on its way lands after the rename: then no session gets past
   opening the parent.
   */
  lemma LateCheckpointBlocksResume(c: Chain) returns (run: seq<State>)
    requires WellFormed(c) && c.middle == {} && IsAlias(c.target) && !IsDirectory(c.files, c.parent)
    ensures IsRun(c, run) && run != [] && Stuck(c, run[|run| - 1])
    ensures !run[|run| - 1].recorded.NoState?
  {
    hide IsAlias, Resolve, WellFormed;
    run := ReachRenamed(c);
    run := OneStep(c, run, LateCheckpoint);
    run := OneStep(c, run, Crash);
  }

  lemma ReachRenamed(c: Chain) returns (run: seq<State>)
    requires WellFormed(c) && c.middle == {} && IsAlias(c.target) && !IsDirectory(c.files, c.parent)
    ensures IsRun(c, run) && run != [] && c.parent !in run[|run| - 1].files
    ensures var s := run[|run| - 1];
      s.process.Up? && s.process.stage.UnlinkingOld? && s.recorded.AtCleanup? && !s.crashed
  {
    hide IsAlias, Resolve, WellFormed;
    run := ReachRename(c);
    MembersResolve(c);
    assert !IsDirectory(c.files, c.target) && c.parent != c.target by {
      AliasIsNoDirectory(c);
      NamesDiffer(c);
    }
    run := OneStep(c, run, RenameParent);
  }

  lemma NamesDiffer(c: Chain)
    requires WellFormed(c)
    ensures c.parent != c.target
  {
  }

  /** In a chain that moves well the target can be resolved at any time. */
  lemma TargetResolves(c: Chain, run: seq<State>)
    requires WellFormed(c) && IsRun(c, run) && MovesWell(c)
    ensures c.parent !in run[|run| - 1].files ==> Resolve(run[|run| - 1].files, c.target).Some?
  {
    hide IsAlias, Resolve, WellFormed, MovesWell;
    MergedDataStaysReachable(c, run, |run| - 1);
  }

  lemma AliasIsNoDirectory(c: Chain)
    requires WellFormed(c) && IsAlias(c.target)
    ensures !IsDirectory(c.files, c.target)
  {
    hide IsAlias;
    DataIsPrivate(c, c.target, c.target);
  }

  const PARENT_NAME: string := "p.vhd"
  const CHILD_NAME: string := "c.vhd"
  const PARENT_ALIAS: string := "p" + ALIAS_SUFFIX
  const CHILD_ALIAS: string := "c" + ALIAS_SUFFIX

  lemma SampleNames()
    ensures HasSuffix(PARENT_ALIAS) && HasSuffix(CHILD_ALIAS) && !HasSuffix(PARENT_NAME) && !HasSuffix(CHILD_NAME)
    ensures IsName(PARENT_NAME) && IsName(CHILD_NAME)
    ensures PARENT_NAME != CHILD_NAME && PARENT_ALIAS != PARENT_NAME && CHILD_ALIAS != PARENT_NAME
    ensures PARENT_ALIAS != CHILD_NAME && CHILD_ALIAS != CHILD_NAME
  {
    assert PARENT_NAME[0] == 'p' && CHILD_NAME[0] == 'c';
    assert PARENT_ALIAS[1..] == ALIAS_SUFFIX && CHILD_ALIAS[1..] == ALIAS_SUFFIX;
  }

  /** A parent without an alias, a target with one. */
  function MixedChain(): Chain {
    Chain([PARENT_NAME], {}, [CHILD_ALIAS], true,
          map[[PARENT_NAME] := Vhd(1, false),
              [CHILD_ALIAS] := Link(Text(false, [CHILD_NAME])), [CHILD_NAME] := Vhd(2, true)])
  }

  lemma MixedIsWellFormed()
    ensures WellFormed(MixedChain()) && !IsAlias(MixedChain().parent) && IsAlias(MixedChain().target)
  {
    hide HasSuffix, Resolve, DataOf;
    MixedResolves();
    var c := MixedChain();
    assert [PARENT_NAME] in c.files && [CHILD_ALIAS] in c.files && [CHILD_NAME] in c.files;
  }

  lemma MixedResolves()
    ensures !IsAlias([PARENT_NAME]) && IsAlias([CHILD_ALIAS])
    ensures [PARENT_NAME] != [CHILD_NAME] && [PARENT_NAME] != [CHILD_ALIAS] && [CHILD_NAME] != [CHILD_ALIAS]
    ensures Resolve(MixedChain().files, [CHILD_ALIAS]) == Some([CHILD_NAME])
    ensures Resolve(MixedChain().files, [PARENT_NAME]) == Some([PARENT_NAME])
    ensures DataOf(MixedChain(), [CHILD_ALIAS]) == [CHILD_NAME]
    ensures DataOf(MixedChain(), [PARENT_NAME]) == [PARENT_NAME]
  {
    hide HasSuffix;
    SampleNames();
    assert [PARENT_NAME][0] == PARENT_NAME && [CHILD_ALIAS][0] == CHILD_ALIAS && [CHILD_NAME][0] == CHILD_NAME;
    OneNameDown([], CHILD_NAME);
    assert [] + [CHILD_NAME] == [CHILD_NAME];
    assert DirOf([CHILD_ALIAS]) == [];
  }

  lemma OneNameDown(dir: Path, name: string)
    requires IsName(name)
    ensures Follow(dir, [name]) == dir + [name]
  {
    assert [name][1..] == [];
  }

  /** Its cleanup runs to the end, and the merged disk is under a name where it cannot be opened. */
  lemma MixedChainIsLost() returns (run: seq<State>)
    ensures WellFormed(MixedChain()) && IsRun(MixedChain(), run)
    ensures run[|run| - 1].process.Up? && run[|run| - 1].process.stage.Done?
    ensures !Opens(run[|run| - 1].files, MixedChain().target, MergedId(MixedChain()))
  {
    hide IsAlias, WellFormed, Opens;
    MixedIsWellFormed();
    run := ReachEnd(MixedChain());
    TargetOpensIff(MixedChain(), run);
  }

  /** Two aliases in two directories, each with its data beside it. */
  function FarChain(): Chain {
    Chain(["a", PARENT_ALIAS], {}, ["b", CHILD_ALIAS], true,
          map[["a", PARENT_NAME] := Vhd(1, true), ["b", CHILD_NAME] := Vhd(2, true),
              ["a", PARENT_ALIAS] := Link(Text(false, [PARENT_NAME])),
              ["b", CHILD_ALIAS] := Link(Text(false, [CHILD_NAME]))])
  }

  /** The aliases are those that are created for the two directories. */
  lemma FarChainIsCreated()
    ensures var data: Files := map[["a", PARENT_NAME] := Vhd(1, true), ["b", CHILD_NAME] := Vhd(2, true)];
      var one := CreateAlias(data, ["a", PARENT_ALIAS], ["a", PARENT_NAME]);
      one.Some? && CreateAlias(one.value, ["b", CHILD_ALIAS], ["b", CHILD_NAME]) == Some(FarChain().files)
  {
    hide HasSuffix, Relative;
    SampleNames();
    FarPaths();
    assert ["a"] + [PARENT_NAME] == ["a", PARENT_NAME] && ["b"] + [CHILD_NAME] == ["b", CHILD_NAME];
    InsideNeedsNoUps(["a"], [PARENT_NAME]);
    InsideNeedsNoUps(["b"], [CHILD_NAME]);
    assert ["a", PARENT_NAME][1] == PARENT_NAME && ["b", CHILD_NAME][1] == CHILD_NAME;
    assert ["a", PARENT_ALIAS][1] == PARENT_ALIAS && ["b", CHILD_ALIAS][1] == CHILD_ALIAS;
  }

  /** The four files are four. */
  lemma FarPaths()
    ensures DirOf(["a", PARENT_ALIAS]) == ["a"] && DirOf(["b", CHILD_ALIAS]) == ["b"]
    ensures ["a", PARENT_ALIAS] != ["a", PARENT_NAME] && ["b", CHILD_ALIAS] != ["b", CHILD_NAME]
    ensures ["a", PARENT_ALIAS] != ["b", CHILD_ALIAS] && ["a", PARENT_ALIAS] != ["b", CHILD_NAME]
    ensures ["a", PARENT_NAME] != ["b", CHILD_ALIAS] && ["a", PARENT_NAME] != ["b", CHILD_NAME]
    ensures ["b", PARENT_NAME] != ["a", PARENT_NAME]
  {
    hide HasSuffix;
    SampleNames();
    assert ["a", PARENT_ALIAS][1] == PARENT_ALIAS && ["b", CHILD_ALIAS][1] == CHILD_ALIAS;
    assert ["a", PARENT_NAME][1] == PARENT_NAME && ["b", CHILD_NAME][1] == CHILD_NAME;
    assert ["a", PARENT_ALIAS][0] == "a" && ["a", PARENT_NAME][0] == "a" && ["b", PARENT_NAME][0] == "b";
    assert ["b", CHILD_ALIAS][0] == "b" && ["b", CHILD_NAME][0] == "b";
  }

  lemma FarResolves()
    ensures IsAlias(FarChain().parent) && IsAlias(FarChain().target)
    ensures DataOf(FarChain(), FarChain().parent) == ["a", PARENT_NAME]
    ensures DataOf(FarChain(), FarChain().target) == ["b", CHILD_NAME]
    ensures Resolve(FarChain().files, FarChain().parent).Some? && Resolve(FarChain().files, FarChain().target).Some?
    ensures ResolveFrom(FarChain().parent, FarChain().files[FarChain().parent].text) == ["a", PARENT_NAME]
    ensures ResolveFrom(FarChain().target, FarChain().files[FarChain().parent].text) == ["b", PARENT_NAME]
  {
    hide HasSuffix;
    SampleNames();
    FarPaths();
    var c := FarChain();
    OneNameDown(["a"], PARENT_NAME);
    OneNameDown(["b"], PARENT_NAME);
    OneNameDown(["b"], CHILD_NAME);
    assert ["a"] + [PARENT_NAME] == ["a", PARENT_NAME] && ["b"] + [CHILD_NAME] == ["b", CHILD_NAME];
    assert ["b"] + [PARENT_NAME] == ["b", PARENT_NAME];
  }

  lemma FarIsWellFormed()
    ensures WellFormed(FarChain()) && IsAlias(FarChain().parent) && IsAlias(FarChain().target)
    ensures !IsDirectory(FarChain().files, FarChain().parent) && !MovesWell(FarChain())
  {
    hide IsAlias, DataOf, Resolve, ResolveFrom;
    FarPaths();
    FarResolves();
  }

  /**
   The aliases were created; the one that is moved leads from the directory of the target to a file
   that does not exist.
   */
  lemma FarChainIsLost() returns (run: seq<State>)
    ensures WellFormed(FarChain()) && IsRun(FarChain(), run)
    ensures run[|run| - 1].process.Up? && run[|run| - 1].process.stage.Done?
    ensures !Opens(run[|run| - 1].files, FarChain().target, MergedId(FarChain()))
  {
    hide IsAlias, WellFormed, Opens, MovesWell, IsDirectory;
    FarChainIsCreated();
    FarIsWellFormed();
    run := ReachEnd(FarChain());
    TargetOpensIff(FarChain(), run);
  }

  /** A file and a directory, both without alias. */
  function DirectoryChain(): Chain {
    Chain([PARENT_NAME], {}, [CHILD_NAME], true,
          map[[PARENT_NAME] := Vhd(1, false), [CHILD_NAME] := Vhd(2, true)])
  }

  lemma DirectoryIsWellFormed()
    ensures WellFormed(DirectoryChain()) && IsDirectory(DirectoryChain().files, DirectoryChain().target)
  {
    hide HasSuffix;
    SampleNames();
    assert [PARENT_NAME][0] == PARENT_NAME && [CHILD_NAME][0] == CHILD_NAME;
  }

  /** The first session gets to the rename and no further. */
  lemma DirectoryChainIsStuck() returns (run: seq<State>)
    ensures WellFormed(DirectoryChain()) && IsRun(DirectoryChain(), run) && run != []
    ensures run[|run| - 1].process == Up(false, Renaming(None))
    ensures forall e :: Enabled(DirectoryChain(), run[|run| - 1], e) ==> e.Crash? || e.LateCheckpoint?
  {
    hide HasSuffix, WellFormed;
    SampleNames();
    DirectoryIsWellFormed();
    assert [CHILD_NAME][0] == CHILD_NAME;
    run := ReachRename(DirectoryChain());
    RenameIsSafe(DirectoryChain(), run, |run| - 1);
  }
}
