/**
 The scheduler behind `asyncEach`, as a state machine over the turns of the event loop.

 A turn is either the continuation of an activation of `next` that was awaiting the
 iterator, or the settlement of one task.  Everything the code does synchronously inside
 such a turn, including the nested calls of `next`, is one step of the machine.
 */
module AsyncEach {

  /** `concurrency == 0` means no limit, as in the source. */
  datatype Config = Config(items: nat, concurrency: nat, stopOnError: bool)

  /** One call of `resolve` or `reject`; tasks are named by the index of their item. */
  datatype Settlement = Resolved | Rejected(task: nat) | RejectedAll(tasks: seq<nat>)

  datatype State = State(
    running: int,
    index: nat,
    awaiting: bool,                // nextIsRunning, suspended on the iterator
    exhausted: bool,               // `next` has been rebound to the finishing closure
    errors: seq<nat>,
    settlements: seq<Settlement>,  // every call of resolve/reject, in order
    pending: set<nat>,             // tasks whose promise is not settled yet
    finished: set<nat>,
    failures: seq<nat>)            // failed tasks, in the order they failed

  /** What the iteratee does when called: return a promise or a plain value, or throw. */
  datatype Call = Promise | Value | Throws

  datatype Turn = Resume(call: Call) | Settle(task: nat, ok: bool)

  predicate BelowLimit(c: Config, running: int) {
    c.concurrency == 0 || running < c.concurrency
  }

  predicate Live(s: State) {
    s.settlements == []
  }

  /** The finishing closure installed once the iterator is exhausted. */
  function Finish(s: State): State {
    if s.running != 0 then s
    else s.(settlements := s.settlements + [if s.errors == [] then Resolved else RejectedAll(s.errors)])
  }

  function Next(c: Config, s: State): State {
    if s.exhausted then Finish(s)
    else if s.awaiting then s
    else if BelowLimit(c, s.running) then s.(awaiting := true)
    else s
  }

  /** After the first settlement both handlers are no-ops. */
  function OnFulfilled(c: Config, s: State): State {
    if !Live(s) then s else Next(c, s.(running := s.running - 1))
  }

  function OnRejected(c: Config, s: State, task: nat): State {
    if !Live(s) then s
    else if c.stopOnError then s.(settlements := [Rejected(task)])
    else Next(c, s.(running := s.running - 1, errors := s.errors + [task]))
  }

  function Initial(c: Config): State {
    Next(c, State(0, 0, false, false, [], [], {}, {}, []))
  }

  function Ended(s: State, task: nat, ok: bool): State {
    s.(pending := s.pending - {task},
       finished := s.finished + {task},
       failures := if ok then s.failures else s.failures + [task])
  }

  function Handled(c: Config, s: State, task: nat, ok: bool): State {
    if ok then OnFulfilled(c, Ended(s, task, ok)) else OnRejected(c, Ended(s, task, ok), task)
  }

  function StartItem(c: Config, s: State, call: Call): State {
    var task := s.index;
    var s := s.(running := s.running + 1, index := task + 1);
    match call
    case Promise => s.(pending := s.pending + {task})
    case Value => Handled(c, s, task, true)
    case Throws => Handled(c, s, task, false)
  }

  predicate Enabled(s: State, t: Turn) {
    match t
    case Resume(_) => s.awaiting
    case Settle(task, _) => task in s.pending
  }

  function Step(c: Config, s: State, t: Turn): State
    requires Enabled(s, t)
  {
    match t
    case Resume(call) =>
      if s.index < c.items then Next(c, StartItem(c, s, call).(awaiting := false))
      else Next(c, s.(exhausted := true, awaiting := false))
    case Settle(task, ok) =>
      Handled(c, s, task, ok)
  }

  // ----- the invariant

  ghost predicate SettledProperly(c: Config, s: State) {
    if s.settlements == [] then
      if c.stopOnError then s.failures == s.errors == [] else s.errors == s.failures
    else
      && |s.settlements| == 1
      && match s.settlements[0]
         case Resolved => s.exhausted && s.pending == {} && s.failures == []
         case RejectedAll(es) => !c.stopOnError && s.exhausted && s.pending == {} && es == s.failures != []
         case Rejected(t) => c.stopOnError && s.running >= 1 && s.failures != [] && s.failures[0] == t
  }

  /** A task can still finish, or an activation is in progress: no wake-up was lost. */
  ghost predicate NoLostWakeUp(c: Config, s: State) {
    Live(s) && !s.awaiting ==>
      if s.exhausted then s.running > 0 else c.concurrency > 0 && s.running == c.concurrency
  }

  /** The bookkeeping of started tasks: the first `index` items, each pending or finished. */
  ghost predicate Started(s: State) {
    forall t: nat :: (t in s.pending || t in s.finished <==> t < s.index) && !(t in s.pending && t in s.finished)
  }

  /** What holds when `owed` finished tasks have not been subtracted from `running` yet. */
  ghost predicate Counted(c: Config, s: State, owed: nat) {
    && s.index <= c.items
    && |s.pending| + owed <= s.running
    && (Live(s) ==> s.running == |s.pending| + owed)
    && (c.concurrency != 0 ==> s.running <= c.concurrency)
    && (s.exhausted ==> s.index == c.items && !s.awaiting)
  }

  ghost predicate Inv(c: Config, s: State) {
    && Started(s)
    && Counted(c, s, 0)
    && SettledProperly(c, s)
    && (s.awaiting ==> BelowLimit(c, s.running))
    && NoLostWakeUp(c, s)
  }

  lemma NextInv(c: Config, s: State)
    requires Started(s) && Counted(c, s, 0) && SettledProperly(c, s)
    requires s.awaiting ==> BelowLimit(c, s.running)
    requires Live(s) || !s.exhausted || s.running > 0
    ensures Inv(c, Next(c, s))
  {
  }

  lemma InitialInv(c: Config)
    ensures Inv(c, Initial(c))
  {
    NextInv(c, State(0, 0, false, false, [], [], {}, {}, []));
  }

  lemma SettleInv(c: Config, s: State, task: nat, ok: bool)
    requires Inv(c, s) && task in s.pending
    ensures Inv(c, Handled(c, s, task, ok))
  {
    var e := Ended(s, task, ok);
    assert |e.pending| == |s.pending| - 1;
    assert Started(e);
    if Live(s) && (ok || !c.stopOnError) {
      NextInv(c, if ok then e.(running := e.running - 1)
                 else e.(running := e.running - 1, errors := e.errors + [task]));
    }
  }

  /** Calling the iteratee: whatever it does, the books balance again before `next` is re-entered. */
  lemma CallKeepsBooks(c: Config, s: State, call: Call)
    requires Inv(c, s) && s.awaiting && s.index < c.items
    ensures var s' := StartItem(c, s, call);
      && Started(s') && Counted(c, s', 0) && SettledProperly(c, s') && s'.awaiting && !s'.exhausted
      && s'.index == s.index + 1
  {
    var task := s.index;
    assert task !in s.pending && task !in s.finished;
    assert s.pending - {task} == s.pending;
    assert |s.pending + {task}| == |s.pending| + 1;
  }

  lemma StepInv(c: Config, s: State, t: Turn)
    requires Inv(c, s) && Enabled(s, t)
    ensures Inv(c, Step(c, s, t))
  {
    match t
    case Resume(call) =>
      if s.index < c.items {
        CallKeepsBooks(c, s, call);
        NextInv(c, StartItem(c, s, call).(awaiting := false));
      } else {
        NextInv(c, s.(exhausted := true, awaiting := false));
      }
    case Settle(task, ok) =>
      SettleInv(c, s, task, ok);
  }

  // ----- whole runs

  ghost predicate StepAt(c: Config, run: seq<State>, i: nat)
    requires i + 1 < |run|
  {
    exists t :: Enabled(run[i], t) && run[i + 1] == Step(c, run[i], t)
  }

  ghost predicate IsRun(c: Config, run: seq<State>) {
    && |run| > 0
    && run[0] == Initial(c)
    && forall i: nat :: i + 1 < |run| ==> StepAt(c, run, i)
  }

  /** No turn is left to take. */
  ghost predicate Stuck(s: State) {
    forall t :: !Enabled(s, t)
  }

  /** The turns a state can still take. */
  function Fuel(c: Config, s: State): int {
    2 * (c.items - s.index) + |s.pending| + (if s.exhausted then 0 else 1)
  }

  /** Handlers and `next` change neither the tasks nor the position of the iterator. */
  lemma HandlersKeepFuel(c: Config, s: State, task: nat, ok: bool)
    ensures Fuel(c, Handled(c, s, task, ok)) == Fuel(c, Ended(s, task, ok))
    ensures Fuel(c, Next(c, s)) == Fuel(c, s)
  {
  }

  lemma StartSpendsFuel(c: Config, s: State, call: Call)
    requires Inv(c, s) && s.awaiting && s.index < c.items
    ensures Fuel(c, Step(c, s, Resume(call))) < Fuel(c, s)
  {
    hide Inv, Counted, SettledProperly, NoLostWakeUp, Handled, Next;
    assert |s.pending + {s.index}| <= |s.pending| + 1;
    assert s.pending - {s.index} == s.pending by {
      NotPending(c, s);
    }
    HandlersKeepFuel(c, s.(running := s.running + 1, index := s.index + 1), s.index, call.Value?);
    HandlersKeepFuel(c, StartItem(c, s, call).(awaiting := false), 0, true);
  }

  lemma NotPending(c: Config, s: State)
    requires Inv(c, s)
    ensures s.index !in s.pending
  {
  }

  lemma SettleSpendsFuel(c: Config, s: State, task: nat, ok: bool)
    requires task in s.pending
    ensures Fuel(c, Step(c, s, Settle(task, ok))) < Fuel(c, s)
  {
    hide Handled;
    HandlersKeepFuel(c, s, task, ok);
    assert |s.pending - {task}| == |s.pending| - 1;
  }

  lemma StepSpendsFuel(c: Config, s: State, t: Turn)
    requires Inv(c, s) && Enabled(s, t)
    ensures 0 <= Fuel(c, Step(c, s, t)) < Fuel(c, s)
  {
    hide Handled, StartItem, SettledProperly, NoLostWakeUp, Started;
    StepInv(c, s, t);
    match t
    case Resume(call) =>
      if s.index < c.items {
        StartSpendsFuel(c, s, call);
      } else {
        HandlersKeepFuel(c, s.(exhausted := true, awaiting := false), 0, true);
      }
    case Settle(task, ok) => SettleSpendsFuel(c, s, task, ok);
  }

  /** A step starts at most the next item, and leaves the settlement alone once there is one. */
  lemma StepShape(c: Config, s: State, t: Turn)
    requires Inv(c, s) && Enabled(s, t)
    ensures var s' := Step(c, s, t);
      && s.index <= s'.index <= s.index + 1
      && (!Live(s) ==> s'.settlements == s.settlements)
  {
    if t.Resume? && s.index < c.items {
      CallKeepsBooks(c, s, t.call);
    }
  }

  lemma TurnBetween(c: Config, run: seq<State>, i: nat) returns (t: Turn)
    requires IsRun(c, run) && i + 1 < |run|
    ensures Enabled(run[i], t) && run[i + 1] == Step(c, run[i], t)
  {
    assert StepAt(c, run, i);
    t :| Enabled(run[i], t) && run[i + 1] == Step(c, run[i], t);
  }

  /** Every state of every run satisfies the invariant, and the run is short. */
  lemma {:induction false} RunInv(c: Config, run: seq<State>, i: nat)
    requires IsRun(c, run) && i < |run|
    ensures Inv(c, run[i]) && Fuel(c, run[i]) + i <= 2 * c.items + 1
  {
    if i == 0 {
      InitialInv(c);
    } else {
      RunInv(c, run, i - 1);
      var t := TurnBetween(c, run, i - 1);
      StepInv(c, run[i - 1], t);
      StepSpendsFuel(c, run[i - 1], t);
    }
  }

  /** Every run ends: it has at most two turns an item, plus the one that sees the end. */
  lemma RunsAreBounded(c: Config, run: seq<State>)
    requires IsRun(c, run)
    ensures |run| <= 2 * c.items + 2
  {
    RunInv(c, run, |run| - 1);
  }

  /** No run stops before it has settled. */
  lemma UnsettledCanMove(c: Config, run: seq<State>)
    requires IsRun(c, run) && Live(run[|run| - 1])
    ensures !Stuck(run[|run| - 1])
  {
    var s := run[|run| - 1];
    RunInv(c, run, |run| - 1);
    if s.awaiting {
      assert Enabled(s, Resume(Promise));
    } else {
      assert s.pending != {};
      var task :| task in s.pending;
      assert Enabled(s, Settle(task, true));
    }
  }

  /** Items are started once each, in order, and never above the limit. */
  lemma StartsInOrder(c: Config, run: seq<State>, i: nat, task: nat)
    requires IsRun(c, run) && i + 1 < |run|
    ensures c.concurrency != 0 ==> |run[i].pending| <= c.concurrency
    ensures var s, s' := run[i], run[i + 1];
      task in s'.pending + s'.finished && task !in s.pending + s.finished
      <==> s'.index == s.index + 1 && task == s.index
  {
    RunInv(c, run, i);
    RunInv(c, run, i + 1);
    var t := TurnBetween(c, run, i);
    StepShape(c, run[i], t);
  }

  /** As long as items may be left, no fewer tasks than the limit are pending, except while the iterator is awaited. */
  lemma LimitIsReached(c: Config, run: seq<State>, i: nat)
    requires IsRun(c, run) && i < |run| && Live(run[i]) && !run[i].exhausted
    ensures run[i].awaiting || (c.concurrency > 0 && |run[i].pending| == c.concurrency)
    ensures run[i].awaiting && c.concurrency > 0 ==> |run[i].pending| < c.concurrency
  {
    RunInv(c, run, i);
  }

  lemma InvAt(c: Config, run: seq<State>, i: nat)
    requires IsRun(c, run) && i < |run|
    ensures Inv(c, run[i])
  {
    RunInv(c, run, i);
  }

  lemma SettledState(c: Config, s: State)
    requires Inv(c, s) && !Live(s) && !c.stopOnError
    ensures (forall t: nat :: t in s.finished <==> t < c.items) && s.pending == {}
    ensures s.settlements == [if s.failures == [] then Resolved else RejectedAll(s.failures)]
  {
  }

  lemma OneSettlement(c: Config, s: State)
    requires Inv(c, s) && !Live(s)
    ensures |s.settlements| == 1
  {
  }

  /** The promise is settled at most once, and its settlement never changes. */
  lemma {:induction false} SettlesOnce(c: Config, run: seq<State>, i: nat, j: nat)
    requires IsRun(c, run) && i <= j < |run|
    requires !Live(run[i])
    ensures run[j].settlements == run[i].settlements && |run[i].settlements| == 1
  {
    InvAt(c, run, i);
    OneSettlement(c, run[i]);
    if i < j {
      SettlesOnce(c, run, i, j - 1);
      InvAt(c, run, j - 1);
      var t := TurnBetween(c, run, j - 1);
      StepShape(c, run[j - 1], t);
    }
  }

  /**
   With `stopOnError` false a run that can go no further has settled, after every item was
   started and its task had finished, and it rejects exactly when some task failed, with
   the failures in the order they happened.
   */
  lemma SettlesAfterLastTask(c: Config, run: seq<State>)
    requires IsRun(c, run) && Stuck(run[|run| - 1]) && !c.stopOnError
    ensures var s := run[|run| - 1];
      && (forall t: nat :: t in s.finished <==> t < c.items)
      && s.settlements == [if s.failures == [] then Resolved else RejectedAll(s.failures)]
  {
    if Live(run[|run| - 1]) {
      UnsettledCanMove(c, run);
    }
    InvAt(c, run, |run| - 1);
    SettledState(c, run[|run| - 1]);
  }

  /** ... and never before: the promise is unsettled while an item is unstarted or a task pending. */
  lemma NeverSettlesEarly(c: Config, run: seq<State>, i: nat)
    requires IsRun(c, run) && i < |run| && !c.stopOnError
    requires run[i].pending != {} || run[i].index < c.items
    ensures Live(run[i])
  {
    InvAt(c, run, i);
    if !Live(run[i]) {
      SettledState(c, run[i]);
    }
  }

  /** With `stopOnError` a complete run rejects with the first failure, or resolves after the last task. */
  lemma StopsOnFirstError(c: Config, run: seq<State>)
    requires IsRun(c, run) && Stuck(run[|run| - 1]) && c.stopOnError
    ensures var s := run[|run| - 1];
      if s.failures == [] then s.settlements == [Resolved] && (forall t: nat :: t in s.finished <==> t < c.items)
      else s.settlements == [Rejected(s.failures[0])]
  {
    RunInv(c, run, |run| - 1);
    if Live(run[|run| - 1]) {
      UnsettledCanMove(c, run);
    }
  }

  // ----- the settlement, read off the turns

  /** The turns that lead from each state of a run to the next. */
  ghost predicate Takes(c: Config, run: seq<State>, turns: seq<Turn>) {
    && |run| == |turns| + 1 && run[0] == Initial(c)
    && forall i: nat :: i < |turns| ==> TakesAt(c, run, turns, i)
  }

  predicate TakesAt(c: Config, run: seq<State>, turns: seq<Turn>, i: nat)
    requires |run| == |turns| + 1 && i < |turns|
  {
    Enabled(run[i], turns[i]) && run[i + 1] == Step(c, run[i], turns[i])
  }

  /** How a task ended: its promise was settled, or the call of the iteratee ended it at once. */
  datatype Ending = Fulfilled(task: nat) | Failed(task: nat)

  /** Each answer of the iterator but the last starts an item. */
  function ItemsStarted(c: Config, turns: seq<Turn>): nat {
    if turns == [] then 0
    else
      var before := ItemsStarted(c, turns[..|turns| - 1]);
      if turns[|turns| - 1].Resume? && before < c.items then before + 1 else before
  }

  /** What a turn ends, when `started` items have been started before it. */
  function EndedBy(c: Config, turn: Turn, started: nat): seq<Ending> {
    match turn
    case Settle(task, ok) => [if ok then Fulfilled(task) else Failed(task)]
    case Resume(Promise) => []
    case Resume(Value) => if started < c.items then [Fulfilled(started)] else []
    case Resume(Throws) => if started < c.items then [Failed(started)] else []
  }

  function Endings(c: Config, turns: seq<Turn>): seq<Ending> {
    if turns == [] then []
    else
      var before := turns[..|turns| - 1];
      Endings(c, before) + EndedBy(c, turns[|turns| - 1], ItemsStarted(c, before))
  }

  function FailedTasks(endings: seq<Ending>): seq<nat> {
    if endings == [] then []
    else FailedTasks(endings[..|endings| - 1]) + match endings[|endings| - 1]
      case Failed(task) => [task]
      case Fulfilled(_) => []
  }

  ghost predicate HasEnded(endings: seq<Ending>, task: nat) {
    Fulfilled(task) in endings || Failed(task) in endings
  }

  lemma RunHasTurns(c: Config, run: seq<State>) returns (turns: seq<Turn>)
    requires IsRun(c, run)
    ensures Takes(c, run, turns)
  {
    turns := [];
    for i := 0 to |run| - 1
      invariant |turns| == i
      invariant forall j: nat :: j < i ==> Enabled(run[j], turns[j]) && run[j + 1] == Step(c, run[j], turns[j])
    {
      var t := TurnBetween(c, run, i);
      turns := turns + [t];
    }
  }

  lemma TakesRun(c: Config, run: seq<State>, turns: seq<Turn>)
    requires Takes(c, run, turns)
    ensures IsRun(c, run)
  {
    forall i: nat | i + 1 < |run| ensures StepAt(c, run, i) {
      assert TakesAt(c, run, turns, i);
    }
  }

  lemma TakesShorter(c: Config, run: seq<State>, turns: seq<Turn>)
    requires Takes(c, run, turns) && turns != []
    ensures Takes(c, run[..|run| - 1], turns[..|turns| - 1])
    ensures TakesAt(c, run, turns, |turns| - 1)
  {
    var r, t := run[..|run| - 1], turns[..|turns| - 1];
    forall i: nat | i < |t| ensures TakesAt(c, r, t, i) {
      assert TakesAt(c, run, turns, i);
    }
  }

  lemma OneEnding(endings: seq<Ending>, e: Ending)
    ensures FailedTasks(endings + [e]) == FailedTasks(endings) + if e.Failed? then [e.task] else []
  {
    assert (endings + [e])[..|endings|] == endings;
  }

  /** The histories in a state are what its turns say. */
  ghost predicate HistoryIs(c: Config, s: State, turns: seq<Turn>) {
    && s.index == ItemsStarted(c, turns)
    && s.failures == FailedTasks(Endings(c, turns))
    && forall task :: task in s.finished <==> HasEnded(Endings(c, turns), task)
  }

  /** What a step does to the histories, whatever the handlers do. */
  lemma StepEnds(c: Config, s: State, turn: Turn)
    requires Enabled(s, turn)
    ensures var s' := Step(c, s, turn);
      var ended := EndedBy(c, turn, s.index);
      && s'.index == (if turn.Resume? && s.index < c.items then s.index + 1 else s.index)
      && (ended == [] ==> s'.failures == s.failures && s'.finished == s.finished)
      && (ended != [] ==>
            && s'.failures == s.failures + (if ended[0].Failed? then [ended[0].task] else [])
            && s'.finished == s.finished + {ended[0].task})
  {
  }

  lemma StepHistory(c: Config, s: State, turns: seq<Turn>, turn: Turn)
    requires HistoryIs(c, s, turns) && Enabled(s, turn)
    ensures HistoryIs(c, Step(c, s, turn), turns + [turn])
  {
    hide Step, EndedBy, FailedTasks;
    var longer := turns + [turn];
    assert longer[..|turns|] == turns && longer[|turns|] == turn;
    StepEnds(c, s, turn);
    var ended := EndedBy(c, turn, s.index);
    assert |ended| <= 1 by {
      OneEndingAtMost(c, turn, s.index);
    }
    assert Endings(c, longer) == Endings(c, turns) + ended;
    if ended != [] {
      assert ended == [ended[0]];
      OneEnding(Endings(c, turns), ended[0]);
    } else {
      assert Endings(c, longer) == Endings(c, turns);
    }
  }

  lemma OneEndingAtMost(c: Config, turn: Turn, started: nat)
    ensures |EndedBy(c, turn, started)| <= 1
  {
  }

  lemma {:induction false} HistoryAt(c: Config, run: seq<State>, turns: seq<Turn>)
    requires Takes(c, run, turns)
    ensures HistoryIs(c, run[|run| - 1], turns)
  {
    hide HistoryIs, Inv, Step;
    if turns == [] {
      NoHistory(c);
    } else {
      TakesShorter(c, run, turns);
      var n := |turns| - 1;
      HistoryAt(c, run[..n + 1], turns[..n]);
      StepHistory(c, run[n], turns[..n], turns[n]);
      assert turns == turns[..n] + [turns[n]];
    }
  }

  lemma NoHistory(c: Config)
    ensures HistoryIs(c, Initial(c), [])
  {
  }

  /**
   Without `stopOnError` a run that can go no further has started every item, each of its tasks
   has ended, and the promise is rejected with exactly the tasks that failed by the turns, in
   that order, or resolved when none did.
   */
  lemma RejectsWithFailures(c: Config, run: seq<State>, turns: seq<Turn>)
    requires Takes(c, run, turns) && Stuck(run[|run| - 1]) && !c.stopOnError
    ensures var failed := FailedTasks(Endings(c, turns));
      run[|run| - 1].settlements == [if failed == [] then Resolved else RejectedAll(failed)]
    ensures forall task: nat :: task < c.items <==> HasEnded(Endings(c, turns), task)
  {
    hide Step, Enabled;
    TakesRun(c, run, turns);
    HistoryAt(c, run, turns);
    SettlesAfterLastTask(c, run);
  }

  /**
   With `stopOnError` the promise is rejected with the first task that fails by the turns, as
   soon as it does; a run that can go no further without a failure has resolved after the last task.
   */
  lemma RejectsWithFirstFailure(c: Config, run: seq<State>, turns: seq<Turn>)
    requires Takes(c, run, turns) && c.stopOnError
    ensures var failed := FailedTasks(Endings(c, turns));
      failed != [] ==> run[|run| - 1].settlements == [Rejected(failed[0])]
    ensures var failed := FailedTasks(Endings(c, turns));
      failed == [] && Stuck(run[|run| - 1]) ==>
        && run[|run| - 1].settlements == [Resolved]
        && forall task: nat :: task < c.items <==> HasEnded(Endings(c, turns), task)
  {
    hide Step, Enabled;
    TakesRun(c, run, turns);
    HistoryAt(c, run, turns);
    InvAt(c, run, |run| - 1);
    if Stuck(run[|run| - 1]) {
      StopsOnFirstError(c, run);
    }
  }
}
