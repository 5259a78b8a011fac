/**
  The task scheduler (scanner/scheduler.hpp) over stored tasks (scanner/task_base.hpp): one thread
  fetches new tasks, marks each as running, runs it, stores the outcome and queues the result.
  Statements may fail at any time; others may add tasks but do not write existing ones.
 */
module Scheduler {
  import opened Wrappers

  type Id = nat

  datatype Status = NoStatus | New | Scheduled | Running | Finished | Failed
  datatype Kind = NoKind | NewChampionship
  datatype Row = Row(kind: Kind, status: Status, results: string)

  // ---------------------------------------------------------------------------------------
  // A task and its row
  // ---------------------------------------------------------------------------------------

  /** The values a task's table object holds for the columns, and the task's own. */
  datatype Task = Task(id: Id, columns: Row, status: Status, results: string)

  function Loaded(id: Id, row: Row): Task { Task(id, row, row.status, row.results) }

  /** The task's values are taken over, except for an empty text. */
  function Populated(t: Task): Row {
    Row(t.columns.kind, t.status, if t.results != "" then t.results else t.columns.results)
  }

  /** The text NULL is written as a missing value, which reads as the empty text. */
  function AsStored(row: Row): Row { row.(results := if row.results == "NULL" then "" else row.results) }

  /** What can go wrong in a save: dumping the properties, the REPLACE, or the SELECT that reads the row back; the
      last one is not caught. */
  datatype Fault = NoFault | PopulateFails | InsertFails | ReloadFails

  datatype End = Accepted | Refused | Thrown
  datatype Saved = Saved(rows: map<Id, Row>, task: Task, end: End)

  /** A task is populated, inserted, reloaded and reset. */
  function SavedTask(rows: map<Id, Row>, t: Task, fault: Fault): Saved {
    match fault
    case PopulateFails => Saved(rows, t.(columns := t.columns.(status := t.status)), Refused)
    case InsertFails => Saved(rows, t.(columns := Populated(t)), Refused)
    case ReloadFails => Saved(rows[t.id := AsStored(Populated(t))], t.(columns := Populated(t)), Thrown)
    case NoFault => Saved(rows[t.id := AsStored(Populated(t))], Loaded(t.id, AsStored(Populated(t))), Accepted)
  }

  // ---------------------------------------------------------------------------------------
  // Steps
  // ---------------------------------------------------------------------------------------

  datatype Phase =
    | Fetch
    | SaveRunning(i: nat)
    | RunTask(i: nat)
    | SaveOutcome(i: nat, success: bool, text: string)
    | QueueResult(i: nat, text: string)
    | Ended

  datatype Result = Result(id: Id, text: string)

  /** The stored tasks, the batch being worked on, the queued results, and the tasks that were run. */
  datatype State = State(rows: map<Id, Row>, batch: seq<Task>, phase: Phase, queue: seq<Result>, ran: seq<Id>)

  /** How a run ends: with a result's or a failure's text, or with an exception. */
  datatype Ran = Done(success: bool, text: string) | RunThrows

  datatype Action =
    | AddTask(id: Id, row: Row)
    | FetchTasks(ids: seq<Id>)
    | TrySaveRunning(fault: Fault)
    | DoRun(ran: Ran)
    | TrySaveOutcome(fault: Fault)
    | PushResult

  predicate Distinct(ids: seq<Id>) { forall i, j :: 0 <= i < j < |ids| ==> ids[i] != ids[j] }

  /** The rows that SELECT ... WHERE status = new yields, of a type for which there is a task class; in any order. */
  predicate Selects(rows: map<Id, Row>, ids: seq<Id>) {
    Distinct(ids) && (forall k <- ids :: k in rows)
    && forall k <- rows :: k in ids <==> rows[k].status == New && rows[k].kind == NewChampionship
  }

  function LoadedAll(rows: map<Id, Row>, ids: seq<Id>): (b: seq<Task>)
    requires forall k <- ids :: k in rows
    ensures |b| == |ids| && forall j :: 0 <= j < |ids| ==> b[j] == Loaded(ids[j], rows[ids[j]])
  {
    seq(|ids|, j requires 0 <= j < |ids| => assert ids[j] in ids; Loaded(ids[j], rows[ids[j]]))
  }

  predicate Enabled(s: State, a: Action) {
    match a
    case AddTask(id, row) => id !in s.rows && row.status == New
    case FetchTasks(ids) => s.phase.Fetch? && Selects(s.rows, ids)
    case TrySaveRunning(_) => s.phase.SaveRunning? && s.phase.i < |s.batch|
    case DoRun(_) => s.phase.RunTask? && s.phase.i < |s.batch|
    case TrySaveOutcome(_) => s.phase.SaveOutcome? && s.phase.i < |s.batch|
    case PushResult => s.phase.QueueResult? && s.phase.i < |s.batch|
  }

  /** The next task of the batch, or the next fetch. */
  function After(batch: seq<Task>, i: nat): Phase { if i + 1 < |batch| then SaveRunning(i + 1) else Fetch }

  function Next(s: State, a: Action): State
    requires Enabled(s, a)
  {
    match a
    case AddTask(id, row) => s.(rows := s.rows[id := row])
    case FetchTasks(ids) => s.(batch := LoadedAll(s.rows, ids), phase := if ids == [] then Fetch else SaveRunning(0))
    case TrySaveRunning(fault) =>
      var i := s.phase.i;
      var r := SavedTask(s.rows, s.batch[i].(status := Running), fault);
      s.(rows := r.rows, batch := s.batch[i := r.task], phase := AfterSave(r.end, RunTask(i), After(s.batch, i)))
    case DoRun(ran) =>
      var i := s.phase.i;
      match ran {
        case Done(success, text) =>
          s.(ran := s.ran + [s.batch[i].id], batch := s.batch[i := Judged(s.batch[i], success, text)],
             phase := SaveOutcome(i, success, text))
        case RunThrows => s.(ran := s.ran + [s.batch[i].id], phase := Ended)
      }
    case TrySaveOutcome(fault) =>
      var i := s.phase.i;
      var r := SavedTask(s.rows, s.batch[i], fault);
      s.(rows := r.rows, batch := s.batch[i := r.task],
         phase := AfterSave(r.end, AfterOutcome(s.phase, After(s.batch, i)), After(s.batch, i)))
    case PushResult =>
      s.(queue := s.queue + [Result(s.batch[s.phase.i].id, s.phase.text)], phase := After(s.batch, s.phase.i))
  }

  /** An exception ends the thread. */
  function AfterSave(end: End, accepted: Phase, refused: Phase): Phase {
    match end
    case Accepted => accepted
    case Refused => refused
    case Thrown => Ended
  }

  /** Only a success is queued. */
  function AfterOutcome(p: Phase, next: Phase): Phase
    requires p.SaveOutcome?
  {
    if p.success then QueueResult(p.i, p.text) else next
  }

  /** A task that was run, before the second save. */
  function Judged(t: Task, success: bool, text: string): Task {
    t.(results := text, status := if success then Finished else Failed)
  }

  /** Any run, from any stored tasks, with nothing run or queued yet. */
  ghost predicate Run(actions: seq<Action>, states: seq<State>) {
    |states| == |actions| + 1
    && states[0] == State(states[0].rows, [], Fetch, [], [])
    && forall i: nat :: i < |actions| ==> Follows(actions, states, i)
  }

  ghost predicate Follows(actions: seq<Action>, states: seq<State>, i: nat)
    requires i < |actions| < |states|
  {
    Enabled(states[i], actions[i]) && states[i + 1] == Next(states[i], actions[i])
  }

  // ---------------------------------------------------------------------------------------
  // What every step keeps
  // ---------------------------------------------------------------------------------------

  /** The first task of the batch that has not been touched. */
  function FirstUntouched(s: State): nat {
    match s.phase
    case Fetch => |s.batch|
    case SaveRunning(i) => i
    case RunTask(i) => i + 1
    case SaveOutcome(i, _, _) => i + 1
    case QueueResult(i, _) => i + 1
    case Ended => |s.batch|
  }

  predicate Stored(s: State, id: Id, status: Status) { id in s.rows && s.rows[id].status == status }

  /** The task is what was loaded from its row, with this status. */
  predicate InStep(s: State, t: Task, status: Status) { Stored(s, t.id, status) && t == Loaded(t.id, s.rows[t.id]) }

  predicate Queued(s: State, id: Id) { exists k :: 0 <= k < |s.queue| && s.queue[k].id == id }

  /** The row says finished and holds the result's text, unless that is one that is not stored as it is. */
  predicate Delivered(s: State, id: Id, text: string) {
    Stored(s, id, Finished) && (text != "" && text != "NULL" ==> s.rows[id].results == text)
  }

  predicate CurrentInv(s: State) {
    match s.phase
    case Fetch => true
    case Ended => true
    case SaveRunning(i) => i < |s.batch|
    case RunTask(i) =>
      i < |s.batch| && var t := s.batch[i]; InStep(s, t, Running) && t.id !in s.ran && !Queued(s, t.id)
    case SaveOutcome(i, success, text) =>
      i < |s.batch| && var t := s.batch[i];
      Stored(s, t.id, Running) && t == Judged(Loaded(t.id, s.rows[t.id]), success, text) && t.id in s.ran
        && !Queued(s, t.id)
    case QueueResult(i, text) =>
      i < |s.batch| && var t := s.batch[i]; Delivered(s, t.id, text) && t.id in s.ran && !Queued(s, t.id)
  }

  predicate BatchInv(s: State) {
    (forall i, j :: 0 <= i < j < |s.batch| ==> s.batch[i].id != s.batch[j].id)
    && forall j :: FirstUntouched(s) <= j < |s.batch| ==> InStep(s, s.batch[j], New)
  }

  predicate QueueInv(s: State) {
    (forall i, j :: 0 <= i < j < |s.queue| ==> s.queue[i].id != s.queue[j].id)
    && forall k :: 0 <= k < |s.queue| ==> Delivered(s, s.queue[k].id, s.queue[k].text) && s.queue[k].id in s.ran
  }

  predicate RanInv(s: State) { Distinct(s.ran) && forall k <- s.ran :: k in s.rows && s.rows[k].status != New }

  predicate Inv(s: State) { BatchInv(s) && CurrentInv(s) && RanInv(s) && QueueInv(s) }

  lemma OutsideKeeps(s: State, a: Action)
    requires Inv(s) && Enabled(s, a) && (a.AddTask? || a.FetchTasks?)
    ensures Inv(Next(s, a))
  {
  }

  lemma RunningKeeps(s: State, a: Action)
    requires Inv(s) && Enabled(s, a) && (a.DoRun? || a.PushResult?)
    ensures Inv(Next(s, a))
  {
  }

  lemma FirstSaveKeeps(s: State, fault: Fault)
    requires Inv(s) && Enabled(s, TrySaveRunning(fault))
    ensures Inv(Next(s, TrySaveRunning(fault)))
  {
  }

  lemma SecondSaveKeeps(s: State, fault: Fault)
    requires Inv(s) && Enabled(s, TrySaveOutcome(fault))
    ensures Inv(Next(s, TrySaveOutcome(fault)))
  {
  }

  lemma NextKeeps(s: State, a: Action)
    requires Inv(s) && Enabled(s, a)
    ensures Inv(Next(s, a))
  {
    match a
    case TrySaveRunning(fault) => FirstSaveKeeps(s, fault);
    case TrySaveOutcome(fault) => SecondSaveKeeps(s, fault);
    case DoRun(_) => RunningKeeps(s, a);
    case PushResult => RunningKeeps(s, a);
    case _ => OutsideKeeps(s, a);
  }

  /** From new to running, from running to finished or to error, and nothing else. */
  predicate Moves(was: Status, now: Status) {
    now == was || (was == New && now == Running) || (was == Running && (now == Finished || now == Failed))
  }

  predicate Forward(s: State, r: State) {
    forall k <- s.rows :: k in r.rows && r.rows[k].kind == s.rows[k].kind && Moves(s.rows[k].status, r.rows[k].status)
  }

  lemma NextMovesForward(s: State, a: Action)
    requires Inv(s) && Enabled(s, a)
    ensures Forward(s, Next(s, a))
  {
  }

  lemma {:induction false} RunKeeps(actions: seq<Action>, states: seq<State>, n: nat)
    requires Run(actions, states) && n <= |actions|
    ensures Inv(states[n])
  {
    if n > 0 {
      RunKeeps(actions, states, n - 1);
      assert Follows(actions, states, n - 1);
      NextKeeps(states[n - 1], actions[n - 1]);
    }
  }

  // ---------------------------------------------------------------------------------------
  // What holds over every run
  // ---------------------------------------------------------------------------------------

  /** No task runs twice. */
  lemma EachTaskRunsOnce(actions: seq<Action>, states: seq<State>, n: nat)
    requires Run(actions, states) && n <= |actions|
    ensures Distinct(states[n].ran)
  {
    RunKeeps(actions, states, n);
  }

  /** Every queued result belongs to another task, one that was run, whose row says finished and holds the result. */
  lemma QueuedTasksAreFinished(actions: seq<Action>, states: seq<State>, n: nat)
    requires Run(actions, states) && n <= |actions|
    ensures var q := states[n].queue;
            (forall i, j :: 0 <= i < j < |q| ==> q[i].id != q[j].id)
            && forall k :: 0 <= k < |q| ==> q[k].id in states[n].ran && Delivered(states[n], q[k].id, q[k].text)
  {
    RunKeeps(actions, states, n);
  }

  /** A fetch takes up exactly the stored tasks that are new and of a known type, each as its row has it. */
  lemma FetchTakesAllNew(actions: seq<Action>, states: seq<State>, n: nat)
    requires Run(actions, states) && n < |actions| && actions[n].FetchTasks?
    ensures var rows, s := states[n].rows, states[n + 1];
            s.rows == rows && s.phase == (if s.batch == [] then Fetch else SaveRunning(0))
            && (forall k <- rows :: rows[k].status == New && rows[k].kind == NewChampionship
                  <==> exists j :: 0 <= j < |s.batch| && s.batch[j].id == k)
            && forall j :: 0 <= j < |s.batch| ==>
                 s.batch[j].id in rows && s.batch[j] == Loaded(s.batch[j].id, rows[s.batch[j].id])
  {
    assert Follows(actions, states, n);
    var ids, s := actions[n].ids, states[n + 1];
    forall k | k in states[n].rows
      ensures k in ids <==> exists j :: 0 <= j < |s.batch| && s.batch[j].id == k
    {
      if k in ids {
        var j :| 0 <= j < |ids| && ids[j] == k;
        assert s.batch[j].id == k;
      }
    }
  }

  /** A task is run only when its row says running. */
  lemma RunsWhenMarked(actions: seq<Action>, states: seq<State>, n: nat)
    requires Run(actions, states) && n < |actions| && actions[n].DoRun?
    ensures var s := states[n];
            s.phase.RunTask? && s.phase.i < |s.batch| && s.batch[s.phase.i].id in s.rows
            && s.rows[s.batch[s.phase.i].id].status == Running
  {
    RunKeeps(actions, states, n);
    assert Follows(actions, states, n);
  }

  /** Until the second save the thread only waits, while others may add tasks. */
  lemma {:induction false} Waits(actions: seq<Action>, states: seq<State>, k: nat, j: nat, id: Id)
    requires Run(actions, states) && k <= j <= |actions| && forall i :: k <= i < j ==> actions[i].AddTask?
    requires id in states[k].rows
    ensures states[j].phase == states[k].phase && states[j].batch == states[k].batch
    ensures id in states[j].rows && states[j].rows[id] == states[k].rows[id]
  {
    if k < j {
      Waits(actions, states, k, j - 1, id);
      assert Follows(actions, states, j - 1);
    }
  }

  /** When a run's outcome is saved, the row says finished after a success and error after a failure, and holds the
      run's text; an empty text leaves the old one, and NULL leaves none. A result is queued exactly after a success. */
  lemma OutcomeIsStored(actions: seq<Action>, states: seq<State>, k: nat, j: nat, success: bool, text: string)
    requires Run(actions, states) && k < j < |actions| && actions[k] == DoRun(Done(success, text))
    requires (forall i :: k < i < j ==> actions[i].AddTask?) && actions[j] == TrySaveOutcome(NoFault)
    ensures states[k].phase.RunTask? && states[k].phase.i < |states[k].batch|
    ensures var n := states[k].phase.i;
            var id := states[k].batch[n].id;
            id in states[k].rows && id in states[j + 1].rows
            && var was, now := states[k].rows[id], states[j + 1].rows[id];
               now.status == (if success then Finished else Failed) && now.kind == was.kind
               && (text == "" && was.results != "NULL" ==> now.results == was.results)
               && (text == "NULL" ==> now.results == "") && (text != "" && text != "NULL" ==> now.results == text)
               && states[j + 1].phase == if success then QueueResult(n, text) else After(states[k].batch, n)
  {
    RunKeeps(actions, states, k);
    assert Follows(actions, states, k) && Follows(actions, states, j);
    var id := states[k].batch[states[k].phase.i].id;
    Waits(actions, states, k + 1, j, id);
  }

  /** An exception in a run, or in reading a row back, is the thread's last step: no task is run, saved or queued any
      more. */
  lemma {:induction false} ExceptionEnds(actions: seq<Action>, states: seq<State>, n: nat, m: nat)
    requires Run(actions, states) && n < m <= |actions|
    requires actions[n] == DoRun(RunThrows) || actions[n] == TrySaveRunning(ReloadFails)
             || actions[n] == TrySaveOutcome(ReloadFails)
    ensures states[m].phase == Ended && states[m].ran == states[n + 1].ran && states[m].queue == states[n].queue
    ensures forall k <- states[n + 1].rows :: k in states[m].rows && states[m].rows[k] == states[n + 1].rows[k]
    ensures forall i :: n < i < m ==> actions[i].AddTask?
  {
    assert Follows(actions, states, m - 1);
    if n + 1 < m {
      ExceptionEnds(actions, states, n, m - 1);
    }
  }

  predicate Later(was: Status, now: Status) {
    Moves(was, now) || (was == New && (now == Finished || now == Failed))
  }

  /** Statuses only move forward, step by step and so over any part of a run; no row disappears. */
  lemma {:induction false} StatusMovesForward(actions: seq<Action>, states: seq<State>, m: nat, n: nat)
    requires Run(actions, states) && m <= n <= |actions|
    ensures forall k <- states[m].rows ::
              k in states[n].rows && Later(states[m].rows[k].status, states[n].rows[k].status)
    ensures m + 1 == n ==> Forward(states[m], states[n])
    decreases n - m
  {
    if m < n {
      RunKeeps(actions, states, n - 1);
      assert Follows(actions, states, n - 1);
      NextMovesForward(states[n - 1], actions[n - 1]);
      StatusMovesForward(actions, states, m, n - 1);
    }
  }

  /** A task that is finished, or has ended in an error, keeps that status. */
  lemma FinalStaysFinal(actions: seq<Action>, states: seq<State>, m: nat, n: nat, id: Id)
    requires Run(actions, states) && m <= n <= |actions| && id in states[m].rows
    requires states[m].rows[id].status == Finished || states[m].rows[id].status == Failed
    ensures id in states[n].rows && states[n].rows[id].status == states[m].rows[id].status
  {
    StatusMovesForward(actions, states, m, n);
  }

  // ---------------------------------------------------------------------------------------
  // The thread's loop
  // ---------------------------------------------------------------------------------------

  /** How one task goes: what fails in its two saves, and what its run yields. */
  datatype Outcome = Outcome(first: Fault, run: Ran, second: Fault)

  datatype Store = Store(rows: map<Id, Row>, queue: seq<Result>, ran: seq<Id>)

  /** The exceptions that leave the loop. */
  predicate Throws(o: Outcome) {
    o.first.ReloadFails? || (o.first.NoFault? && (o.run.RunThrows? || o.second.ReloadFails?))
  }

  /** One task, from the first save to the queued result. */
  function Processed(s: Store, t: Task, o: Outcome): Store {
    var first := SavedTask(s.rows, t.(status := Running), o.first);
    if !first.end.Accepted? then s.(rows := first.rows)
    else if o.run.RunThrows? then Store(first.rows, s.queue, s.ran + [t.id])
    else
      var second := SavedTask(first.rows, Judged(first.task, o.run.success, o.run.text), o.second);
      var pushed := if second.end.Accepted? && o.run.success then [Result(t.id, o.run.text)] else [];
      Store(second.rows, s.queue + pushed, s.ran + [t.id])
  }

  function ProcessedAll(s: Store, tasks: seq<Task>, outcomes: seq<Outcome>): Store
    requires |tasks| == |outcomes|
    decreases |tasks|
  {
    if tasks == [] then s
    else if Throws(outcomes[0]) then Processed(s, tasks[0], outcomes[0])
    else ProcessedAll(Processed(s, tasks[0], outcomes[0]), tasks[1..], outcomes[1..])
  }

  /** The steps one task takes. */
  function StepsOf(o: Outcome): seq<Action> {
    [TrySaveRunning(o.first)] + if o.first.NoFault? then [DoRun(o.run)] + StepsAfterRun(o) else []
  }

  function StepsAfterRun(o: Outcome): seq<Action> {
    if o.run.RunThrows? then []
    else [TrySaveOutcome(o.second)] + if o.second.NoFault? && o.run.success then [PushResult] else []
  }

  function StepsOfAll(outcomes: seq<Outcome>): seq<Action>
    decreases |outcomes|
  {
    if outcomes == [] then []
    else StepsOf(outcomes[0]) + if Throws(outcomes[0]) then [] else StepsOfAll(outcomes[1..])
  }

  function Steps(s: State, actions: seq<Action>): Option<State>
    decreases |actions|
  {
    if actions == [] then Some(s) else if Enabled(s, actions[0]) then Steps(Next(s, actions[0]), actions[1..]) else None
  }

  function StoreOf(s: State): Store { Store(s.rows, s.queue, s.ran) }

  lemma {:induction false} StepsConcat(s: State, a: seq<Action>, b: seq<Action>)
    requires Steps(s, a).Some?
    ensures Steps(s, a + b) == Steps(Steps(s, a).value, b)
    decreases |a|
  {
    if a == [] {
      assert a + b == b;
    } else {
      assert (a + b)[1..] == a[1..] + b;
      StepsConcat(Next(s, a[0]), a[1..], b);
    }
  }

  lemma StepFirst(s: State, a: Action, rest: seq<Action>)
    requires Enabled(s, a)
    ensures Steps(s, [a] + rest) == Steps(Next(s, a), rest)
  {
    assert ([a] + rest)[1..] == rest;
  }

  /** What is left of the batch is as it was. */
  predicate SameRest(s: State, r: State, i: nat) {
    |r.batch| == |s.batch| && forall j :: i < j < |s.batch| ==> r.batch[j] == s.batch[j]
  }

  lemma TaskIsSteps(s: State, o: Outcome)
    requires s.phase.SaveRunning? && s.phase.i < |s.batch|
    ensures var i, r := s.phase.i, Steps(s, StepsOf(o));
            r.Some? && StoreOf(r.value) == Processed(StoreOf(s), s.batch[i], o) && SameRest(s, r.value, i)
            && r.value.phase == if Throws(o) then Ended else After(s.batch, i)
  {
    var steps := StepsOf(o);
    StepFirst(s, TrySaveRunning(o.first), steps[1..]);
    if o.first.NoFault? {
      var s1 := Next(s, TrySaveRunning(o.first));
      StepFirst(s1, DoRun(o.run), StepsAfterRun(o));
      if !o.run.RunThrows? {
        RestIsSteps(Next(s1, DoRun(o.run)), o);
      }
    }
  }

  lemma RestIsSteps(s: State, o: Outcome)
    requires s.phase.SaveOutcome? && s.phase.i < |s.batch| && o.run == Done(s.phase.success, s.phase.text)
    ensures var i, r := s.phase.i, Steps(s, StepsAfterRun(o));
            var second := SavedTask(s.rows, s.batch[i], o.second);
            var pushed := if second.end.Accepted? && o.run.success then [Result(s.batch[i].id, o.run.text)] else [];
            r.Some? && StoreOf(r.value) == Store(second.rows, s.queue + pushed, s.ran) && SameRest(s, r.value, i)
            && r.value.phase == if o.second.ReloadFails? then Ended else After(s.batch, i)
  {
    var s1 := Next(s, TrySaveOutcome(o.second));
    if o.second.NoFault? && o.run.success {
      StepFirst(s, TrySaveOutcome(o.second), [PushResult]);
      StepFirst(s1, PushResult, []);
    } else {
      StepFirst(s, TrySaveOutcome(o.second), []);
    }
  }

  /** The loop over a batch is a run of such steps, up to an exception. */
  lemma {:induction false} BatchIsSteps(s: State, outcomes: seq<Outcome>)
    requires s.phase.SaveRunning? && s.phase.i < |s.batch| && |outcomes| == |s.batch| - s.phase.i
    ensures var r := Steps(s, StepsOfAll(outcomes));
            r.Some? && StoreOf(r.value) == ProcessedAll(StoreOf(s), s.batch[s.phase.i..], outcomes)
            && r.value.phase == if exists k :: 0 <= k < |outcomes| && Throws(outcomes[k]) then Ended else Fetch
    decreases |outcomes|
  {
    var i, o := s.phase.i, outcomes[0];
    TaskIsSteps(s, o);
    var t := Steps(s, StepsOf(o)).value;
    assert s.batch[i..][1..] == s.batch[i + 1..];
    assert Throws(o) || forall k :: 0 <= k < |outcomes| - 1 ==> outcomes[1..][k] == outcomes[k + 1];
    if Throws(o) {
      assert StepsOfAll(outcomes) == StepsOf(o);
    } else {
      StepsConcat(s, StepsOf(o), StepsOfAll(outcomes[1..]));
      if i + 1 < |s.batch| {
        assert t.batch[i + 1..] == s.batch[i + 1..];
        BatchIsSteps(t, outcomes[1..]);
        ThrowsLater(outcomes);
      } else {
        assert StepsOfAll(outcomes[1..]) == [];
      }
    }
  }

  lemma ThrowsLater(outcomes: seq<Outcome>)
    requires outcomes != [] && !Throws(outcomes[0])
    ensures (exists k :: 0 <= k < |outcomes| && Throws(outcomes[k]))
            <==> exists k :: 0 <= k < |outcomes[1..]| && Throws(outcomes[1..][k])
  {
    if k :| 0 <= k < |outcomes| && Throws(outcomes[k]) {
      assert outcomes[1..][k - 1] == outcomes[k];
    }
  }

  /** The statements a task issues. */
  class TaskTable {
    var rows: map<Id, Row>

    constructor (stored: map<Id, Row>)
      ensures rows == stored
    {
      rows := stored;
    }

    method Replace(id: Id, row: Row, fails: bool) returns (inserted: bool)
      modifies this
      ensures inserted <==> !fails
      ensures rows == if fails then old(rows) else old(rows)[id := AsStored(row)]
    {
      inserted := !fails;
      if inserted {
        rows := rows[id := AsStored(row)];
      }
    }

    method Select(id: Id) returns (row: Option<Row>)
      ensures row == if id in rows then Some(rows[id]) else None
    {
      return if id in rows then Some(rows[id]) else None;
    }
  }

  class TaskObject {
    var id: Id
    var columns: Row
    var status: Status
    var results: string

    ghost function Contents(): Task
      reads this
    {
      Task(id, columns, status, results)
    }

    /** The task of this id; without a row it has neither type nor status. */
    constructor (table: TaskTable, key: Id)
      ensures Contents() == Loaded(key, if key in table.rows then table.rows[key] else Row(NoKind, NoStatus, ""))
    {
      id, columns, status, results := key, Row(NoKind, NoStatus, ""), NoStatus, "";
      new;
      var found := Reload(table);
      Reset();
    }

    method Populate(fails: bool) returns (ok: bool)
      modifies this`columns
      ensures ok <==> !fails
      ensures columns == if ok then Populated(old(Contents())) else old(columns).(status := status)
    {
      columns := columns.(status := status);
      if fails {
        return false;
      }
      if results != "" {
        columns := columns.(results := results);
      }
      return true;
    }

    method Reload(table: TaskTable) returns (found: bool)
      modifies this`columns
      ensures found <==> id in table.rows
      ensures columns == if found then table.rows[id] else old(columns)
    {
      var row := table.Select(id);
      if row.Some? {
        columns := row.value;
      }
      found := row.Some?;
    }

    method Reset()
      modifies this`status, this`results
      ensures status == columns.status && results == columns.results
    {
      status, results := columns.status, columns.results;
    }

    /** What a save leaves behind and how it ends, whatever fails. */
    method Save(table: TaskTable, fault: Fault) returns (end: End)
      modifies this, table
      ensures Saved(table.rows, Contents(), end) == SavedTask(old(table.rows), old(Contents()), fault)
    {
      var ok := Populate(fault.PopulateFails?);
      if ok {
        ok := table.Replace(id, columns, fault.InsertFails?);
        if ok {
          if fault.ReloadFails? {
            return Thrown;
          }
          ok := Reload(table);
          if ok {
            Reset();
            return Accepted;
          }
        }
      }
      return Refused;
    }
  }

  class Worker {
    const table: TaskTable
    var queue: seq<Result>
    var ran: seq<Id>

    ghost function Contents(): Store
      reads this, table
    {
      Store(table.rows, queue, ran)
    }

    constructor (t: TaskTable)
      ensures table == t && Contents() == Store(t.rows, [], [])
    {
      table, queue, ran := t, [], [];
    }

    /** The tasks of one fetch, up to an exception. */
    method Round(tasks: seq<TaskObject>, outcomes: seq<Outcome>) returns (thrown: bool)
      requires |tasks| == |outcomes| && forall i, j :: 0 <= i < j < |tasks| ==> tasks[i] != tasks[j]
      modifies this, table, tasks
      ensures Contents() == ProcessedAll(old(Contents()), old(Values(tasks)), outcomes)
      ensures thrown <==> exists k :: 0 <= k < |outcomes| && Throws(outcomes[k])
    {
      ghost var was := Values(tasks);
      var i := 0;
      while i < |tasks|
        invariant 0 <= i <= |tasks| && forall j :: i <= j < |tasks| ==> tasks[j].Contents() == was[j]
        invariant ProcessedAll(Contents(), was[i..], outcomes[i..]) == ProcessedAll(old(Contents()), was, outcomes)
        invariant forall k :: 0 <= k < i ==> !Throws(outcomes[k])
      {
        assert was[i..][1..] == was[i + 1..] && outcomes[i..][1..] == outcomes[i + 1..];
        thrown := RunOne(tasks[i], outcomes[i]);
        if thrown {
          return;
        }
        i := i + 1;
      }
      thrown := false;
    }

    method RunOne(task: TaskObject, o: Outcome) returns (thrown: bool)
      modifies this, table, task
      ensures Contents() == Processed(old(Contents()), old(task.Contents()), o)
      ensures thrown <==> Throws(o)
    {
      task.status := Running;
      var end := task.Save(table, o.first);
      if end.Accepted? {
        ran := ran + [task.id];
        if o.run.RunThrows? {
          return true;
        }
        if o.run.success {
          task.results := o.run.text;
          task.status := Finished;
          end := task.Save(table, o.second);
          if end.Accepted? {
            queue := queue + [Result(task.id, o.run.text)];
          }
        } else {
          task.results := o.run.text;
          task.status := Failed;
          end := task.Save(table, o.second);
        }
      }
      return end.Thrown?;
    }
  }

  ghost function Values(tasks: seq<TaskObject>): (v: seq<Task>)
    reads tasks
    ensures |v| == |tasks| && forall i :: 0 <= i < |tasks| ==> v[i] == tasks[i].Contents()
  {
    if tasks == [] then [] else [tasks[0].Contents()] + Values(tasks[1..])
  }
}
