/** The replication queue with its handlers in between: the worker reads the statistics,
    writes them, records an error and saves a task in separate transactions, and a clear
    or a retry can fall between any two. */
module GatewayPhases {
  import opened Strings
  import opened GatewayQueue
  import opened GatewayTheorems

  /** The task in the worker's hands, the statistics it has still to write, and the key of
      an error record it has still to add. */
  datatype Hold = Hold(task: Task, write: Option<Stats>, note: Option<string>)

  /** The last three fields belong to the history, and say what the last clear fell into.
      Between writing the statistics of a failure and saving its task, the failure is
      `uncounted`, and its record is `extra` if it is still to be added. Between
      reading the statistics and writing them, the errors `restored` by the write. */
  datatype World = World(q: Queue, hold: Option<Hold>, uncounted: nat, extra: nat, restored: int)

  const Start := World(EmptyQueue, None, 0, 0, 0)

  //// Phases of the worker

  /** The execution, and the first half of UpdateGatewayStats: reading the statistics and
      changing the copy. */
  function Execute(w: World, task: Task, outcome: Outcome, now: int, max: int, key: string): World {
    var w := w.(q := w.q.(executions := w.q.executions + 1));
    var stats := w.q.stats;
    match outcome
    case Replicated(n) =>
      var stats := stats.(bytesReplicated := stats.bytesReplicated + n,
                          tasksCompletedTotal := stats.tasksCompletedTotal + 1);
      w.(hold := Some(Hold(task.(status := Completed, bytes := n), Some(stats), None)))
    case Error =>
      var t := task.(attempts := task.attempts + 1);
      if t.attempts >= max then
        var stats := stats.(replicationErrors := stats.replicationErrors + 1);
        w.(hold := Some(Hold(t.(status := Failed), Some(stats), Some(key))))
      else
        w.(hold := Some(Hold(t.(status := Pending, nextAttempt := now + Backoff(t.attempts)), None, None)))
  }

  /** PutGatewayStats, the second half. */
  function Write(w: World): World
    requires w.hold.Some? && w.hold.value.write.Some?
  {
    var h := w.hold.value;
    w.(q := w.q.(stats := h.write.value), hold := Some(h.(write := None)))
  }

  /** AddReplicationError. */
  ghost function Note(w: World): World
    requires w.hold.Some? && w.hold.value.note.Some?
  {
    var h := w.hold.value;
    w.(q := w.q.(records := AddRecord(w.q.records, h.note.value, h.task.id)), hold := Some(h.(note := None)))
  }

  /** PutReplicationTask. */
  function Save(w: World): World
    requires w.hold.Some?
  {
    var t := w.hold.value.task;
    w.(q := w.q.(tasks := w.q.tasks[t.id := t]), hold := None)
  }

  /** One while the task in the worker's hands has failed for good. */
  function Failing(w: World): nat {
    if w.hold.Some? && w.hold.value.task.status == Failed then 1 else 0
  }

  /** One while its error record is still to be added. */
  function ToNote(w: World): nat {
    if w.hold.Some? && w.hold.value.note.Some? then 1 else 0
  }

  predicate ToWrite(w: World) {
    w.hold.Some? && w.hold.value.write.Some?
  }

  /** ClearReplicationErrors, one transaction. */
  function ClearAll(w: World): World {
    if ToWrite(w) then
      w.(q := ClearErrors(w.q), uncounted := 0, extra := 0,
         restored := w.hold.value.write.value.replicationErrors - Failing(w))
    else
      w.(q := ClearErrors(w.q), uncounted := Failing(w), extra := ToNote(w), restored := 0)
  }

  /** The phases left after the execution, without anything in between. */
  ghost function Finish(w: World): World
    requires w.hold.Some?
  {
    var w := if w.hold.value.write.Some? then Write(w) else w;
    var w := if w.hold.value.note.Some? then Note(w) else w;
    Save(w)
  }

  /** Without anything in between the phases are one pass of the loop. */
  lemma PhasesAreOne(w: World, task: Task, outcome: Outcome, now: int, max: int, key: string)
    ensures var e := Execute(w, task, outcome, now, max, key);
            e.hold.Some? && Finish(e).q == ProcessOne(w.q, task, outcome, now, max, key)
  {
    hide AddRecord, Backoff;
  }

  //// Runs

  datatype Step =
    | DoEnqueue(id: string, at: int)
    | DoExecute(task: Task, outcome: Outcome, at: int, key: string)
    | DoWrite
    | DoNote
    | DoSave
    | DoRetry(id: string, at: int)
    | DoClear

  /** The worker holds one task at a time, and takes up only tasks that are pending as it
      listed them. */
  ghost predicate Possible(w: World, s: Step) {
    match s
    case DoEnqueue(id, _) => id !in w.q.tasks
    case DoExecute(task, _, _, key) =>
      && w.hold.None? && key !in w.q.records
      && task.id in w.q.tasks && w.q.tasks[task.id] == task && task.status == Pending
    case DoWrite => ToWrite(w)
    case DoNote => w.hold.Some? && w.hold.value.write.None? && w.hold.value.note.Some?
    case DoSave => w.hold.Some? && w.hold.value.write.None? && w.hold.value.note.None?
    case DoRetry(id, _) => id in w.q.tasks && w.q.tasks[id].status == Failed
    case DoClear => true
  }

  ghost function Next(w: World, s: Step, max: int): World
    requires Possible(w, s)
  {
    match s
    case DoEnqueue(id, at) => w.(q := EnqueueTask(w.q, id, at))
    case DoExecute(task, outcome, at, key) => Execute(w, task, outcome, at, max, key)
    case DoWrite => Write(w)
    case DoNote => Note(w)
    case DoSave => Save(w)
    case DoRetry(id, at) => w.(q := Reissue(w.q, id, at))
    case DoClear => ClearAll(w)
  }

  ghost predicate IsRun(states: seq<World>, steps: seq<Step>, max: int) {
    && |states| == |steps| + 1
    && states[0] == Start
    && forall i :: 0 <= i < |steps| ==> Possible(states[i], steps[i]) && states[i + 1] == Next(states[i], steps[i], max)
  }

  /** What the worker listed stays listed: no other step touches a pending task. */
  lemma PendingUntouched(w: World, s: Step, max: int, id: string)
    requires Possible(w, s) && (s.DoEnqueue? || s.DoRetry? || s.DoClear?)
    requires id in w.q.tasks && w.q.tasks[id].status == Pending
    ensures id in Next(w, s, max).q.tasks && Next(w, s, max).q.tasks[id] == w.q.tasks[id]
  {
  }

  //// The invariant

  /** The table as it will be once the held task is saved. */
  function Settled(w: World): map<string, Task> {
    if w.hold.Some? then w.q.tasks[w.hold.value.task.id := w.hold.value.task] else w.q.tasks
  }

  /** The statistics as they will be once the held ones are written. */
  function Counted(w: World): Stats {
    if ToWrite(w) then w.hold.value.write.value else w.q.stats
  }

  ghost predicate HoldOK(w: World) {
    w.hold.Some? ==>
      var h := w.hold.value;
      && h.task.id in w.q.tasks && w.q.tasks[h.task.id].status == Pending
      && (h.note.Some? ==> h.task.status == Failed && h.note.value !in w.q.records)
  }

  ghost predicate Balanced(w: World, stats: Stats, tasks: map<string, Task>, max: int) {
    && (forall id :: id in tasks ==> TaskOK(tasks[id], id, max))
    && stats.tasksCompletedTotal == Weigh(tasks, CompletedOne)
    && stats.bytesReplicated == Weigh(tasks, CompletedBytes)
    && stats.replicationErrors + w.uncounted == Weigh(tasks, FailedOne) + w.q.reissuedSinceClear + w.restored
    && w.q.executions + Weigh(tasks, Left(max)) <= Allowance(max, w.q.enqueued + w.q.reissued)
  }

  ghost predicate Noted(w: World) {
    var errors := Counted(w).replicationErrors;
    && w.extra <= w.uncounted <= 1 && 0 <= w.restored && (w.restored > 0 ==> w.uncounted == 0)
    && 0 <= errors && (ToWrite(w) ==> Failing(w) == ToNote(w) <= errors)
    && ToNote(w) <= errors + w.extra - w.restored
    && |w.q.records| == Capped(errors + w.extra - w.restored - ToNote(w))
  }

  ghost predicate Inv(w: World, max: int) {
    HoldOK(w) && Balanced(w, Counted(w), Settled(w), max) && Noted(w)
  }

  lemma ExecuteKeeps(w: World, task: Task, outcome: Outcome, now: int, max: int, key: string)
    requires Inv(w, max) && Possible(w, DoExecute(task, outcome, now, key))
    ensures Inv(Execute(w, task, outcome, now, max, key), max)
  {
    hide Weigh, Backoff, Allowance;
    var w' := Execute(w, task, outcome, now, max, key);
    assert TaskOK(task, task.id, max);
    Reweigh(w.q.tasks, task.id, w'.hold.value.task, max);
    assert Settled(w') == Settled(w)[task.id := w'.hold.value.task];
  }

  lemma WriteKeeps(w: World, max: int)
    requires Inv(w, max) && Possible(w, DoWrite)
    ensures Inv(Write(w), max)
  {
    hide Weigh, Allowance;
    assert Settled(Write(w)) == Settled(w);
  }

  lemma NoteKeeps(w: World, max: int)
    requires Inv(w, max) && Possible(w, DoNote)
    ensures Inv(Note(w), max)
  {
    hide Weigh, Allowance, AddRecord, Less;
    LatestStay(w.q.records, w.hold.value.note.value, w.hold.value.task.id);
    assert Settled(Note(w)) == Settled(w);
  }

  lemma SaveKeeps(w: World, max: int)
    requires Inv(w, max) && Possible(w, DoSave)
    ensures Inv(Save(w), max)
  {
    hide Weigh, Allowance;
    assert Settled(Save(w)) == Settled(w);
  }

  /** A task is issued once more, fresh or put back: what it had failed moves to the
      re-issued ones, and the budget grows by its attempts. */
  lemma IssueBalances(w: World, w': World, stats: Stats, tasks: map<string, Task>, id: string, t: Task, max: int)
    requires Balanced(w, stats, tasks, max) && TaskOK(t, id, max) && t.status == Pending && t.attempts == 0
    requires w'.uncounted == w.uncounted && w'.restored == w.restored && w'.q.executions == w.q.executions
    requires w'.q.enqueued + w'.q.reissued == w.q.enqueued + w.q.reissued + 1
    requires id in tasks ==> tasks[id].status == Failed
    requires w'.q.reissuedSinceClear == w.q.reissuedSinceClear + (if id in tasks then 1 else 0)
    ensures Balanced(w', stats, tasks[id := t], max)
  {
    hide Weigh, Allowance;
    Reweigh(tasks, id, t, max);
    OneMore(max, w.q.enqueued + w.q.reissued);
  }

  lemma EnqueuePhaseKeeps(w: World, id: string, at: int, max: int)
    requires Inv(w, max) && max > 0 && Possible(w, DoEnqueue(id, at))
    ensures Inv(w.(q := EnqueueTask(w.q, id, at)), max)
  {
    hide Balanced;
    var w' := w.(q := EnqueueTask(w.q, id, at));
    IssueBalances(w, w', Counted(w), Settled(w), id, w'.q.tasks[id], max);
    assert Settled(w') == Settled(w)[id := w'.q.tasks[id]];
  }

  lemma RetryPhaseKeeps(w: World, id: string, at: int, max: int)
    requires Inv(w, max) && max > 0 && Possible(w, DoRetry(id, at))
    ensures Inv(w.(q := Reissue(w.q, id, at)), max)
  {
    hide Balanced;
    var w' := w.(q := Reissue(w.q, id, at));
    assert TaskOK(Settled(w)[id], id, max) by { SettledOK(w, id, max); }
    IssueBalances(w, w', Counted(w), Settled(w), id, w'.q.tasks[id], max);
    assert Settled(w') == Settled(w)[id := w'.q.tasks[id]];
  }

  lemma SettledOK(w: World, id: string, max: int)
    requires Inv(w, max) && id in Settled(w)
    ensures TaskOK(Settled(w)[id], id, max)
  {
    hide Weigh, Allowance;
  }

  /** Clearing drops the failed tasks of the table, but not the one in the worker's hands. */
  lemma ClearSettled(w: World, f: Task -> int)
    requires HoldOK(w) && forall t: Task :: t.status == Failed ==> f(t) == 0
    ensures Weigh(Settled(ClearAll(w)), f) == Weigh(Settled(w), f)
  {
    hide Weigh;
    WeighUnfailed(w.q.tasks, f);
    if w.hold.Some? {
      var t := w.hold.value.task;
      WeighPut(w.q.tasks, f, t.id, t);
      WeighPut(Unfailed(w.q.tasks), f, t.id, t);
    }
  }

  lemma ClearFailed(w: World)
    requires HoldOK(w)
    ensures Weigh(Settled(ClearAll(w)), FailedOne) == Failing(w)
  {
    hide Weigh;
    WeighZero(Unfailed(w.q.tasks), FailedOne);
    if w.hold.Some? {
      WeighPut(Unfailed(w.q.tasks), FailedOne, w.hold.value.task.id, w.hold.value.task);
    }
  }

  lemma ClearPhaseKeeps(w: World, max: int)
    requires Inv(w, max)
    ensures Inv(ClearAll(w), max)
  {
    hide Weigh, Allowance;
    ClearSettled(w, CompletedOne);
    ClearSettled(w, CompletedBytes);
    ClearSettled(w, Left(max));
    ClearFailed(w);
    assert forall id :: id in Settled(ClearAll(w)) ==> id in Settled(w) && Settled(ClearAll(w))[id] == Settled(w)[id];
  }

  lemma NextKeeps(w: World, s: Step, max: int)
    requires Inv(w, max) && max > 0 && Possible(w, s)
    ensures Inv(Next(w, s, max), max)
  {
    hide Inv;
    match s
    case DoEnqueue(id, at) => EnqueuePhaseKeeps(w, id, at, max);
    case DoExecute(task, outcome, at, key) => ExecuteKeeps(w, task, outcome, at, max, key);
    case DoWrite => WriteKeeps(w, max);
    case DoNote => NoteKeeps(w, max);
    case DoSave => SaveKeeps(w, max);
    case DoRetry(id, at) => RetryPhaseKeeps(w, id, at, max);
    case DoClear => ClearPhaseKeeps(w, max);
  }

  lemma StartInv(max: int)
    ensures Inv(Start, max)
  {
  }

  lemma {:induction false} RunKeeps(states: seq<World>, steps: seq<Step>, max: int, i: nat)
    requires IsRun(states, steps, max) && max > 0 && i < |states|
    ensures Inv(states[i], max)
  {
    if i == 0 {
      StartInv(max);
    } else {
      hide Inv, Next;
      RunKeeps(states, steps, max, i - 1);
      NextKeeps(states[i - 1], steps[i - 1], max);
    }
  }

  /** Conservation with every interleaving, whenever the worker holds no task: completed
      tasks, bytes, attempts and executions agree as ever. The error counter falls short
      of the failed and re-issued tasks by what the last clear left uncounted, and exceeds
      them by what the worker's write restored after it; the records follow the counter
      without what was restored, up to the cap, and with the extra one. */
  lemma Drift(states: seq<World>, steps: seq<Step>, max: int, i: nat)
    requires IsRun(states, steps, max) && max > 0 && i < |states| && states[i].hold.None?
    ensures var w := states[i];
            var q := w.q;
            && q.stats.tasksCompletedTotal == Weigh(q.tasks, CompletedOne)
            && q.stats.bytesReplicated == Weigh(q.tasks, CompletedBytes)
            && q.stats.replicationErrors + w.uncounted == Weigh(q.tasks, FailedOne) + q.reissuedSinceClear + w.restored
            && |q.records| == Capped(q.stats.replicationErrors + w.extra - w.restored)
            && w.extra <= w.uncounted <= 1 && 0 <= w.restored && (w.restored > 0 ==> w.uncounted == 0)
            && (forall id :: id in q.tasks ==> TaskOK(q.tasks[id], id, max))
            && q.executions <= max * (q.enqueued + q.reissued)
  {
    hide Weigh, IsRun;
    RunKeeps(states, steps, max, i);
    WeighNonNegative(states[i].q.tasks, Left(max));
  }

  /** The counter is the number of failed tasks exactly when what was put back and restored
      since the last clear is what that clear left uncounted. */
  lemma CounterIsFailedExactly(states: seq<World>, steps: seq<Step>, max: int, i: nat)
    requires IsRun(states, steps, max) && max > 0 && i < |states| && states[i].hold.None?
    ensures var w := states[i];
            w.q.stats.replicationErrors == Weigh(w.q.tasks, FailedOne) <==>
              w.q.reissuedSinceClear + w.restored == w.uncounted
  {
    hide Weigh, IsRun;
    Drift(states, steps, max, i);
  }

  //// Runs that drift

  lemma ExtendRun(states: seq<World>, steps: seq<Step>, max: int, s: Step)
    requires IsRun(states, steps, max) && Possible(states[|steps|], s)
    ensures IsRun(states + [Next(states[|steps|], s, max)], steps + [s], max)
  {
    hide Next, Possible;
    var states', steps' := states + [Next(states[|steps|], s, max)], steps + [s];
    forall i | 0 <= i < |steps'|
      ensures Possible(states'[i], steps'[i]) && states'[i + 1] == Next(states'[i], steps'[i], max)
    {
      if i < |steps| { assert Possible(states[i], steps[i]); }
    }
  }

  /** Some run ends in this world. */
  ghost predicate Reachable(w: World, max: int) {
    exists states, steps :: EndsIn(states, steps, w, max)
  }

  ghost predicate EndsIn(states: seq<World>, steps: seq<Step>, w: World, max: int) {
    IsRun(states, steps, max) && states[|steps|] == w
  }

  lemma StepReaches(w: World, s: Step, max: int)
    requires Reachable(w, max) && Possible(w, s)
    ensures Reachable(Next(w, s, max), max)
  {
    hide Next, Possible;
    var states, steps :| EndsIn(states, steps, w, max);
    ExtendRun(states, steps, max, s);
    assert EndsIn(states + [Next(w, s, max)], steps + [s], Next(w, s, max), max);
  }

  /** A world without a held task, whose names are short and in which n errors are counted
      and nothing was cleared or put back. */
  ghost predicate Counting(w: World, n: nat) {
    && w.hold.None? && w.uncounted == w.extra == w.restored == 0
    && ShortNames(w.q, n) && w.q.stats.replicationErrors == n && w.q.reissuedSinceClear == 0
  }

  /** The fresh task of this number, taken up by the worker. */
  lemma TakeUp(w: World, n: nat, outcome: Outcome)
    requires Reachable(w, 1) && Counting(w, n)
    ensures var t := FreshTask(n);
            var w1 := w.(q := EnqueueTask(w.q, t.id, 0));
            Reachable(w1, 1) && Reachable(Execute(w1, t, outcome, 0, 1, Mark(n)), 1)
  {
    hide Reachable, Execute;
    assert |Mark(n)| == n + 1;
    hide Mark;
    StepReaches(w, DoEnqueue(Mark(n), 0), 1);
    var w1 := w.(q := EnqueueTask(w.q, Mark(n), 0));
    StepReaches(w1, DoExecute(FreshTask(n), outcome, 0, Mark(n)), 1);
  }

  lemma OneMoreCounted(w: World, n: nat) returns (w': World)
    requires Reachable(w, 1) && Counting(w, n)
    ensures Reachable(w', 1) && Counting(w', n + 1)
  {
    hide Reachable, AddRecord, Backoff;
    TakeUp(w, n, Error);
    var w2 := Execute(w.(q := EnqueueTask(w.q, Mark(n), 0)), FreshTask(n), Error, 0, 1, Mark(n));
    StepReaches(w2, DoWrite, 1);
    StepReaches(Write(w2), DoNote, 1);
    StepReaches(Note(Write(w2)), DoSave, 1);
    w' := Save(Note(Write(w2)));
    assert |Mark(n)| == n + 1;
    ShortRecords(w.q.records, Mark(n), n);
  }

  lemma {:induction false} CountTo(n: nat) returns (w: World)
    ensures Reachable(w, 1) && Counting(w, n)
  {
    if n == 0 {
      w := Start;
      assert EndsIn([Start], [], Start, 1);
    } else {
      hide Reachable, Counting;
      w := CountTo(n - 1);
      w := OneMoreCounted(w, n - 1);
    }
  }

  /** For every n: after n failures a clear falls between reading and writing the statistics
      of a task that succeeds. The counter is n again, with no failed task, no record and
      nothing put back. */
  lemma RestoredReached(n: nat) returns (states: seq<World>, steps: seq<Step>)
    ensures IsRun(states, steps, 1) && states[|steps|].hold.None?
    ensures var w := states[|steps|];
            && w.q.stats.replicationErrors == n && w.q.records == map[] && Weigh(w.q.tasks, FailedOne) == 0
            && w.q.reissuedSinceClear == w.uncounted == w.extra == 0
  {
    hide Reachable, Weigh;
    var w := CountTo(n);
    TakeUp(w, n, Replicated(0));
    var w2 := Execute(w.(q := EnqueueTask(w.q, Mark(n), 0)), FreshTask(n), Replicated(0), 0, 1, Mark(n));
    StepReaches(w2, DoClear, 1);
    StepReaches(ClearAll(w2), DoWrite, 1);
    StepReaches(Write(ClearAll(w2)), DoSave, 1);
    var w5 := Save(Write(ClearAll(w2)));
    states, steps := RunOf(w5);
    Drift(states, steps, 1, |steps|);
  }

  lemma RunOf(w: World) returns (states: seq<World>, steps: seq<Step>)
    requires Reachable(w, 1)
    ensures IsRun(states, steps, 1) && states[|steps|] == w
  {
    hide IsRun;
    states, steps :| EndsIn(states, steps, w, 1);
  }

  /** A clear between writing the statistics of a failure and adding its record leaves one
      failed task, one record and a counter of zero. */
  lemma UncountedReached() returns (states: seq<World>, steps: seq<Step>)
    ensures IsRun(states, steps, 1) && states[|steps|].hold.None?
    ensures var w := states[|steps|];
            && w.q.stats.replicationErrors == 0 && |w.q.records| == 1 && Weigh(w.q.tasks, FailedOne) == 1
  {
    hide Reachable, Weigh, AddRecord;
    var w := CountTo(0);
    TakeUp(w, 0, Error);
    var w2 := Execute(w.(q := EnqueueTask(w.q, Mark(0), 0)), FreshTask(0), Error, 0, 1, Mark(0));
    StepReaches(w2, DoWrite, 1);
    StepReaches(Write(w2), DoClear, 1);
    StepReaches(ClearAll(Write(w2)), DoNote, 1);
    StepReaches(Note(ClearAll(Write(w2))), DoSave, 1);
    states, steps := RunOf(Save(Note(ClearAll(Write(w2)))));
    Drift(states, steps, 1, |steps|);
  }
}
