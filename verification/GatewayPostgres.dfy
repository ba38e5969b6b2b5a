/** The replication queue over the Postgres store of internal/metadata/postgres/replication.go,
    whose retry keeps the attempts and whose clear deletes the error records alone. The
    worker's transactions are those of the phases. */
module GatewayPostgres {
  import opened Strings
  import opened GatewayQueue
  import opened GatewayTheorems
  import GP = GatewayPhases

  /** `clearedAt` belongs to the history: the errors counted by the last clear, but for one
      whose record was still to be added. The queue's `reissued` counts every task ever
      put back. */
  datatype Store = Store(w: GP.World, clearedAt: int)

  const EmptyStore := Store(GP.Start, 0)

  /** RetryFailedReplicationTasks, for one failed task. */
  function Requeue(q: Queue, id: string, now: int): Queue
    requires id in q.tasks
  {
    q.(tasks := q.tasks[id := q.tasks[id].(status := Pending, nextAttempt := now)], reissued := q.reissued + 1)
  }

  /** ClearReplicationErrors. */
  function DeleteErrors(s: Store): Store {
    Store(s.w.(q := s.w.q.(records := map[])), GP.Counted(s.w).replicationErrors - GP.ToNote(s.w))
  }

  //// Runs

  ghost predicate Possible(s: Store, step: GP.Step) {
    GP.Possible(s.w, step)
  }

  ghost function Next(s: Store, step: GP.Step, max: int): Store
    requires Possible(s, step)
  {
    match step
    case DoRetry(id, at) => s.(w := s.w.(q := Requeue(s.w.q, id, at)))
    case DoClear => DeleteErrors(s)
    case _ => s.(w := GP.Next(s.w, step, max))
  }

  ghost predicate IsRun(states: seq<Store>, steps: seq<GP.Step>, max: int) {
    && |states| == |steps| + 1
    && states[0] == EmptyStore
    && forall i :: 0 <= i < |steps| ==> Possible(states[i], steps[i]) && states[i + 1] == Next(states[i], steps[i], max)
  }

  //// The invariant

  /** The executions a task has left: a task put back has one. */
  function Room(max: int): Task -> int {
    (t: Task) => if t.status != Pending then 0 else if t.attempts < max then max - t.attempts else 1
  }

  /** A failed task used the allowed attempts, and at most one more for each retry. */
  ghost predicate AttemptsOK(t: Task, id: string, max: int, reissued: int) {
    && t.id == id
    && (t.status == Failed ==> max <= t.attempts <= max + reissued)
    && (t.status != Failed ==> t.attempts < max + reissued)
  }

  ghost predicate Balanced(q: Queue, stats: Stats, tasks: map<string, Task>, max: int) {
    && (forall id :: id in tasks ==> AttemptsOK(tasks[id], id, max, q.reissued))
    && stats.tasksCompletedTotal == Weigh(tasks, CompletedOne)
    && stats.bytesReplicated == Weigh(tasks, CompletedBytes)
    && stats.replicationErrors == Weigh(tasks, FailedOne) + q.reissued
    && q.executions + Weigh(tasks, Room(max)) <= Allowance(max, q.enqueued) + q.reissued
  }

  ghost predicate Noted(s: Store) {
    var errors := GP.Counted(s.w).replicationErrors;
    && s.clearedAt + GP.ToNote(s.w) <= errors
    && |s.w.q.records| == Capped(errors - s.clearedAt - GP.ToNote(s.w))
  }

  ghost predicate Inv(s: Store, max: int) {
    GP.HoldOK(s.w) && Balanced(s.w.q, GP.Counted(s.w), GP.Settled(s.w), max) && Noted(s)
  }

  lemma PutWeighs(tasks: map<string, Task>, id: string, t: Task, max: int)
    ensures var tasks' := tasks[id := t];
            && Weigh(tasks', CompletedOne)
               == Weigh(tasks, CompletedOne) + CompletedOne(t) - Was(tasks, id, CompletedOne)
            && Weigh(tasks', CompletedBytes)
               == Weigh(tasks, CompletedBytes) + CompletedBytes(t) - Was(tasks, id, CompletedBytes)
            && Weigh(tasks', FailedOne) == Weigh(tasks, FailedOne) + FailedOne(t) - Was(tasks, id, FailedOne)
            && Weigh(tasks', Room(max)) == Weigh(tasks, Room(max)) + Room(max)(t) - Was(tasks, id, Room(max))
  {
    hide Weigh;
    WeighPut(tasks, CompletedOne, id, t);
    WeighPut(tasks, CompletedBytes, id, t);
    WeighPut(tasks, FailedOne, id, t);
    WeighPut(tasks, Room(max), id, t);
  }

  lemma EnqueueBalances(q: Queue, stats: Stats, tasks: map<string, Task>, id: string, at: int, max: int)
    requires Balanced(q, stats, tasks, max) && max > 0 && id !in tasks
    ensures Balanced(EnqueueTask(q, id, at), stats, tasks[id := Task(id, Pending, 0, 0, at)], max)
  {
    hide Weigh, Allowance;
    PutWeighs(tasks, id, Task(id, Pending, 0, 0, at), max);
    OneMore(max, q.enqueued);
  }

  lemma RetryBalances(q: Queue, stats: Stats, tasks: map<string, Task>, id: string, at: int, max: int)
    requires Balanced(q, stats, tasks, max) && max > 0 && id in tasks && id in q.tasks && tasks[id].status == Failed
    ensures Balanced(Requeue(q, id, at), stats, tasks[id := tasks[id].(status := Pending, nextAttempt := at)], max)
  {
    hide Weigh, Allowance;
    assert AttemptsOK(tasks[id], id, max, q.reissued);
    PutWeighs(tasks, id, tasks[id].(status := Pending, nextAttempt := at), max);
  }

  lemma PgEnqueueKeeps(s: Store, id: string, at: int, max: int)
    requires Inv(s, max) && max > 0 && Possible(s, GP.DoEnqueue(id, at))
    ensures Inv(Next(s, GP.DoEnqueue(id, at), max), max)
  {
    hide Balanced;
    var s' := Next(s, GP.DoEnqueue(id, at), max);
    EnqueueBalances(s.w.q, GP.Counted(s.w), GP.Settled(s.w), id, at, max);
    assert GP.Settled(s'.w) == GP.Settled(s.w)[id := Task(id, Pending, 0, 0, at)];
  }

  lemma PgRetryKeeps(s: Store, id: string, at: int, max: int)
    requires Inv(s, max) && max > 0 && Possible(s, GP.DoRetry(id, at))
    ensures Inv(Next(s, GP.DoRetry(id, at), max), max)
  {
    hide Balanced;
    var s' := Next(s, GP.DoRetry(id, at), max);
    RetryBalances(s.w.q, GP.Counted(s.w), GP.Settled(s.w), id, at, max);
    assert GP.Settled(s'.w) == GP.Settled(s.w)[id := s'.w.q.tasks[id]];
  }

  lemma PgExecuteKeeps(s: Store, task: Task, outcome: Outcome, at: int, max: int, key: string)
    requires Inv(s, max) && max > 0 && Possible(s, GP.DoExecute(task, outcome, at, key))
    ensures Inv(Next(s, GP.DoExecute(task, outcome, at, key), max), max)
  {
    hide Weigh, Allowance, Backoff;
    var w' := GP.Execute(s.w, task, outcome, at, max, key);
    assert AttemptsOK(task, task.id, max, s.w.q.reissued);
    PutWeighs(s.w.q.tasks, task.id, w'.hold.value.task, max);
    assert GP.Settled(w') == s.w.q.tasks[task.id := w'.hold.value.task];
  }

  lemma PgWriteKeeps(s: Store, max: int)
    requires Inv(s, max) && Possible(s, GP.DoWrite)
    ensures Inv(Next(s, GP.DoWrite, max), max)
  {
    hide Balanced;
    assert GP.Settled(GP.Write(s.w)) == GP.Settled(s.w);
    SameBalance(s.w.q, GP.Write(s.w).q, GP.Counted(s.w), GP.Settled(s.w), max);
  }

  lemma SameBalance(q: Queue, q': Queue, stats: Stats, tasks: map<string, Task>, max: int)
    requires Balanced(q, stats, tasks, max)
    requires q'.reissued == q.reissued && q'.enqueued == q.enqueued && q'.executions == q.executions
    ensures Balanced(q', stats, tasks, max)
  {
    hide Weigh, Allowance;
  }

  lemma PgNoteKeeps(s: Store, max: int)
    requires Inv(s, max) && Possible(s, GP.DoNote)
    ensures Inv(Next(s, GP.DoNote, max), max)
  {
    hide Balanced, AddRecord, Less;
    LatestStay(s.w.q.records, s.w.hold.value.note.value, s.w.hold.value.task.id);
    assert GP.Settled(GP.Note(s.w)) == GP.Settled(s.w);
    SameBalance(s.w.q, GP.Note(s.w).q, GP.Counted(s.w), GP.Settled(s.w), max);
  }

  lemma PgSaveKeeps(s: Store, max: int)
    requires Inv(s, max) && Possible(s, GP.DoSave)
    ensures Inv(Next(s, GP.DoSave, max), max)
  {
    hide Balanced;
    assert GP.Settled(GP.Save(s.w)) == GP.Settled(s.w);
    SameBalance(s.w.q, GP.Save(s.w).q, GP.Counted(s.w), GP.Settled(s.w), max);
  }

  lemma PgClearKeeps(s: Store, max: int)
    requires Inv(s, max)
    ensures Inv(DeleteErrors(s), max)
  {
    hide Balanced;
    SameBalance(s.w.q, DeleteErrors(s).w.q, GP.Counted(s.w), GP.Settled(s.w), max);
  }

  lemma PgNextKeeps(s: Store, step: GP.Step, max: int)
    requires Inv(s, max) && max > 0 && Possible(s, step)
    ensures Inv(Next(s, step, max), max)
  {
    hide Inv, GP.Next;
    match step
    case DoEnqueue(id, at) => PgEnqueueKeeps(s, id, at, max);
    case DoExecute(task, outcome, at, key) => PgExecuteKeeps(s, task, outcome, at, max, key);
    case DoWrite => PgWriteKeeps(s, max);
    case DoNote => PgNoteKeeps(s, max);
    case DoSave => PgSaveKeeps(s, max);
    case DoRetry(id, at) => PgRetryKeeps(s, id, at, max);
    case DoClear => PgClearKeeps(s, max);
  }

  lemma {:induction false} PgRunKeeps(states: seq<Store>, steps: seq<GP.Step>, max: int, i: nat)
    requires IsRun(states, steps, max) && max > 0 && i < |states|
    ensures Inv(states[i], max)
  {
    if i > 0 {
      hide Inv, Next;
      PgRunKeeps(states, steps, max, i - 1);
      PgNextKeeps(states[i - 1], steps[i - 1], max);
    }
  }

  /** Conservation over this store, with every interleaving, whenever the worker holds no
      task: completed tasks and bytes agree; the error counter is the number of failed
      tasks and of all those ever put back, since a clear leaves it; the records are the
      errors recorded since the last clear, up to the cap; failed tasks used the allowed
      attempts and at most one more for each retry, and executions exceed the allowed
      ones by at most the retries. */
  lemma PgConservation(states: seq<Store>, steps: seq<GP.Step>, max: int, i: nat)
    requires IsRun(states, steps, max) && max > 0 && i < |states| && states[i].w.hold.None?
    ensures var q := states[i].w.q;
            && q.stats.tasksCompletedTotal == Weigh(q.tasks, CompletedOne)
            && q.stats.bytesReplicated == Weigh(q.tasks, CompletedBytes)
            && q.stats.replicationErrors == Weigh(q.tasks, FailedOne) + q.reissued
            && |q.records| == Capped(q.stats.replicationErrors - states[i].clearedAt)
            && (forall id :: id in q.tasks ==> AttemptsOK(q.tasks[id], id, max, q.reissued))
            && q.executions <= max * q.enqueued + q.reissued
  {
    hide Weigh, IsRun;
    PgRunKeeps(states, steps, max, i);
    WeighNonNegative(states[i].w.q.tasks, Room(max));
  }

  //// More attempts than allowed

  /** Some run ends in this store. */
  ghost predicate Reachable(s: Store, max: int) {
    exists states, steps :: EndsIn(states, steps, s, max)
  }

  ghost predicate EndsIn(states: seq<Store>, steps: seq<GP.Step>, s: Store, max: int) {
    IsRun(states, steps, max) && states[|steps|] == s
  }

  lemma StepReaches(s: Store, step: GP.Step, max: int)
    requires Reachable(s, max) && Possible(s, step)
    ensures Reachable(Next(s, step, max), max)
  {
    hide Next, Possible;
    var states, steps :| EndsIn(states, steps, s, max);
    var states', steps' := states + [Next(s, step, max)], steps + [step];
    forall i | 0 <= i < |steps'|
      ensures Possible(states'[i], steps'[i]) && states'[i + 1] == Next(states'[i], steps'[i], max)
    {
      if i < |steps| { assert Possible(states[i], steps[i]); }
    }
    assert EndsIn(states', steps', Next(s, step, max), max);
  }

  /** A pending task that fails for good, all phases in a row. */
  lemma FailOnce(s: Store, task: Task, key: string) returns (s': Store)
    requires Reachable(s, 1) && s.w.hold.None? && Possible(s, GP.DoExecute(task, Error, 0, key))
    ensures Reachable(s', 1) && s'.w.hold.None?
    ensures s'.w.q.tasks == s.w.q.tasks[task.id := task.(attempts := task.attempts + 1, status := Failed)]
  {
    hide Reachable, AddRecord;
    StepReaches(s, GP.DoExecute(task, Error, 0, key), 1);
    var w2 := GP.Execute(s.w, task, Error, 0, 1, key);
    StepReaches(s.(w := w2), GP.DoWrite, 1);
    StepReaches(s.(w := GP.Write(w2)), GP.DoNote, 1);
    StepReaches(s.(w := GP.Note(GP.Write(w2))), GP.DoSave, 1);
    s' := s.(w := GP.Save(GP.Note(GP.Write(w2))));
  }

  /** A task that fails again after a retry has used more than the allowed attempts. */
  lemma MoreThanAllowed() returns (s: Store)
    ensures Reachable(s, 1) && s.w.hold.None?
    ensures "t" in s.w.q.tasks && s.w.q.tasks["t"].status == Failed && s.w.q.tasks["t"].attempts == 2
  {
    assert EndsIn([EmptyStore], [], EmptyStore, 1);
    hide Reachable;
    StepReaches(EmptyStore, GP.DoEnqueue("t", 0), 1);
    s := Next(EmptyStore, GP.DoEnqueue("t", 0), 1);
    s := FailOnce(s, Task("t", Pending, 0, 0, 0), "k");
    StepReaches(s, GP.DoClear, 1);
    s := DeleteErrors(s);
    StepReaches(s, GP.DoRetry("t", 0), 1);
    s := Next(s, GP.DoRetry("t", 0), 1);
    s := FailOnce(s, Task("t", Pending, 1, 0, 0), "k");
  }
}
