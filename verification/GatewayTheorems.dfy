/** Conservation in the replication queue, over every run. */
module GatewayTheorems {
  import opened Clock
  import opened GatewayQueue
  import opened Strings

  //// Sums over the task table

  ghost function Weigh(tasks: map<string, Task>, f: Task -> int): int {
    if tasks == map[] then 0
    else
      var id :| id in tasks;
      f(tasks[id]) + Weigh(tasks - {id}, f)
  }

  lemma {:induction false} WeighPick(tasks: map<string, Task>, f: Task -> int, id: string)
    requires id in tasks
    ensures Weigh(tasks, f) == f(tasks[id]) + Weigh(tasks - {id}, f)
    decreases |tasks|
  {
    var k :| k in tasks && Weigh(tasks, f) == f(tasks[k]) + Weigh(tasks - {k}, f);
    if k != id {
      var a, b := tasks - {k}, tasks - {id};
      WeighPick(a, f, id);
      WeighPick(b, f, k);
      assert a - {id} == b - {k};
    }
  }

  lemma WeighPut(tasks: map<string, Task>, f: Task -> int, id: string, t: Task)
    ensures Weigh(tasks[id := t], f)
            == Weigh(tasks, f) + f(t) - (if id in tasks then f(tasks[id]) else 0)
  {
    WeighPick(tasks[id := t], f, id);
    assert tasks[id := t] - {id} == tasks - {id};
    if id in tasks { WeighPick(tasks, f, id); } else { assert tasks - {id} == tasks; }
  }

  lemma UnfailedStep(tasks: map<string, Task>, id: string)
    requires id in tasks
    ensures tasks[id].status == Failed ==> Unfailed(tasks) == Unfailed(tasks - {id})
    ensures tasks[id].status != Failed ==>
              && id in Unfailed(tasks) && Unfailed(tasks)[id] == tasks[id]
              && Unfailed(tasks) - {id} == Unfailed(tasks - {id})
  {
  }

  /** Dropping failed tasks drops exactly their weight. */
  lemma {:induction false} WeighUnfailed(tasks: map<string, Task>, f: Task -> int)
    requires forall t: Task :: t.status == Failed ==> f(t) == 0
    ensures Weigh(Unfailed(tasks), f) == Weigh(tasks, f)
    decreases |tasks|
  {
    if tasks == map[] {
      assert Unfailed(tasks) == map[];
    } else {
      hide Weigh, Unfailed;
      var id :| id in tasks;
      UnfailedStep(tasks, id);
      WeighPick(tasks, f, id);
      WeighUnfailed(tasks - {id}, f);
      if tasks[id].status != Failed {
        WeighPick(Unfailed(tasks), f, id);
      }
    }
  }

  lemma {:induction false} WeighZero(tasks: map<string, Task>, f: Task -> int)
    requires forall id :: id in tasks ==> f(tasks[id]) == 0
    ensures Weigh(tasks, f) == 0
    decreases |tasks|
  {
    if tasks != map[] {
      var id :| id in tasks;
      WeighPick(tasks, f, id);
      WeighZero(tasks - {id}, f);
    }
  }

  lemma {:induction false} WeighNonNegative(tasks: map<string, Task>, f: Task -> int)
    requires forall id :: id in tasks ==> f(tasks[id]) >= 0
    ensures Weigh(tasks, f) >= 0
    decreases |tasks|
  {
    if tasks != map[] {
      var id :| id in tasks;
      WeighPick(tasks, f, id);
      WeighNonNegative(tasks - {id}, f);
    }
  }

  function CompletedOne(t: Task): int { if t.status == Completed then 1 else 0 }
  function CompletedBytes(t: Task): int { if t.status == Completed then t.bytes else 0 }
  function FailedOne(t: Task): int { if t.status == Failed then 1 else 0 }

  /** The attempts a task has left when it may use `max`. */
  function Left(max: int): Task -> int {
    (t: Task) => if t.status == Pending then max - t.attempts else 0
  }

  //// The invariant

  ghost predicate TaskOK(t: Task, id: string, max: int) {
    && t.id == id
    && (t.status == Failed ==> t.attempts == max)
    && (t.status != Failed ==> t.attempts < max)
  }

  /** The executions that so many issued tasks may take. */
  function Allowance(max: int, issued: int): int {
    max * issued
  }

  lemma OneMore(max: int, issued: int)
    ensures Allowance(max, issued + 1) == Allowance(max, issued) + max
  {
  }

  /** So many errors leave so many records. */
  function Capped(n: int): int {
    if n < MAX_ERROR_RECORDS then n else MAX_ERROR_RECORDS
  }

  ghost predicate Inv(q: Queue, max: int) {
    && (forall id :: id in q.tasks ==> TaskOK(q.tasks[id], id, max))
    && q.stats.tasksCompletedTotal == Weigh(q.tasks, CompletedOne)
    && q.stats.bytesReplicated == Weigh(q.tasks, CompletedBytes)
    && q.stats.replicationErrors == Weigh(q.tasks, FailedOne) + q.reissuedSinceClear
    && |q.records| == Capped(q.stats.replicationErrors)
    && q.executions + Weigh(q.tasks, Left(max)) <= Allowance(max, q.enqueued + q.reissued)
  }

  /** What the table's own task weighs, before it is replaced. */
  ghost function Was(tasks: map<string, Task>, id: string, f: Task -> int): int {
    if id in tasks then f(tasks[id]) else 0
  }

  /** The sums after one task is replaced. */
  lemma Reweigh(tasks: map<string, Task>, id: string, t: Task, max: int)
    ensures var tasks' := tasks[id := t];
            && Weigh(tasks', CompletedOne)
               == Weigh(tasks, CompletedOne) + CompletedOne(t) - Was(tasks, id, CompletedOne)
            && Weigh(tasks', CompletedBytes)
               == Weigh(tasks, CompletedBytes) + CompletedBytes(t) - Was(tasks, id, CompletedBytes)
            && Weigh(tasks', FailedOne) == Weigh(tasks, FailedOne) + FailedOne(t) - Was(tasks, id, FailedOne)
            && Weigh(tasks', Left(max)) == Weigh(tasks, Left(max)) + Left(max)(t) - Was(tasks, id, Left(max))
  {
    hide Weigh;
    WeighPut(tasks, CompletedOne, id, t);
    WeighPut(tasks, CompletedBytes, id, t);
    WeighPut(tasks, FailedOne, id, t);
    WeighPut(tasks, Left(max), id, t);
  }

  /** A new error record is kept with the greatest keys of the others, at most 50 in all. */
  lemma LatestStay(records: map<string, string>, key: string, id: string)
    ensures var all, r := records[key := id], AddRecord(records, key, id);
            && r.Keys <= all.Keys && (forall k :: k in r ==> r[k] == all[k])
            && |r| == (if |all| <= MAX_ERROR_RECORDS then |all| else MAX_ERROR_RECORDS)
            && forall k, d :: k in r && d in all && d !in r ==> Less(d, k)
    ensures key !in records ==> |records[key := id]| == |records| + 1
  {
    var all := records[key := id];
    assert all.Keys == records.Keys + {key};
    KeptKeys(all.Keys);
    hide Dropped;
    assert AddRecord(records, key, id).Keys == all.Keys - Dropped(all.Keys);
  }

  lemma KeptKeys(keys: set<string>)
    ensures Dropped(keys) <= keys
    ensures |keys - Dropped(keys)| == if |keys| <= MAX_ERROR_RECORDS then |keys| else MAX_ERROR_RECORDS
    ensures forall k, d :: k in keys - Dropped(keys) && d in Dropped(keys) ==> Less(d, k)
  {
    SortedSetFacts(keys);
    hide SortedSet, Ordered, Distinct, Less;
    var sorted := SortedSet(keys);
    assert |sorted| == |multiset(sorted)| == |keys|;
    if |sorted| > MAX_ERROR_RECORDS {
      var n := |sorted| - MAX_ERROR_RECORDS;
      TopIsGreater(sorted, n);
      CutInTwo(sorted, n);
      DistinctSize(sorted[n..]);
      assert keys - Dropped(keys) == Elements(sorted[n..]);
    }
  }

  lemma TopIsGreater(sorted: seq<string>, n: nat)
    requires Ordered(sorted, Self) && Distinct(sorted) && n <= |sorted|
    ensures forall d, k :: d in sorted[..n] && k in sorted[n..] ==> Less(d, k)
  {
    forall d, k | d in sorted[..n] && k in sorted[n..] ensures Less(d, k) {
      var i :| 0 <= i < n && sorted[i] == d;
      var j :| n <= j < |sorted| && sorted[j] == k;
      assert AtMost(Self(sorted[i]), Self(sorted[j]));
    }
  }

  lemma CutInTwo(sorted: seq<string>, n: nat)
    requires Distinct(sorted) && n <= |sorted|
    ensures forall k :: k in sorted <==> k in sorted[..n] || k in sorted[n..]
    ensures forall k :: k in sorted[n..] ==> k !in sorted[..n]
    ensures Distinct(sorted[n..])
  {
    assert sorted == sorted[..n] + sorted[n..];
  }

  /** One execution of a listed task: it was pending, so its budget pays for it. */
  lemma ProcessOneKeeps(q: Queue, task: Task, outcome: Outcome, now: int, max: int, key: string)
    requires Inv(q, max) && key !in q.records
    requires task.id in q.tasks && q.tasks[task.id] == task && task.status == Pending
    ensures Inv(ProcessOne(q, task, outcome, now, max, key), max)
  {
    hide Weigh, Backoff, AddRecord, Allowance, Less;
    var q' := ProcessOne(q, task, outcome, now, max, key);
    assert TaskOK(task, task.id, max);
    Reweigh(q.tasks, task.id, q'.tasks[task.id], max);
    LatestStay(q.records, key, task.id);
  }

  lemma EnqueueKeeps(q: Queue, id: string, now: int, max: int)
    requires Inv(q, max) && max > 0 && id !in q.tasks
    ensures Inv(EnqueueTask(q, id, now), max)
  {
    hide Weigh, Allowance;
    var q' := EnqueueTask(q, id, now);
    Reweigh(q.tasks, id, q'.tasks[id], max);
    OneMore(max, q.enqueued + q.reissued);
  }

  lemma ReissueKeeps(q: Queue, id: string, now: int, max: int)
    requires Inv(q, max) && max > 0 && id in q.tasks && q.tasks[id].status == Failed
    ensures Inv(Reissue(q, id, now), max)
  {
    hide Weigh, Allowance;
    var q' := Reissue(q, id, now);
    assert TaskOK(q.tasks[id], id, max);
    Reweigh(q.tasks, id, q'.tasks[id], max);
    OneMore(max, q.enqueued + q.reissued);
  }

  lemma ClearKeeps(q: Queue, max: int)
    requires Inv(q, max)
    ensures Inv(ClearErrors(q), max)
  {
    hide Weigh;
    WeighUnfailed(q.tasks, CompletedOne);
    WeighUnfailed(q.tasks, CompletedBytes);
    WeighUnfailed(q.tasks, Left(max));
    WeighZero(Unfailed(q.tasks), FailedOne);
  }

  /** The batch gives its error records keys of their own. */
  ghost predicate FreshKeys(records: map<string, string>, keys: nat -> string, i: nat, n: nat) {
    && (forall j :: i <= j < n ==> keys(j) !in records)
    && (forall j, k :: i <= j < k < n ==> keys(j) != keys(k))
  }

  lemma RecordsGrow(q: Queue, task: Task, outcome: Outcome, now: int, max: int, key: string)
    ensures ProcessOne(q, task, outcome, now, max, key).records.Keys <= q.records.Keys + {key}
  {
    LatestStay(q.records, key, task.id);
    hide AddRecord, Backoff, Less;
  }

  lemma {:induction false} ProcessBatchKeeps(q: Queue, due: seq<Task>, outcome: nat -> Outcome, now: int, max: int,
                                             keys: nat -> string, i: nat)
    requires Inv(q, max) && i <= |due|
    requires forall j :: i <= j < |due| ==>
               due[j].id in q.tasks && q.tasks[due[j].id] == due[j] && due[j].status == Pending
    requires forall j, k :: 0 <= j < k < |due| ==> due[j].id != due[k].id
    requires FreshKeys(q.records, keys, i, |due|)
    ensures Inv(ProcessBatch(q, due, outcome, now, max, keys, i), max)
    decreases |due| - i
  {
    hide Inv;
    if i < |due| {
      var q' := ProcessOne(q, due[i], outcome(i), now, max, keys(i));
      ProcessOneKeeps(q, due[i], outcome(i), now, max, keys(i));
      RecordsGrow(q, due[i], outcome(i), now, max, keys(i));
      ProcessBatchKeeps(q', due, outcome, now, max, keys, i + 1);
    }
  }

  //// Runs

  datatype Step =
    | Enqueue(id: string, at: int)
    | Process(at: int, due: seq<Task>, outcome: nat -> Outcome, keys: nat -> string)
    | Retry(id: string, at: int)
    | Clear

  ghost predicate Possible(q: Queue, s: Step) {
    match s
    case Enqueue(id, _) => id !in q.tasks
    case Process(now, due, _, keys) => IsDueList(q, due, now) && FreshKeys(q.records, keys, 0, |due|)
    case Retry(id, _) => id in q.tasks && q.tasks[id].status == Failed
    case Clear => true
  }

  ghost function Next(q: Queue, s: Step, max: int): Queue
    requires Possible(q, s)
  {
    match s
    case Enqueue(id, now) => EnqueueTask(q, id, now)
    case Process(now, due, outcome, keys) => ProcessBatch(q, due, outcome, now, max, keys, 0)
    case Retry(id, now) => Reissue(q, id, now)
    case Clear => ClearErrors(q)
  }

  /** The states of a run from the empty queue. */
  ghost predicate IsRun(states: seq<Queue>, steps: seq<Step>, max: int) {
    && |states| == |steps| + 1
    && states[0] == EmptyQueue
    && forall i :: 0 <= i < |steps| ==> Possible(states[i], steps[i]) && states[i + 1] == Next(states[i], steps[i], max)
  }

  lemma NextKeeps(q: Queue, s: Step, max: int)
    requires Inv(q, max) && max > 0 && Possible(q, s)
    ensures Inv(Next(q, s, max), max)
  {
    hide Inv;
    match s
    case Enqueue(id, now) => EnqueueKeeps(q, id, now, max);
    case Process(now, due, outcome, keys) => ProcessBatchKeeps(q, due, outcome, now, max, keys, 0);
    case Retry(id, now) => ReissueKeeps(q, id, now, max);
    case Clear => ClearKeeps(q, max);
  }

  lemma {:induction false} RunKeeps(states: seq<Queue>, steps: seq<Step>, max: int, i: nat)
    requires IsRun(states, steps, max) && max > 0 && i < |states|
    ensures Inv(states[i], max)
  {
    if i == 0 {
      EmptyInv(max);
    } else {
      hide Inv;
      RunKeeps(states, steps, max, i - 1);
      NextKeeps(states[i - 1], steps[i - 1], max);
    }
  }

  lemma EmptyInv(max: int)
    ensures Inv(EmptyQueue, max)
  {
  }

  /** Conservation: in every state of every run the completed counter is the number
      of completed tasks and the byte counter their bytes; the error counter is
      the number of failed tasks, plus those a retry has put back since the last
      clear; the stored error records number the same up to the cap of 50; failed
      tasks used exactly the allowed attempts and all others fewer; and no task
      was executed more often than its issues allow. */
  lemma Conservation(states: seq<Queue>, steps: seq<Step>, max: int, i: nat)
    requires IsRun(states, steps, max) && max > 0 && i < |states|
    ensures var q := states[i];
            && q.stats.tasksCompletedTotal == Weigh(q.tasks, CompletedOne)
            && q.stats.bytesReplicated == Weigh(q.tasks, CompletedBytes)
            && q.stats.replicationErrors == Weigh(q.tasks, FailedOne) + q.reissuedSinceClear
            && |q.records| == Capped(q.stats.replicationErrors)
            && (forall id :: id in q.tasks ==> if q.tasks[id].status == Failed then q.tasks[id].attempts == max
                                               else q.tasks[id].attempts < max)
            && q.executions <= max * (q.enqueued + q.reissued)
  {
    hide Weigh, IsRun;
    RunKeeps(states, steps, max, i);
    BudgetNonNegative(states[i], max);
  }

  lemma BudgetNonNegative(q: Queue, max: int)
    requires Inv(q, max)
    ensures Weigh(q.tasks, Left(max)) >= 0
  {
    hide Weigh;
    assert forall id :: id in q.tasks ==> TaskOK(q.tasks[id], id, max);
    WeighNonNegative(q.tasks, Left(max));
  }

  /** The error counter is the number of failed tasks exactly when no failed task was put
      back since the last clear. */
  lemma CounterIsFailed(states: seq<Queue>, steps: seq<Step>, max: int, i: nat)
    requires IsRun(states, steps, max) && max > 0 && i < |states|
    ensures var q := states[i];
            q.stats.replicationErrors == Weigh(q.tasks, FailedOne) <==> q.reissuedSinceClear == 0
  {
    hide Weigh, IsRun;
    Conservation(states, steps, max, i);
  }

  /** The error records number the failed tasks exactly when none was put back since the
      last clear and at most 50 have failed, or exactly 50 have failed. */
  lemma RecordsAreFailed(states: seq<Queue>, steps: seq<Step>, max: int, i: nat)
    requires IsRun(states, steps, max) && max > 0 && i < |states|
    ensures var q := states[i];
            var failed := Weigh(q.tasks, FailedOne);
            |q.records| == failed <==>
              (q.reissuedSinceClear == 0 && failed <= MAX_ERROR_RECORDS) || failed == MAX_ERROR_RECORDS
  {
    hide Weigh, IsRun;
    Conservation(states, steps, max, i);
  }

  //// Runs in which they differ

  lemma Extend(states: seq<Queue>, steps: seq<Step>, max: int, s: Step)
    requires IsRun(states, steps, max) && Possible(states[|steps|], s)
    ensures IsRun(states + [Next(states[|steps|], s, max)], steps + [s], max)
  {
    hide Next, Possible;
    var states', steps' := states + [Next(states[|steps|], s, max)], steps + [s];
    forall i | 0 <= i < |steps'|
      ensures Possible(states'[i], steps'[i]) && states'[i + 1] == Next(states'[i], steps'[i], max)
    {
      if i < |steps| { assert Possible(states[i], steps[i]); }
    }
  }

  function Mark(n: nat): string {
    seq(n + 1, _ => 't')
  }

  function FreshTask(n: nat): Task {
    Task(Mark(n), Pending, 0, 0, 0)
  }

  function AddStep(n: nat): Step {
    Enqueue(Mark(n), 0)
  }

  /** The batch of that one task, which fails. */
  function FailStep(n: nat): Step {
    Process(0, [FreshTask(n)], _ => Error, _ => Mark(n))
  }

  /** The table and the records name nothing longer than n. */
  ghost predicate ShortNames(q: Queue, n: nat) {
    (forall id :: id in q.tasks ==> |id| <= n) && (forall k :: k in q.records ==> |k| <= n)
  }

  lemma FailStepIs(q: Queue, n: nat)
    ensures ProcessBatch(q, [FreshTask(n)], FailStep(n).outcome, 0, 1, FailStep(n).keys, 0)
            == ProcessOne(q, FreshTask(n), Error, 0, 1, Mark(n))
  {
    hide ProcessOne;
    var q' := ProcessOne(q, FreshTask(n), Error, 0, 1, Mark(n));
    assert ProcessBatch(q', [FreshTask(n)], FailStep(n).outcome, 0, 1, FailStep(n).keys, 1) == q';
  }

  lemma StepsPossible(q: Queue, n: nat)
    requires ShortNames(q, n)
    ensures Possible(q, AddStep(n)) && Possible(EnqueueTask(q, Mark(n), 0), FailStep(n))
  {
    assert |Mark(n)| == n + 1;
    hide Mark;
  }

  /** The fresh task fails for good at its first execution. */
  lemma FailedAtOnce(q: Queue, n: nat)
    requires ShortNames(q, n)
    ensures var q' := ProcessOne(EnqueueTask(q, Mark(n), 0), FreshTask(n), Error, 0, 1, Mark(n));
            && ShortNames(q', n + 1)
            && Weigh(q'.tasks, FailedOne) == Weigh(q.tasks, FailedOne) + 1
            && q'.reissuedSinceClear == q.reissuedSinceClear
  {
    assert |Mark(n)| == n + 1;
    hide AddRecord, Weigh, Mark, Backoff, ProcessOne, EnqueueTask;
    AfterFailure(q, n);
    ShortRecords(q.records, Mark(n), n);
    WeighPut(q.tasks, FailedOne, Mark(n), Task(Mark(n), Failed, 1, 0, 0));
  }

  lemma AfterFailure(q: Queue, n: nat)
    ensures var q' := ProcessOne(EnqueueTask(q, Mark(n), 0), FreshTask(n), Error, 0, 1, Mark(n));
            && q'.tasks == q.tasks[Mark(n) := Task(Mark(n), Failed, 1, 0, 0)]
            && q'.records == AddRecord(q.records, Mark(n), Mark(n))
            && q'.reissuedSinceClear == q.reissuedSinceClear
  {
    hide AddRecord, Mark, Backoff;
  }

  lemma ShortRecords(records: map<string, string>, key: string, n: nat)
    requires |key| == n + 1 && forall k :: k in records ==> |k| <= n
    ensures forall k :: k in AddRecord(records, key, key) ==> |k| <= n + 1
  {
    hide Less, AddRecord;
    LatestStay(records, key, key);
  }

  lemma OneFailure(q: Queue, n: nat)
    requires ShortNames(q, n)
    ensures Possible(q, AddStep(n)) && Possible(Next(q, AddStep(n), 1), FailStep(n))
    ensures var q' := Next(Next(q, AddStep(n), 1), FailStep(n), 1);
            && ShortNames(q', n + 1)
            && Weigh(q'.tasks, FailedOne) == Weigh(q.tasks, FailedOne) + 1
            && q'.reissuedSinceClear == q.reissuedSinceClear
  {
    hide Weigh, ShortNames, ProcessBatch, ProcessOne, EnqueueTask, Mark, Possible;
    StepsPossible(q, n);
    FailStepIs(EnqueueTask(q, Mark(n), 0), n);
    FailedAtOnce(q, n);
  }

  /** For every n some run ends with n failed tasks, none of them put back. */
  lemma {:induction false} FailRun(n: nat) returns (states: seq<Queue>, steps: seq<Step>)
    ensures IsRun(states, steps, 1)
    ensures var q := states[|steps|];
            ShortNames(q, n) && Weigh(q.tasks, FailedOne) == n && q.reissuedSinceClear == 0
  {
    if n == 0 {
      states, steps := [EmptyQueue], [];
    } else {
      states, steps := FailRun(n - 1);
      var q := states[|steps|];
      OneFailure(q, n - 1);
      hide Weigh, Next, Possible, ShortNames;
      var enq, proc := AddStep(n - 1), FailStep(n - 1);
      Extend(states, steps, 1, enq);
      states, steps := states + [Next(q, enq, 1)], steps + [enq];
      Extend(states, steps, 1, proc);
      states, steps := states + [Next(states[|steps|], proc, 1)], steps + [proc];
    }
  }

  /** With 51 failures the records number 50. */
  lemma MoreFailuresThanRecords() returns (states: seq<Queue>, steps: seq<Step>)
    ensures IsRun(states, steps, 1)
    ensures var q := states[|steps|]; Weigh(q.tasks, FailedOne) == 51 && |q.records| == 50
  {
    hide Weigh;
    states, steps := FailRun(51);
    Conservation(states, steps, 1, |steps|);
  }

  /** After one failure and one retry the counter is 1 and no task is failed. */
  lemma CounterAfterRetry() returns (states: seq<Queue>, steps: seq<Step>)
    ensures IsRun(states, steps, 1)
    ensures var q := states[|steps|]; q.stats.replicationErrors == 1 && Weigh(q.tasks, FailedOne) == 0
  {
    states, steps := FailRun(1);
    var q := states[|steps|];
    var id := SomeFailed(q.tasks);
    var retry := Retry(id, 0);
    WeighPut(q.tasks, FailedOne, id, Reissue(q, id, 0).tasks[id]);
    Extend(states, steps, 1, retry);
    hide Weigh;
    states, steps := states + [Next(q, retry, 1)], steps + [retry];
    Conservation(states, steps, 1, |steps|);
  }

  lemma SomeFailed(tasks: map<string, Task>) returns (id: string)
    requires Weigh(tasks, FailedOne) > 0
    ensures id in tasks && tasks[id].status == Failed
  {
    if forall k :: k in tasks ==> tasks[k].status != Failed { WeighZero(tasks, FailedOne); }
    id :| id in tasks && tasks[id].status == Failed;
  }

  //// Retries

  /** A listed task that fails with attempts to spare is due again min(2^attempts, 60)
      seconds after the start of its batch, whatever else the batch did. */
  lemma {:induction false} RetryTime(q: Queue, due: seq<Task>, outcome: nat -> Outcome, now: int, max: int,
                                     keys: nat -> string, i: nat, k: nat)
    requires i <= k < |due| && outcome(k) == Error && due[k].attempts + 1 < max
    requires forall a, b :: 0 <= a < b < |due| ==> due[a].id != due[b].id
    ensures var q', n := ProcessBatch(q, due, outcome, now, max, keys, i), due[k].attempts + 1;
            && due[k].id in q'.tasks
            && q'.tasks[due[k].id].status == Pending && q'.tasks[due[k].id].attempts == n
            && q'.tasks[due[k].id].nextAttempt == now + (if Pow2(n) < 60 then Pow2(n) else 60) * SECOND
    decreases k - i
  {
    var q1 := ProcessOne(q, due[i], outcome(i), now, max, keys(i));
    if i == k {
      Untouched(q1, due, outcome, now, max, keys, i + 1, due[k].id);
    } else {
      RetryTime(q1, due, outcome, now, max, keys, i + 1, k);
    }
  }

  lemma {:induction false} Untouched(q: Queue, due: seq<Task>, outcome: nat -> Outcome, now: int, max: int,
                                     keys: nat -> string, i: nat, id: string)
    requires i <= |due| && id in q.tasks && forall j :: i <= j < |due| ==> due[j].id != id
    ensures var q' := ProcessBatch(q, due, outcome, now, max, keys, i);
            id in q'.tasks && q'.tasks[id] == q.tasks[id]
    decreases |due| - i
  {
    hide AddRecord, Backoff;
    if i < |due| {
      Untouched(ProcessOne(q, due[i], outcome(i), now, max, keys(i)), due, outcome, now, max, keys, i + 1, id);
    }
  }

  lemma {:induction false} Pow2Grows(n: nat)
    ensures Pow2(n) >= 1
    ensures n >= 6 ==> Pow2(n) >= 60
  {
    if n > 0 { Pow2Grows(n - 1); }
    if n == 6 { assert Pow2(3) == 8; assert Pow2(5) == 4 * Pow2(3); assert Pow2(6) == 2 * Pow2(5); }
  }

  /** The backoff doubles from 2 s and is capped at a minute from the sixth attempt on. */
  lemma BackoffShape(n: nat)
    ensures n < 6 ==> Backoff(n) == Pow2(n) * SECOND
    ensures n >= 6 ==> Backoff(n) == 60 * SECOND
  {
    Pow2Grows(n);
    assert Pow2(1) == 2 && Pow2(2) == 4 && Pow2(3) == 8;
    assert Pow2(4) == 2 * Pow2(3) && Pow2(5) == 2 * Pow2(4);
  }
}
