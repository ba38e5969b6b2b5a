/** The replication queue: processReplicationQueueOnce of
    internal/api/gateway_worker.go over the store of internal/metadata/replication.go. */
module GatewayQueue {
  import opened Clock
  import opened Strings

  const BATCH_SIZE := 20
  const MAX_ERROR_RECORDS := 50
  const MAX_BACKOFF := 60

  datatype Status = Pending | Completed | Failed

  /** nextAttempt 0 is Go's zero time. */
  datatype Task = Task(id: string, status: Status, attempts: nat, bytes: int, nextAttempt: int)

  datatype Stats = Stats(bytesReplicated: int, replicationErrors: int, tasksCompletedTotal: int)

  /** The store, and three counters of its history: tasks enqueued, failed tasks put
      back by a retry (in all, and since the errors were last cleared), and task
      executions. `records` are the stored error records: their task ids by storage
      key, which is the time of the error as text, a NUL and a random id. */
  datatype Queue = Queue(
    tasks: map<string, Task>,
    stats: Stats,
    records: map<string, string>,
    enqueued: nat,
    reissued: nat,
    reissuedSinceClear: nat,
    executions: nat)

  const EmptyQueue := Queue(map[], Stats(0, 0, 0), map[], 0, 0, 0, 0)

  /** What executing a task returned. */
  datatype Outcome = Replicated(bytes: int) | Error

  function Pow2(n: nat): nat {
    if n == 0 then 1 else 2 * Pow2(n - 1)
  }

  /** math.Min(1s * 2^attempts, 60s). */
  function Backoff(attempts: nat): int {
    (if Pow2(attempts) < MAX_BACKOFF then Pow2(attempts) else MAX_BACKOFF) * SECOND
  }

  /** The keys beyond the cap: all but the 50 greatest. */
  ghost function Dropped(keys: set<string>): set<string> {
    var sorted := SortedSet(keys);
    if |sorted| <= MAX_ERROR_RECORDS then {} else Elements(sorted[..|sorted| - MAX_ERROR_RECORDS])
  }

  /** AddReplicationError. */
  ghost function AddRecord(records: map<string, string>, key: string, id: string): map<string, string> {
    records[key := id] - Dropped(records.Keys + {key})
  }

  /** One iteration of the batch loop on the listed task. */
  ghost function ProcessOne(q: Queue, task: Task, outcome: Outcome, now: int, max: int, key: string): Queue {
    var q := q.(executions := q.executions + 1);
    match outcome
    case Replicated(n) =>
      q.(tasks := q.tasks[task.id := task.(status := Completed, bytes := n)],
         stats := q.stats.(bytesReplicated := q.stats.bytesReplicated + n,
                           tasksCompletedTotal := q.stats.tasksCompletedTotal + 1))
    case Error =>
      var t := task.(attempts := task.attempts + 1);
      if t.attempts >= max then
        q.(tasks := q.tasks[task.id := t.(status := Failed)],
           stats := q.stats.(replicationErrors := q.stats.replicationErrors + 1),
           records := AddRecord(q.records, key, task.id))
      else
        q.(tasks := q.tasks[task.id := t.(status := Pending, nextAttempt := now + Backoff(t.attempts))])
  }

  ghost function ProcessBatch(q: Queue, due: seq<Task>, outcome: nat -> Outcome, now: int, max: int,
                              keys: nat -> string, i: nat): Queue
    requires i <= |due|
    decreases |due| - i
  {
    if i == |due| then q
    else ProcessBatch(ProcessOne(q, due[i], outcome(i), now, max, keys(i)), due, outcome, now, max, keys, i + 1)
  }

  /** What ListDueReplicationTasks may return: pending tasks that are due, each once. */
  ghost predicate IsDueList(q: Queue, due: seq<Task>, now: int) {
    && |due| <= BATCH_SIZE
    && (forall i :: 0 <= i < |due| ==>
          && due[i].id in q.tasks && q.tasks[due[i].id] == due[i]
          && due[i].status == Pending && due[i].nextAttempt <= now)
    && (forall i, j :: 0 <= i < j < |due| ==> due[i].id != due[j].id)
  }

  function EnqueueTask(q: Queue, id: string, now: int): Queue {
    q.(tasks := q.tasks[id := Task(id, Pending, 0, 0, now)], enqueued := q.enqueued + 1)
  }

  /** RetryFailedReplicationTasks, for one failed task. */
  function Reissue(q: Queue, id: string, now: int): Queue
    requires id in q.tasks
  {
    q.(tasks := q.tasks[id := q.tasks[id].(status := Pending, attempts := 0, nextAttempt := now)],
       reissued := q.reissued + 1, reissuedSinceClear := q.reissuedSinceClear + 1)
  }

  function Unfailed(tasks: map<string, Task>): map<string, Task> {
    map id | id in tasks && tasks[id].status != Failed :: tasks[id]
  }

  /** ClearReplicationErrors. */
  function ClearErrors(q: Queue): Queue {
    q.(tasks := Unfailed(q.tasks), records := map[], stats := q.stats.(replicationErrors := 0), reissuedSinceClear := 0)
  }

  //// The code

  class Gateway {
    var tasks: map<string, Task>
    var stats: Stats
    var records: map<string, string>
    ghost var history: Queue

    ghost function View(): Queue
      reads this
    {
      history.(tasks := tasks, stats := stats, records := records)
    }

    constructor ()
      ensures View() == EmptyQueue
    {
      tasks, stats, records := map[], Stats(0, 0, 0), map[];
      history := EmptyQueue;
    }

    /** processReplicationQueueOnce on the listed tasks. */
    method ProcessQueueOnce(now: int, due: seq<Task>, maxRetries: int, outcome: nat -> Outcome, keys: nat -> string)
      modifies this
      ensures View() == ProcessBatch(old(View()), due, outcome, now, maxRetries, keys, 0)
    {
      hide ProcessOne;
      var i := 0;
      while i < |due|
        invariant 0 <= i <= |due|
        invariant ProcessBatch(View(), due, outcome, now, maxRetries, keys, i)
                  == ProcessBatch(old(View()), due, outcome, now, maxRetries, keys, 0)
      {
        ProcessTask(due[i], outcome(i), now, maxRetries, keys(i));
        i := i + 1;
      }
    }

    /** AddReplicationError: the keys come out of the store in any order. */
    method AddReplicationError(key: string, id: string)
      modifies this`records
      ensures records == AddRecord(old(records), key, id)
    {
      hide Elements, SortBy, Enumerate;
      records := records[key := id];
      ghost var all := records;
      assert all.Keys == old(records).Keys + {key};
      var keys := CollectKeys(records.Keys);
      var sorted := Sort(keys);
      if |sorted| <= MAX_ERROR_RECORDS { return; }
      var i := 0;
      assert all - Elements(sorted[..0]) == all by { assert Elements([]) == {} by { NoElements(); } }
      while i < |sorted| - MAX_ERROR_RECORDS
        invariant 0 <= i <= |sorted| - MAX_ERROR_RECORDS
        invariant records == all - Elements(sorted[..i])
      {
        OneMoreDropped(all, sorted, i);
        records := records - {sorted[i]};
        i := i + 1;
      }
    }

    /** The body of its loop. */
    method ProcessTask(listed: Task, result: Outcome, now: int, maxRetries: int, key: string)
      modifies this
      ensures View() == ProcessOne(old(View()), listed, result, now, maxRetries, key)
    {
      hide Backoff, AddRecord;
      var task := listed;
      history := history.(executions := history.executions + 1);
      if result.Error? {
        task := task.(attempts := task.attempts + 1);
        if task.attempts >= maxRetries {
          task := task.(status := Failed);
          stats := stats.(replicationErrors := stats.replicationErrors + 1);
          AddReplicationError(key, task.id);
        } else {
          task := task.(nextAttempt := now + Backoff(task.attempts));
          task := task.(status := Pending);
        }
      } else {
        task := task.(status := Completed);
        task := task.(bytes := result.bytes);
        stats := stats.(bytesReplicated := stats.bytesReplicated + result.bytes);
        stats := stats.(tasksCompletedTotal := stats.tasksCompletedTotal + 1);
      }
      tasks := tasks[task.id := task];
    }
  }

  lemma NoElements()
    ensures Elements([]) == {}
  {
  }

  lemma OneMoreDropped(all: map<string, string>, sorted: seq<string>, i: nat)
    requires i < |sorted|
    ensures all - Elements(sorted[..i]) - {sorted[i]} == all - Elements(sorted[..i + 1])
  {
    assert sorted[..i + 1] == sorted[..i] + [sorted[i]];
    assert Elements(sorted[..i + 1]) == Elements(sorted[..i]) + {sorted[i]};
  }
}
