/** What a batch does to each task, to the counters and to the error records, stated by
    what executing each task returned. */
module GatewayOutcomes {
  import opened Clock
  import opened Strings
  import opened GatewayQueue
  import opened GatewayTheorems

  /** The j-th task failed for the last time. */
  predicate GivenUp(due: seq<Task>, outcome: nat -> Outcome, max: int, j: nat)
    requires j < |due|
  {
    outcome(j).Error? && due[j].attempts + 1 >= max
  }

  //// Sums over the tasks from the i-th on

  function BytesFrom(outcome: nat -> Outcome, i: nat, n: nat): int
    requires i <= n
    decreases n - i
  {
    if i == n then 0 else (if outcome(i).Replicated? then outcome(i).bytes else 0) + BytesFrom(outcome, i + 1, n)
  }

  function DoneFrom(outcome: nat -> Outcome, i: nat, n: nat): nat
    requires i <= n
    decreases n - i
  {
    if i == n then 0 else (if outcome(i).Replicated? then 1 else 0) + DoneFrom(outcome, i + 1, n)
  }

  function GivenUpFrom(due: seq<Task>, outcome: nat -> Outcome, max: int, i: nat): nat
    requires i <= |due|
    decreases |due| - i
  {
    if i == |due| then 0
    else (if GivenUp(due, outcome, max, i) then 1 else 0) + GivenUpFrom(due, outcome, max, i + 1)
  }

  //// Tasks

  ghost predicate Distinguished(due: seq<Task>) {
    forall a, b :: 0 <= a < b < |due| ==> due[a].id != due[b].id
  }

  /** A task after its execution: completed with its bytes, given up, or due again after
      two seconds, doubled with each further attempt and never more than a minute. */
  ghost predicate SettledAs(t: Task, t': Task, o: Outcome, now: int, max: int) {
    && t'.id == t.id
    && t'.attempts == t.attempts + (if o.Error? then 1 else 0)
    && t'.bytes == (if o.Replicated? then o.bytes else t.bytes)
    && (t'.status == Completed <==> o.Replicated?)
    && (t'.status == Failed <==> o.Error? && t.attempts + 1 >= max)
    && t'.nextAttempt == if t'.status != Pending then t.nextAttempt
                         else if t.attempts < 5 then now + Pow2(t.attempts + 1) * 1_000_000_000
                         else now + 60 * 1_000_000_000
  }

  lemma OneSettled(q: Queue, task: Task, o: Outcome, now: int, max: int, key: string)
    ensures var q' := ProcessOne(q, task, o, now, max, key);
            && task.id in q'.tasks && SettledAs(task, q'.tasks[task.id], o, now, max)
            && q'.tasks.Keys == q.tasks.Keys + {task.id}
            && forall id :: id in q.tasks && id != task.id ==> q'.tasks[id] == q.tasks[id]
  {
    hide AddRecord;
    BackoffShape(task.attempts + 1);
    hide Backoff, Pow2;
  }

  lemma {:induction false} TasksFrom(q: Queue, due: seq<Task>, outcome: nat -> Outcome, now: int, max: int,
                                     keys: nat -> string, i: nat)
    requires i <= |due| && Distinguished(due) && forall j :: i <= j < |due| ==> due[j].id in q.tasks
    ensures var q' := ProcessBatch(q, due, outcome, now, max, keys, i);
            && q'.tasks.Keys == q.tasks.Keys
            && (forall j :: i <= j < |due| ==> SettledAs(due[j], q'.tasks[due[j].id], outcome(j), now, max))
            && (forall id :: id in q.tasks && (forall j :: i <= j < |due| ==> due[j].id != id) ==>
                  q'.tasks[id] == q.tasks[id])
    decreases |due| - i
  {
    hide ProcessOne, SettledAs;
    if i < |due| {
      var q1 := ProcessOne(q, due[i], outcome(i), now, max, keys(i));
      OneSettled(q, due[i], outcome(i), now, max, keys(i));
      assert q1.tasks.Keys == q.tasks.Keys;
      TasksFrom(q1, due, outcome, now, max, keys, i + 1);
      assert forall j :: i < j < |due| ==> due[j].id != due[i].id;
    }
  }

  //// Counters

  lemma {:induction false} StatsFrom(q: Queue, due: seq<Task>, outcome: nat -> Outcome, now: int, max: int,
                                     keys: nat -> string, i: nat)
    requires i <= |due|
    ensures var q' := ProcessBatch(q, due, outcome, now, max, keys, i);
            && q'.stats.bytesReplicated == q.stats.bytesReplicated + BytesFrom(outcome, i, |due|)
            && q'.stats.tasksCompletedTotal == q.stats.tasksCompletedTotal + DoneFrom(outcome, i, |due|)
            && q'.stats.replicationErrors == q.stats.replicationErrors + GivenUpFrom(due, outcome, max, i)
            && q'.executions == q.executions + |due| - i
    decreases |due| - i
  {
    hide AddRecord, Backoff;
    if i < |due| {
      StatsFrom(ProcessOne(q, due[i], outcome(i), now, max, keys(i)), due, outcome, now, max, keys, i + 1);
    }
  }

  //// Error records

  lemma OneRecorded(records: map<string, string>, key: string, id: string)
    ensures var r := AddRecord(records, key, id);
            && (forall k :: k in r ==> (k in records || k == key) && r[k] == if k == key then id else records[k])
            && (|records| < 50 ==> r == records[key := id] && |r| <= |records| + 1)
  {
    KeptKeys(records.Keys + {key});
    hide Dropped;
    assert records[key := id].Keys == records.Keys + {key};
    if |records| < 50 {
      assert |records.Keys + {key}| <= |records.Keys| + 1;
      FewDropped(records.Keys + {key});
    }
  }

  lemma FewDropped(keys: set<string>)
    requires |keys| <= 50
    ensures Dropped(keys) == {}
  {
    SortedSetFacts(keys);
    assert |SortedSet(keys)| == |multiset(SortedSet(keys))| == |keys|;
  }

  ghost predicate NewRecord(due: seq<Task>, outcome: nat -> Outcome, max: int, keys: nat -> string, i: nat, k: string,
                            id: string) {
    exists j :: i <= j < |due| && GivenUp(due, outcome, max, j) && keys(j) == k && id == due[j].id
  }

  lemma RecordsOne(q: Queue, due: seq<Task>, outcome: nat -> Outcome, now: int, max: int, key: string, i: nat)
    requires i < |due|
    ensures ProcessOne(q, due[i], outcome(i), now, max, key).records
            == if GivenUp(due, outcome, max, i) then AddRecord(q.records, key, due[i].id) else q.records
  {
    hide AddRecord, Backoff;
  }

  lemma {:induction false} RecordsFrom(q: Queue, due: seq<Task>, outcome: nat -> Outcome, now: int, max: int,
                                       keys: nat -> string, i: nat, k: string)
    requires i <= |due|
    ensures var r := ProcessBatch(q, due, outcome, now, max, keys, i).records;
            k in r ==> (k in q.records && r[k] == q.records[k]) || NewRecord(due, outcome, max, keys, i, k, r[k])
    decreases |due| - i
  {
    hide AddRecord, ProcessOne, GivenUp;
    if i < |due| {
      RecordsOne(q, due, outcome, now, max, keys(i), i);
      OneRecorded(q.records, keys(i), due[i].id);
      RecordsFrom(ProcessOne(q, due[i], outcome(i), now, max, keys(i)), due, outcome, now, max, keys, i + 1, k);
    }
  }

  lemma {:induction false} RecordsKept(q: Queue, due: seq<Task>, outcome: nat -> Outcome, now: int, max: int,
                                       keys: nat -> string, i: nat)
    requires i <= |due| && |q.records| + GivenUpFrom(due, outcome, max, i) <= 50
    ensures var r := ProcessBatch(q, due, outcome, now, max, keys, i).records;
            q.records.Keys <= r.Keys && forall j :: i <= j < |due| && GivenUp(due, outcome, max, j) ==> keys(j) in r
    decreases |due| - i
  {
    hide AddRecord, ProcessOne, GivenUp;
    if i < |due| {
      RecordsOne(q, due, outcome, now, max, keys(i), i);
      OneRecorded(q.records, keys(i), due[i].id);
      RecordsKept(ProcessOne(q, due[i], outcome(i), now, max, keys(i)), due, outcome, now, max, keys, i + 1);
    }
  }

  /** One pass over the due tasks: every listed task is settled by what its execution
      returned and no other task changes; the counters go up by the bytes, the completions
      and the tasks given up; the only new records are those of tasks given up, and none is
      missing while 50 are enough. */
  lemma BatchOutcome(q: Queue, due: seq<Task>, outcome: nat -> Outcome, now: int, max: int, keys: nat -> string)
    requires IsDueList(q, due, now)
    ensures var q' := ProcessBatch(q, due, outcome, now, max, keys, 0);
            && q'.tasks.Keys == q.tasks.Keys
            && (forall i :: 0 <= i < |due| ==> SettledAs(due[i], q'.tasks[due[i].id], outcome(i), now, max))
            && (forall id :: id in q.tasks && (forall i :: 0 <= i < |due| ==> due[i].id != id) ==>
                  q'.tasks[id] == q.tasks[id])
            && q'.stats == Stats(q.stats.bytesReplicated + BytesFrom(outcome, 0, |due|),
                                 q.stats.replicationErrors + GivenUpFrom(due, outcome, max, 0),
                                 q.stats.tasksCompletedTotal + DoneFrom(outcome, 0, |due|))
            && q'.executions == q.executions + |due| <= q.executions + 20
            && (forall k :: k in q'.records ==>
                  || (k in q.records && q'.records[k] == q.records[k])
                  || NewRecord(due, outcome, max, keys, 0, k, q'.records[k]))
            && (|q.records| + GivenUpFrom(due, outcome, max, 0) <= 50 ==>
                  && q.records.Keys <= q'.records.Keys
                  && forall i :: 0 <= i < |due| && GivenUp(due, outcome, max, i) ==> keys(i) in q'.records)
  {
    hide ProcessBatch, SettledAs, NewRecord;
    TasksFrom(q, due, outcome, now, max, keys, 0);
    StatsFrom(q, due, outcome, now, max, keys, 0);
    forall k { RecordsFrom(q, due, outcome, now, max, keys, 0, k); }
    if |q.records| + GivenUpFrom(due, outcome, max, 0) <= 50 { RecordsKept(q, due, outcome, now, max, keys, 0); }
  }

  /** A task that was enqueued, or put back by a retry, is due at once, with no attempts. */
  lemma IssuedIsDue(q: Queue, id: string, now: int)
    ensures var q', t := EnqueueTask(q, id, now), Task(id, Pending, 0, 0, now);
            IsDueList(q', [t], now) && forall t0 :: t0 < now ==> !IsDueList(q', [t], t0)
    ensures id in q.tasks && q.tasks[id].id == id ==>
              var q', t := Reissue(q, id, now), q.tasks[id].(status := Pending, attempts := 0, nextAttempt := now);
              IsDueList(q', [t], now) && forall t0 :: t0 < now ==> !IsDueList(q', [t], t0)
  {
    assert forall q, t, t0 :: IsDueList(q, [t], t0) ==> [t][0].nextAttempt <= t0;
  }
}
