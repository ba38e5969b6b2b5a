/** The resumable encryption job: stepOneKMSJob and stepKMSJobs of
    internal/api/kms_job_runner.go, with the cursor and terminal status of
    internal/kms/jobs.go. */
module KmsJob {
  import opened Strings

  const BATCH := 32
  const SEPARATOR := '\U{1e}'

  /** One row of the version listing. */
  datatype Item = Item(key: string, version: string, deleteMarker: bool)

  datatype Status = Pending | Running | Completed | CompletedWithErrors | Failed

  /** The fields of KMSJob that steps read and write. */
  datatype Job = Job(status: Status, cursor: string, total: int, done: int, errors: int)

  /** startKMSJob. */
  const FreshJob := Job(Pending, "", 0, 0, 0)

  //// internal/kms/jobs.go

  function Cursor(key: string, version: string): string {
    key + [SEPARATOR] + version
  }

  function CursorOf(it: Item): string {
    Cursor(it.key, it.version)
  }

  predicate AfterCursor(cursor: string, it: Item) {
    cursor == "" || Less(cursor, CursorOf(it))
  }

  function FinishStatus(errors: int): Status {
    if errors > 0 then CompletedWithErrors else Completed
  }

  function TerminalStatus(done: int, total: int, errors: int, present: int): (Status, int) {
    var errs := if total > 0 && present < total then errors + (total - present)
                else if done < total then errors + 1
                else errors;
    (FinishStatus(errs), errs)
  }

  //// What can happen around one item

  /** NotLeader: leadership is lost before the item; the job row is written back,
      and `saved` says whether that write took effect. Crash: the process stops,
      before or after the item was applied. Apply: the item is applied, with or
      without an error, and its save takes effect or not; a save that reports an
      error ends the step, whether or not it took effect. */
  datatype Fate =
    | NotLeader(saved: bool)
    | Crash(applied: bool)
    | Apply(failed: bool, saved: bool, reported: bool)

  /** The uninterrupted case: the save takes effect and reports success. */
  predicate Smooth(f: Fate) {
    f.Apply? && f.saved && f.reported
  }

  /** One application of the job to an item, whether it failed, and whether the
      save after it took effect. */
  datatype Event = Event(item: Item, failed: bool, kept: bool)

  /** What survives between steps: the stored row, and the history. */
  datatype World = World(job: Job, log: seq<Event>)

  //// One step

  function Live(items: seq<Item>): (n: nat) {
    if items == [] then 0 else (if items[0].deleteMarker then 0 else 1) + Live(items[1..])
  }

  /** The first BATCH items after the cursor. */
  function BatchAfter(items: seq<Item>, cursor: string, room: nat): seq<Item> {
    if items == [] || room == 0 then []
    else if AfterCursor(cursor, items[0]) then [items[0]] + BatchAfter(items[1..], cursor, room - 1)
    else BatchAfter(items[1..], cursor, room)
  }

  function Advance(job: Job, it: Item, failed: bool): Job {
    job.(errors := job.errors + (if failed then 1 else 0),
         done := job.done + (if it.deleteMarker then 0 else 1),
         cursor := CursorOf(it))
  }

  /** The loop over the batch. `w.job` is the stored row, `job` the one in memory;
      fate(i) is what happens at the i-th item of the step. */
  function Work(w: World, job: Job, batch: seq<Item>, fate: nat -> Fate, i: nat): World
    requires i <= |batch|
    decreases |batch| - i
  {
    if i == |batch| then w
    else
      match fate(i)
      case NotLeader(saved) => if saved then w.(job := job) else w
      case Crash(applied) => if applied then w.(log := w.log + [Event(batch[i], false, false)]) else w
      case Apply(failed, saved, reported) =>
        var next := Advance(job, batch[i], failed);
        var w' := World(if saved then next else w.job, w.log + [Event(batch[i], failed, saved)]);
        if saved && reported then Work(w', next, batch, fate, i + 1) else w'
  }

  /** The row as a step holds it in memory before the first item. */
  function Opened(job: Job, items: seq<Item>): Job {
    var total := if job.total == 0 && job.cursor == "" then Live(items) else job.total;
    job.(status := Running, total := total)
  }

  /** stepOneKMSJob on the stored row. */
  function Step(w: World, listing: seq<Item>, fate: nat -> Fate): World {
    var items := SortBy(listing, CursorOf);
    var job := Opened(w.job, items);
    var batch := BatchAfter(items, job.cursor, BATCH);
    if batch == [] then
      var (status, errs) := TerminalStatus(job.done, job.total, job.errors, Live(items));
      if fate(0).Apply? && fate(0).saved then w.(job := job.(status := status, errors := errs)) else w
    else Work(w, job, batch, fate, 0)
  }

  predicate IsActive(s: Status) {
    s == Pending || s == Running
  }

  /** One tick of stepKMSJobs for this job: a finished job is left alone. */
  function Tick(w: World, listing: seq<Item>, fate: nat -> Fate): World {
    if IsActive(w.job.status) then Step(w, listing, fate) else w
  }

  function Run(w: World, listing: seq<Item>, fates: seq<nat -> Fate>): World {
    if fates == [] then w
    else Tick(Run(w, listing, fates[..|fates| - 1]), listing, fates[|fates| - 1])
  }

  //// The code

  /** The store as one job sees it. `log` records each call of applyKMSWork. */
  class Runner {
    var saved: Job
    var log: seq<Event>

    constructor ()
      ensures View() == World(FreshJob, [])
    {
      saved, log := FreshJob, [];
    }

    ghost function View(): World
      reads this
    {
      World(saved, log)
    }

    method StepOneKMSJob(listing: seq<Item>, fate: nat -> Fate)
      modifies this
      ensures View() == Step(old(View()), listing, fate)
    {
      hide SortBy, Live, BatchAfter, Work, TerminalStatus;
      var items := SortBy(listing, CursorOf);
      var job := saved;
      if job.total == 0 && job.cursor == "" {
        var n := CountLive(items);
        job := job.(total := job.total + n);
      }
      job := job.(status := Running);
      var batch := TakeBatch(items, job.cursor);
      if |batch| == 0 {
        var present := CountLive(items);
        var (status, errs) := TerminalStatus(job.done, job.total, job.errors, present);
        job := job.(errors := errs, status := status);
        if fate(0).Apply? && fate(0).saved {
          saved := job;
        }
        return;
      }
      WorkThrough(job, batch, fate);
    }

    /** The loop over the batch, from the row as the step holds it. */
    method WorkThrough(start: Job, batch: seq<Item>, fate: nat -> Fate)
      modifies this
      ensures View() == Work(old(View()), start, batch, fate, 0)
    {
      hide CursorOf;
      var job := start;
      var i := 0;
      while i < |batch|
        invariant 0 <= i <= |batch|
        invariant Work(View(), job, batch, fate, i) == Work(old(View()), start, batch, fate, 0)
      {
        var f := fate(i);
        if f.NotLeader? {
          if f.saved { saved := job; }
          return;
        }
        if f.Crash? {
          if f.applied { log := log + [Event(batch[i], false, false)]; }
          return;
        }
        var it := batch[i];
        log := log + [Event(it, f.failed, f.saved)];
        if f.failed {
          job := job.(errors := job.errors + 1);
        }
        if !it.deleteMarker {
          job := job.(done := job.done + 1);
        }
        job := job.(cursor := CursorOf(it));
        if f.saved { saved := job; }
        if !f.saved || !f.reported { return; }
        i := i + 1;
      }
    }
  }

  method CountLive(items: seq<Item>) returns (n: nat)
    ensures n == Live(items)
  {
    n := 0;
    var i := 0;
    while i < |items|
      invariant 0 <= i <= |items|
      invariant n + Live(items[i..]) == Live(items)
    {
      assert items[i..][1..] == items[i + 1..];
      if !items[i].deleteMarker {
        n := n + 1;
      }
      i := i + 1;
    }
  }

  method TakeBatch(items: seq<Item>, cursor: string) returns (batch: seq<Item>)
    ensures batch == BatchAfter(items, cursor, BATCH)
  {
    hide AfterCursor;
    batch := [];
    var i := 0;
    while i < |items|
      invariant 0 <= i <= |items| && |batch| < BATCH
      invariant batch + BatchAfter(items[i..], cursor, BATCH - |batch|) == BatchAfter(items, cursor, BATCH)
    {
      assert items[i..][1..] == items[i + 1..];
      if AfterCursor(cursor, items[i]) {
        ghost var more := BatchAfter(items[i + 1..], cursor, BATCH - |batch| - 1);
        assert batch + ([items[i]] + more) == batch + [items[i]] + more;
        batch := batch + [items[i]];
        if |batch| >= BATCH {
          assert batch + [] == batch;
          return;
        }
      }
      i := i + 1;
    }
    assert batch + [] == batch;
  }
}
