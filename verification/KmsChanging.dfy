/** Jobs whose versions come and go while they run: every step lists the bucket anew. */
module KmsChanging {
  import opened Strings
  import opened KmsJob
  import opened KmsJobTheorems

  /** What a step finds listed, and what happens to it. */
  datatype Round = Round(listing: seq<Item>, fate: nat -> Fate)

  ghost function Drive(rounds: seq<Round>): World {
    if rounds == [] then World(FreshJob, [])
    else
      var last := rounds[|rounds| - 1];
      Tick(Drive(rounds[..|rounds| - 1]), last.listing, last.fate)
  }

  /** Kept applications to versions that are no delete markers. */
  function KeptLive(log: seq<Event>): nat {
    if log == [] then 0
    else
      var e := log[|log| - 1];
      KeptLive(log[..|log| - 1]) + (if e.kept && !e.item.deleteMarker then 1 else 0)
  }

  lemma LiveSnoc(log: seq<Event>, e: Event)
    ensures KeptLive(log + [e]) == KeptLive(log) + (if e.kept && !e.item.deleteMarker then 1 else 0)
  {
    assert (log + [e])[..|log|] == log;
  }

  //// The counters, whatever is listed

  ghost predicate Counts(job: Job, log: seq<Event>) {
    job.done == KeptLive(log) && job.errors == KeptFailures(log)
  }

  lemma AdvanceCounts(job: Job, log: seq<Event>, it: Item, failed: bool)
    requires Counts(job, log)
    ensures Counts(Advance(job, it, failed), log + [Event(it, failed, true)])
  {
    hide KeptLive, KeptFailures, Kept;
    LiveSnoc(log, Event(it, failed, true));
    Snoc(log, Event(it, failed, true));
  }

  lemma LostCounts(job: Job, log: seq<Event>, it: Item, failed: bool)
    requires Counts(job, log)
    ensures Counts(job, log + [Event(it, failed, false)])
  {
    hide KeptLive, KeptFailures, Kept;
    LiveSnoc(log, Event(it, failed, false));
    Snoc(log, Event(it, failed, false));
  }

  lemma {:induction false} WorkCounts(w: World, job: Job, batch: seq<Item>, fate: nat -> Fate, i: nat)
    requires i <= |batch| && Counts(w.job, w.log) && Counts(job, w.log)
    requires IsActive(w.job.status) && job.status == Running
    ensures var w' := Work(w, job, batch, fate, i);
            && Counts(w'.job, w'.log) && IsActive(w'.job.status)
            && (w'.job.total == w.job.total || w'.job.total == job.total)
    decreases |batch| - i
  {
    hide Counts, CursorOf;
    if i < |batch| {
      match fate(i)
      case NotLeader(saved) =>
      case Crash(applied) => LostCounts(w.job, w.log, batch[i], false);
      case Apply(failed, saved, reported) =>
        if saved {
          AdvanceCounts(job, w.log, batch[i], failed);
          var next := Advance(job, batch[i], failed);
          if reported { WorkCounts(World(next, w.log + [Event(batch[i], failed, true)]), next, batch, fate, i + 1); }
        } else {
          LostCounts(w.job, w.log, batch[i], failed);
        }
    }
  }

  lemma {:induction false} BatchEmpty(items: seq<Item>, cursor: string, room: nat)
    requires room > 0
    ensures BatchAfter(items, cursor, room) == [] <==> forall it :: it in items ==> !AfterCursor(cursor, it)
  {
    hide AfterCursor;
    if items != [] {
      assert items == [items[0]] + items[1..];
      if !AfterCursor(cursor, items[0]) { BatchEmpty(items[1..], cursor, room); }
    }
  }

  lemma {:induction false} InsertLive(x: Item, s: seq<Item>)
    ensures Live(Insert(x, s, CursorOf)) == Live(s) + (if x.deleteMarker then 0 else 1)
    ensures forall y :: y in Insert(x, s, CursorOf) <==> y == x || y in s
  {
    hide CursorOf;
    var r := Insert(x, s, CursorOf);
    if s != [] {
      assert s == [s[0]] + s[1..];
      if Less(CursorOf(s[0]), CursorOf(x)) {
        InsertLive(x, s[1..]);
        assert r[1..] == Insert(x, s[1..], CursorOf);
      } else {
        assert r[1..] == s;
      }
    } else {
      assert r[1..] == [];
    }
  }

  lemma {:induction false} SortedLive(listing: seq<Item>)
    ensures Live(Sorted(listing)) == Live(listing)
    ensures forall y :: y in Sorted(listing) <==> y in listing
  {
    hide Insert;
    if listing != [] {
      assert listing == [listing[0]] + listing[1..];
      SortedLive(listing[1..]);
      InsertLive(listing[0], Sorted(listing[1..]));
    }
  }

  //// One step

  predicate NothingLeft(job: Job, listing: seq<Item>) {
    forall it :: it in listing ==> !AfterCursor(job.cursor, it)
  }

  /** The count the job is measured against: taken once, when nothing was done yet. */
  function Target(job: Job, listing: seq<Item>): int {
    if job.total == 0 && job.cursor == "" then Live(listing) else job.total
  }

  /** How far the versions and the work fall short of the count. */
  function Shortfall(job: Job, listing: seq<Item>): int {
    var total := Target(job, listing);
    if Live(listing) < total then total - Live(listing) else if job.done < total then 1 else 0
  }

  /** The step that finds nothing left ends the job, if its save takes effect: the errors
      go up by what is missing, and the job is completed exactly if there are none. */
  lemma EndStep(w: World, listing: seq<Item>, fate: nat -> Fate)
    requires NothingLeft(w.job, listing)
    ensures var w', errs := Step(w, listing, fate), w.job.errors + Shortfall(w.job, listing);
            && w'.log == w.log
            && (fate(0).Apply? && fate(0).saved ==>
                  w'.job == Job(if errs > 0 then CompletedWithErrors else Completed, w.job.cursor,
                                Target(w.job, listing), w.job.done, errs))
            && (!(fate(0).Apply? && fate(0).saved) ==> w'.job == w.job)
  {
    hide Live, SortBy, AfterCursor, BatchAfter;
    SortedLive(listing);
    BatchEmpty(Sorted(listing), w.job.cursor, BATCH);
  }

  /** A step that finds something left never ends the job. */
  lemma MiddleStep(w: World, listing: seq<Item>, fate: nat -> Fate)
    requires !NothingLeft(w.job, listing) && IsActive(w.job.status) && Counts(w.job, w.log)
    ensures var w' := Step(w, listing, fate);
            && IsActive(w'.job.status) && Counts(w'.job, w'.log)
            && (w'.job.total == w.job.total || w'.job.total == Target(w.job, listing))
  {
    hide Live, SortBy, AfterCursor, BatchAfter, Counts, Work;
    SortedLive(listing);
    BatchEmpty(Sorted(listing), w.job.cursor, BATCH);
    var job := Opened(w.job, Sorted(listing));
    assert Counts(job, w.log) by { SameCounts(w.job, job, w.log); }
    WorkCounts(w, job, BatchAfter(Sorted(listing), job.cursor, BATCH), fate, 0);
  }

  lemma SameCounts(a: Job, b: Job, log: seq<Event>)
    requires Counts(a, log) && a.done == b.done && a.errors == b.errors
    ensures Counts(b, log)
  {
  }

  /** Leadership lost before the first item: nothing was applied, and the row written back
      says that the job is running and what it is measured against. */
  lemma HandedBack(w: World, listing: seq<Item>, fate: nat -> Fate)
    requires !NothingLeft(w.job, listing) && fate(0).NotLeader?
    ensures var w' := Step(w, listing, fate);
            w' == if fate(0).saved then w.(job := w.job.(status := Running, total := Target(w.job, listing))) else w
  {
    hide Live, SortBy, AfterCursor, BatchAfter;
    SortedLive(listing);
    BatchEmpty(Sorted(listing), w.job.cursor, BATCH);
  }

  //// Every run

  lemma {:induction false} DriveCounts(rounds: seq<Round>)
    ensures var w := Drive(rounds);
            && w.job.done == KeptLive(w.log)
            && (IsActive(w.job.status) ==> w.job.errors == KeptFailures(w.log))
            && (w.job.status == Completed <==> !IsActive(w.job.status) && w.job.errors == 0)
            && w.job.errors >= KeptFailures(w.log)
  {
    if rounds != [] {
      var n := |rounds| - 1;
      DriveCounts(rounds[..n]);
      var w, last := Drive(rounds[..n]), rounds[n];
      hide Step, Live, KeptLive, KeptFailures, NothingLeft;
      if IsActive(w.job.status) {
        if NothingLeft(w.job, last.listing) {
          EndStep(w, last.listing, last.fate);
        } else {
          MiddleStep(w, last.listing, last.fate);
        }
      }
    }
  }

  /** When the job ends, and with what, in every run: it ends at the step that finds no
      version after the cursor and saves; completed exactly if no kept application failed,
      no fewer versions are listed than the count, and no fewer were done. */
  lemma EndsExactly(rounds: seq<Round>, last: Round)
    requires IsActive(Drive(rounds).job.status)
    ensures var w, w' := Drive(rounds), Drive(rounds + [last]);
            var total := Target(w.job, last.listing);
            && (!IsActive(w'.job.status) <==>
                  NothingLeft(w.job, last.listing) && last.fate(0).Apply? && last.fate(0).saved)
            && (!IsActive(w'.job.status) ==>
                  && w'.job.total == total
                  && (w'.job.status == Completed <==>
                        KeptFailures(w.log) == 0 && Live(last.listing) >= total && KeptLive(w.log) >= total))
  {
    var w := Drive(rounds);
    assert (rounds + [last])[..|rounds|] == rounds;
    DriveCounts(rounds);
    hide Step, Live, KeptLive, KeptFailures, NothingLeft;
    if NothingLeft(w.job, last.listing) {
      EndStep(w, last.listing, last.fate);
    } else {
      MiddleStep(w, last.listing, last.fate);
    }
  }

  /** The count is that of one of the listings, and stays once it is taken. */
  lemma {:induction false} CountOfSome(rounds: seq<Round>)
    ensures var w := Drive(rounds);
            w.job.total == 0 || exists j :: 0 <= j < |rounds| && w.job.total == Live(rounds[j].listing)
  {
    if rounds != [] {
      var n := |rounds| - 1;
      CountOfSome(rounds[..n]);
      var w, w', last := Drive(rounds[..n]), Drive(rounds), rounds[n];
      DriveCounts(rounds[..n]);
      hide Step, Live, KeptLive, KeptFailures, NothingLeft, Drive;
      if IsActive(w.job.status) {
        if NothingLeft(w.job, last.listing) {
          EndStep(w, last.listing, last.fate);
        } else {
          MiddleStep(w, last.listing, last.fate);
        }
      }
      if w.job.total != 0 && w'.job.total == w.job.total {
        var j :| 0 <= j < n && w.job.total == Live(rounds[..n][j].listing);
        assert rounds[j] == rounds[..n][j];
      }
    }
  }

  //// A version that is gone

  ghost function LiveSet(listing: seq<Item>): set<Item> {
    set it | it in listing && !it.deleteMarker
  }

  lemma {:induction false} LiveBounds(listing: seq<Item>)
    ensures |LiveSet(listing)| <= Live(listing)
    ensures (forall i, j :: 0 <= i < j < |listing| ==> listing[i] != listing[j]) ==>
              |LiveSet(listing)| == Live(listing)
  {
    if listing == [] {
      assert LiveSet(listing) == {};
    } else {
      var h, t := listing[0], listing[1..];
      LiveBounds(t);
      assert listing == [h] + t;
      assert LiveSet(listing) == if h.deleteMarker then LiveSet(t) else LiveSet(t) + {h};
    }
  }

  lemma Smaller(a: set<Item>, b: set<Item>, x: Item)
    requires b <= a && x in a && x !in b
    ensures |b| < |a|
  {
    assert b <= a - {x};
    Within(b, a - {x});
  }

  lemma {:induction false} Within(a: set<Item>, b: set<Item>)
    requires a <= b
    ensures |a| <= |b|
  {
    if a != {} {
      var x :| x in a;
      Within(a - {x}, b - {x});
    }
  }

  /** The count takes no notice of a version that is gone only if another one was added: if
      no fewer are listed than before, and one that was listed is not, then one is listed
      that was not. */
  lemma GoneNeedsAdded(before: seq<Item>, now: seq<Item>, gone: Item)
    requires forall i, j :: 0 <= i < j < |now| ==> now[i] != now[j]
    requires Live(now) >= Live(before) && gone in before && !gone.deleteMarker && gone !in now
    ensures exists it :: it in now && !it.deleteMarker && it !in before
  {
    hide Live;
    LiveBounds(before);
    LiveBounds(now);
    if LiveSet(now) <= LiveSet(before) {
      Smaller(LiveSet(before), LiveSet(now), gone);
    }
    var it :| it in LiveSet(now) && it !in LiveSet(before);
  }

  /** A completed job has every version its count was taken of still listed, unless one was
      added in place of what is gone. */
  lemma CompletedLosesNothing(rounds: seq<Round>, last: Round, first: seq<Item>, gone: Item)
    requires IsActive(Drive(rounds).job.status) && Drive(rounds + [last]).job.status == Completed
    requires Drive(rounds + [last]).job.total == Live(first)
    requires forall i, j :: 0 <= i < j < |last.listing| ==> last.listing[i] != last.listing[j]
    requires gone in first && !gone.deleteMarker && gone !in last.listing
    ensures exists it :: it in last.listing && !it.deleteMarker && it !in first
  {
    hide Drive, Live;
    EndsExactly(rounds, last);
    GoneNeedsAdded(first, last.listing, gone);
  }

  //// A run in which one is

  const A := Item("a", "1", false)
  const B := Item("b", "1", false)
  const C := Item("c", "1", false)

  function OneItem(i: nat): Fate {
    if i == 0 then Apply(false, true, true) else NotLeader(true)
  }

  function Undisturbed(i: nat): Fate {
    Apply(false, true, true)
  }

  lemma PairSorted(x: Item, y: Item)
    requires |x.key| == |y.key| == 1 && x.key[0] < y.key[0]
    ensures Sorted([x, y]) == [x, y]
    ensures BatchAfter([x, y], "", BATCH) == [x, y]
    ensures BatchAfter([x, y], CursorOf(x), BATCH) == [y]
    ensures BatchAfter([x, y], CursorOf(y), BATCH) == []
  {
    var cx, cy := CursorOf(x), CursorOf(y);
    assert cx[0] == x.key[0] && cy[0] == y.key[0];
    assert Less(cx, cy) && !Less(cy, cx);
    LessIrreflexive(cx);
    LessIrreflexive(cy);
    hide Less, CursorOf;
    assert [x, y][1..] == [y] && [y][1..] == [];
    assert SortBy([y], CursorOf) == [y];
    assert BatchAfter([y], "", BATCH - 1) == [y];
    assert BatchAfter([y], cx, BATCH) == [y];
    assert BatchAfter([y], cy, BATCH) == [];
  }

  lemma PairLive(x: Item, y: Item)
    requires !x.deleteMarker && !y.deleteMarker
    ensures Live([x, y]) == 2
  {
    assert [x, y][1..] == [y] && [y][1..] == [];
    assert Live([y]) == 1;
  }

  /** Completed, although B, which it started with, is gone and was never applied: C was
      added in its place. */
  lemma GoneUnnoticed()
    ensures var w := Drive([Round([A, B], OneItem), Round([A, C], Undisturbed), Round([A, C], Undisturbed)]);
            && w.job.status == Completed && w.job.total == w.job.done == 2 && w.job.errors == 0
            && forall e :: e in w.log ==> e.item != B
  {
    var r1, r2 := Round([A, B], OneItem), Round([A, C], Undisturbed);
    PairSorted(A, B);
    PairSorted(A, C);
    PairLive(A, B);
    PairLive(A, C);
    hide SortBy, BatchAfter, Live, CursorOf;
    var w0 := World(FreshJob, []);
    CursorNonEmpty(A);
    var w1 := World(Job(Running, CursorOf(A), 2, 1, 0), [Event(A, false, true)]);
    WorkOn(w0, Job(Running, "", 2, 0, 0), [A, B], OneItem, 0);
    assert Tick(w0, r1.listing, r1.fate) == w1;
    var w2 := World(Job(Running, CursorOf(C), 2, 2, 0), [Event(A, false, true), Event(C, false, true)]);
    WorkOn(w1, w1.job, [C], Undisturbed, 0);
    assert Tick(w1, r2.listing, r2.fate) == w2;
    var w3 := w2.(job := w2.job.(status := Completed));
    assert Tick(w2, r2.listing, r2.fate) == w3;
    hide Tick;
    assert [r1, r2, r2][..2] == [r1, r2] && [r1, r2][..1] == [r1] && [r1][..0] == [];
    assert Drive([r1]) == w1;
    assert Drive([r1, r2]) == w2;
    assert Drive([r1, r2, r2]) == w3;
    assert A.key[0] == 'a' && B.key[0] == 'b' && C.key[0] == 'c';
    assert forall e :: e in w3.log ==> e.item == A || e.item == C;
  }
}
