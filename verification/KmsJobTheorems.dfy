/** What the encryption job keeps over every run: crashes, lost saves and lost
    leadership included. */
module KmsJobTheorems {
  import opened Strings
  import opened KmsJob

  //// The cursor

  /** The second pair moves the separator of the first: its key runs on into the first
      one's version id, up to a separator in there. */
  ghost predicate MovesSeparator(k1: string, v1: string, k2: string, v2: string) {
    exists x :: k2 == k1 + [SEPARATOR] + x && v1 == x + [SEPARATOR] + v2
  }

  /** When two versions share a cursor, exactly. */
  lemma CursorsEqual(k1: string, v1: string, k2: string, v2: string)
    requires |k1| <= |k2|
    ensures Cursor(k1, v1) == Cursor(k2, v2) <==> (k1 == k2 && v1 == v2) || MovesSeparator(k1, v1, k2, v2)
  {
    var c, d := Cursor(k1, v1), Cursor(k2, v2);
    if c == d {
      assert k1 == c[..|k1|] && k2 == d[..|k2|] && v1 == c[|k1| + 1..] && v2 == d[|k2| + 1..];
      if |k1| < |k2| {
        var x := k2[|k1| + 1..];
        assert k2 == k1 + [SEPARATOR] + x;
        assert v1 == x + [SEPARATOR] + v2;
      }
    }
    if x :| k2 == k1 + [SEPARATOR] + x && v1 == x + [SEPARATOR] + v2 {
      assert c == k1 + [SEPARATOR] + x + [SEPARATOR] + v2 == d;
    }
  }

  /** A text that the program's own keys and version ids are: keys are refused with
      control characters, and version ids are hexadecimal or time stamps. */
  predicate Plain(s: string) {
    SEPARATOR !in s
  }

  /** Cursors tell versions apart as soon as the keys, or the version ids, are plain. */
  lemma CursorInjective(k1: string, v1: string, k2: string, v2: string)
    requires (Plain(k1) && Plain(k2)) || (Plain(v1) && Plain(v2))
    requires Cursor(k1, v1) == Cursor(k2, v2)
    ensures k1 == k2 && v1 == v2
  {
    hide Cursor;
    if |k1| <= |k2| {
      CursorsEqual(k1, v1, k2, v2);
      if MovesSeparator(k1, v1, k2, v2) { MovedInBoth(k1, v1, k2, v2); }
    } else {
      CursorsEqual(k2, v2, k1, v1);
      if MovesSeparator(k2, v2, k1, v1) { MovedInBoth(k2, v2, k1, v1); }
    }
  }

  lemma MovedInBoth(k1: string, v1: string, k2: string, v2: string)
    requires MovesSeparator(k1, v1, k2, v2)
    ensures !Plain(k2) && !Plain(v1)
  {
    var x :| k2 == k1 + [SEPARATOR] + x && v1 == x + [SEPARATOR] + v2;
    assert k2[|k1|] == SEPARATOR && v1[|x|] == SEPARATOR;
  }

  /** A listing whose cursors tell its versions apart. */
  ghost predicate Versions(listing: seq<Item>) {
    forall i, j :: 0 <= i < j < |listing| ==> CursorOf(listing[i]) != CursorOf(listing[j])
  }

  /** What the store returns is such a listing: each key and version once, and plain keys
      or plain version ids. */
  lemma StoreListing(listing: seq<Item>)
    requires forall i, j :: 0 <= i < j < |listing| ==>
               (listing[i].key, listing[i].version) != (listing[j].key, listing[j].version)
    requires || (forall i :: 0 <= i < |listing| ==> Plain(listing[i].key))
             || (forall i :: 0 <= i < |listing| ==> Plain(listing[i].version))
    ensures Versions(listing)
  {
    hide Cursor, Plain;
    forall i, j | 0 <= i < j < |listing| ensures CursorOf(listing[i]) != CursorOf(listing[j]) {
      var a, b := listing[i], listing[j];
      if CursorOf(a) == CursorOf(b) { CursorInjective(a.key, a.version, b.key, b.version); }
    }
  }

  /** In cursor order, no two alike. */
  ghost predicate Ascending(s: seq<Item>) {
    forall i, j :: 0 <= i < j < |s| ==> Less(CursorOf(s[i]), CursorOf(s[j]))
  }

  ghost function Sorted(listing: seq<Item>): seq<Item> {
    SortBy(listing, CursorOf)
  }

  lemma {:induction false} InsertAscending(x: Item, s: seq<Item>)
    requires Ascending(s) && forall i :: 0 <= i < |s| ==> CursorOf(s[i]) != CursorOf(x)
    ensures Ascending(Insert(x, s, CursorOf))
    ensures forall y :: y in Insert(x, s, CursorOf) <==> y == x || y in s
  {
    hide CursorOf;
    if s != [] {
      var h, t := s[0], s[1..];
      assert s == [h] + t;
      if Less(CursorOf(h), CursorOf(x)) {
        InsertAscending(x, t);
        var r := Insert(x, t, CursorOf);
        forall j | 0 <= j < |r| ensures Less(CursorOf(h), CursorOf(r[j])) {
          assert r[j] in r;
          if r[j] != x {
            var m :| 0 <= m < |t| && t[m] == r[j];
            assert s[m + 1] == r[j];
          }
        }
      } else {
        LessTotal(CursorOf(h), CursorOf(x));
        forall j | 0 <= j < |s| ensures Less(CursorOf(x), CursorOf(s[j])) {
          if j > 0 { LessTransitive(CursorOf(x), CursorOf(h), CursorOf(s[j])); }
        }
      }
    }
  }

  lemma {:induction false} SortedAscending(listing: seq<Item>)
    requires Versions(listing)
    ensures Ascending(Sorted(listing))
    ensures forall x :: x in Sorted(listing) <==> x in listing
  {
    hide Insert, Ascending, CursorOf;
    if listing != [] {
      var h, t := listing[0], listing[1..];
      SortedAscending(t);
      var s := Sorted(t);
      assert listing == [h] + t;
      forall i | 0 <= i < |s| ensures CursorOf(s[i]) != CursorOf(h) {
        assert s[i] in t;
        var j :| 0 <= j < |t| && t[j] == s[i];
        assert listing[j + 1] == s[i];
      }
      InsertAscending(h, s);
    } else {
      NoneAscending();
    }
  }

  lemma NoneAscending()
    ensures Ascending([])
  {
  }

  //// The batch is the next stretch of the listing

  /** The stored cursor stands after the first n items. */
  ghost predicate At(s: seq<Item>, cursor: string, n: nat) {
    n <= |s| && cursor == if n == 0 then "" else CursorOf(s[n - 1])
  }

  lemma CursorNonEmpty(it: Item)
    ensures CursorOf(it) != ""
  {
  }

  lemma AfterIsBeyond(s: seq<Item>, cursor: string, n: nat, i: nat)
    requires Ascending(s) && At(s, cursor, n) && i < |s|
    ensures AfterCursor(cursor, s[i]) <==> i >= n
  {
    if n > 0 {
      CursorNonEmpty(s[n - 1]);
      if i < n - 1 {
        LessAsymmetric(CursorOf(s[i]), CursorOf(s[n - 1]));
      }
      LessIrreflexive(CursorOf(s[n - 1]));
    }
  }

  function Least(a: nat, b: nat): nat { if a < b then a else b }

  lemma {:induction false} BatchFrom(s: seq<Item>, cursor: string, n: nat, i: nat, room: nat)
    requires Ascending(s) && At(s, cursor, n) && i <= |s|
    ensures var from := if i < n then n else i;
            BatchAfter(s[i..], cursor, room) == s[from..Least(from + room, |s|)]
    decreases |s| - i
  {
    hide Ascending, At, AfterCursor;
    assert n <= |s| by { AtBound(s, cursor, n); }
    if i < |s| && room > 0 {
      AfterIsBeyond(s, cursor, n, i);
      assert s[i..][1..] == s[i + 1..];
      if i >= n {
        BatchFrom(s, cursor, n, i + 1, room - 1);
      } else {
        BatchFrom(s, cursor, n, i + 1, room);
      }
    }
  }

  lemma AtBound(s: seq<Item>, cursor: string, n: nat)
    requires At(s, cursor, n)
    ensures n <= |s|
  {
  }

  lemma BatchIsNext(s: seq<Item>, cursor: string, n: nat)
    requires Ascending(s) && At(s, cursor, n)
    ensures BatchAfter(s, cursor, BATCH) == s[n..Least(n + BATCH, |s|)]
  {
    hide BatchAfter;
    BatchFrom(s, cursor, n, 0, BATCH);
    assert s[0..] == s;
  }

  //// The invariant

  /** How many applications have been kept. */
  function Kept(log: seq<Event>): nat {
    if log == [] then 0 else Kept(log[..|log| - 1]) + (if log[|log| - 1].kept then 1 else 0)
  }

  /** How many kept applications failed. */
  function KeptFailures(log: seq<Event>): nat {
    if log == [] then 0
    else
      var e := log[|log| - 1];
      KeptFailures(log[..|log| - 1]) + (if e.kept && e.failed then 1 else 0)
  }

  lemma Snoc(log: seq<Event>, e: Event)
    ensures Kept(log + [e]) == Kept(log) + (if e.kept then 1 else 0)
    ensures KeptFailures(log + [e]) == KeptFailures(log) + (if e.kept && e.failed then 1 else 0)
  {
    assert (log + [e])[..|log|] == log;
  }

  /** Every application, kept or not, was of the first item not kept before it. */
  ghost predicate InOrder(s: seq<Item>, log: seq<Event>) {
    forall p :: 0 <= p < |log| ==> Kept(log[..p]) < |s| && log[p].item == s[Kept(log[..p])]
  }

  lemma InOrderSnoc(s: seq<Item>, log: seq<Event>, e: Event)
    requires InOrder(s, log) && Kept(log) < |s| && e.item == s[Kept(log)]
    ensures InOrder(s, log + [e])
  {
    var l := log + [e];
    forall p | 0 <= p < |l| ensures Kept(l[..p]) < |s| && l[p].item == s[Kept(l[..p])] {
      assert l[..p] == log[..p];
      if p == |log| { assert log[..p] == log; }
    }
  }

  /** A row whose cursor stands after the first n items, with matching counters. */
  ghost predicate RowAt(job: Job, s: seq<Item>, n: nat) {
    && At(s, job.cursor, n)
    && job.done == Live(s[..n])
    && (job.total == Live(s) || (n == 0 && job.total == 0))
  }

  /** The stored row agrees with the history: it stands after exactly the items
      whose applications were kept; a finished row stands at the end. */
  ghost predicate Inv(w: World, s: seq<Item>) {
    var n := Kept(w.log);
    && InOrder(s, w.log)
    && RowAt(w.job, s, n)
    && w.job.errors == KeptFailures(w.log)
    && (!IsActive(w.job.status) ==>
          n == |s| && w.job.total == Live(s) && w.job.status == FinishStatus(w.job.errors))
  }

  lemma {:induction false} LiveConcat(a: seq<Item>, b: seq<Item>)
    ensures Live(a + b) == Live(a) + Live(b)
  {
    if a == [] {
      assert a + b == b;
    } else {
      assert (a + b)[1..] == a[1..] + b;
      LiveConcat(a[1..], b);
    }
  }

  lemma LiveNext(s: seq<Item>, n: nat)
    requires n < |s|
    ensures Live(s[..n + 1]) == Live(s[..n]) + (if s[n].deleteMarker then 0 else 1)
  {
    assert s[..n + 1] == s[..n] + [s[n]];
    LiveConcat(s[..n], [s[n]]);
    assert Live([s[n]]) == (if s[n].deleteMarker then 0 else 1) by { assert [s[n]][1..] == []; }
  }

  /** The row in memory while a batch is worked. */
  ghost predicate Working(job: Job, w: World, s: seq<Item>) {
    && RowAt(job, s, Kept(w.log))
    && job.status == Running && job.total == Live(s)
    && job.errors == KeptFailures(w.log)
  }

  lemma RowAdvances(job: Job, s: seq<Item>, n: nat, failed: bool)
    requires RowAt(job, s, n) && job.total == Live(s) && n < |s|
    ensures RowAt(Advance(job, s[n], failed), s, n + 1)
  {
    hide Live, CursorOf;
    LiveNext(s, n);
  }

  lemma AdvanceKeeps(w: World, job: Job, s: seq<Item>, failed: bool)
    requires Inv(w, s) && Working(job, w, s) && Kept(w.log) < |s|
    ensures var it := s[Kept(w.log)];
            var next := Advance(job, it, failed);
            var w' := World(next, w.log + [Event(it, failed, true)]);
            Inv(w', s) && Working(next, w', s) && Kept(w'.log) == Kept(w.log) + 1
  {
    hide Live, CursorOf, InOrder, Kept, KeptFailures, RowAt;
    var n := Kept(w.log);
    var e := Event(s[n], failed, true);
    InOrderSnoc(s, w.log, e);
    Snoc(w.log, e);
    RowAdvances(job, s, n, failed);
  }

  lemma LostKeeps(w: World, s: seq<Item>, failed: bool)
    requires Inv(w, s) && Kept(w.log) < |s|
    ensures var w' := w.(log := w.log + [Event(s[Kept(w.log)], failed, false)]);
            Inv(w', s) && Kept(w'.log) == Kept(w.log)
  {
    hide Live, CursorOf;
    var e := Event(s[Kept(w.log)], failed, false);
    InOrderSnoc(s, w.log, e);
    Snoc(w.log, e);
  }

  /** Writing the row back before the next item changes nothing that counts. */
  lemma HandBack(w: World, job: Job, s: seq<Item>)
    requires Inv(w, s) && Working(job, w, s)
    ensures Inv(w.(job := job), s)
  {
    hide Live, CursorOf, Kept, KeptFailures, InOrder;
  }

  lemma {:induction false} WorkKeeps(w: World, job: Job, batch: seq<Item>, fate: nat -> Fate, i: nat, s: seq<Item>)
    requires Inv(w, s) && IsActive(w.job.status) && Working(job, w, s)
    requires i <= |batch| && batch[i..] <= s[Kept(w.log)..]
    ensures var w' := Work(w, job, batch, fate, i);
            && Inv(w', s) && IsActive(w'.job.status)
            && Kept(w'.log) >= Kept(w.log)
    decreases |batch| - i
  {
    var n := Kept(w.log);
    assert n <= |s| && job.status == Running;
    hide Inv, Working, CursorOf, Kept;
    if i < |batch| {
      assert batch[i..][0] == s[n..][0];
      assert batch[i] == s[n];
      match fate(i)
      case NotLeader(saved) =>
        HandBack(w, job, s);
      case Crash(applied) =>
        LostKeeps(w, s, false);
      case Apply(failed, saved, reported) =>
        if saved {
          AdvanceKeeps(w, job, s, failed);
          var next := Advance(job, batch[i], failed);
          var w' := World(next, w.log + [Event(batch[i], failed, true)]);
          if reported {
            assert batch[i + 1..] == batch[i..][1..] && s[n + 1..] == s[n..][1..];
            WorkKeeps(w', next, batch, fate, i + 1, s);
          }
        } else {
          LostKeeps(w, s, failed);
        }
    }
  }

  lemma OpenedWorks(w: World, s: seq<Item>)
    requires Inv(w, s)
    ensures Working(Opened(w.job, s), w, s)
  {
    hide Live, CursorOf, Kept, KeptFailures, InOrder;
    var n := Kept(w.log);
    if n > 0 { CursorNonEmpty(s[n - 1]); }
    assert n == 0 ==> s[..n] == [];
  }

  lemma WholeIsLive(s: seq<Item>)
    ensures Live(s[..|s|]) == Live(s)
  {
    assert s[..|s|] == s;
  }

  lemma WorkOn(w: World, job: Job, batch: seq<Item>, fate: nat -> Fate, i: nat)
    requires i < |batch| && Smooth(fate(i))
    ensures var next, e := Advance(job, batch[i], fate(i).failed), Event(batch[i], fate(i).failed, true);
            Work(w, job, batch, fate, i) == Work(World(next, w.log + [e]), next, batch, fate, i + 1)
  {
    hide Advance;
  }

  lemma {:induction false} WorkSmooth(w: World, job: Job, batch: seq<Item>, fate: nat -> Fate, i: nat)
    requires i <= |batch| && forall k :: Smooth(fate(k))
    ensures Kept(Work(w, job, batch, fate, i).log) == Kept(w.log) + |batch| - i
    decreases |batch| - i
  {
    if i < |batch| {
      hide Kept, Advance, Work;
      assert Smooth(fate(i));
      WorkOn(w, job, batch, fate, i);
      var next := Advance(job, batch[i], fate(i).failed);
      var e := Event(batch[i], fate(i).failed, true);
      Snoc(w.log, e);
      WorkSmooth(World(next, w.log + [e]), next, batch, fate, i + 1);
    }
  }

  lemma NextBatch(w: World, listing: seq<Item>)
    requires Versions(listing) && Inv(w, Sorted(listing))
    ensures var s := Sorted(listing);
            && Kept(w.log) <= |s|
            && BatchAfter(s, Opened(w.job, s).cursor, BATCH) == s[Kept(w.log)..Least(Kept(w.log) + BATCH, |s|)]
            && Working(Opened(w.job, s), w, s)
  {
    var s := Sorted(listing);
    SortedAscending(listing);
    OpenedWorks(w, s);
    BatchIsNext(s, w.job.cursor, Kept(w.log));
  }

  /** One step keeps the invariant and never loses ground. */
  lemma StepKeeps(w: World, listing: seq<Item>, fate: nat -> Fate)
    requires Versions(listing) && Inv(w, Sorted(listing)) && IsActive(w.job.status)
    ensures Inv(Step(w, listing, fate), Sorted(listing))
    ensures Kept(Step(w, listing, fate).log) >= Kept(w.log)
  {
    hide Kept, SortBy, BatchAfter, Versions, Inv, Working, Work, Opened, TerminalStatus;
    var s := Sorted(listing);
    NextBatch(w, listing);
    var job := Opened(w.job, s);
    var batch := BatchAfter(s, job.cursor, BATCH);
    if batch != [] {
      assert batch[0..] == batch;
      WorkKeeps(w, job, batch, fate, 0, s);
    } else {
      FinishKeeps(w, s);
    }
  }

  /** When nothing interferes a step moves on by a whole batch, or finishes. */
  lemma StepSmooth(w: World, listing: seq<Item>, fate: nat -> Fate)
    requires Versions(listing) && Inv(w, Sorted(listing)) && IsActive(w.job.status)
    requires forall k :: Smooth(fate(k))
    ensures var w', size := Step(w, listing, fate), |Sorted(listing)|;
            && Kept(w'.log) == Least(Kept(w.log) + BATCH, size)
            && (IsActive(w'.job.status) <==> Kept(w.log) < size)
  {
    hide Kept, SortBy, BatchAfter, Versions, Inv, Working, Work, Opened, TerminalStatus;
    var s := Sorted(listing);
    NextBatch(w, listing);
    var job := Opened(w.job, s);
    var batch := BatchAfter(s, job.cursor, BATCH);
    if batch != [] {
      assert batch[0..] == batch;
      WorkKeeps(w, job, batch, fate, 0, s);
      WorkSmooth(w, job, batch, fate, 0);
    } else {
      FinishKeeps(w, s);
      assert Smooth(fate(0));
    }
  }

  lemma FinishKeeps(w: World, s: seq<Item>)
    requires Inv(w, s) && Kept(w.log) == |s|
    ensures var job := Opened(w.job, s);
            var (status, errs) := TerminalStatus(job.done, job.total, job.errors, Live(s));
            Inv(w.(job := job.(status := status, errors := errs)), s) && !IsActive(status)
  {
    OpenedWorks(w, s);
    WholeIsLive(s);
    hide Live, CursorOf, Kept, KeptFailures, InOrder;
  }

  lemma TickKeeps(w: World, listing: seq<Item>, fate: nat -> Fate)
    requires Versions(listing) && Inv(w, Sorted(listing))
    ensures Inv(Tick(w, listing, fate), Sorted(listing))
    ensures Kept(Tick(w, listing, fate).log) >= Kept(w.log)
  {
    hide Inv, Versions, Step;
    if IsActive(w.job.status) { StepKeeps(w, listing, fate); }
  }

  lemma {:induction false} RunKeeps(w: World, listing: seq<Item>, fates: seq<nat -> Fate>)
    requires Versions(listing) && Inv(w, Sorted(listing))
    ensures Inv(Run(w, listing, fates), Sorted(listing))
    ensures Kept(Run(w, listing, fates).log) >= Kept(w.log)
    decreases |fates|
  {
    hide Inv, Versions, Tick;
    if fates != [] {
      var n := |fates| - 1;
      RunKeeps(w, listing, fates[..n]);
      TickKeeps(Run(w, listing, fates[..n]), listing, fates[n]);
    }
  }

  lemma FreshKeeps(s: seq<Item>)
    ensures Inv(World(FreshJob, []), s)
  {
    assert s[..0] == [];
  }

  //// Consequences, for every run from a fresh job

  ghost function After(listing: seq<Item>, fates: seq<nat -> Fate>): World {
    Run(World(FreshJob, []), listing, fates)
  }

  /** Versions at or below a cursor that are not delete markers. */
  function LiveUpTo(items: seq<Item>, cursor: string): nat {
    if items == [] then 0
    else (if !AfterCursor(cursor, items[0]) && !items[0].deleteMarker then 1 else 0) + LiveUpTo(items[1..], cursor)
  }

  lemma {:induction false} LiveUpToIs(s: seq<Item>, cursor: string, n: nat, i: nat)
    requires Ascending(s) && At(s, cursor, n) && i <= |s|
    ensures LiveUpTo(s[i..], cursor) == if i < n then Live(s[i..n]) else 0
    decreases |s| - i
  {
    hide Ascending, AfterCursor;
    if i < |s| {
      AfterIsBeyond(s, cursor, n, i);
      LiveUpToIs(s, cursor, n, i + 1);
      assert s[i..][1..] == s[i + 1..];
      if i < n { assert s[i..n][1..] == s[i + 1..n]; }
    }
  }

  lemma LiveAtMost(s: seq<Item>, n: nat)
    requires n <= |s|
    ensures Live(s[..n]) <= Live(s)
  {
    assert s == s[..n] + s[n..];
    LiveConcat(s[..n], s[n..]);
  }

  /** After any run the stored counters count the versions at or below the stored
      cursor, progress never exceeds the total, and a finished job has processed
      everything; it is `completed` exactly when no kept application failed. */
  lemma CountersAgree(listing: seq<Item>, fates: seq<nat -> Fate>)
    requires Versions(listing)
    ensures var w, s := After(listing, fates), Sorted(listing);
            && w.job.done == LiveUpTo(s, w.job.cursor)
            && (w.job.cursor != "" ==> w.job.total == Live(s))
            && w.job.done <= w.job.total
            && w.job.errors == KeptFailures(w.log)
            && (!IsActive(w.job.status) ==>
                  w.job.done == w.job.total == Live(s) && (w.job.status == Completed <==> KeptFailures(w.log) == 0))
  {
    var w, s := After(listing, fates), Sorted(listing);
    FreshKeeps(s);
    RunKeeps(World(FreshJob, []), listing, fates);
    hide Run, Versions, Live, LiveUpTo, CursorOf, Kept, KeptFailures, InOrder;
    SortedAscending(listing);
    var n := Kept(w.log);
    LiveUpToIs(s, w.job.cursor, n, 0);
    assert s[0..] == s && s[0..n] == s[..n];
    WholeIsLive(s);
    LiveAtMost(s, n);
    NoneLive(s);
  }

  lemma NoneLive(s: seq<Item>)
    ensures Live(s[..0]) == 0
  {
  }

  lemma {:induction false} KeptMonotone(log: seq<Event>, p: nat)
    requires p <= |log|
    ensures Kept(log[..p]) <= Kept(log)
    decreases |log|
  {
    if p == |log| {
      assert log[..p] == log;
    } else {
      assert log[..|log| - 1][..p] == log[..p];
      KeptMonotone(log[..|log| - 1], p);
    }
  }

  lemma {:induction false} KeptReaches(log: seq<Event>, n: nat) returns (p: nat)
    requires n < Kept(log)
    ensures p < |log| && Kept(log[..p]) == n && log[p].kept
  {
    var m := |log| - 1;
    if log[m].kept && Kept(log[..m]) == n {
      p := m;
    } else {
      p := KeptReaches(log[..m], n);
      assert log[..m][..p] == log[..p];
    }
  }

  /** No version is skipped: whatever lies at or below the stored cursor has a kept
      application. */
  lemma NothingSkipped(listing: seq<Item>, fates: seq<nat -> Fate>, it: Item)
    requires Versions(listing) && it in listing
    requires !AfterCursor(After(listing, fates).job.cursor, it)
    ensures exists e :: e in After(listing, fates).log && e.item == it && e.kept
  {
    hide Run, Versions, Live;
    var w, s := After(listing, fates), Sorted(listing);
    FreshKeeps(s);
    RunKeeps(World(FreshJob, []), listing, fates);
    SortedAscending(listing);
    var i :| 0 <= i < |s| && s[i] == it;
    AfterIsBeyond(s, w.job.cursor, Kept(w.log), i);
    var p := KeptReaches(w.log, i);
    assert w.log[p] in w.log && w.log[p].item == it;
  }

  /** A version is applied again only if the save after its earlier application was
      lost. */
  lemma RepeatMeansLost(listing: seq<Item>, fates: seq<nat -> Fate>, a: nat, b: nat)
    requires Versions(listing)
    requires a < b < |After(listing, fates).log|
    requires After(listing, fates).log[a].item == After(listing, fates).log[b].item
    ensures !After(listing, fates).log[a].kept
  {
    hide Run, Versions, Live, Kept, CursorOf, KeptFailures, RowAt, Ascending;
    var log, s := After(listing, fates).log, Sorted(listing);
    FreshKeeps(s);
    RunKeeps(World(FreshJob, []), listing, fates);
    SortedAscending(listing);
    var i, j := Kept(log[..a]), Kept(log[..b]);
    assert log[a].item == s[i] && log[b].item == s[j];
    SameItem(s, i, j);
    assert log[..b][..a + 1] == log[..a + 1] == log[..a] + [log[a]];
    KeptMonotone(log[..b], a + 1);
    Snoc(log[..a], log[a]);
  }

  lemma SameItem(s: seq<Item>, i: nat, j: nat)
    requires Ascending(s) && i < |s| && j < |s| && s[i] == s[j]
    ensures i == j
  {
    LessIrreflexive(CursorOf(s[i]));
  }

  //// The cursor, for every listing

  lemma AfterIsAtLeast(cursor: string, it: Item)
    requires AfterCursor(cursor, it)
    ensures AtMost(cursor, CursorOf(it))
  {
    CursorNonEmpty(it);
  }

  lemma {:induction false} BatchBeyond(items: seq<Item>, cursor: string, room: nat)
    ensures forall it :: it in BatchAfter(items, cursor, room) ==> AfterCursor(cursor, it)
  {
    hide AfterCursor;
    if items != [] && room > 0 {
      BatchBeyond(items[1..], cursor, if AfterCursor(cursor, items[0]) then room - 1 else room);
    }
  }

  /** The world moved on from one whose cursor was c: its cursor is no less, and what was
      applied since lies beyond c. */
  ghost predicate MovedOn(c: string, log: seq<Event>, w: World) {
    && AtMost(c, w.job.cursor) && log <= w.log
    && forall p :: |log| <= p < |w.log| ==> AfterCursor(c, w.log[p].item)
  }

  lemma {:induction false} WorkForward(w: World, job: Job, batch: seq<Item>, fate: nat -> Fate, i: nat, c: string,
                                       log: seq<Event>)
    requires i <= |batch| && forall it :: it in batch ==> AfterCursor(c, it)
    requires MovedOn(c, log, w) && AtMost(c, job.cursor)
    ensures MovedOn(c, log, Work(w, job, batch, fate, i))
    decreases |batch| - i
  {
    hide AfterCursor, AtMost, CursorOf;
    if i < |batch| {
      assert batch[i] in batch;
      AfterIsAtLeast(c, batch[i]);
      if fate(i).Apply? {
        var f := fate(i);
        var next := Advance(job, batch[i], f.failed);
        var w' := World(if f.saved then next else w.job, w.log + [Event(batch[i], f.failed, f.saved)]);
        if f.saved && f.reported { WorkForward(w', next, batch, fate, i + 1, c, log); }
      }
    }
  }

  lemma TickForward(w: World, listing: seq<Item>, fate: nat -> Fate)
    ensures MovedOn(w.job.cursor, w.log, Tick(w, listing, fate))
  {
    hide BatchAfter, Work, Live, TerminalStatus, SortBy;
    var items := Sorted(listing);
    BatchBeyond(items, w.job.cursor, BATCH);
    WorkForward(w, Opened(w.job, items), BatchAfter(items, w.job.cursor, BATCH), fate, 0, w.job.cursor, w.log);
  }

  /** The stored cursor never moves back, whatever the listing. */
  lemma {:induction false} CursorNeverBack(listing: seq<Item>, fates: seq<nat -> Fate>, k: nat)
    requires k <= |fates|
    ensures AtMost(After(listing, fates[..k]).job.cursor, After(listing, fates).job.cursor)
    decreases |fates|
  {
    if k == |fates| {
      assert fates[..k] == fates;
    } else {
      hide Tick;
      var init := fates[..|fates| - 1];
      assert init[..k] == fates[..k];
      CursorNeverBack(listing, init, k);
      TickForward(After(listing, init), listing, fates[|fates| - 1]);
      AtMostTransitive(After(listing, init[..k]).job.cursor, After(listing, init).job.cursor,
                       After(listing, fates).job.cursor);
    }
  }

  //// Progress

  ghost predicate AllSmooth(fates: seq<nat -> Fate>) {
    forall i, k :: 0 <= i < |fates| ==> Smooth(fates[i](k))
  }

  lemma {:induction false} SmoothRun(listing: seq<Item>, fates: seq<nat -> Fate>)
    requires Versions(listing) && AllSmooth(fates)
    ensures var w, size := After(listing, fates), |Sorted(listing)|;
            && Inv(w, Sorted(listing))
            && Kept(w.log) == Least(BATCH * |fates|, size)
            && (IsActive(w.job.status) <==> |fates| == 0 || BATCH * (|fates| - 1) < size)
    decreases |fates|
  {
    hide Versions, Inv, Step;
    var s := Sorted(listing);
    FreshKeeps(s);
    if fates != [] {
      var n := |fates| - 1;
      var w := After(listing, fates[..n]);
      SmoothRun(listing, fates[..n]);
      assert forall k :: Smooth(fates[n](k));
      if IsActive(w.job.status) {
        StepKeeps(w, listing, fates[n]);
        StepSmooth(w, listing, fates[n]);
      }
    }
  }

  /** With n versions, ceil(n/32) undisturbed steps reach the last version and one
      more finishes the job, with everything done. */
  lemma Finishes(listing: seq<Item>, fates: seq<nat -> Fate>)
    requires Versions(listing) && AllSmooth(fates)
    ensures var w, batches := After(listing, fates), (|listing| + 31) / 32;
            && (IsActive(w.job.status) <==> |fates| <= batches)
            && (|fates| > batches ==> w.job.done == w.job.total == Live(Sorted(listing)))
  {
    hide Versions, Inv, Live, Run;
    SmoothRun(listing, fates);
    SortByOrdered(listing, CursorOf);
    CountersAgree(listing, fates);
  }
}
