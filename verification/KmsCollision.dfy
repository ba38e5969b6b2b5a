/** Distinct cursors are what the encryption job needs: with two versions that share one,
    some run passes over one of them. */
module KmsCollision {
  import opened Strings
  import opened KmsJob
  import opened KmsJobTheorems

  /** A step that applies and saves one item and stops before the next. */
  ghost function OneItem(): nat -> Fate {
    (k: nat) => if k == 0 then Apply(false, true, true) else Crash(false)
  }

  lemma {:induction false} BatchFirst(items: seq<Item>, cursor: string, room: nat)
    requires room > 0
    ensures BatchAfter(items, cursor, room) == [] <==> forall it :: it in items ==> !AfterCursor(cursor, it)
    ensures BatchAfter(items, cursor, room) != [] ==>
              BatchAfter(items, cursor, room)[0] in items && AfterCursor(cursor, BatchAfter(items, cursor, room)[0])
  {
    hide AfterCursor;
    if items != [] {
      assert items == [items[0]] + items[1..];
      if !AfterCursor(cursor, items[0]) { BatchFirst(items[1..], cursor, room); }
    }
  }

  lemma SortedSame(listing: seq<Item>, it: Item)
    ensures it in Sorted(listing) <==> it in listing
  {
    SortByOrdered(listing, CursorOf);
    assert it in Sorted(listing) <==> it in multiset(Sorted(listing));
    assert it in listing <==> it in multiset(listing);
  }

  /** The log climbs strictly in cursor order, and the saved cursor stands at its end. */
  ghost predicate Climbing(w: World) {
    && IsActive(w.job.status)
    && (forall p, q :: 0 <= p < q < |w.log| ==> Less(CursorOf(w.log[p].item), CursorOf(w.log[q].item)))
    && w.job.cursor == if w.log == [] then "" else CursorOf(w.log[|w.log| - 1].item)
  }

  /** One such step applies exactly one item, beyond the cursor. */
  lemma StepApplies(w: World, listing: seq<Item>) returns (it: Item)
    requires exists a :: a in listing && AfterCursor(w.job.cursor, a)
    ensures it in listing && AfterCursor(w.job.cursor, it)
    ensures var w' := Step(w, listing, OneItem());
            && w'.log == w.log + [Event(it, false, true)]
            && w'.job.cursor == CursorOf(it) && w'.job.status == Running
  {
    hide AfterCursor, BatchAfter, Work, Live, CursorOf;
    var a :| a in listing && AfterCursor(w.job.cursor, a);
    var items := Sorted(listing);
    SortedSame(listing, a);
    BatchFirst(items, w.job.cursor, BATCH);
    var batch := BatchAfter(items, w.job.cursor, BATCH);
    it := batch[0];
    SortedSame(listing, it);
    WorkOne(w, Opened(w.job, items), batch);
  }

  lemma WorkOne(w: World, job: Job, batch: seq<Item>)
    requires batch != []
    ensures Work(w, job, batch, OneItem(), 0)
            == World(Advance(job, batch[0], false), w.log + [Event(batch[0], false, true)])
  {
    var next := Advance(job, batch[0], false);
    var w' := World(next, w.log + [Event(batch[0], false, true)]);
    assert Work(w', next, batch, OneItem(), 1) == w';
  }

  lemma ClimbOn(w: World, w': World, it: Item)
    requires Climbing(w) && AfterCursor(w.job.cursor, it)
    requires w'.log == w.log + [Event(it, false, true)] && w'.job.cursor == CursorOf(it) && w'.job.status == Running
    ensures Climbing(w')
  {
    hide CursorOf, Less;
    if w.log != [] {
      var n := |w.log| - 1;
      CursorNonEmpty(w.log[n].item);
      forall p | 0 <= p <= n ensures Less(CursorOf(w.log[p].item), CursorOf(it)) {
        if p < n { LessTransitive(CursorOf(w.log[p].item), CursorOf(w.log[n].item), CursorOf(it)); }
      }
    }
  }

  ghost function Beyond(listing: seq<Item>, cursor: string): set<Item> {
    set it | it in listing && AfterCursor(cursor, it)
  }

  /** Beyond a listed item there is less than beyond what precedes it. */
  lemma FewerBeyond(listing: seq<Item>, cursor: string, it: Item)
    requires it in listing && AfterCursor(cursor, it)
    ensures Beyond(listing, CursorOf(it)) < Beyond(listing, cursor)
  {
    hide CursorOf, Less;
    CursorNonEmpty(it);
    LessIrreflexive(CursorOf(it));
    forall x | x in Beyond(listing, CursorOf(it)) ensures x in Beyond(listing, cursor) {
      if cursor != "" { LessTransitive(cursor, CursorOf(it), CursorOf(x)); }
    }
    assert it in Beyond(listing, cursor) && it !in Beyond(listing, CursorOf(it));
  }

  /** One item at a time, every listed cursor is reached, and the log still climbs. */
  lemma {:induction false} ClimbTo(listing: seq<Item>, a: Item, fates: seq<nat -> Fate>) returns (all: seq<nat -> Fate>)
    requires a in listing && Climbing(After(listing, fates))
    ensures Climbing(After(listing, all)) && !AfterCursor(After(listing, all).job.cursor, a)
    decreases Beyond(listing, After(listing, fates).job.cursor)
  {
    hide Step, AfterCursor, Climbing, Beyond, CursorOf;
    var w := After(listing, fates);
    if !AfterCursor(w.job.cursor, a) { return fates; }
    var longer := fates + [OneItem()];
    assert longer[..|fates|] == fates;
    assert IsActive(w.job.status) by { ClimbingIsActive(w); }
    var w' := Step(w, listing, OneItem());
    assert After(listing, longer) == w';
    var it := StepApplies(w, listing);
    ClimbOn(w, w', it);
    FewerBeyond(listing, w.job.cursor, it);
    all := ClimbTo(listing, a, longer);
  }

  lemma ClimbingIsActive(w: World)
    requires Climbing(w)
    ensures IsActive(w.job.status)
  {
  }

  /** What the cursor has passed stays passed. */
  lemma StaysPassed(c: string, c': string, it: Item)
    requires AtMost(c, c') && !AfterCursor(c, it)
    ensures !AfterCursor(c', it)
  {
    if c != c' && Less(c', CursorOf(it)) { LessTransitive(c, c', CursorOf(it)); }
  }

  ghost predicate PassedOver(w: World, it: Item) {
    !AfterCursor(w.job.cursor, it) && forall e :: e in w.log ==> e.item != it
  }

  /** A version passed over is not applied by any later step either. */
  lemma {:induction false} PassedForGood(listing: seq<Item>, fates: seq<nat -> Fate>, more: seq<nat -> Fate>, it: Item)
    requires PassedOver(After(listing, fates), it)
    ensures PassedOver(After(listing, fates + more), it)
    decreases |more|
  {
    if more == [] {
      assert fates + more == fates;
    } else {
      hide Tick, AfterCursor;
      var n := |more| - 1;
      PassedForGood(listing, fates, more[..n], it);
      assert (fates + more)[..|fates| + n] == fates + more[..n];
      var w, w' := After(listing, fates + more[..n]), After(listing, fates + more);
      TickForward(w, listing, more[n]);
      StaysPassed(w.job.cursor, w'.job.cursor, it);
      forall e | e in w'.log ensures e.item != it {
        var p :| 0 <= p < |w'.log| && w'.log[p] == e;
        if p < |w.log| { assert w.log[p] == e; }
      }
    }
  }

  /** If two listed versions share a cursor, some run passes over one of them for good:
      the saved cursor is at or beyond it, it was never applied, and no continuation of
      the run applies it. */
  lemma CollisionSkips(listing: seq<Item>, a: Item, b: Item) returns (fates: seq<nat -> Fate>, it: Item)
    requires a in listing && b in listing && a != b && CursorOf(a) == CursorOf(b)
    ensures it == a || it == b
    ensures PassedOver(After(listing, fates), it)
    ensures forall more :: PassedOver(After(listing, fates + more), it)
  {
    hide CursorOf, Run;
    assert Climbing(After(listing, [])) by { StartClimbs(listing); }
    fates := ClimbTo(listing, a, []);
    var w := After(listing, fates);
    if p :| 0 <= p < |w.log| && w.log[p].item == a {
      it := b;
      forall e | e in w.log ensures e.item != b {
        var q :| 0 <= q < |w.log| && w.log[q] == e;
        LessIrreflexive(CursorOf(a));
      }
    } else {
      it := a;
    }
    forall more ensures PassedOver(After(listing, fates + more), it) { PassedForGood(listing, fates, more, it); }
  }

  lemma StartClimbs(listing: seq<Item>)
    ensures Climbing(After(listing, []))
  {
  }

  ghost predicate SkipsNothing(listing: seq<Item>, fates: seq<nat -> Fate>) {
    forall it :: it in listing && !AfterCursor(After(listing, fates).job.cursor, it) ==>
      exists e :: e in After(listing, fates).log && e.item == it && e.kept
  }

  /** A listing without repeats is safe in every run exactly when its cursors are
      distinct. */
  lemma SkipsNothingExactly(listing: seq<Item>)
    requires forall i, j :: 0 <= i < j < |listing| ==> listing[i] != listing[j]
    ensures Versions(listing) <==> forall fates :: SkipsNothing(listing, fates)
  {
    hide After, CursorOf, AfterCursor;
    if Versions(listing) {
      forall fates ensures SkipsNothing(listing, fates) {
        forall it | it in listing && !AfterCursor(After(listing, fates).job.cursor, it)
          ensures exists e :: e in After(listing, fates).log && e.item == it && e.kept
        {
          NothingSkipped(listing, fates, it);
        }
      }
    } else {
      var i, j :| 0 <= i < j < |listing| && CursorOf(listing[i]) == CursorOf(listing[j]);
      var fates, it := CollisionSkips(listing, listing[i], listing[j]);
      assert !SkipsNothing(listing, fates);
    }
  }
}
