/** Outbox row status: AggregateStatus of internal/events/event.go. An instant is a
    natural number; 0 is Go's zero time. */
module Outbox {
  import opened Strings

  const PENDING := "pending"
  const DELIVERED := "delivered"
  const DEAD := "dead"
  const DROPPED := "dropped"

  datatype SinkAttempt = SinkAttempt(attempts: nat, status: string, nextAttemptAt: nat, lastError: string)

  type Attempts = map<string, SinkAttempt>

  datatype Row = Row(
    status: string,
    attempts: Attempts,
    nextAttemptAt: nat,
    deliveredAt: Option<nat>,
    deadAt: Option<nat>,
    updatedAt: nat)

  //// The fold

  predicate StillPending(a: SinkAttempt) {
    a.status != DEAD && a.status != DELIVERED
  }

  datatype Tally = Tally(anyPending: bool, anyDead: bool, next: nat)

  function Visit(t: Tally, a: SinkAttempt): Tally {
    if a.status == DEAD then t.(anyDead := true)
    else if a.status == DELIVERED then t
    else t.(anyPending := true, next := if t.next == 0 || a.nextAttemptAt < t.next then a.nextAttemptAt else t.next)
  }

  /** An order in which Go may range over the map. */
  ghost predicate RangesOver(order: seq<string>, attempts: Attempts) {
    Distinct(order) && forall k :: k in order <==> k in attempts
  }

  function Fold(order: seq<string>, attempts: Attempts): Tally
    requires forall k :: k in order ==> k in attempts
  {
    if order == [] then Tally(false, false, 0)
    else
      var n := |order| - 1;
      Visit(Fold(order[..n], attempts), attempts[order[n]])
  }

  function Conclude(r: Row, t: Tally, now: nat): Row {
    var r' := r.(updatedAt := now);
    if t.anyPending then
      r'.(status := PENDING, nextAttemptAt := if t.next != 0 then t.next else r.nextAttemptAt)
    else if t.anyDead then
      r'.(status := DEAD, deadAt := if r.deadAt.None? then Some(now) else r.deadAt)
    else
      r'.(status := DELIVERED, deliveredAt := if r.deliveredAt.None? then Some(now) else r.deliveredAt)
  }

  /** AggregateStatus when the map is ranged over in the given order. */
  ghost function Aggregate(r: Row, order: seq<string>, now: nat): Row
    requires RangesOver(order, r.attempts)
  {
    if r.status == DROPPED then r else Conclude(r, Fold(order, r.attempts), now)
  }

  class OutboxRecord {
    var status: string
    var attempts: Attempts
    var nextAttemptAt: nat
    var deliveredAt: Option<nat>
    var deadAt: Option<nat>
    var updatedAt: nat

    constructor (r: Row)
      ensures View() == r
    {
      status, attempts, nextAttemptAt := r.status, r.attempts, r.nextAttemptAt;
      deliveredAt, deadAt, updatedAt := r.deliveredAt, r.deadAt, r.updatedAt;
    }

    ghost function View(): Row
      reads this
    {
      Row(status, attempts, nextAttemptAt, deliveredAt, deadAt, updatedAt)
    }

    /** AggregateStatus: the new row is the fold in the order the range took. */
    method AggregateStatus(now: nat) returns (ghost order: seq<string>)
      modifies this
      ensures RangesOver(order, old(attempts))
      ensures View() == Aggregate(old(View()), order, now)
    {
      order := [];
      if status == DROPPED {
        order := SomeOrder(attempts);
        return;
      }
      updatedAt := now;
      if |attempts| == 0 {
        assert attempts.Keys == {};
        status := DELIVERED;
        if deliveredAt.None? {
          deliveredAt := Some(now);
        }
        return;
      }
      var anyPending, anyDead, next := false, false, 0;
      var todo := attempts.Keys;
      while todo != {}
        invariant todo <= attempts.Keys
        invariant Distinct(order) && forall k :: k in order <==> k in attempts && k !in todo
        invariant Tally(anyPending, anyDead, next) == Fold(order, attempts)
        modifies {}
        decreases todo
      {
        var name :| name in todo;
        var a := attempts[name];
        FoldSnoc(order, attempts, name);
        if a.status == DEAD {
          anyDead := true;
        } else if a.status == DELIVERED {
        } else {
          anyPending := true;
          if next == 0 || a.nextAttemptAt < next {
            next := a.nextAttemptAt;
          }
        }
        order := order + [name];
        todo := todo - {name};
      }
      if anyPending {
        status := PENDING;
        if next != 0 {
          nextAttemptAt := next;
        }
      } else if anyDead {
        status := DEAD;
        if deadAt.None? {
          deadAt := Some(now);
        }
      } else {
        status := DELIVERED;
        if deliveredAt.None? {
          deliveredAt := Some(now);
        }
      }
    }
  }

  lemma FoldSnoc(order: seq<string>, attempts: Attempts, name: string)
    requires name in attempts && forall k :: k in order ==> k in attempts
    ensures Fold(order + [name], attempts) == Visit(Fold(order, attempts), attempts[name])
  {
    assert (order + [name])[..|order|] == order;
  }

  lemma SomeOrder(attempts: Attempts) returns (order: seq<string>)
    ensures RangesOver(order, attempts)
  {
    order := SortedSet(attempts.Keys);
    SortedSetFacts(attempts.Keys);
  }

  //// What the fold computes

  ghost predicate SomePending(attempts: Attempts) {
    exists k :: k in attempts && StillPending(attempts[k])
  }

  ghost predicate SomeDead(attempts: Attempts) {
    exists k :: k in attempts && attempts[k].status == DEAD
  }

  lemma {:induction false} FoldFlags(order: seq<string>, attempts: Attempts)
    requires forall k :: k in order ==> k in attempts
    ensures var t := Fold(order, attempts);
            && (t.anyPending <==> exists k :: k in order && StillPending(attempts[k]))
            && (t.anyDead <==> exists k :: k in order && attempts[k].status == DEAD)
            && (|| t.next == 0
                || exists k :: k in order && StillPending(attempts[k]) && attempts[k].nextAttemptAt == t.next)
  {
    if order != [] {
      var n := |order| - 1;
      FoldFlags(order[..n], attempts);
      assert order == order[..n] + [order[n]];
    }
  }

  /** With non-zero times the fold finds the earliest pending attempt. */
  lemma {:induction false} FoldEarliest(order: seq<string>, attempts: Attempts)
    requires forall k :: k in order ==> k in attempts
    requires forall k :: k in order && StillPending(attempts[k]) ==> attempts[k].nextAttemptAt != 0
    ensures var t := Fold(order, attempts);
            && (t.anyPending ==> t.next != 0)
            && forall k :: k in order && StillPending(attempts[k]) ==> t.next <= attempts[k].nextAttemptAt
  {
    if order != [] {
      var n := |order| - 1;
      FoldEarliest(order[..n], attempts);
      FoldFlags(order[..n], attempts);
      assert order == order[..n] + [order[n]];
      FoldUntouched(order[..n], attempts);
    }
  }

  lemma {:induction false} FoldUntouched(order: seq<string>, attempts: Attempts)
    requires forall k :: k in order ==> k in attempts
    ensures !Fold(order, attempts).anyPending ==> Fold(order, attempts).next == 0
  {
    if order != [] { FoldUntouched(order[..|order| - 1], attempts); }
  }

  //// Results, for every row and every order

  /** Meaning: a dropped row never changes; otherwise the row is pending exactly when
      some sink is neither delivered nor dead, dead when none is pending and some
      is dead, delivered when all are; terminal times are written once. */
  lemma AggregateMeans(r: Row, order: seq<string>, now: nat)
    requires RangesOver(order, r.attempts)
    ensures var r' := Aggregate(r, order, now);
            && r'.attempts == r.attempts
            && (r.status == DROPPED ==> r' == r)
            && (r.status != DROPPED ==>
                  && r'.updatedAt == now
                  && (r'.status == PENDING <==> SomePending(r.attempts))
                  && (r'.status == DEAD <==> !SomePending(r.attempts) && SomeDead(r.attempts))
                  && (r'.status == DELIVERED <==> forall k :: k in r.attempts ==> r.attempts[k].status == DELIVERED)
                  && r'.deadAt == (if r'.status == DEAD && r.deadAt.None? then Some(now) else r.deadAt)
                  && r'.deliveredAt == (if r'.status == DELIVERED && r.deliveredAt.None? then Some(now)
                                        else r.deliveredAt)
                  && (r'.status != PENDING ==> r'.nextAttemptAt == r.nextAttemptAt))
  {
    hide Fold;
    FoldFlags(order, r.attempts);
    DistinctStatuses();
  }

  lemma DistinctStatuses()
    ensures PENDING != DEAD && PENDING != DELIVERED && DEAD != DELIVERED
  {
    assert PENDING[0] == 'p' && DEAD[0] == 'd' && |DEAD| != |DELIVERED| && DELIVERED[0] == 'd';
  }

  ghost predicate TimesSet(attempts: Attempts) {
    forall k :: k in attempts && StillPending(attempts[k]) ==> attempts[k].nextAttemptAt != 0
  }

  /** With non-zero times the next attempt of a pending row is the earliest among its
      pending sinks. */
  lemma NextAttemptIsEarliest(r: Row, order: seq<string>, now: nat)
    requires RangesOver(order, r.attempts) && r.status != DROPPED
    requires TimesSet(r.attempts) && SomePending(r.attempts)
    ensures var next := Aggregate(r, order, now).nextAttemptAt;
            && (exists k :: k in r.attempts && StillPending(r.attempts[k]) && r.attempts[k].nextAttemptAt == next)
            && (forall k :: k in r.attempts && StillPending(r.attempts[k]) ==> next <= r.attempts[k].nextAttemptAt)
  {
    hide Fold;
    FoldFlags(order, r.attempts);
    FoldEarliest(order, r.attempts);
  }

  /** The rows whose result does not depend on the order: no pending sink has a zero
      time, or every other pending time is the row's next attempt already. */
  ghost predicate OrderFree(r: Row) {
    || r.status == DROPPED
    || TimesSet(r.attempts)
    || forall k :: k in r.attempts && StillPending(r.attempts[k]) ==>
         r.attempts[k].nextAttemptAt == 0 || r.attempts[k].nextAttemptAt == r.nextAttemptAt
  }

  lemma FreeAgrees(r: Row, o1: seq<string>, o2: seq<string>, now: nat)
    requires RangesOver(o1, r.attempts) && RangesOver(o2, r.attempts) && OrderFree(r)
    ensures Aggregate(r, o1, now) == Aggregate(r, o2, now)
  {
    hide Fold;
    FoldFlags(o1, r.attempts);
    FoldFlags(o2, r.attempts);
    if TimesSet(r.attempts) {
      FoldEarliest(o1, r.attempts);
      FoldEarliest(o2, r.attempts);
    }
  }

  /** A sink with a zero time resets the running minimum. */
  lemma ZeroThen(order: seq<string>, attempts: Attempts, z: string, x: string)
    requires z in attempts && x in attempts && forall k :: k in order ==> k in attempts
    requires StillPending(attempts[z]) && attempts[z].nextAttemptAt == 0 && StillPending(attempts[x])
    ensures Fold(order + [z] + [x], attempts).anyPending && Fold(order + [x] + [z], attempts).anyPending
    ensures Fold(order + [z] + [x], attempts).next == attempts[x].nextAttemptAt
    ensures Fold(order + [x] + [z], attempts).next == 0
  {
    hide Fold;
    FoldSnoc(order, attempts, z);
    FoldSnoc(order + [z], attempts, x);
    FoldSnoc(order, attempts, x);
    FoldSnoc(order + [x], attempts, z);
  }

  lemma OrderEndingIn(attempts: Attempts, a: string, b: string) returns (rest: seq<string>)
    requires a in attempts && b in attempts && a != b
    ensures RangesOver(rest + [a] + [b], attempts) && RangesOver(rest + [b] + [a], attempts)
    ensures forall k :: k in rest ==> k in attempts
  {
    var keys := attempts.Keys - {a, b};
    rest := SortedSet(keys);
    SortedSetFacts(keys);
    hide SortedSet;
    assert forall k :: k in rest + [a] + [b] <==> k in rest || k == a || k == b;
    assert forall k :: k in rest + [b] + [a] <==> k in rest || k == a || k == b;
  }

  /** A row that is not order-free has two orders that fold to different next attempts:
      one leaves the row's own, the other does not. */
  lemma TwoOrders(r: Row, now: nat) returns (o1: seq<string>, o2: seq<string>)
    requires !OrderFree(r)
    ensures RangesOver(o1, r.attempts) && RangesOver(o2, r.attempts)
    ensures Fold(o1, r.attempts).anyPending && Fold(o1, r.attempts).next !in {0, r.nextAttemptAt}
    ensures Fold(o2, r.attempts).anyPending && Fold(o2, r.attempts).next == 0
  {
    hide Fold, RangesOver;
    var z :| z in r.attempts && StillPending(r.attempts[z]) && r.attempts[z].nextAttemptAt == 0;
    var x :| x in r.attempts && StillPending(r.attempts[x]) && r.attempts[x].nextAttemptAt != 0
             && r.attempts[x].nextAttemptAt != r.nextAttemptAt;
    var rest := OrderEndingIn(r.attempts, z, x);
    ZeroThen(rest, r.attempts, z, x);
    o1, o2 := rest + [z] + [x], rest + [x] + [z];
  }

  /** The result is independent of the map order exactly for the order-free rows. */
  lemma OrderFreeExactly(r: Row, now: nat)
    ensures OrderFree(r) <==>
              forall o1, o2 :: RangesOver(o1, r.attempts) && RangesOver(o2, r.attempts) ==>
                                 Aggregate(r, o1, now) == Aggregate(r, o2, now)
  {
    hide Fold, RangesOver;
    if OrderFree(r) {
      forall o1, o2 | RangesOver(o1, r.attempts) && RangesOver(o2, r.attempts)
        ensures Aggregate(r, o1, now) == Aggregate(r, o2, now)
      {
        FreeAgrees(r, o1, o2, now);
      }
    } else {
      var o1, o2 := TwoOrders(r, now);
      assert Aggregate(r, o1, now).nextAttemptAt != Aggregate(r, o2, now).nextAttemptAt;
    }
  }

  /** Two calls at the same time. */
  ghost function Twice(r: Row, o1: seq<string>, o2: seq<string>, now: nat): Row
    requires RangesOver(o1, r.attempts) && RangesOver(o2, r.attempts)
  {
    Aggregate(Aggregate(r, o1, now), o2, now)
  }

  /** A second call at the same time that ranges in the same order changes nothing. */
  lemma SameOrderTwice(r: Row, order: seq<string>, now: nat)
    requires RangesOver(order, r.attempts)
    ensures Twice(r, order, order, now) == Aggregate(r, order, now)
  {
    hide Fold, RangesOver;
    DistinctStatuses();
    NotDropped();
  }

  lemma NotDropped()
    ensures DROPPED != PENDING && DROPPED != DEAD && DROPPED != DELIVERED
  {
    assert DROPPED[1] == 'r' && PENDING[1] == 'e' && DEAD[1] == 'e' && DELIVERED[1] == 'e';
  }

  /** A second call at the same time changes nothing, in whatever orders the two calls
      range, exactly for the order-free rows. */
  lemma IdempotentExactly(r: Row, now: nat)
    ensures OrderFree(r) <==>
              forall o1, o2 :: RangesOver(o1, r.attempts) && RangesOver(o2, r.attempts) ==>
                                 Twice(r, o1, o2, now) == Aggregate(r, o1, now)
  {
    hide Fold, RangesOver;
    DistinctStatuses();
    NotDropped();
    if OrderFree(r) {
      forall o1, o2 | RangesOver(o1, r.attempts) && RangesOver(o2, r.attempts)
        ensures Twice(r, o1, o2, now) == Aggregate(r, o1, now)
      {
        FreeTwice(r, o1, o2, now);
      }
    } else {
      var o1, o2 := TwoOrders(r, now);
      assert Twice(r, o2, o1, now).nextAttemptAt != Aggregate(r, o2, now).nextAttemptAt;
    }
  }

  lemma FreeTwice(r: Row, o1: seq<string>, o2: seq<string>, now: nat)
    requires RangesOver(o1, r.attempts) && RangesOver(o2, r.attempts) && OrderFree(r)
    ensures Twice(r, o1, o2, now) == Aggregate(r, o1, now)
  {
    hide Fold;
    FreeAgrees(r, o1, o2, now);
    DistinctStatuses();
    NotDropped();
  }

  /** A row whose pending sinks all have a time, as every writer of a pending sink sets it:
      neither the order of a call nor a second call makes a difference. */
  lemma TimedRows(r: Row, o1: seq<string>, o2: seq<string>, now: nat)
    requires TimesSet(r.attempts) && RangesOver(o1, r.attempts) && RangesOver(o2, r.attempts)
    ensures Aggregate(r, o1, now) == Aggregate(r, o2, now) == Twice(r, o1, o2, now)
  {
    hide Fold, RangesOver;
    FreeAgrees(r, o1, o2, now);
    FreeTwice(r, o1, o2, now);
  }
}
