/** The nonce table of the peer object API: internal/api/ha_object_replica.go,
    replicaNonces. Times are Unix seconds. */
module ReplicaNonces {

  const PURGE_ABOVE := 256

  type Seen = map<string, int>

  /** The table after the purge that starts a call. */
  function Purged(seen: Seen, now: int): Seen {
    if |seen| > PURGE_ABOVE then map k | k in seen && seen[k] >= now :: seen[k] else seen
  }

  predicate Admits(seen: Seen, nonce: string, now: int) {
    nonce != "" && nonce !in Purged(seen, now)
  }

  /** The table after a call. An empty nonce is turned away before anything else. */
  function Record(seen: Seen, nonce: string, exp: int, now: int): Seen {
    if nonce == "" then seen
    else if Admits(seen, nonce, now) then Purged(seen, now)[nonce := exp]
    else Purged(seen, now)
  }

  class Table {
    var seen: Seen

    constructor ()
      ensures seen == map[]
    {
      seen := map[];
    }

    /** accept, at the clock reading `now`. */
    method Accept(nonce: string, exp: int, now: int) returns (ok: bool)
      modifies this
      ensures ok == Admits(old(seen), nonce, now)
      ensures seen == Record(old(seen), nonce, exp, now)
    {
      if nonce == "" {
        return false;
      }
      if |seen| > PURGE_ABOVE {
        var todo := seen.Keys;
        while todo != {}
          invariant todo <= seen.Keys <= old(seen).Keys
          invariant forall k :: k in seen ==> seen[k] == old(seen)[k] && (k in todo || seen[k] >= now)
          invariant forall k :: k in old(seen) && old(seen)[k] >= now ==> k in seen
        {
          var k :| k in todo;
          if seen[k] < now {
            seen := seen - {k};
          }
          todo := todo - {k};
        }
        assert seen == Purged(old(seen), now);
      }
      if nonce in seen {
        return false;
      }
      seen := seen[nonce := exp];
      return true;
    }
  }

  //// Runs

  datatype Call = Call(nonce: string, exp: int, now: int)

  ghost predicate ClockRuns(calls: seq<Call>) {
    forall i, j :: 0 <= i < j < |calls| ==> calls[i].now <= calls[j].now
  }

  function After(calls: seq<Call>): Seen {
    if calls == [] then map[]
    else
      var c := calls[|calls| - 1];
      Record(After(calls[..|calls| - 1]), c.nonce, c.exp, c.now)
  }

  /** The verdict on the i-th call of a run. */
  predicate Admitted(calls: seq<Call>, i: nat)
    requires i < |calls|
  {
    Admits(After(calls[..i]), calls[i].nonce, calls[i].now)
  }

  lemma AdmittedEarlier(calls: seq<Call>, n: nat, i: nat)
    requires i < n <= |calls|
    ensures Admitted(calls[..n], i) == Admitted(calls, i) && calls[..n][i] == calls[i]
  {
    assert calls[..n][..i] == calls[..i];
  }

  /** Every entry was put there by an admitted call, with that call's expiry. */
  lemma {:induction false} EntryHasCall(calls: seq<Call>, nonce: string)
    requires nonce in After(calls)
    ensures exists i :: 0 <= i < |calls| && calls[i].nonce == nonce && Admitted(calls, i)
                        && calls[i].exp == After(calls)[nonce]
  {
    var n := |calls| - 1;
    var init := calls[..n];
    if calls[n].nonce == nonce && Admitted(calls, n) {
    } else {
      EntryHasCall(init, nonce);
      var i :| 0 <= i < n && init[i].nonce == nonce && Admitted(init, i) && init[i].exp == After(init)[nonce];
      AdmittedEarlier(calls, n, i);
    }
  }

  /** An admitted nonce stays in the table while the clock has not passed its recorded
      expiry, however often the table is purged. */
  lemma {:induction false} EntryStays(calls: seq<Call>, i: nat, now: int)
    requires i < |calls| && ClockRuns(calls) && Admitted(calls, i)
    requires calls[|calls| - 1].now <= now <= calls[i].exp
    ensures calls[i].nonce in After(calls) && After(calls)[calls[i].nonce] == calls[i].exp
    decreases |calls|
  {
    var n := |calls| - 1;
    if i < n {
      AdmittedEarlier(calls, n, i);
      EntryStays(calls[..n], i, now);
    }
  }

  /** At most one admission up to the recorded expiry: a second admission of a nonce
      comes only after the expiry recorded by the first. */
  lemma AdmittedOnce(calls: seq<Call>, i: nat, j: nat)
    requires i < j < |calls| && ClockRuns(calls)
    requires calls[i].nonce == calls[j].nonce && Admitted(calls, i) && Admitted(calls, j)
    ensures calls[j].now > calls[i].exp
  {
    if calls[j].now <= calls[i].exp {
      AdmittedEarlier(calls, j, i);
      EntryStays(calls[..j], i, calls[j].now);
    }
  }

  /** A call is refused only for an empty nonce or one admitted before: an unseen
      non-empty nonce always passes. */
  lemma RefusedWasSeen(calls: seq<Call>, j: nat)
    requires j < |calls| && !Admitted(calls, j) && calls[j].nonce != ""
    ensures exists i :: 0 <= i < j && calls[i].nonce == calls[j].nonce && Admitted(calls, i)
  {
    var nonce := calls[j].nonce;
    EntryHasCall(calls[..j], nonce);
    var i :| 0 <= i < j && calls[..j][i].nonce == nonce && Admitted(calls[..j], i);
    AdmittedEarlier(calls, j, i);
  }

  lemma {:induction false} TableBound(calls: seq<Call>)
    ensures |After(calls)| <= |calls|
  {
    if calls != [] {
      var n := |calls| - 1;
      TableBound(calls[..n]);
      var seen := After(calls[..n]);
      var kept := Purged(seen, calls[n].now);
      Fewer(kept.Keys, seen.Keys);
      if Admitted(calls, n) {
        assert kept[calls[n].nonce := calls[n].exp].Keys == kept.Keys + {calls[n].nonce};
      }
    }
  }

  lemma Fewer(a: set<string>, b: set<string>)
    requires a <= b
    ensures |a| <= |b|
  {
    assert b == a + (b - a);
  }

  /** Before the first purge the table forgets nothing, so a nonce is admitted once and
      for all. */
  lemma {:induction false} NothingForgotten(calls: seq<Call>, i: nat)
    requires i < |calls| && |calls| <= PURGE_ABOVE + 1 && Admitted(calls, i)
    ensures calls[i].nonce in After(calls)
    decreases |calls|
  {
    var n := |calls| - 1;
    if i < n {
      AdmittedEarlier(calls, n, i);
      NothingForgotten(calls[..n], i);
      TableBound(calls[..n]);
    }
  }

  lemma AdmittedOnceBeforePurge(calls: seq<Call>, i: nat, j: nat)
    requires i < j < |calls| && j <= 256
    requires calls[i].nonce == calls[j].nonce && Admitted(calls, i)
    ensures !Admitted(calls, j)
  {
    AdmittedEarlier(calls, j, i);
    NothingForgotten(calls[..j], i);
    TableBound(calls[..j]);
  }

  //// The bounds are reached

  function Nonce(i: nat): string {
    seq(i + 1, _ => 'n')
  }

  /** The first k of different nonces that all come at their common expiry. */
  function Burst(exp: int, k: nat): seq<Call> {
    seq(k, i requires 0 <= i < k => Call(Nonce(i), exp, exp))
  }

  lemma {:induction false} BurstAdmitted(exp: int, k: nat)
    requires k <= PURGE_ABOVE + 1
    ensures |After(Burst(exp, k))| == k
    ensures forall s :: s in After(Burst(exp, k)) ==> After(Burst(exp, k))[s] == exp && 0 < |s| <= k
    ensures k > 0 ==> Admitted(Burst(exp, k), k - 1)
  {
    if k > 0 {
      BurstAdmitted(exp, k - 1);
      assert Burst(exp, k)[..k - 1] == Burst(exp, k - 1);
      var seen := After(Burst(exp, k - 1));
      assert |Nonce(k - 1)| == k;
      assert After(Burst(exp, k)) == seen[Nonce(k - 1) := exp];
      assert seen[Nonce(k - 1) := exp].Keys == seen.Keys + {Nonce(k - 1)};
    }
  }

  /** One second after the recorded expiry, and with the 257 entries that start a purge,
      a nonce is admitted again: AdmittedOnce and AdmittedOnceBeforePurge cannot be
      improved. */
  lemma AgainAfterExpiry(exp: int) returns (calls: seq<Call>)
    ensures |calls| == PURGE_ABOVE + 2 && ClockRuns(calls)
    ensures calls[0].nonce == calls[PURGE_ABOVE + 1].nonce
    ensures Admitted(calls, 0) && Admitted(calls, PURGE_ABOVE + 1)
    ensures calls[PURGE_ABOVE + 1].now == calls[0].exp + 1
  {
    var n := PURGE_ABOVE + 1;
    calls := Burst(exp, n) + [Call(Nonce(0), exp, exp + 1)];
    assert calls[..n] == Burst(exp, n) && calls[..0] == [];
    BurstAdmitted(exp, n);
    hide Burst, After;
    assert Purged(After(calls[..n]), exp + 1) == map[];
    assert Admits(map[], Nonce(0), exp);
    assert After([]) == map[] by { NoCalls(); }
  }

  lemma NoCalls()
    ensures After([]) == map[]
  {
  }
}
