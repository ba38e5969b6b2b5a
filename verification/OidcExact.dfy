/** When a session is registered, and what a look at it finds, exactly. */
module OidcExact {
  import opened OidcSession

  ghost predicate PutOf(e: Event, sid: string) {
    e.DidPut? && e.sid == sid
  }

  /** The last event that vouches for the session or revokes it vouches for it. */
  ghost predicate LastVouch(run: seq<Event>, sid: string, v: nat) {
    && v < |run| && Vouches(run[v], sid)
    && forall j :: v < j < |run| ==> !Vouches(run[j], sid) && !Revokes(run[j], sid)
  }

  ghost predicate LastPut(run: seq<Event>, sid: string, u: nat) {
    u < |run| && PutOf(run[u], sid) && forall j :: u < j < |run| ==> !PutOf(run[j], sid)
  }

  /** A put that nothing revoked since. */
  ghost predicate Standing(run: seq<Event>, sid: string) {
    exists u: nat :: LastPut(run, sid, u) && NotRevokedSince(run, sid, u)
  }

  lemma Earlier(run: seq<Event>, sid: string, u: nat)
    requires u < |run| - 1
    ensures var init, e := run[..|run| - 1], run[|run| - 1];
            && (LastPut(run, sid, u) <==> LastPut(init, sid, u) && !PutOf(e, sid))
            && (NotRevokedSince(run, sid, u) <==> NotRevokedSince(init, sid, u) && !Revokes(e, sid))
            && (LastVouch(run, sid, u) <==> LastVouch(init, sid, u) && !Vouches(e, sid) && !Revokes(e, sid))
  {
    hide Vouches, Revokes, PutOf;
    assert forall j :: 0 <= j < |run| - 1 ==> run[..|run| - 1][j] == run[j];
  }

  lemma StandingStep(run: seq<Event>, sid: string)
    requires run != []
    ensures var init, e := run[..|run| - 1], run[|run| - 1];
            Standing(run, sid) <==> PutOf(e, sid) || (Standing(init, sid) && !Revokes(e, sid))
  {
    hide Vouches, LastPut, NotRevokedSince;
    var n := |run| - 1;
    var init, e := run[..n], run[n];
    if PutOf(e, sid) {
      assert LastPut(run, sid, n) && NotRevokedSince(run, sid, n) by { AtEnd(run, sid); }
    } else {
      if Standing(init, sid) && !Revokes(e, sid) {
        var u: nat :| LastPut(init, sid, u) && NotRevokedSince(init, sid, u);
        PutBound(init, sid, u);
        Earlier(run, sid, u);
      }
      if Standing(run, sid) {
        var u: nat :| LastPut(run, sid, u) && NotRevokedSince(run, sid, u);
        PutBound(run, sid, u);
        Earlier(run, sid, u);
      }
    }
  }

  lemma PutBound(run: seq<Event>, sid: string, u: nat)
    requires LastPut(run, sid, u)
    ensures u < |run| && PutOf(run[u], sid)
  {
  }

  lemma AtEnd(run: seq<Event>, sid: string)
    requires run != [] && PutOf(run[|run| - 1], sid)
    ensures LastPut(run, sid, |run| - 1) && NotRevokedSince(run, sid, |run| - 1)
  {
  }

  /** A session is registered exactly while a put of it stands. */
  lemma {:induction false} RegisteredExactly(run: seq<Event>, sid: string)
    requires sid != ""
    ensures sid in After(run).sessions <==> Standing(run, sid)
  {
    if run != [] {
      RegisteredExactly(run[..|run| - 1], sid);
      StandingStep(run, sid);
      hide Standing;
    }
  }

  /** It is registered with what was put last. */
  lemma {:induction false} RegisteredWith(run: seq<Event>, sid: string, u: nat)
    requires sid != "" && sid in After(run).sessions && LastPut(run, sid, u)
    ensures After(run).sessions[sid] == Stamped(run[u].sess, run[u].at)
    decreases |run|
  {
    var n := |run| - 1;
    if u < n {
      Earlier(run, sid, u);
      hide LastPut, LastVouch, NotRevokedSince;
      assert run[..n][u] == run[u];
      RegisteredWith(run[..n], sid, u);
    }
  }

  /** The cache holds what was last vouched for, one lifetime long. */
  lemma {:induction false} CachedExactly(run: seq<Event>, sid: string, v: nat)
    requires sid != "" && LastVouch(run, sid, v)
    ensures sid in After(run).cache && After(run).cache[sid] == CacheEntry(true, run[v].at + CACHE_TTL)
    decreases |run|
  {
    var n := |run| - 1;
    if v < n {
      Earlier(run, sid, v);
      hide LastPut, LastVouch, NotRevokedSince;
      assert run[..n][v] == run[v];
      CachedExactly(run[..n], sid, v);
    }
  }

  lemma {:induction false} SomeLastVouch(run: seq<Event>, sid: string, u: nat) returns (v: nat)
    requires u < |run| && Vouches(run[u], sid) && NotRevokedSince(run, sid, u)
    ensures u <= v && LastVouch(run, sid, v)
    decreases |run| - u
  {
    if forall j :: u < j < |run| ==> !Vouches(run[j], sid) {
      v := u;
    } else {
      var j :| u < j < |run| && Vouches(run[j], sid);
      v := SomeLastVouch(run, sid, j);
    }
  }

  /** A look at a session that no put stands for finds no. */
  lemma LookFindsNo(run: seq<Event>, sid: string, now: int, since: int)
    requires sid != "" && !Standing(run, sid)
    ensures Consult(After(run), sid, now, since) == Answer(false)
  {
    RegisteredExactly(run, sid);
    hide After, Standing;
  }

  /** A session that a put stands for was vouched for last by some event, and put last by some event. */
  lemma StandingIsVouched(run: seq<Event>, sid: string) returns (v: nat, u: nat)
    requires Standing(run, sid)
    ensures LastVouch(run, sid, v) && LastPut(run, sid, u) && u <= v
  {
    u :| LastPut(run, sid, u) && NotRevokedSince(run, sid, u);
    v := SomeLastVouch(run, sid, u);
  }

  /** What a look at such a session finds, exactly: yes before 30 s have passed since it was
      last vouched for, and from then on it asks about the token put last. */
  lemma LookExactly(run: seq<Event>, sid: string, now: int, since: int, v: nat, u: nat)
    requires Timely(run) && sid != "" && now <= since
    requires Standing(run, sid) && LastVouch(run, sid, v) && LastPut(run, sid, u)
    ensures Consult(After(run), sid, now, since)
            == if now < run[v].at + 30_000_000_000 then Answer(true) else Ask(run[u].sess.accessToken)
  {
    RegisteredExactly(run, sid);
    RegisteredWith(run, sid, u);
    CachedExactly(run, sid, v);
    PutBefore(run, sid, v, u);
    hide After, Standing, NotRevokedSince, LastVouch, LastPut, Timely, Vouches, Revokes, PutOf;
  }

  lemma PutBefore(run: seq<Event>, sid: string, v: nat, u: nat)
    requires Timely(run) && LastVouch(run, sid, v) && LastPut(run, sid, u)
    ensures u < |run| && v < |run| && run[u].DidPut? && (run[v].DidPut? || run[v].DidRecord?)
    ensures Stamped(run[u].sess, run[u].at).createdAt <= run[v].at
  {
    assert Vouches(run[u], sid);
    assert u <= v;
  }

  /** In a store of any history, a registered session that the cache does not decide is
      taken to be live while it is less than 30 s old, and is asked about from then on. */
  lemma UncachedByAge(s: Store, sid: string, now: int, since: int)
    requires sid in s.sessions && s.sessions[sid].createdAt != 0
    requires sid !in s.cache || s.cache[sid].expiresAt <= now
    ensures Consult(s, sid, now, since) == Answer(true) <==> since < s.sessions[sid].createdAt + 30_000_000_000
    ensures Consult(s, sid, now, since) != Answer(true) ==>
              Consult(s, sid, now, since) == Ask(s.sessions[sid].accessToken)
  {
  }
}
