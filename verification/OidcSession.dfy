/** The OIDC session store of internal/auth/oidc_session.go. Instants are in
    nanoseconds; 0 is Go's zero time. */
module OidcSession {
  import opened Strings

  const CACHE_TTL := 30_000_000_000   // introspectCacheTTL

  datatype Session = Session(accessToken: string, createdAt: int)

  datatype CacheEntry = CacheEntry(active: bool, expiresAt: int)

  datatype Store = Store(sessions: map<string, Session>, cache: map<string, CacheEntry>)

  const EmptyStore := Store(map[], map[])

  //// The critical sections

  function Stamped(sess: Session, now: int): Session {
    if sess.createdAt == 0 then sess.(createdAt := now) else sess
  }

  function Put(s: Store, sid: string, sess: Session, now: int): Store {
    if sid == "" then s
    else Store(s.sessions[sid := Stamped(sess, now)], s.cache[sid := CacheEntry(true, now + CACHE_TTL)])
  }

  function Delete(s: Store, sid: string): Store {
    if sid == "" then s else Store(s.sessions - {sid}, s.cache - {sid})
  }

  /** What Active does with what it read under the lock: an answer, or a question
      to the identity provider about a token. */
  datatype Look = Answer(active: bool) | Ask(token: string)

  /** Active up to the introspection call. `s` is what it read; `now` and `since` are the
      later clock readings that it compares with the cache entry and with the age of
      the session. */
  function Consult(s: Store, sid: string, now: int, since: int): Look {
    if sid !in s.sessions then Answer(false)
    else
      var sess := s.sessions[sid];
      if sid in s.cache && now < s.cache[sid].expiresAt then Answer(s.cache[sid].active)
      else if sess.createdAt != 0 && since - sess.createdAt < CACHE_TTL then Answer(true)
      else Ask(sess.accessToken)
  }

  /** The write-back after introspection answered. */
  function Record(s: Store, sid: string, active: bool, now: int): Store {
    Store(if active then s.sessions else s.sessions - {sid},
          s.cache[sid := CacheEntry(active, now + CACHE_TTL)])
  }

  //// The object

  class OidcSessionStore {
    var sessions: map<string, Session>
    var cache: map<string, CacheEntry>

    constructor ()
      ensures View() == EmptyStore
    {
      sessions, cache := map[], map[];
    }

    ghost function View(): Store
      reads this
    {
      Store(sessions, cache)
    }

    method PutSession(sid: string, sess: Session, now: int)
      modifies this
      ensures View() == Put(old(View()), sid, sess, now)
    {
      if sid == "" { return; }
      var stored := sess;
      if sess.createdAt == 0 {
        stored := sess.(createdAt := now);
      }
      sessions := sessions[sid := stored];
      cache := cache[sid := CacheEntry(true, now + CACHE_TTL)];
    }

    method DeleteSession(sid: string)
      modifies this
      ensures View() == Delete(old(View()), sid)
    {
      if sid == "" { return; }
      sessions := sessions - {sid};
      cache := cache - {sid};
    }

    /** Active up to the introspection call. */
    method LookUp(sid: string, now: int, since: int) returns (look: Look)
      ensures look == Consult(View(), sid, now, since)
    {
      if sid !in sessions { return Answer(false); }
      var sess := sessions[sid];
      if sid in cache && now < cache[sid].expiresAt {
        return Answer(cache[sid].active);
      }
      if sess.createdAt != 0 && since - sess.createdAt < CACHE_TTL {
        return Answer(true);
      }
      return Ask(sess.accessToken);
    }

    /** The second critical section of Active. */
    method WriteBack(sid: string, active: bool, now: int)
      modifies this
      ensures View() == Record(old(View()), sid, active, now)
    {
      cache := cache[sid := CacheEntry(active, now + CACHE_TTL)];
      if !active {
        sessions := sessions - {sid};
      }
    }

    /** Active when no other call runs in between. `introspect` is the identity
        provider's answer for a token, None for an error; `later` is the clock
        after it answered. */
    method Active(sid: string, introspect: string -> Option<bool>, now: int, since: int, later: int)
      returns (active: bool, failed: bool)
      modifies this
      ensures match Consult(old(View()), sid, now, since)
              case Answer(a) => View() == old(View()) && active == a && !failed
              case Ask(token) =>
                match introspect(token)
                case None => View() == old(View()) && !active && failed
                case Some(a) => View() == Record(old(View()), sid, a, later) && active == a && !failed
    {
      var look := LookUp(sid, now, since);
      if look.Answer? { return look.active, false; }
      var answer := introspect(look.token);
      if answer.None? { return false, true; }
      WriteBack(sid, answer.value, later);
      return answer.value, false;
    }
  }

  //// Runs: critical sections of any number of calls, in any interleaving

  /** A call of Active is known by the position of its look in the run. It reads the
      tables at one time and compares with two later clock readings; it may record
      what the provider said; it returns. */
  datatype Event =
    | DidPut(sid: string, sess: Session, at: int)
    | DidDelete(sid: string, at: int)
    | DidLook(sid: string, at: int, now: int, since: int)
    | DidRecord(sid: string, call: nat, active: bool, at: int)
    | DidReturn(sid: string, call: nat, at: int)

  function Apply(s: Store, e: Event): Store {
    match e
    case DidPut(sid, sess, at) => Put(s, sid, sess, at)
    case DidDelete(sid, at) => Delete(s, sid)
    case DidRecord(sid, call, active, at) => Record(s, sid, active, at)
    case _ => s
  }

  function After(run: seq<Event>): Store {
    if run == [] then EmptyStore else Apply(After(run[..|run| - 1]), run[|run| - 1])
  }

  /** What the look at position `call` found. */
  function Looked(run: seq<Event>, call: nat): Look
    requires call < |run| && run[call].DidLook?
  {
    Consult(After(run[..call]), run[call].sid, run[call].now, run[call].since)
  }

  /** What the provider told the call, if it answered. */
  function Said(run: seq<Event>, call: nat): Option<bool> {
    if run == [] then None
    else
      var e := run[|run| - 1];
      if e.DidRecord? && e.call == call then Some(e.active) else Said(run[..|run| - 1], call)
  }

  /** The events of a call: a record follows a look that asked, once; a return follows
      its look. A call that asked and heard nothing returns false with an error. */
  ghost predicate Protocol(run: seq<Event>) {
    forall i :: 0 <= i < |run| && (run[i].DidRecord? || run[i].DidReturn?) ==>
      && run[i].call < i && run[run[i].call].DidLook? && run[run[i].call].sid == run[i].sid
      && (run[i].DidRecord? ==> Looked(run, run[i].call).Ask? && Said(run[..i], run[i].call).None?)
  }

  /** The value that the call returning at position j returns. */
  predicate Returned(run: seq<Event>, j: nat)
    requires j < |run| && run[j].DidReturn? && run[j].call < j && run[run[j].call].DidLook?
  {
    match Looked(run, run[j].call)
    case Answer(active) => active
    case Ask(token) => Said(run[..j], run[j].call) == Some(true)
  }

  /** The clock runs forward, and no session was created in the future. */
  ghost predicate Timely(run: seq<Event>) {
    && (forall i, j :: 0 <= i < j < |run| ==> run[i].at <= run[j].at)
    && (forall i :: 0 <= i < |run| && run[i].DidPut? ==> run[i].sess.createdAt <= run[i].at)
    && (forall i :: 0 <= i < |run| && run[i].DidLook? ==> run[i].at <= run[i].now <= run[i].since)
  }

  predicate Vouches(e: Event, sid: string) {
    e.sid == sid && (e.DidPut? || (e.DidRecord? && e.active))
  }

  predicate Revokes(e: Event, sid: string) {
    e.sid == sid && (e.DidDelete? || (e.DidRecord? && !e.active))
  }

  //// Bounded staleness

  ghost predicate NotRevokedSince(run: seq<Event>, sid: string, i: nat) {
    forall j :: i < j < |run| ==> !Revokes(run[j], sid)
  }

  /** A positive cache entry was written by a vouching event, one TTL before it
      expires, and nothing revoked the session since. */
  ghost predicate CacheBacked(run: seq<Event>, sid: string) {
    var s := After(run);
    sid in s.cache && s.cache[sid].active ==>
      exists i :: 0 <= i < |run| && Vouches(run[i], sid) && run[i].at + CACHE_TTL == s.cache[sid].expiresAt
                  && NotRevokedSince(run, sid, i)
  }

  /** A registered session was put no earlier than its creation time, and nothing
      revoked it since. */
  ghost predicate SessionBacked(run: seq<Event>, sid: string) {
    var s := After(run);
    sid in s.sessions ==>
      exists i :: 0 <= i < |run| && Vouches(run[i], sid) && s.sessions[sid].createdAt <= run[i].at
                  && NotRevokedSince(run, sid, i)
  }

  lemma NotRevokedSnoc(run: seq<Event>, sid: string, i: nat)
    requires run != [] && i < |run| - 1 && NotRevokedSince(run[..|run| - 1], sid, i) && !Revokes(run[|run| - 1], sid)
    ensures NotRevokedSince(run, sid, i)
  {
    forall j | i < j < |run| ensures !Revokes(run[j], sid) {
      if j < |run| - 1 { assert run[..|run| - 1][j] == run[j]; }
    }
  }

  lemma {:induction false} CacheIsBacked(run: seq<Event>, sid: string)
    requires sid != ""
    ensures CacheBacked(run, sid)
  {
    if run != [] {
      var n := |run| - 1;
      var init, s' := run[..n], After(run);
      CacheIsBacked(init, sid);
      if sid in s'.cache && s'.cache[sid].active {
        if Vouches(run[n], sid) {
          assert NotRevokedSince(run, sid, n);
        } else {
          var s := After(init);
          assert !Revokes(run[n], sid) && s.cache[sid] == s'.cache[sid];
          var i :| 0 <= i < n && Vouches(init[i], sid) && init[i].at + CACHE_TTL == s.cache[sid].expiresAt
                   && NotRevokedSince(init, sid, i);
          NotRevokedSnoc(run, sid, i);
          assert Vouches(run[i], sid);
        }
      }
    }
  }

  lemma {:induction false} SessionIsBacked(run: seq<Event>, sid: string)
    requires Timely(run) && sid != ""
    ensures SessionBacked(run, sid)
  {
    if run != [] {
      var n := |run| - 1;
      var init, s' := run[..n], After(run);
      SessionIsBacked(init, sid);
      if sid in s'.sessions {
        if run[n].DidPut? && run[n].sid == sid {
          assert Vouches(run[n], sid) && NotRevokedSince(run, sid, n);
        } else {
          var s := After(init);
          assert !Revokes(run[n], sid) && s.sessions[sid] == s'.sessions[sid];
          var i :| 0 <= i < n && Vouches(init[i], sid) && s.sessions[sid].createdAt <= init[i].at
                   && NotRevokedSince(init, sid, i);
          NotRevokedSnoc(run, sid, i);
          assert Vouches(run[i], sid);
        }
      }
    }
  }

  /** A look that finds yes: the session was registered, and within the last 30 s it was
      put or confirmed by introspection and not revoked after that. */
  lemma YesIsFresh(run: seq<Event>, sid: string, now: int, since: int)
    requires Timely(run) && sid != "" && now <= since
    requires Consult(After(run), sid, now, since) == Answer(true)
    ensures sid in After(run).sessions
    ensures exists i :: 0 <= i < |run| && Vouches(run[i], sid) && now - run[i].at < CACHE_TTL
                        && NotRevokedSince(run, sid, i)
  {
    CacheIsBacked(run, sid);
    SessionIsBacked(run, sid);
    hide After, NotRevokedSince;
  }

  lemma {:induction false} SaidHasRecord(run: seq<Event>, call: nat)
    requires Said(run, call).Some?
    ensures exists r :: 0 <= r < |run| && run[r].DidRecord? && run[r].call == call
                        && Said(run, call) == Some(run[r].active)
  {
    var n := |run| - 1;
    if !(run[n].DidRecord? && run[n].call == call) {
      SaidHasRecord(run[..n], call);
      var r :| 0 <= r < n && run[..n][r].DidRecord? && run[..n][r].call == call
               && Said(run[..n], call) == Some(run[..n][r].active);
      assert run[r] == run[..n][r];
    }
  }

  lemma TimelyPrefix(run: seq<Event>, n: nat)
    requires Timely(run) && n <= |run|
    ensures Timely(run[..n])
  {
  }

  /** The event v backs a call that looked at position `call`: less than 30 s before it
      read its clock the session was put or confirmed and not revoked up to the look, or the
      provider confirmed it to this very call. */
  ghost predicate Backs(run: seq<Event>, v: nat, call: nat, j: nat)
    requires call < j < |run| && run[call].DidLook?
  {
    var sid := run[call].sid;
    && v < j && Vouches(run[v], sid)
    && (|| (v < call && run[call].now - run[v].at < CACHE_TTL && NotRevokedSince(run[..call], sid, v))
        || (call < v && run[v].DidRecord? && run[v].call == call))
  }

  /** Every call that returns true, cached and provider-answered alike, looked at a
      registered session and is backed. */
  lemma ReturnedTrueIsBacked(run: seq<Event>, j: nat)
    requires Protocol(run) && Timely(run)
    requires j < |run| && run[j].DidReturn? && run[j].sid != "" && Returned(run, j)
    ensures run[j].sid in After(run[..run[j].call]).sessions
    ensures exists v: nat :: Backs(run, v, run[j].call, j)
  {
    var call, sid := run[j].call, run[j].sid;
    var before := run[..call];
    if Looked(run, call).Answer? {
      TimelyPrefix(run, call);
      YesIsFresh(before, sid, run[call].now, run[call].since);
      var v :| 0 <= v < |before| && Vouches(before[v], sid) && run[call].now - before[v].at < CACHE_TTL
               && NotRevokedSince(before, sid, v);
      assert run[v] == before[v];
      assert Backs(run, v, call, j);
    } else {
      SaidHasRecord(run[..j], call);
      var r :| 0 <= r < j && run[..j][r].DidRecord? && run[..j][r].call == call && run[..j][r].active;
      assert run[r] == run[..j][r];
      assert Backs(run, r, call, j);
    }
  }

  /** After a delete, or an inactive introspection, every call that looks before the
      next put answers no, also when a late write-back of another call, positive
      or not, lands in between. */
  lemma {:induction false} RevokedStaysRevoked(run: seq<Event>, sid: string, i: nat, now: int, since: int)
    requires sid != "" && i < |run| && Revokes(run[i], sid)
    requires forall j :: i < j < |run| ==> !(run[j].DidPut? && run[j].sid == sid)
    ensures sid !in After(run).sessions && Consult(After(run), sid, now, since) == Answer(false)
    decreases |run|
  {
    var n := |run| - 1;
    if i < n {
      assert run[..n][i] == run[i];
      RevokedStaysRevoked(run[..n], sid, i, now, since);
    }
  }

  /** Which calls still return true after a revocation that no put follows: exactly those
      that looked before it and found yes, or asked and were told yes. */
  lemma ReturnedAfterRevocation(run: seq<Event>, i: nat, j: nat)
    requires Protocol(run) && i < j < |run| && run[j].DidReturn? && run[j].sid != "" && Revokes(run[i], run[j].sid)
    requires forall k :: i < k < j ==> !(run[k].DidPut? && run[k].sid == run[j].sid)
    ensures Returned(run, j) <==>
              && run[j].call < i
              && (|| Looked(run, run[j].call) == Answer(true)
                  || (Looked(run, run[j].call).Ask? && Said(run[..j], run[j].call) == Some(true)))
  {
    var call := run[j].call;
    if i < call {
      assert run[..call][i] == run[i];
      RevokedStaysRevoked(run[..call], run[j].sid, i, run[call].now, run[call].since);
    }
  }

  /** A look at a session put at time 1. */
  lemma LookAfterPut(run: seq<Event>)
    requires |run| >= 2 && run[0] == DidPut("s", Session("tok", 1), 1) && run[1].DidLook? && run[1].sid == "s"
             && run[1].now == run[1].since
    ensures Looked(run, 1) == if run[1].now < 1 + CACHE_TTL then Answer(true) else Ask("tok")
  {
    assert run[..1][..0] == [] && run[..1][0] == run[0];
    assert After(run[..1]) == Put(EmptyStore, "s", run[0].sess, 1);
  }

  /** A call that asked before a delete returns after it what the provider said. */
  lemma AskedTrueAfterDelete()
    ensures var t := 40_000_000_000;
            var run := [DidPut("s", Session("tok", 1), 1), DidLook("s", t, t, t), DidDelete("s", t + 1),
                        DidRecord("s", 1, true, t + 2), DidReturn("s", 1, t + 3)];
            Protocol(run) && Timely(run) && Returned(run, 4)
  {
    var t := 40_000_000_000;
    var run := [DidPut("s", Session("tok", 1), 1), DidLook("s", t, t, t), DidDelete("s", t + 1),
                DidRecord("s", 1, true, t + 2), DidReturn("s", 1, t + 3)];
    LookAfterPut(run);
    SaidNothing(run[..3], 1);
    assert Said(run[..4], 1) == Some(true);
    hide Looked, Said, After, Apply, Consult;
  }

  /** A call that read a cached yes before a delete returns it after. */
  lemma CachedTrueAfterDelete()
    ensures var run := [DidPut("s", Session("tok", 1), 1), DidLook("s", 2, 2, 2), DidDelete("s", 3),
                        DidReturn("s", 1, 4)];
            Protocol(run) && Timely(run) && Returned(run, 3)
  {
    var run := [DidPut("s", Session("tok", 1), 1), DidLook("s", 2, 2, 2), DidDelete("s", 3), DidReturn("s", 1, 4)];
    LookAfterPut(run);
    hide Looked, Said, After, Apply, Consult;
  }

  lemma {:induction false} SaidNothing(run: seq<Event>, call: nat)
    requires forall i :: 0 <= i < |run| ==> !run[i].DidRecord?
    ensures Said(run, call) == None
  {
    if run != [] { SaidNothing(run[..|run| - 1], call); }
  }
}
