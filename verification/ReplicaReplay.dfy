/** Replay at the peer API: when a node can act twice on one nonce. */
module ReplicaReplay {
  import opened Clock
  import opened Replica
  import opened ReplicaTheorems
  import RN = ReplicaNonces

  /** The node as the run finds it at step i. */
  function NodeAt(p: Primitives, secret: string, run: seq<Step>, i: nat, node: string): Node
    requires i <= |run|
  {
    At(After(p, secret, run[..i]), node)
  }

  /** Step i is a request that reaches the nonce table of its node. */
  predicate Reaches(p: Primitives, secret: string, run: seq<Step>, i: nat)
    requires i < |run|
  {
    run[i].Peer? && Refusal(p, Identity(secret, run[i].node), run[i].request, run[i].env).None?
  }

  function Expiry(p: Primitives, r: Request): int {
    if p.parseInt(r.expires).Some? then p.parseInt(r.expires).value else 0
  }

  /** Step i is a request that its node acts on: it passes every check and its nonce is
      admitted. */
  predicate ActedOn(p: Primitives, secret: string, run: seq<Step>, i: nat)
    requires i < |run|
  {
    && Reaches(p, secret, run, i)
    && RN.Admits(NodeAt(p, secret, run, i, run[i].node).seen, run[i].request.nonce, run[i].env.admitted / SECOND)
  }

  /** Step k is a request at which the node purges its table, at a time past `exp`: the
      table holds more than 256 entries, and the nonce is not empty. */
  predicate PurgesPast(p: Primitives, secret: string, run: seq<Step>, k: nat, node: string, exp: int)
    requires k < |run|
  {
    && Reaches(p, secret, run, k) && run[k].node == node && run[k].request.nonce != ""
    && |NodeAt(p, secret, run, k, node).seen| > 256
    && run[k].env.admitted / SECOND > exp
  }

  /** Step k makes the node forget a nonce of that expiry: it restarts, or purges past it. */
  predicate Forgets(p: Primitives, secret: string, run: seq<Step>, k: nat, node: string, exp: int)
    requires k < |run|
  {
    run[k] == Restart(node) || PurgesPast(p, secret, run, k, node, exp)
  }

  /** A node's clock runs forward, within a request and from one to the next. */
  ghost predicate ClockRuns(run: seq<Step>, node: string) {
    && (forall i :: 0 <= i < |run| && run[i].Peer? && run[i].node == node ==> run[i].env.checked <= run[i].env.admitted)
    && (forall i, j :: 0 <= i < j < |run| && run[i].Peer? && run[j].Peer? && run[i].node == run[j].node == node ==>
          run[i].env.admitted <= run[j].env.admitted)
  }

  lemma HandleSeen(p: Primitives, id: Identity, n: Node, rows: Rows, r: Request, e: Env)
    ensures Handle(p, id, n, rows, r, e).node.seen
            == if Refusal(p, id, r, e).None? then RN.Record(n.seen, r.nonce, Expiry(p, r), e.admitted / SECOND)
               else n.seen
  {
    hide MacOK, ExpiryOK, Canon, BodyHash, Serve, StorePut, RN.Record, RN.Admits;
  }

  /** A step changes a node's table only by a request that reaches it, or by a restart. */
  lemma SeenAfter(p: Primitives, secret: string, run: seq<Step>, i: nat, node: string)
    requires i < |run|
    ensures NodeAt(p, secret, run, i + 1, node).seen
            == if Reaches(p, secret, run, i) && run[i].node == node
               then RN.Record(NodeAt(p, secret, run, i, node).seen, run[i].request.nonce, Expiry(p, run[i].request),
                              run[i].env.admitted / SECOND)
               else if run[i] == Restart(node) then map[]
               else NodeAt(p, secret, run, i, node).seen
  {
    AfterStep(p, secret, run, i);
    hide Handle, Refusal, Pull, RN.Record, After, Expiry;
    var w := After(p, secret, run[..i]);
    if run[i].Peer? {
      HandleSeen(p, Identity(secret, run[i].node), At(w, run[i].node), w.rows, run[i].request, run[i].env);
    }
  }

  lemma AfterStep(p: Primitives, secret: string, run: seq<Step>, i: nat)
    requires i < |run|
    ensures After(p, secret, run[..i + 1]) == Next(p, secret, After(p, secret, run[..i]), run[i])
  {
    assert run[..i + 1][..i] == run[..i] && run[..i + 1][i] == run[i];
    hide Next;
  }

  /** Some step after i and before n forgets nonces that expire at `exp`. */
  ghost predicate ForgottenBetween(p: Primitives, secret: string, run: seq<Step>, i: nat, n: nat, node: string,
                                   exp: int)
    requires n <= |run|
  {
    exists k :: i < k < n && Forgets(p, secret, run, k, node, exp)
  }

  /** What one call of the nonce table does to an entry: it stays as it is, unless the
      call purges a table of more than 256 entries past its expiry. */
  lemma EntryKept(seen: RN.Seen, nonce: string, other: string, exp: int, now: int)
    requires nonce in seen && (|seen| > RN.PURGE_ABOVE && other != "" ==> seen[nonce] >= now)
    ensures nonce in RN.Record(seen, other, exp, now) && RN.Record(seen, other, exp, now)[nonce] == seen[nonce]
    ensures other == nonce ==> !RN.Admits(seen, nonce, now)
  {
  }

  /** The table of its node holds the nonce that step i acted on, with its expiry. */
  predicate Recorded(p: Primitives, secret: string, run: seq<Step>, i: nat, n: nat)
    requires i < n <= |run| && run[i].Peer?
  {
    var seen := NodeAt(p, secret, run, n, run[i].node).seen;
    run[i].request.nonce in seen && seen[run[i].request.nonce] == Expiry(p, run[i].request)
  }

  lemma RecordedAtOnce(p: Primitives, secret: string, run: seq<Step>, i: nat)
    requires i < |run| && ActedOn(p, secret, run, i)
    ensures Recorded(p, secret, run, i, i + 1)
  {
    SeenAfter(p, secret, run, i, run[i].node);
    hide NodeAt, Expiry, Refusal;
  }

  lemma RecordedOn(p: Primitives, secret: string, run: seq<Step>, i: nat, n: nat)
    requires i < n < |run| && run[i].Peer? && Recorded(p, secret, run, i, n)
    ensures Recorded(p, secret, run, i, n + 1) || Forgets(p, secret, run, n, run[i].node, Expiry(p, run[i].request))
  {
    hide RN.Record, NodeAt, Refusal, Expiry;
    var node, nonce, exp := run[i].node, run[i].request.nonce, Expiry(p, run[i].request);
    SeenAfter(p, secret, run, n, node);
    if Reaches(p, secret, run, n) && run[n].node == node {
      var seen, now := NodeAt(p, secret, run, n, node).seen, run[n].env.admitted / SECOND;
      if !(|seen| > RN.PURGE_ABOVE && exp < now && run[n].request.nonce != "") {
        EntryKept(seen, nonce, run[n].request.nonce, Expiry(p, run[n].request), now);
      }
    }
  }

  /** From the step that acts on it, a nonce stays recorded with its expiry until a restart
      or a purge past that expiry. */
  lemma {:induction false} Remembered(p: Primitives, secret: string, run: seq<Step>, i: nat, n: nat)
    requires i < n <= |run| && ActedOn(p, secret, run, i)
    ensures || Recorded(p, secret, run, i, n)
            || ForgottenBetween(p, secret, run, i, n, run[i].node, Expiry(p, run[i].request))
    decreases n
  {
    hide NodeAt, Expiry, Recorded, Forgets, RN.Admits, Refusal;
    if n == i + 1 {
      RecordedAtOnce(p, secret, run, i);
    } else {
      Remembered(p, secret, run, i, n - 1);
      if Recorded(p, secret, run, i, n - 1) { RecordedOn(p, secret, run, i, n - 1); }
    }
  }

  ghost predicate RestartedBetween(run: seq<Step>, i: nat, n: nat, node: string)
    requires n <= |run|
  {
    exists k :: i < k < n && run[k] == Restart(node)
  }

  /** A node acts twice on one nonce only if it restarted in between, or past the expiry
      that the first request carried and after purging a table of more than 256 entries
      past that expiry. If the second request carries the same expiry, it was checked
      within the 5 s grace. */
  lemma ReplayBound(p: Primitives, secret: string, run: seq<Step>, i: nat, j: nat)
    requires i < j < |run| && ActedOn(p, secret, run, i) && ActedOn(p, secret, run, j)
    requires run[i].node == run[j].node && run[i].request.nonce == run[j].request.nonce
    requires ClockRuns(run, run[i].node)
    ensures var node, exp, env := run[i].node, Expiry(p, run[i].request), run[j].env;
            && (|| RestartedBetween(run, i, j, node)
                || (&& env.admitted >= (exp + 1) * SECOND
                    && exists k :: i < k <= j && PurgesPast(p, secret, run, k, node, exp)))
            && (run[j].request.expires == run[i].request.expires ==> env.checked <= (exp + 5) * SECOND)
  {
    hide ActedOn, NodeAt, Refusal, Expiry;
    ActedReaches(p, secret, run, i);
    var node, exp := run[i].node, Expiry(p, run[i].request);
    ActedReaches(p, secret, run, j);
    InTime(p, secret, run, j);
    AgainForgot(p, secret, run, i, j);
    var k :| i < k < j + 1 && Forgets(p, secret, run, k, node, exp);
    if run[k] == Restart(node) {
      assert RestartedBetween(run, i, j, node);
    } else {
      Later(run[k].env.admitted, run[j].env.admitted, exp);
    }
    if run[j].request.expires == run[i].request.expires { SameExpiry(p, run[i].request, run[j].request); }
  }

  lemma AgainForgot(p: Primitives, secret: string, run: seq<Step>, i: nat, j: nat)
    requires i < j < |run| && ActedOn(p, secret, run, i) && ActedOn(p, secret, run, j)
    requires run[i].node == run[j].node && run[i].request.nonce == run[j].request.nonce
    ensures ForgottenBetween(p, secret, run, i, j + 1, run[i].node, Expiry(p, run[i].request))
  {
    Remembered(p, secret, run, i, j);
    ActedReaches(p, secret, run, j);
    hide RN.Record, RN.Admits, NodeAt, Refusal, Expiry;
    var node, nonce, exp := run[i].node, run[i].request.nonce, Expiry(p, run[i].request);
    ForgottenOneMore(p, secret, run, i, j, node, exp);
    if Recorded(p, secret, run, i, j) && !PurgesPast(p, secret, run, j, node, exp) {
      EntryKept(NodeAt(p, secret, run, j, node).seen, nonce, nonce, exp, run[j].env.admitted / SECOND);
    }
  }

  lemma SameExpiry(p: Primitives, r: Request, s: Request)
    requires r.expires == s.expires
    ensures Expiry(p, r) == Expiry(p, s)
  {
  }

  lemma InTime(p: Primitives, secret: string, run: seq<Step>, j: nat)
    requires j < |run| && Reaches(p, secret, run, j)
    ensures ExpiryOK(Expiry(p, run[j].request), run[j].env.checked)
  {
    hide MacOK, ExpiryOK, Canon, BodyHash;
  }

  lemma Later(t: int, u: int, exp: int)
    requires t <= u && t / SECOND > exp
    ensures u >= (exp + 1) * SECOND
  {
  }

  //// Exactly when

  /** No step between i and n acts on the nonce of step i, at its node. */
  ghost predicate QuietBetween(p: Primitives, secret: string, run: seq<Step>, i: nat, n: nat)
    requires i < n <= |run| && run[i].Peer?
  {
    forall m :: i < m < n && run[m].Peer? && run[m].node == run[i].node && run[m].request.nonce == run[i].request.nonce
                ==> !ActedOn(p, secret, run, m)
  }

  /** What one call does to the presence of a nonce that it does not admit. */
  lemma PresenceStep(seen: RN.Seen, nonce: string, other: string, exp: int, now: int)
    requires nonce != "" && (other == nonce ==> !RN.Admits(seen, nonce, now))
    ensures nonce in RN.Record(seen, other, exp, now) <==>
              nonce in seen && !(other != "" && |seen| > RN.PURGE_ABOVE && seen[nonce] < now)
    ensures nonce in RN.Record(seen, other, exp, now) ==> RN.Record(seen, other, exp, now)[nonce] == seen[nonce]
  {
  }

  lemma ActedReaches(p: Primitives, secret: string, run: seq<Step>, i: nat)
    requires i < |run| && ActedOn(p, secret, run, i)
    ensures run[i].Peer? && Reaches(p, secret, run, i) && run[i].request.nonce != ""
  {
  }

  /** The nonce of step i is in its node's table before step n exactly if no restart
      and no purge past its expiry came in between, and then with its expiry. */
  ghost predicate PresentUnlessForgotten(p: Primitives, secret: string, run: seq<Step>, i: nat, n: nat)
    requires i < n <= |run| && run[i].Peer?
  {
    var exp := Expiry(p, run[i].request);
    && (Recorded(p, secret, run, i, n) <==> !ForgottenBetween(p, secret, run, i, n, run[i].node, exp))
    && (Recorded(p, secret, run, i, n) <==> run[i].request.nonce in NodeAt(p, secret, run, n, run[i].node).seen)
  }

  lemma PresentStep(p: Primitives, secret: string, run: seq<Step>, i: nat, m: nat)
    requires i < m < |run| && run[i].Peer? && run[i].request.nonce != "" && PresentUnlessForgotten(p, secret, run, i, m)
    requires run[m].Peer? && run[m].node == run[i].node && run[m].request.nonce == run[i].request.nonce
             ==> !ActedOn(p, secret, run, m)
    ensures PresentUnlessForgotten(p, secret, run, i, m + 1)
  {
    hide RN.Record, RN.Admits, NodeAt, Expiry, Refusal, ForgottenBetween;
    var node, nonce, exp := run[i].node, run[i].request.nonce, Expiry(p, run[i].request);
    SeenAfter(p, secret, run, m, node);
    ForgottenOneMore(p, secret, run, i, m, node, exp);
    if Reaches(p, secret, run, m) && run[m].node == node {
      PresenceStep(NodeAt(p, secret, run, m, node).seen, nonce, run[m].request.nonce, Expiry(p, run[m].request),
                   run[m].env.admitted / SECOND);
    }
  }

  /** While nobody acts on it again, a nonce is in the table exactly until a restart or a
      purge past its expiry. */
  lemma {:induction false} PresentUntilForgotten(p: Primitives, secret: string, run: seq<Step>, i: nat, n: nat)
    requires i < n <= |run| && ActedOn(p, secret, run, i) && QuietBetween(p, secret, run, i, n)
    ensures PresentUnlessForgotten(p, secret, run, i, n)
    decreases n
  {
    hide PresentUnlessForgotten, ActedOn, Reaches, NodeAt;
    ActedReaches(p, secret, run, i);
    if n == i + 1 {
      PresentAtOnce(p, secret, run, i);
    } else {
      PresentUntilForgotten(p, secret, run, i, n - 1);
      PresentStep(p, secret, run, i, n - 1);
    }
  }

  lemma PresentAtOnce(p: Primitives, secret: string, run: seq<Step>, i: nat)
    requires i < |run| && ActedOn(p, secret, run, i)
    ensures PresentUnlessForgotten(p, secret, run, i, i + 1)
  {
    RecordedAtOnce(p, secret, run, i);
    hide NodeAt, Expiry, Refusal, RN.Admits, Forgets;
  }

  lemma ForgottenOneMore(p: Primitives, secret: string, run: seq<Step>, i: nat, m: nat, node: string, exp: int)
    requires i < m < |run|
    ensures ForgottenBetween(p, secret, run, i, m + 1, node, exp) <==>
              ForgottenBetween(p, secret, run, i, m, node, exp) || Forgets(p, secret, run, m, node, exp)
  {
    hide Forgets;
  }

  /** A request with a nonce that its node acted on at step i, and has not acted on since, is
      acted on exactly when it passes the checks before the nonce and the node has restarted
      since, or purged its table past the expiry of step i, be it at this very request. */
  lemma ReplayExactly(p: Primitives, secret: string, run: seq<Step>, i: nat, j: nat)
    requires i < j < |run| && ActedOn(p, secret, run, i) && QuietBetween(p, secret, run, i, j)
    requires run[j].Peer? && run[j].node == run[i].node && run[j].request.nonce == run[i].request.nonce
    ensures ActedOn(p, secret, run, j) <==>
              && Reaches(p, secret, run, j)
              && ForgottenBetween(p, secret, run, i, j + 1, run[i].node, Expiry(p, run[i].request))
  {
    ActedReaches(p, secret, run, i);
    PresentUntilForgotten(p, secret, run, i, j);
    hide NodeAt, Expiry, Refusal, RN.Record;
    ForgottenOneMore(p, secret, run, i, j, run[i].node, Expiry(p, run[i].request));
  }

  //// A run that reaches it

  /** The k-th of the requests signed at `now` for one node, each with its own nonce. */
  function GetOf(p: Primitives, secret: string, now: int, k: nat, node: string, name: Name): Request {
    Signed(p, secret, now, RN.Nonce(k), node, "GET", name, "")
  }

  /** A request that is checked and admitted at the second `t`. */
  function ArriveAt(node: string, r: Request, t: int): Step {
    Peer(node, r, Env(t * SECOND, t * SECOND, true, true, true, PutFailed, true))
  }

  /** 257 such requests arrive at their common expiry, and the first one again a second
      later. */
  function ReplayRun(p: Primitives, secret: string, now: int, node: string, name: Name): seq<Step> {
    var exp := (now + 20 * SECOND) / SECOND;
    seq(RN.PURGE_ABOVE + 1, (k: nat) => ArriveAt(node, GetOf(p, secret, now, k, node, name), exp))
    + [ArriveAt(node, GetOf(p, secret, now, 0, node, name), exp + 1)]
  }

  lemma GetReaches(p: Primitives, secret: string, run: seq<Step>, i: nat, now: int, k: nat, node: string, name: Name,
                   t: int)
    requires Library(p) && secret != "" && node != "" && Int64(now) && name.bucket != "" && name.key != ""
    requires i < |run| && run[i] == ArriveAt(node, GetOf(p, secret, now, k, node, name), t)
    requires (now + 20 * SECOND) / SECOND <= t <= (now + 20 * SECOND) / SECOND + 1
    ensures Reaches(p, secret, run, i) && Expiry(p, run[i].request) == (now + 20 * SECOND) / SECOND
  {
    hide Refusal, Canon, HexDigests, RN.Nonce;
    assert Timely(now, t * SECOND) by {
      assert (now + 20 * SECOND) / SECOND * SECOND == now - now % SECOND + 20 * SECOND;
    }
    SignedPasses(p, Identity(secret, node), now, RN.Nonce(k), "GET", name, "", run[i].env);
  }

  lemma RunAt(p: Primitives, secret: string, now: int, node: string, name: Name, k: nat)
    requires k <= RN.PURGE_ABOVE + 1
    ensures var run, exp, n := ReplayRun(p, secret, now, node, name), (now + 20 * SECOND) / SECOND, RN.PURGE_ABOVE + 1;
            && |run| == n + 1
            && run[k] == if k < n then ArriveAt(node, GetOf(p, secret, now, k, node, name), exp)
                         else ArriveAt(node, GetOf(p, secret, now, 0, node, name), exp + 1)
  {
    hide Signed;
  }

  lemma BurstGrows(exp: int, k: nat)
    ensures RN.After(RN.Burst(exp, k + 1)) == RN.Record(RN.After(RN.Burst(exp, k)), RN.Nonce(k), exp, exp)
  {
    assert RN.Burst(exp, k + 1)[..k] == RN.Burst(exp, k);
  }

  /** The node's table after the first k of them. */
  lemma {:induction false} TableOfBurst(p: Primitives, secret: string, now: int, node: string, name: Name, k: nat)
    requires Library(p) && secret != "" && node != "" && Int64(now) && name.bucket != "" && name.key != ""
    requires k <= RN.PURGE_ABOVE + 1 && k <= |ReplayRun(p, secret, now, node, name)|
    ensures var run, exp := ReplayRun(p, secret, now, node, name), (now + 20 * SECOND) / SECOND;
            NodeAt(p, secret, run, k, node).seen == RN.After(RN.Burst(exp, k))
  {
    var run, exp := ReplayRun(p, secret, now, node, name), (now + 20 * SECOND) / SECOND;
    if k == 0 {
      hide ReplayRun;
      assert run[..0] == [];
    } else {
      hide NodeAt, Reaches, Expiry, RN.Record, RN.After, RN.Burst, ReplayRun, Library;
      TableOfBurst(p, secret, now, node, name, k - 1);
      RunAt(p, secret, now, node, name, k - 1);
      GetReaches(p, secret, run, k - 1, now, k - 1, node, name, exp);
      SeenAfter(p, secret, run, k - 1, node);
      BurstGrows(exp, k - 1);
      assert exp * SECOND / SECOND == exp;
    }
  }

  lemma FirstActedOn(p: Primitives, secret: string, now: int, node: string, name: Name)
    requires Library(p) && secret != "" && node != "" && Int64(now) && name.bucket != "" && name.key != ""
    ensures var run := ReplayRun(p, secret, now, node, name);
            run != [] && ActedOn(p, secret, run, 0)
  {
    hide NodeAt, Reaches, Expiry, RN.After, RN.Burst, ReplayRun, Library;
    var run, exp := ReplayRun(p, secret, now, node, name), (now + 20 * SECOND) / SECOND;
    RunAt(p, secret, now, node, name, 0);
    GetReaches(p, secret, run, 0, now, 0, node, name, exp);
    TableOfBurst(p, secret, now, node, name, 0);
    EmptyBurst(exp);
  }

  lemma EmptyBurst(exp: int)
    ensures RN.After(RN.Burst(exp, 0)) == map[]
  {
  }

  /** A second past the common expiry, the purge of the full table drops everything. */
  lemma BurstForgotten(exp: int)
    ensures RN.Purged(RN.After(RN.Burst(exp, RN.PURGE_ABOVE + 1)), exp + 1) == map[]
  {
    RN.BurstAdmitted(exp, RN.PURGE_ABOVE + 1);
    hide RN.After, RN.Burst;
  }

  lemma LastActedOn(p: Primitives, secret: string, now: int, node: string, name: Name)
    requires Library(p) && secret != "" && node != "" && Int64(now) && name.bucket != "" && name.key != ""
    ensures var run := ReplayRun(p, secret, now, node, name);
            |run| == RN.PURGE_ABOVE + 2 && ActedOn(p, secret, run, RN.PURGE_ABOVE + 1)
  {
    hide NodeAt, Reaches, Expiry, RN.After, RN.Burst, ReplayRun, Library, RN.Purged;
    var run, exp, n := ReplayRun(p, secret, now, node, name), (now + 20 * SECOND) / SECOND, RN.PURGE_ABOVE + 1;
    RunAt(p, secret, now, node, name, n);
    GetReaches(p, secret, run, n, now, 0, node, name, exp + 1);
    TableOfBurst(p, secret, now, node, name, n);
    BurstForgotten(exp);
    assert (exp + 1) * SECOND / SECOND == exp + 1;
  }

  /** The node acts on the first request twice: at its expiry, and a second later on the
      same request. */
  lemma ReplayReached(p: Primitives, secret: string, now: int, node: string, name: Name)
    requires Library(p) && secret != "" && node != "" && Int64(now) && name.bucket != "" && name.key != ""
    ensures var run, n := ReplayRun(p, secret, now, node, name), RN.PURGE_ABOVE + 1;
            && |run| == n + 1 && ClockRuns(run, node)
            && run[0].Peer? && run[n] == ArriveAt(node, run[0].request, Expiry(p, run[0].request) + 1)
            && ActedOn(p, secret, run, 0) && ActedOn(p, secret, run, n)
  {
    hide NodeAt, ReplayRun, ClockRuns, ActedOn, Signed;
    RunAt(p, secret, now, node, name, 0);
    RunAt(p, secret, now, node, name, RN.PURGE_ABOVE + 1);
    GetReaches(p, secret, ReplayRun(p, secret, now, node, name), 0, now, 0, node, name, (now + 20 * SECOND) / SECOND);
    FirstActedOn(p, secret, now, node, name);
    LastActedOn(p, secret, now, node, name);
    BurstClock(p, secret, now, node, name);
  }

  lemma BurstClock(p: Primitives, secret: string, now: int, node: string, name: Name)
    ensures ClockRuns(ReplayRun(p, secret, now, node, name), node)
  {
    hide Signed;
  }

  /** A request, a restart, and the same request in the same second: the node acts on it
      both times. */
  lemma RestartReached(p: Primitives, secret: string, now: int, node: string, name: Name)
    requires Library(p) && secret != "" && node != "" && Int64(now) && name.bucket != "" && name.key != ""
    ensures var get := ArriveAt(node, GetOf(p, secret, now, 0, node, name), (now + 20 * SECOND) / SECOND);
            var run := [get, Restart(node), get];
            ActedOn(p, secret, run, 0) && ActedOn(p, secret, run, 2)
  {
    var exp := (now + 20 * SECOND) / SECOND;
    var get := ArriveAt(node, GetOf(p, secret, now, 0, node, name), exp);
    var run := [get, Restart(node), get];
    GetReaches(p, secret, run, 0, now, 0, node, name, exp);
    GetReaches(p, secret, run, 2, now, 0, node, name, exp);
    SeenAfter(p, secret, run, 1, node);
    assert run[..0] == [];
    assert NodeAt(p, secret, run, 0, node).seen == map[];
    hide NodeAt, Reaches, Signed;
    assert RN.Admits(map[], RN.Nonce(0), exp);
  }
}
