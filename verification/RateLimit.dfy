/** The per-IP fixed-window rate limiter of internal/api/ratelimit.go. */
module RateLimit {

  datatype Entry = Entry(count: int, windowAt: int)

  type Entries = map<string, Entry>

  datatype Config = Config(limit: int, window: int)

  datatype Decision = Decision(entries: Entries, ok: bool, retry: int)

  /** One call of allow at the clock reading `now`. */
  function Decide(c: Config, entries: Entries, ip: string, now: int): Decision {
    if ip !in entries || now - entries[ip].windowAt >= c.window then
      Decision(entries[ip := Entry(1, now)], true, 0)
    else
      var e := entries[ip];
      if e.count >= c.limit then
        var retry := c.window - (now - e.windowAt);
        Decision(entries, false, if retry < 0 then 0 else retry)
      else
        Decision(entries[ip := e.(count := e.count + 1)], true, 0)
  }

  class IpRateLimiter {
    var entries: Entries
    const config: Config

    constructor (limit: int, window: int)
      ensures entries == map[] && config == Config(limit, window)
    {
      entries := map[];
      config := Config(limit, window);
    }

    /** allow, at the clock reading `now`. */
    method Allow(ip: string, now: int) returns (ok: bool, retry: int)
      modifies this`entries
      ensures Decision(entries, ok, retry) == Decide(config, old(entries), ip, now)
    {
      if ip !in entries || now - entries[ip].windowAt >= config.window {
        entries := entries[ip := Entry(1, now)];
        return true, 0;
      }
      var e := entries[ip];
      if e.count >= config.limit {
        retry := config.window - (now - e.windowAt);
        if retry < 0 {
          retry := 0;
        }
        return false, retry;
      }
      entries := entries[ip := e.(count := e.count + 1)];
      return true, 0;
    }
  }

  //// Runs

  datatype Call = Call(ip: string, now: int)

  ghost predicate ClockRuns(calls: seq<Call>) {
    forall i, j :: 0 <= i < j < |calls| ==> calls[i].now <= calls[j].now
  }

  function After(c: Config, calls: seq<Call>): Entries {
    if calls == [] then map[]
    else
      var n := |calls| - 1;
      Decide(c, After(c, calls[..n]), calls[n].ip, calls[n].now).entries
  }

  /** The verdict on the i-th call of a run. */
  function Allowed(c: Config, calls: seq<Call>, i: nat): bool
    requires i < |calls|
  {
    Decide(c, After(c, calls[..i]), calls[i].ip, calls[i].now).ok
  }

  /** How many calls of `ip` were allowed at or after `t`. */
  function AllowedSince(c: Config, calls: seq<Call>, ip: string, t: int): nat {
    if calls == [] then 0
    else
      var n := |calls| - 1;
      AllowedSince(c, calls[..n], ip, t)
      + (if calls[n].ip == ip && calls[n].now >= t && Allowed(c, calls, n) then 1 else 0)
  }

  /** How many calls of `ip` were allowed in the half-open interval from `a` to `b`. */
  function AllowedIn(c: Config, calls: seq<Call>, ip: string, a: int, b: int): int {
    AllowedSince(c, calls, ip, a) - AllowedSince(c, calls, ip, b)
  }

  /** How many were allowed in the interval of one window length from `a`. */
  function AllowedFrom(c: Config, calls: seq<Call>, ip: string, a: int): int {
    AllowedIn(c, calls, ip, a, a + c.window)
  }

  /** The effective limit: the call that opens a window is always allowed. */
  function Ceiling(c: Config): int {
    if c.limit < 1 then 1 else c.limit
  }

  /** What the entry of `ip` says about the past, at a time not before `last`. */
  ghost predicate Inv(c: Config, calls: seq<Call>, ip: string) {
    var es := After(c, calls);
    if ip !in es then forall t :: AllowedSince(c, calls, ip, t) == 0
    else
      var e := es[ip];
      && 1 <= e.count <= Ceiling(c)
      && (calls != [] ==> e.windowAt <= calls[|calls| - 1].now)
      && AllowedSince(c, calls, ip, e.windowAt) == e.count
      && AllowedSince(c, calls, ip, e.windowAt + 1) < e.count
      && AllowedSince(c, calls, ip, e.windowAt + c.window) == 0
      && (forall a :: e.windowAt - c.window < a <= e.windowAt ==>
            AllowedSince(c, calls, ip, a) <= AllowedSince(c, calls, ip, e.windowAt) + Ceiling(c) - 1)
      && (forall a :: AllowedFrom(c, calls, ip, a) <= 2 * Ceiling(c) - 1)
  }

  lemma {:induction false} SinceMonotone(c: Config, calls: seq<Call>, ip: string, a: int, b: int)
    requires a <= b
    ensures AllowedSince(c, calls, ip, a) >= AllowedSince(c, calls, ip, b)
  {
    hide Allowed;
    if calls != [] { SinceMonotone(c, calls[..|calls| - 1], ip, a, b); }
  }

  lemma {:induction false} NoneLater(c: Config, calls: seq<Call>, ip: string, t: int)
    requires ClockRuns(calls) && (calls == [] || calls[|calls| - 1].now < t)
    ensures AllowedSince(c, calls, ip, t) == 0
  {
    hide Allowed;
    if |calls| > 1 {
      var n := |calls| - 1;
      assert calls[..n][n - 1].now <= calls[n].now;
      NoneLater(c, calls[..n], ip, t);
    }
  }

  lemma SinceSnoc(c: Config, calls: seq<Call>, ip: string, t: int)
    requires calls != []
    ensures var n := |calls| - 1;
            AllowedSince(c, calls, ip, t)
            == AllowedSince(c, calls[..n], ip, t)
               + (if calls[n].ip == ip && calls[n].now >= t && Allowed(c, calls, n) then 1 else 0)
  {
  }

  /** A call that is another address's, or is denied, changes nothing for `ip`. */
  lemma UncountedKeeps(c: Config, calls: seq<Call>, ip: string)
    requires c.window > 0 && calls != [] && ClockRuns(calls)
    requires var n := |calls| - 1; Inv(c, calls[..n], ip) && (calls[n].ip != ip || !Allowed(c, calls, n))
    ensures Inv(c, calls, ip)
  {
    var n := |calls| - 1;
    var init := calls[..n];
    forall t ensures AllowedSince(c, calls, ip, t) == AllowedSince(c, init, ip, t) { SinceSnoc(c, calls, ip, t); }
    assert n > 0 ==> init[n - 1].now <= calls[n].now;
    hide AllowedSince;
    assert forall a :: AllowedFrom(c, calls, ip, a) == AllowedFrom(c, init, ip, a);
  }

  /** The call opens a new window. Whatever of the previous window falls in the last
      window length misses that window's opening call. */
  lemma OpeningKeeps(c: Config, calls: seq<Call>, ip: string)
    requires c.window > 0 && calls != [] && ClockRuns(calls)
    requires var n := |calls| - 1; Inv(c, calls[..n], ip) && calls[n].ip == ip
    requires var n := |calls| - 1;
             var es := After(c, calls[..n]);
             ip !in es || calls[n].now - es[ip].windowAt >= c.window
    ensures Inv(c, calls, ip)
  {
    var n := |calls| - 1;
    var init, now := calls[..n], calls[n].now;
    var before := After(c, init);
    forall t ensures AllowedSince(c, calls, ip, t) == AllowedSince(c, init, ip, t) + (if now >= t then 1 else 0) {
      SinceSnoc(c, calls, ip, t);
    }
    assert After(c, calls)[ip] == Entry(1, now);
    hide AllowedSince, After;
    forall a | a > now - c.window ensures AllowedSince(c, init, ip, a) <= Ceiling(c) - 1 {
      if ip in before { SinceMonotone(c, init, ip, before[ip].windowAt + 1, a); }
    }
    forall a | a >= now ensures AllowedSince(c, init, ip, a) == 0 {
      if ip in before { SinceMonotone(c, init, ip, before[ip].windowAt + c.window, a); }
    }
    forall a ensures AllowedFrom(c, calls, ip, a) <= 2 * Ceiling(c) - 1 {
      if ip in before { assert AllowedFrom(c, init, ip, a) <= 2 * Ceiling(c) - 1; }
    }
  }

  /** The call is counted in the current window. */
  lemma CountingKeeps(c: Config, calls: seq<Call>, ip: string)
    requires c.window > 0 && calls != [] && ClockRuns(calls)
    requires var n := |calls| - 1; Inv(c, calls[..n], ip) && calls[n].ip == ip
    requires var n := |calls| - 1;
             var es := After(c, calls[..n]);
             ip in es && calls[n].now - es[ip].windowAt < c.window && es[ip].count < c.limit
    ensures Inv(c, calls, ip)
  {
    var n := |calls| - 1;
    var init, now := calls[..n], calls[n].now;
    var e := After(c, init)[ip];
    forall t ensures AllowedSince(c, calls, ip, t) == AllowedSince(c, init, ip, t) + (if now >= t then 1 else 0) {
      SinceSnoc(c, calls, ip, t);
    }
    assert n > 0 ==> init[n - 1].now <= now;
    assert After(c, calls)[ip] == e.(count := e.count + 1);
    hide AllowedSince, After;
    forall a ensures AllowedFrom(c, calls, ip, a) <= 2 * Ceiling(c) - 1 {
      assert AllowedFrom(c, init, ip, a) <= 2 * Ceiling(c) - 1;
      SinceMonotone(c, init, ip, a, a + c.window);
      if a <= e.windowAt {
        SinceMonotone(c, init, ip, a, e.windowAt);
      } else {
        SinceMonotone(c, init, ip, e.windowAt + 1, a);
      }
    }
  }

  lemma {:induction false} InvHolds(c: Config, calls: seq<Call>, ip: string)
    requires c.window > 0 && ClockRuns(calls)
    ensures Inv(c, calls, ip)
    decreases |calls|
  {
    if calls != [] {
      var n := |calls| - 1;
      InvHolds(c, calls[..n], ip);
      hide Inv;
      var es := After(c, calls[..n]);
      if calls[n].ip != ip {
        UncountedKeeps(c, calls, ip);
      } else if ip !in es || calls[n].now - es[ip].windowAt >= c.window {
        OpeningKeeps(c, calls, ip);
      } else if es[ip].count < c.limit {
        CountingKeeps(c, calls, ip);
      } else {
        UncountedKeeps(c, calls, ip);
      }
    }
  }

  /** Rate bound: in every run, at most the limit is allowed per counting window and
      at most twice the limit less one in any interval of one window length. */
  lemma RateBound(c: Config, calls: seq<Call>, ip: string, a: int)
    requires c.window > 0 && ClockRuns(calls)
    ensures AllowedIn(c, calls, ip, a, a + c.window) <= 2 * Ceiling(c) - 1
    ensures ip in After(c, calls) ==>
              var start := After(c, calls)[ip].windowAt;
              AllowedIn(c, calls, ip, start, start + c.window) <= Ceiling(c)
  {
    InvHolds(c, calls, ip);
    hide AllowedSince, After;
    if ip in After(c, calls) { assert AllowedFrom(c, calls, ip, a) <= 2 * Ceiling(c) - 1; }
  }

  /** Call i opens a window of its address. */
  predicate Opens(c: Config, calls: seq<Call>, i: nat)
    requires i < |calls|
  {
    var es := After(c, calls[..i]);
    calls[i].ip !in es || calls[i].now - es[calls[i].ip].windowAt >= c.window
  }

  /** A window stays the current one while its length has not passed. */
  lemma {:induction false} WindowStays(c: Config, calls: seq<Call>, i: nat)
    requires i < |calls| && Opens(c, calls, i)
    requires forall k :: i < k < |calls| && calls[k].ip == calls[i].ip ==> calls[k].now < calls[i].now + c.window
    ensures calls[i].ip in After(c, calls) && After(c, calls)[calls[i].ip].windowAt == calls[i].now
    decreases |calls|
  {
    var n := |calls| - 1;
    if i < n {
      OpensEarlier(c, calls, i);
      WindowStays(c, calls[..n], i);
    }
  }

  /** At most the limit is allowed in every window opened anywhere in a run. */
  lemma {:induction false} WindowBound(c: Config, calls: seq<Call>, i: nat)
    requires c.window > 0 && ClockRuns(calls) && i < |calls| && Opens(c, calls, i)
    ensures AllowedIn(c, calls, calls[i].ip, calls[i].now, calls[i].now + c.window) <= Ceiling(c)
    decreases |calls|
  {
    hide AllowedSince, After, Allowed, Opens;
    var n := |calls| - 1;
    var ip, t := calls[i].ip, calls[i].now;
    if calls[n].ip == ip && calls[n].now < t + c.window {
      WindowStays(c, calls, i);
      RateBound(c, calls, ip, t);
    } else {
      OpensEarlier(c, calls, i);
      WindowBound(c, calls[..n], i);
      SinceSnoc(c, calls, ip, t);
      SinceSnoc(c, calls, ip, t + c.window);
    }
  }

  lemma OpensEarlier(c: Config, calls: seq<Call>, i: nat)
    requires i < |calls| - 1
    ensures Opens(c, calls[..|calls| - 1], i) == Opens(c, calls, i)
  {
    assert calls[..|calls| - 1][..i] == calls[..i];
  }

  //// After a denial

  lemma {:induction false} Frozen(c: Config, calls: seq<Call>, ip: string, i: nat, j: nat)
    requires i <= j <= |calls| && ip in After(c, calls[..i])
    requires var e := After(c, calls[..i])[ip];
             && e.count >= c.limit
             && forall k :: i <= k < j && calls[k].ip == ip ==> calls[k].now < e.windowAt + c.window
    ensures ip in After(c, calls[..j]) && After(c, calls[..j])[ip] == After(c, calls[..i])[ip]
    decreases j - i
  {
    if i < j {
      Frozen(c, calls, ip, i, j - 1);
      assert calls[..j][..j - 1] == calls[..j - 1];
    }
  }

  /** After a denial at call i with wait r, the address stays denied until r has
      passed, and its first call at or after that is allowed. */
  lemma WaitSuffices(c: Config, calls: seq<Call>, i: nat, j: nat)
    requires i < j < |calls| && ClockRuns(calls)
    requires calls[i].ip == calls[j].ip && !Allowed(c, calls, i)
    requires var r := Decide(c, After(c, calls[..i]), calls[i].ip, calls[i].now).retry;
             forall k :: i < k < j && calls[k].ip == calls[i].ip ==> calls[k].now < calls[i].now + r
    ensures var r := Decide(c, After(c, calls[..i]), calls[i].ip, calls[i].now).retry;
            r > 0 && (Allowed(c, calls, j) <==> calls[j].now >= calls[i].now + r)
  {
    hide After;
    Frozen(c, calls, calls[i].ip, i, j);
  }

  //// Other addresses

  function Only(calls: seq<Call>, ip: string): seq<Call> {
    if calls == [] then []
    else
      var n := |calls| - 1;
      Only(calls[..n], ip) + (if calls[n].ip == ip then [calls[n]] else [])
  }

  ghost predicate SameEntry(a: Entries, b: Entries, ip: string) {
    (ip in a <==> ip in b) && (ip in a ==> a[ip] == b[ip])
  }

  /** An address is treated as if it were alone: the calls of others change neither
      its entry nor its verdicts. */
  lemma {:induction false} Independent(c: Config, calls: seq<Call>, ip: string)
    ensures SameEntry(After(c, calls), After(c, Only(calls, ip)), ip)
    ensures calls != [] && calls[|calls| - 1].ip == ip ==>
              var alone := Only(calls, ip);
              alone != [] && (Allowed(c, calls, |calls| - 1) <==> Allowed(c, alone, |alone| - 1))
    decreases |calls|
  {
    if calls != [] {
      var n := |calls| - 1;
      var init := calls[..n];
      Independent(c, init, ip);
      if calls[n].ip == ip {
        var alone := Only(calls, ip);
        assert alone[..|alone| - 1] == Only(init, ip);
      } else {
        assert Only(calls, ip) == Only(init, ip) + [];
        assert Only(calls, ip) == Only(init, ip);
      }
    }
  }

  //// The bound is reached

  function Burst(n: nat, ip: string, t: int): (r: seq<Call>)
    ensures |r| == n && forall i :: 0 <= i < n ==> r[i] == Call(ip, t)
  {
    if n == 0 then [] else Burst(n - 1, ip, t) + [Call(ip, t)]
  }

  lemma CountOne(c: Config, calls: seq<Call>, ip: string, t: int, since: int)
    requires ip in After(c, calls) && t - After(c, calls)[ip].windowAt < c.window
    requires After(c, calls)[ip].count < c.limit
    ensures var all, e := calls + [Call(ip, t)], After(c, calls)[ip];
            && ip in After(c, all) && After(c, all)[ip] == e.(count := e.count + 1)
            && AllowedSince(c, all, ip, since) == AllowedSince(c, calls, ip, since) + (if t >= since then 1 else 0)
  {
    var all := calls + [Call(ip, t)];
    assert all[..|all| - 1] == calls;
  }

  /** A burst that fits the current window is allowed whole. */
  lemma {:induction false} BurstAllowed(c: Config, calls: seq<Call>, ip: string, t: int, n: nat, since: int)
    requires ip in After(c, calls) && t - After(c, calls)[ip].windowAt < c.window
    requires After(c, calls)[ip].count + n <= c.limit
    ensures var all, e := calls + Burst(n, ip, t), After(c, calls)[ip];
            && ip in After(c, all) && After(c, all)[ip] == e.(count := e.count + n)
            && AllowedSince(c, all, ip, since) == AllowedSince(c, calls, ip, since) + (if t >= since then n else 0)
  {
    hide After, AllowedSince;
    if n == 0 {
      assert calls + Burst(n, ip, t) == calls;
    } else {
      var init := calls + Burst(n - 1, ip, t);
      BurstAllowed(c, calls, ip, t, n - 1, since);
      CountOne(c, init, ip, t, since);
      assert calls + Burst(n, ip, t) == init + [Call(ip, t)];
    }
  }

  lemma OpenWindow(c: Config, calls: seq<Call>, ip: string, t: int, since: int)
    requires ip !in After(c, calls) || t - After(c, calls)[ip].windowAt >= c.window
    ensures var all := calls + [Call(ip, t)];
            && ip in After(c, all) && After(c, all)[ip] == Entry(1, t)
            && AllowedSince(c, all, ip, since) == AllowedSince(c, calls, ip, since) + (if t >= since then 1 else 0)
  {
    var all := calls + [Call(ip, t)];
    assert all[..|all| - 1] == calls;
  }

  /** For every limit and every window of at least two clock units some run reaches
      the bound of RateBound. */
  lemma BoundReached(c: Config, ip: string) returns (calls: seq<Call>)
    requires c.limit >= 1 && c.window >= 2
    ensures ClockRuns(calls)
    ensures AllowedIn(c, calls, ip, c.window - 1, c.window - 1 + c.window) == 2 * c.limit - 1
  {
    hide After, AllowedSince, Burst;
    var a, b, n := c.window - 1, c.window - 1 + c.window, c.limit - 1;
    EmptyRun(c, ip, a);
    EmptyRun(c, ip, b);
    calls := [] + [Call(ip, 0)];
    OpenWindow(c, [], ip, 0, a);
    OpenWindow(c, [], ip, 0, b);
    BurstAllowed(c, calls, ip, a, n, a);
    BurstAllowed(c, calls, ip, a, n, b);
    calls := calls + Burst(n, ip, a);
    OpenWindow(c, calls, ip, c.window, a);
    OpenWindow(c, calls, ip, c.window, b);
    calls := calls + [Call(ip, c.window)];
    BurstAllowed(c, calls, ip, c.window, n, a);
    BurstAllowed(c, calls, ip, c.window, n, b);
    calls := calls + Burst(n, ip, c.window);
  }

  lemma EmptyRun(c: Config, ip: string, t: int)
    ensures ip !in After(c, []) && AllowedSince(c, [], ip, t) == 0
  {
  }
}
