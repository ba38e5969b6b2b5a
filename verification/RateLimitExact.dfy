/** The verdict on every call of a run, stated by the calls alone. */
module RateLimitExact {
  import opened RateLimit

  /** The last call of the address before the i-th, or -1. */
  function LastBefore(calls: seq<Call>, ip: string, i: nat): (j: int)
    requires i <= |calls|
    ensures -1 <= j < i && (j >= 0 ==> calls[j].ip == ip)
  {
    if i == 0 then -1 else if calls[i - 1].ip == ip then i - 1 else LastBefore(calls, ip, i - 1)
  }

  /** The call that opened the window the i-th falls into: the first call of an address opens
      one, and so does every call a window length or more after the last opening. */
  function Opener(c: Config, calls: seq<Call>, i: nat): (w: nat)
    requires i < |calls|
    ensures w <= i && calls[w].ip == calls[i].ip
  {
    var j := LastBefore(calls, calls[i].ip, i);
    if j < 0 then i
    else
      var w := Opener(c, calls, j);
      if calls[i].now - calls[w].now >= c.window then i else w
  }

  /** How many of the first i calls fall into the window that call w opened. */
  function CallsIn(c: Config, calls: seq<Call>, w: nat, i: nat): nat
    requires i <= |calls|
  {
    if i == 0 then 0 else CallsIn(c, calls, w, i - 1) + (if Opener(c, calls, i - 1) == w then 1 else 0)
  }

  lemma {:induction false} NoneBefore(c: Config, calls: seq<Call>, w: nat, i: nat)
    requires i <= w < |calls|
    ensures CallsIn(c, calls, w, i) == 0
  {
    hide Opener;
    if i > 0 { NoneBefore(c, calls, w, i - 1); }
  }

  ghost predicate EntryIs(c: Config, calls: seq<Call>, ip: string, i: nat)
    requires i <= |calls|
  {
    var es, j := After(c, calls[..i]), LastBefore(calls, ip, i);
    if j < 0 then ip !in es
    else
      var w := Opener(c, calls, j);
      var n := CallsIn(c, calls, w, i);
      n >= 1 && ip in es && es[ip] == Entry(if n < Ceiling(c) then n else Ceiling(c), calls[w].now)
  }

  lemma {:induction false} EntriesHold(c: Config, calls: seq<Call>, ip: string, i: nat)
    requires i <= |calls|
    ensures EntryIs(c, calls, ip, i)
  {
    if i > 0 {
      EntriesHold(c, calls, ip, i - 1);
      EntryStep(c, calls, ip, i - 1);
    }
  }

  lemma EntryStep(c: Config, calls: seq<Call>, ip: string, i: nat)
    requires i < |calls| && EntryIs(c, calls, ip, i)
    ensures EntryIs(c, calls, ip, i + 1)
  {
    assert calls[..i + 1][..i] == calls[..i];
    if calls[i].ip == ip {
      NoneBefore(c, calls, i, i);
    } else {
      var j := LastBefore(calls, ip, i);
      if j >= 0 { assert Opener(c, calls, i) != Opener(c, calls, j); }
    }
    hide After;
    assert After(c, calls[..i + 1]) == Decide(c, After(c, calls[..i]), calls[i].ip, calls[i].now).entries by {
      AfterSnoc(c, calls, i);
    }
  }

  lemma AfterSnoc(c: Config, calls: seq<Call>, i: nat)
    requires i < |calls|
    ensures After(c, calls[..i + 1]) == Decide(c, After(c, calls[..i]), calls[i].ip, calls[i].now).entries
  {
    assert calls[..i + 1][..i] == calls[..i];
  }

  /** A call is allowed exactly if it is among the first `limit` of its window, or opens it;
      one that is denied is told to wait until a window length after the opening. */
  lemma AllowedExactly(c: Config, calls: seq<Call>, i: nat)
    requires i < |calls|
    ensures var w := Opener(c, calls, i);
            var d := Decide(c, After(c, calls[..i]), calls[i].ip, calls[i].now);
            && d.ok == Allowed(c, calls, i)
            && (d.ok <==> w == i || CallsIn(c, calls, w, i) < c.limit)
            && d.retry == if d.ok then 0 else calls[w].now + c.window - calls[i].now
  {
    EntriesHold(c, calls, calls[i].ip, i);
    NoneBefore(c, calls, i, i);
    hide After, CallsIn;
  }
}
