/** What a signature binds: the lines of the text that is signed, and the fields on them. */
module SigV4Binding {
  import opened Clock
  import opened Strings
  import opened CanonicalQuery
  import opened SigV4
  import opened SigV4Theorems

  //// What the library and the signed request are required to be

  /** Signatures and digests that never collide, and fit on a line. */
  ghost predicate Ideal(l: Library) {
    && Faithful(l)
    && (forall k, d, r, s, t, k', d', r', s', t' :: l.sign(k, d, r, s, t) == l.sign(k', d', r', s', t') ==>
          k == k' && d == d' && r == r' && s == s' && t == t')
    && (forall x, y :: l.shaHex(x) == l.shaHex(y) ==> x == y)
    && (forall x :: OneLine(l.shaHex(x)))
    && (forall t :: OneLine(l.stamp(t)) && OneLine(l.day(t)))
  }

  /** A header's values as one text; a missing header reads as empty. */
  function Seen(hs: Headers, name: string): string {
    if name in hs then TrimSpace(Join(hs[name], ",")) else ""
  }

  ghost predicate SameQuery(a: Query, b: Query) {
    forall k :: multiset(Values(a, k)) == multiset(Values(b, k))
  }

  //// The lines of a canonical request

  lemma {:induction false} JoinConcat(a: seq<string>, b: seq<string>, sep: string)
    requires a != [] && b != []
    ensures Join(a + b, sep) == Join(a, sep) + sep + Join(b, sep)
  {
    if |a| == 1 {
      assert (a + b)[1..] == b;
    } else {
      JoinConcat(a[1..], b, sep);
      assert (a + b)[1..] == a[1..] + b;
    }
  }

  ghost function Lines(r: Request, signed: seq<string>, payload: string): seq<string> {
    [r.verb, EscapePath(r.path), Canonical(r.query)] + Sort(HeaderLines(r.headers, r.host, signed))
    + ["", Join(signed, ";"), payload]
  }

  ghost function Text(r: Request, signed: seq<string>, payload: string): string {
    CanonicalText(r.verb, r.path, r.query, r.headers, r.host, signed, payload)
  }

  lemma JoinThree(x: string, y: string, z: string)
    ensures Join([x, y, z], "\n") == x + "\n" + y + "\n" + z
  {
    assert [x, y, z][1..] == [y, z] && [y, z][1..] == [z];
    assert Join([y, z], "\n") == y + "\n" + z;
  }

  lemma {:induction false} LinesCount(hs: Headers, host: string, signed: seq<string>)
    ensures |HeaderLines(hs, host, signed)| == |signed|
    ensures |Sort(HeaderLines(hs, host, signed))| == |signed|
  {
    if signed != [] { LinesCount(hs, host, signed[1..]); }
    SortByOrdered(HeaderLines(hs, host, signed), Self);
  }

  lemma TextIsLines(r: Request, signed: seq<string>, payload: string)
    requires signed != []
    ensures Text(r, signed, payload) == Join(Lines(r, signed, payload), "\n")
    ensures |Lines(r, signed, payload)| == |signed| + 6
  {
    hide Join, Sort, HeaderLines, EscapePath, Canonical;
    var lines := Sort(HeaderLines(r.headers, r.host, signed));
    LinesCount(r.headers, r.host, signed);
    var head, tail := [r.verb, EscapePath(r.path), Canonical(r.query)], ["", Join(signed, ";"), payload];
    JoinConcat(head, lines, "\n");
    JoinConcat(head + lines, tail, "\n");
    JoinThree(r.verb, EscapePath(r.path), Canonical(r.query));
    JoinThree("", Join(signed, ";"), payload);
  }

  lemma LineSplits(n: string, v: string, n': string, v': string)
    requires ':' !in n && ':' !in n'
    requires n + ":" + v == n' + ":" + v'
    ensures n == n' && v == v'
  {
    var s := n + ":" + v;
    assert s[..|n|] == n;
    IndexByteUnique(s, ':', |n|);
    assert s == n' + ":" + v' && s[..|n'|] == n';
    IndexByteUnique(s, ':', |n'|);
    assert v == s[|n| + 1..] && v' == s[|n'| + 1..];
  }

  lemma {:induction false} LineAt(hs: Headers, host: string, signed: seq<string>, i: nat)
    requires i < |signed|
    ensures |HeaderLines(hs, host, signed)| == |signed|
    ensures HeaderLines(hs, host, signed)[i] == signed[i] + ":" + HeaderValue(hs, host, signed[i])
  {
    hide HeaderValue;
    LinesCount(hs, host, signed);
    if i > 0 { LineAt(hs, host, signed[1..], i - 1); }
  }

  /** A line determines the name and the value it was written for. */
  lemma LineOf(hs: Headers, host: string, signed: seq<string>, n: string, v: string)
    requires forall m :: m in signed ==> ':' !in m
    requires ':' !in n && n + ":" + v in HeaderLines(hs, host, signed)
    ensures n in signed && HeaderValue(hs, host, n) == v
  {
    hide HeaderValue, HeaderLines;
    LinesCount(hs, host, signed);
    var lines := HeaderLines(hs, host, signed);
    var i :| 0 <= i < |lines| && lines[i] == n + ":" + v;
    LineAt(hs, host, signed, i);
    LineSplits(n, v, signed[i], HeaderValue(hs, host, signed[i]));
  }

  ghost predicate SameHeaders(a: Request, b: Request, signed: seq<string>) {
    forall n :: n in signed ==> HeaderValue(a.headers, a.host, n) == HeaderValue(b.headers, b.host, n)
  }

  lemma HeadersBind(a: Request, b: Request, signed: seq<string>)
    requires forall n :: n in signed ==> ':' !in n
    ensures Sort(HeaderLines(a.headers, a.host, signed)) == Sort(HeaderLines(b.headers, b.host, signed))
            <==> SameHeaders(a, b, signed)
  {
    hide Sort, HeaderLines, HeaderValue;
    var la, lb := HeaderLines(a.headers, a.host, signed), HeaderLines(b.headers, b.host, signed);
    LinesCount(a.headers, a.host, signed);
    LinesCount(b.headers, b.host, signed);
    if Sort(la) == Sort(lb) {
      SortCanonical(la, lb);
      forall n | n in signed ensures HeaderValue(a.headers, a.host, n) == HeaderValue(b.headers, b.host, n) {
        var i :| 0 <= i < |signed| && signed[i] == n;
        LineAt(a.headers, a.host, signed, i);
        assert la[i] in multiset(lb);
        LineOf(b.headers, b.host, signed, n, HeaderValue(a.headers, a.host, n));
      }
    }
    if SameHeaders(a, b, signed) {
      forall i | 0 <= i < |signed| ensures la[i] == lb[i] {
        LineAt(a.headers, a.host, signed, i);
        LineAt(b.headers, b.host, signed, i);
      }
      assert la == lb;
    }
  }

  //// What the text binds

  /** Everything the signer writes fits on a line of its own. */
  ghost predicate Writable(r: Request, signed: seq<string>, payload: string) {
    && OneLine(r.verb) && OneLine(payload)
    && forall n :: n in signed ==> ':' !in n && OneLine(n) && OneLine(HeaderValue(r.headers, r.host, n))
  }

  lemma {:induction false} NamesOneLine(names: seq<string>)
    requires forall n :: n in names ==> OneLine(n)
    ensures OneLine(Join(names, ";"))
  {
    if |names| == 1 {
      assert names[0] in names;
    } else if |names| > 1 {
      assert names[0] in names;
      NamesOneLine(names[1..]);
    }
  }

  lemma SortKeeps(s: seq<string>)
    ensures forall x :: x in Sort(s) <==> x in s
  {
    SortByOrdered(s, Self);
    hide SortBy;
    assert forall x :: x in Sort(s) <==> x in multiset(Sort(s));
    assert forall x :: x in s <==> x in multiset(s);
  }

  lemma HeaderLinesOneLine(r: Request, signed: seq<string>, payload: string)
    requires Writable(r, signed, payload)
    ensures forall x :: x in Sort(HeaderLines(r.headers, r.host, signed)) ==> OneLine(x)
  {
    hide HeaderLines, Sort, HeaderValue;
    var lines := HeaderLines(r.headers, r.host, signed);
    LinesCount(r.headers, r.host, signed);
    SortKeeps(lines);
    forall x | x in Sort(lines) ensures OneLine(x) {
      var i :| 0 <= i < |lines| && lines[i] == x;
      LineAt(r.headers, r.host, signed, i);
      assert signed[i] in signed;
    }
  }

  lemma LinesOneLine(r: Request, signed: seq<string>, payload: string)
    requires Writable(r, signed, payload)
    ensures forall x :: x in Lines(r, signed, payload) ==> '\n' !in x
  {
    hide HeaderLines, Sort, HeaderValue, EscapePath, Canonical, Join;
    HeaderLinesOneLine(r, signed, payload);
    NamesOneLine(signed);
    PathOneLine(r.path);
    CanonicalOneLine(r.query);
  }

  lemma PathBinds(a: string, b: string)
    requires IsBytes(a) && IsBytes(b)
    ensures EscapePath(a) == EscapePath(b) <==> a == b
  {
    PathRead(a);
    PathRead(b);
  }

  /** A path is escaped segment by segment: its slashes stay. */
  lemma {:induction false} SlashesStay(a: string, b: string)
    ensures EscapePath(a + "/" + b) == EscapePath(a) + "/" + EscapePath(b)
  {
    var s := a + "/" + b;
    if a == "" {
      assert s[1..] == b;
    } else {
      hide EscapePathByte;
      assert s[1..] == a[1..] + "/" + b;
      SlashesStay(a[1..], b);
    }
  }

  /** A path stays as it is exactly if it has only unreserved characters and slashes. */
  lemma {:induction false} PlainPathStays(a: string)
    ensures EscapePath(a) == a <==> forall i :: 0 <= i < |a| ==> IsUnreserved(a[i]) || a[i] == '/'
  {
    if a != "" {
      var e, rest := EscapePathByte(a[0]), EscapePath(a[1..]);
      assert |e| == (if IsUnreserved(a[0]) || a[0] == '/' then 1 else 3);
      assert |e| == 1 ==> e == [a[0]];
      hide EscapePathByte, IsUnreserved;
      PlainPathStays(a[1..]);
      LongerOrSame(a[1..]);
      assert |e| == 1 ==> (e + rest)[1..] == rest;
      assert a == [a[0]] + a[1..];
    }
  }

  lemma {:induction false} LongerOrSame(a: string)
    ensures |EscapePath(a)| >= |a|
  {
    if a != "" { LongerOrSame(a[1..]); }
  }

  lemma LinesApart(a: Request, b: Request, na: seq<string>, nb: seq<string>, pa: string, pb: string)
    requires 1 <= |na| <= |nb| && Writable(a, na, pa)
    ensures Text(a, na, pa) == Text(b, nb, pb) <==> Lines(a, na, pa) == Lines(b, nb, pb)
  {
    hide Text, Lines, Join, Writable;
    TextIsLines(a, na, pa);
    TextIsLines(b, nb, pb);
    LinesOneLine(a, na, pa);
    JoinInjective(Lines(a, na, pa), Lines(b, nb, pb), '\n');
  }

  lemma LinesFields(a: Request, b: Request, na: seq<string>, nb: seq<string>, pa: string, pb: string)
    requires |na| == |nb|
    ensures Lines(a, na, pa) == Lines(b, nb, pb) <==>
              && a.verb == b.verb && EscapePath(a.path) == EscapePath(b.path)
              && Canonical(a.query) == Canonical(b.query)
              && Sort(HeaderLines(a.headers, a.host, na)) == Sort(HeaderLines(b.headers, b.host, nb))
              && Join(na, ";") == Join(nb, ";") && pa == pb
  {
    hide EscapePath, Canonical, Sort, HeaderLines, Join;
    LinesCount(a.headers, a.host, na);
    LinesCount(b.headers, b.host, nb);
    var la, lb := Lines(a, na, pa), Lines(b, nb, pb);
    var n := |na|;
    assert la[0] == a.verb && la[1] == EscapePath(a.path) && la[2] == Canonical(a.query);
    assert lb[0] == b.verb && lb[1] == EscapePath(b.path) && lb[2] == Canonical(b.query);
    assert la[3..3 + n] == Sort(HeaderLines(a.headers, a.host, na));
    assert lb[3..3 + n] == Sort(HeaderLines(b.headers, b.host, nb));
    assert la[4 + n] == Join(na, ";") && la[5 + n] == pa;
    assert lb[4 + n] == Join(nb, ";") && lb[5 + n] == pb;
  }

  /** The text of a written request is that of another one with the same list of signed
      headers exactly when verb, path, query values, signed headers and payload agree. */
  lemma TextBinds(a: Request, b: Request, signed: seq<string>, pa: string, pb: string)
    requires signed != [] && Writable(a, signed, pa)
    requires IsBytes(a.path) && IsBytes(b.path) && ByteQuery(a.query) && ByteQuery(b.query)
    ensures Text(a, signed, pa) == Text(b, signed, pb) <==>
              && a.verb == b.verb && a.path == b.path && SameQuery(a.query, b.query)
              && SameHeaders(a, b, signed) && pa == pb
  {
    hide Text, Lines, EscapePath, Canonical, Sort, HeaderLines, HeaderValue, Join, SameHeaders;
    LinesApart(a, b, signed, signed, pa, pb);
    LinesFields(a, b, signed, signed, pa, pb);
    PathBinds(a.path, b.path);
    CanonicalInjective(a.query, b.query);
    HeadersBind(a, b, signed);
  }

  lemma Four(a: string, b: string, c: string, d: string, a': string, b': string, c': string, d': string)
    requires OneLine(a) && OneLine(b) && OneLine(c) && OneLine(d)
    ensures Join([a, b, c, d], "\n") == Join([a', b', c', d'], "\n") <==> a == a' && b == b' && c == c' && d == d'
  {
    hide Join;
    var x, y := [a, b, c, d], [a', b', c', d'];
    JoinInjective(x, y, '\n');
    assert x[0] == a && x[1] == b && x[2] == c && x[3] == d;
    assert y[0] == a' && y[1] == b' && y[2] == c' && y[3] == d';
  }

  lemma SchemeOneLine()
    ensures OneLine("AWS4-HMAC-SHA256")
  {
    var s := "AWS4-HMAC-SHA256";
    assert forall i :: 0 <= i < |s| ==> s[i] != '\n';
  }

  /** What is signed determines the date, the scope and the canonical request. */
  lemma StringBinds(l: Library, date: string, scope: string, c: string, date': string, scope': string, c': string)
    requires Ideal(l) && OneLine(date) && OneLine(scope)
    ensures StringToSign(l, date, scope, c) == StringToSign(l, date', scope', c') <==>
              date == date' && scope == scope' && c == c'
  {
    hide Join;
    SchemeOneLine();
    Four("AWS4-HMAC-SHA256", date, scope, l.shaHex(c), "AWS4-HMAC-SHA256", date', scope', l.shaHex(c'));
  }
}
