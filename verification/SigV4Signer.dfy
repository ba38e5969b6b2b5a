/** The signing and verifying code itself, proved against the functions of SigV4. */
module SigV4Signers {
  import opened Clock
  import opened Strings
  import opened CanonicalQuery
  import opened SigV4
  import opened SigV4Theorems

  /** An outgoing http.Request; SignRequest sets headers on it. */
  class HttpRequest {
    const verb: string
    const path: string
    const query: Query
    const host: string
    var headers: Headers

    constructor (verb: string, path: string, query: Query, headers: Headers, host: string)
      ensures View() == Request(verb, path, query, headers, host)
    {
      this.verb, this.path, this.query, this.host := verb, path, query, host;
      this.headers := headers;
    }

    ghost function View(): Request
      reads this
    {
      Request(verb, path, query, headers, host)
    }

    /** SignRequest: afterwards the request carries the date, the payload hash, a
        host header and the Authorization header, and is otherwise unchanged. */
    method Sign(l: Library, creds: Credentials, region: string, service: string, payloadHash: string, now: int)
      modifies this`headers
      ensures View() == Signed(l, old(View()), creds, region, service, payloadHash, now)
    {
      hide Join, SignedNames, CanonicalText;
      var svc := if service == "" then "s3" else service;
      var payload := if payloadHash == "" then "UNSIGNED-PAYLOAD" else payloadHash;
      var amzDate, day := l.stamp(now / SECOND), l.day(now / SECOND);
      headers := Set(headers, "x-amz-date", amzDate);
      headers := Set(headers, "x-amz-content-sha256", payload);
      if Get(headers, "host") == "" {
        headers := Set(headers, "host", host);
      }
      var signed := SignedHeaderNames(headers);
      var canonical := BuildCanonical(verb, path, query, headers, host, signed, Get(headers, "x-amz-content-sha256"));
      var scope := Scope(day, region, svc);
      var text := StringToSign(l, amzDate, scope, canonical);
      var sig := l.sign(creds.secretKey, day, region, svc, text);
      headers := Set(headers, "authorization", AuthorizationText(creds.accessKey, scope, signed, sig));
    }
  }

  method UriEncode(s: string) returns (b: string)
    ensures b == EscapePath(s)
  {
    b := "";
    var i := 0;
    while i < |s|
      invariant 0 <= i <= |s|
      invariant b + EscapePath(s[i..]) == EscapePath(s)
    {
      var c := s[i];
      EscapePathStep(b, s, i);
      if IsUnreserved(c) {
        b := b + [c];
      } else if c == '/' {
        b := b + [c];
      } else {
        b := b + ['%', UpperHex(c as int / 16 % 16), UpperHex(c as int % 16)];
      }
      i := i + 1;
    }
    assert b + "" == b;
  }

  lemma EscapePathStep(b: string, s: string, i: nat)
    requires i < |s|
    ensures b + EscapePath(s[i..]) == b + EscapePathByte(s[i]) + EscapePath(s[i + 1..])
  {
    hide EscapePathByte;
    assert s[i..][1..] == s[i + 1..];
  }

  method SignedHeaderNames(hs: Headers) returns (names: seq<string>)
    ensures names == SignedNames(hs)
  {
    var chosen := {"host"};
    var todo := hs.Keys;
    while todo != {}
      invariant todo <= hs.Keys
      invariant chosen == {"host"} + set n | n in hs && n !in todo && MustSign(n)
      decreases todo
    {
      var n :| n in todo;
      if AMZ_PREFIX <= n || n == "content-type" || n == "content-md5" {
        chosen := chosen + {n};
      }
      todo := todo - {n};
    }
    assert chosen == NamesToSign(hs);
    var out := CollectKeys(chosen);
    names := Sort(out);
  }

  method LowerValues(hs: Headers, host: string) returns (lower: map<string, string>)
    ensures forall n :: Lookup(lower, n) == HeaderValue(hs, host, n)
  {
    hide TrimSpace, Join;
    lower := map[];
    var todo := hs.Keys;
    while todo != {}
      invariant todo <= hs.Keys
      invariant lower.Keys == hs.Keys - todo
      invariant forall n :: n in lower ==> lower[n] == TrimSpace(Join(hs[n], ","))
      decreases todo
    {
      var n :| n in todo;
      lower := lower[n := TrimSpace(Join(hs[n], ","))];
      todo := todo - {n};
    }
    lower := lower["host" := host];
  }

  lemma HeaderLinesStep(lines: seq<string>, hs: Headers, host: string, signed: seq<string>, i: nat)
    requires i < |signed|
    ensures lines + HeaderLines(hs, host, signed[i..])
            == lines + [signed[i] + ":" + HeaderValue(hs, host, signed[i])] + HeaderLines(hs, host, signed[i + 1..])
  {
    hide HeaderValue;
    assert signed[i..][1..] == signed[i + 1..];
  }

  lemma NoHeaderLines(hs: Headers, host: string)
    ensures HeaderLines(hs, host, []) == []
  {
  }

  method BuildCanonicalHeaders(hs: Headers, host: string, signed: seq<string>) returns (r: string)
    ensures r == CanonicalHeaders(hs, host, signed)
  {
    hide Join, SortBy, HeaderValue, HeaderLines;
    assert signed[0..] == signed;
    var lower := LowerValues(hs, host);
    var lines := [];
    var i := 0;
    while i < |signed|
      invariant 0 <= i <= |signed|
      invariant lines + HeaderLines(hs, host, signed[i..]) == HeaderLines(hs, host, signed)
    {
      var h := signed[i];
      HeaderLinesStep(lines, hs, host, signed, i);
      assert Lookup(lower, h) == HeaderValue(hs, host, h);
      lines := lines + [h + ":" + Lookup(lower, h)];
      i := i + 1;
    }
    NoHeaderLines(hs, host);
    assert signed[|signed|..] == [] && lines + [] == lines;
    r := Join(Sort(lines), "\n") + "\n";
  }

  /** canonicalRequest and canonicalPresignedRequest share everything but the query
      and the payload line. */
  method BuildCanonical(verb: string, path: string, query: Query, hs: Headers, host: string,
                        signed: seq<string>, payload: string) returns (r: string)
    ensures r == CanonicalText(verb, path, query, hs, host, signed, payload)
  {
    var p := UriEncode(path);
    var q := CanonicalQueryString(query);
    var h := BuildCanonicalHeaders(hs, host, signed);
    r := verb + "\n" + p + "\n" + q + "\n" + h + "\n" + Join(signed, ";") + "\n" + payload;
  }

  /** PresignURL, for an endpoint already parsed into host and query and a path
      already escaped. */
  method PresignUrl(l: Library, s: Signer, verb: string, path: string, host: string, endpoint: Query,
                    creds: Credentials, expires: int, now: int) returns (q: Query)
    ensures q == PresignedQuery(l, s, verb, path, host, endpoint, creds, expires, now)
  {
    hide CanonicalText, Join;
    var amzDate, day := l.stamp(now / SECOND), l.day(now / SECOND);
    var credential := Credential(creds.accessKey, Scope(day, s.region, s.service));
    q := Set(endpoint, "X-Amz-Algorithm", "AWS4-HMAC-SHA256");
    q := Set(q, "X-Amz-Credential", credential);
    q := Set(q, "X-Amz-Date", amzDate);
    q := Set(q, "X-Amz-Expires", FormatInt(WholeSeconds(expires)));
    q := Set(q, "X-Amz-SignedHeaders", "host");
    var canonical := BuildCanonical(verb, path, q - {"X-Amz-Signature"}, map[], host, ["host"], "UNSIGNED-PAYLOAD");
    var text := StringToSign(l, Get(q, "X-Amz-Date"), ScopeOf(credential), canonical);
    q := Set(q, "X-Amz-Signature", l.sign(creds.secretKey, day, s.region, s.service, text));
  }

  method ParseAuth(s: string) returns (out: map<string, string>)
    ensures out == ParseAuthHeader(s)
  {
    hide TrimSpace, Trim, Split;
    out := map[];
    var parts := Split(s, ',');
    var n := 0;
    while n < |parts|
      invariant 0 <= n <= |parts|
      invariant AddParts(out, parts[n..]) == AddParts(map[], parts)
    {
      assert parts[n..][1..] == parts[n + 1..];
      var part := TrimSpace(parts[n]);
      var i := IndexByte(part, '=');
      if i > 0 {
        out := out[part[..i] := Trim(part[i + 1..], IsQuote)];
      }
      n := n + 1;
    }
  }

  method RequireSignedHeaders(hs: Headers, signed: seq<string>) returns (ok: bool)
    ensures ok == HeadersSigned(hs, signed)
  {
    hide TrimSpace, ToLower;
    var have := {};
    var i := 0;
    while i < |signed|
      invariant 0 <= i <= |signed|
      invariant have == SignedSet(signed[..i])
    {
      var name := ToLower(TrimSpace(signed[i]));
      SignedSetSnoc(signed, i);
      if name != "" {
        have := have + {name};
      }
      i := i + 1;
    }
    assert signed[..|signed|] == signed;
    if "host" !in have { return false; }
    var todo := hs.Keys;
    while todo != {}
      invariant todo <= hs.Keys
      invariant forall n :: n in hs && n !in todo && AMZ_PREFIX <= n ==> n in have
      decreases todo
    {
      var n :| n in todo;
      if AMZ_PREFIX <= n && n !in have { return false; }
      todo := todo - {n};
    }
    return true;
  }

  lemma SignedSetSnoc(signed: seq<string>, i: nat)
    requires i < |signed|
    ensures var name := ToLower(TrimSpace(signed[i]));
            SignedSet(signed[..i + 1]) == SignedSet(signed[..i]) + if name != "" then {name} else {}
  {
    hide TrimSpace;
    assert signed[..i + 1] == signed[..i] + [signed[i]];
  }

  /** Signer.Authenticate. */
  method AuthenticateRequest(l: Library, s: Signer, r: Request, now: int) returns (v: Verdict)
    ensures v == Authenticate(l, s, r, now)
  {
    hide Join, CanonicalText, Split, ParseAuthHeader, VerifyPresigned, AfterSignature, StringToSign;
    if Get(r.query, "X-Amz-Algorithm") != "" {
      v := VerifyPresignedRequest(l, s, r, now);
      return;
    }
    var auth := Get(r.headers, "authorization");
    if auth == "" { return Refused(MissingAuth); }
    if !(AUTH_SCHEME <= auth) { return Refused(InvalidAuth); }
    var parts := ParseAuth(auth[|AUTH_SCHEME|..]);
    if "Credential" !in parts { return Refused(InvalidAuth); }
    var fields := Split(parts["Credential"], '/');
    if |fields| != 5 { return Refused(InvalidAuth); }
    var found := s.lookup(fields[0]);
    if found.None? { return Refused(InvalidAuth); }
    var creds := found.value;
    FiveFields(parts["Credential"]);
    var signed := Split(Lookup(parts, "SignedHeaders"), ';');
    var payload := Get(r.headers, "x-amz-content-sha256");
    var canonical := BuildCanonical(r.verb, r.path, r.query, r.headers, r.host, signed, payload);
    var text := StringToSign(l, RequestDate(r), ScopeOf(parts["Credential"]), canonical);
    var expected := l.sign(creds.secretKey, fields[1], s.region, s.service, text);
    if Lookup(parts, "Signature") != expected { return Refused(SignatureMismatch); }
    v := CheckSigned(r, signed, creds);
  }

  /** requireSignedHeaders, then validateSessionToken. */
  method CheckSigned(r: Request, signed: seq<string>, creds: Credentials) returns (v: Verdict)
    ensures v == AfterSignature(r, signed, creds)
  {
    var ok := RequireSignedHeaders(r.headers, signed);
    if !ok { return Refused(UnsignedHeaders); }
    if creds.sessionToken != "" {
      var tok := Get(r.headers, "x-amz-security-token");
      if tok == "" {
        tok := Get(r.query, "X-Amz-Security-Token");
      }
      if tok != creds.sessionToken { return Refused(InvalidAuth); }
    }
    return Accepted(creds);
  }

  method VerifyPresignedRequest(l: Library, s: Signer, r: Request, now: int) returns (v: Verdict)
    ensures v == VerifyPresigned(l, s, r, now)
  {
    hide Join, CanonicalText, Split, ScanInt, AfterSignature, StringToSign;
    var credential := Get(r.query, "X-Amz-Credential");
    var fields := Split(credential, '/');
    if |fields| != 5 { return Refused(InvalidAuth); }
    if s.rootAccessKey != "" && fields[0] == s.rootAccessKey { return Refused(InvalidAuth); }
    var found := s.lookup(fields[0]);
    if found.None? { return Refused(InvalidAuth); }
    var creds := found.value;
    var exp := Get(r.query, "X-Amz-Expires");
    if exp == "" { return Refused(InvalidAuth); }
    var dateStr := Get(r.query, "X-Amz-Date");
    if dateStr == "" { return Refused(InvalidAuth); }
    var t := l.parseStamp(dateStr);
    if t.None? { return Refused(InvalidAuth); }
    var secs := ScanInt(exp);
    if secs.None? || secs.value <= 0 || secs.value > MAX_PRESIGN_SECONDS { return Refused(InvalidAuth); }
    if now - t.value * SECOND > secs.value * SECOND { return Refused(Expired); }
    FiveFields(credential);
    var signed := Split(Get(r.query, "X-Amz-SignedHeaders"), ';');
    var query := r.query - {"X-Amz-Signature"};
    var canonical := BuildCanonical(r.verb, r.path, query, r.headers, r.host, signed, "UNSIGNED-PAYLOAD");
    var text := StringToSign(l, RequestDate(r), ScopeOf(credential), canonical);
    var expected := l.sign(creds.secretKey, fields[1], s.region, s.service, text);
    if Get(r.query, "X-Amz-Signature") != expected { return Refused(SignatureMismatch); }
    v := CheckSigned(r, signed, creds);
  }
}
