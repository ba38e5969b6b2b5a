/** Signer and verifier agree, and what a signature binds. */
module SigV4Theorems {
  import opened Clock
  import opened Strings
  import opened CanonicalQuery
  import opened SigV4

  //// What the library and the names are required to be

  /** Unix seconds of the years 0000 to 9999, which the time layouts can hold. */
  predicate FourDigitYear(t: int) {
    -62_167_219_200 <= t <= 253_402_300_799
  }

  /** Signatures are hex; a formatted second parses back; a day is digits only. */
  ghost predicate Faithful(l: Library) {
    && (forall a, b, c, d, e :: IsLowerHex(l.sign(a, b, c, d, e)))
    && (forall t :: l.stamp(t) != "" && (FourDigitYear(t) ==> l.parseStamp(l.stamp(t)) == Some(t)))
    && (forall t :: '/' !in l.day(t) && ',' !in l.day(t))
  }

  /** Text that the Authorization header and the credential scope can carry. */
  predicate PlainField(s: string) {
    '/' !in s && ',' !in s && '"' !in s
  }

  predicate NameChar(c: char) {
    c != ',' && c != ';' && c != '"' && !IsSpace(c) && LowerChar(c) == c
  }

  /** A lower-case HTTP header name. */
  predicate HeaderName(n: string) {
    n != "" && forall i :: 0 <= i < |n| ==> NameChar(n[i])
  }

  //// Decimal integers

  lemma {:induction false} DigitsRead(n: nat)
    ensures NatValue(FormatNat(n)) == n
  {
    var s := FormatNat(n);
    if n >= 10 {
      DigitsRead(n / 10);
      assert s[..|s| - 1] == FormatNat(n / 10);
    } else {
      assert s[..0] == "";
    }
  }

  lemma {:induction false} DigitPrefixAll(s: string)
    requires forall i :: 0 <= i < |s| ==> '0' <= s[i] <= '9'
    ensures DigitPrefix(s) == s
  {
    if s != "" { DigitPrefixAll(s[1..]); }
  }

  lemma ScanDigits(t: string, sign: string, n: nat)
    requires sign == "" || sign == "-"
    requires t == sign + FormatNat(n) && n < 0x8000_0000_0000_0000
    ensures t != "" && ScanInt(t).Some? && ScanInt(t).value == (if sign == "" then 1 else -1) * n
  {
    var digits := FormatNat(n);
    DigitsRead(n);
    DigitPrefixAll(digits);
    assert t[0] == '-' || '0' <= t[0] <= '9';
    assert TrimLeft(t, IsBlank) == t;
    if sign == "-" { assert t[1..] == digits; } else { assert t == digits; }
  }

  lemma ScanOfFormat(n: int)
    requires -0x8000_0000_0000_0000 < n < 0x8000_0000_0000_0000
    ensures FormatInt(n) != "" && ScanInt(FormatInt(n)) == Some(n)
  {
    hide ScanInt, FormatNat;
    if n < 0 { ScanDigits(FormatInt(n), "-", -n); } else { ScanDigits(FormatInt(n), "", n); }
  }

  //// Credential scope

  lemma CredentialFields(accessKey: string, day: string, region: string, service: string)
    requires '/' !in accessKey && '/' !in day && '/' !in region && '/' !in service
    ensures var c := Credential(accessKey, Scope(day, region, service));
            && Split(c, '/') == [accessKey, day, region, service, "aws4_request"]
            && '/' in c && ScopeOf(c) == Scope(day, region, service)
  {
    hide Split;
    var scope := [day, region, service, "aws4_request"];
    var fields := [accessKey] + scope;
    var c := Credential(accessKey, Scope(day, region, service));
    assert '/' !in "aws4_request";
    assert fields[1..] == scope;
    assert c == Join(fields, "/");
    SplitOfJoin(fields, '/');
    assert c[..|accessKey|] == accessKey;
    IndexByteUnique(c, '/', |accessKey|);
    assert c[|accessKey| + 1..] == Scope(day, region, service);
  }

  //// Authorization header

  lemma TrimmedPart(part: string, p: string)
    requires part == p || part == " " + p
    requires p != "" && !IsSpace(p[0]) && !IsSpace(p[|p| - 1])
    ensures TrimSpace(part) == p
  {
    TrimUntouched(p, IsSpace);
    if part != p { assert part[1..] == p; }
  }

  /** A part `key=val`, with or without the leading blank, adds that entry. */
  lemma AddKeyed(m: map<string, string>, part: string, key: string, val: string)
    requires part == key + "=" + val || part == " " + (key + "=" + val)
    requires key != "" && '=' !in key && !IsSpace(key[0])
    requires val != "" && !IsQuote(val[0]) && !IsQuote(val[|val| - 1]) && !IsSpace(val[|val| - 1])
    ensures AddPart(m, part) == m[key := val]
  {
    hide TrimSpace, Trim;
    var p := key + "=" + val;
    TrimmedPart(part, p);
    assert p[..|key|] == key;
    IndexByteUnique(p, '=', |key|);
    assert p[|key| + 1..] == val;
    TrimUntouched(val, IsQuote);
  }

  predicate HeaderField(s: string) {
    s != "" && ',' !in s && !IsQuote(s[0]) && !IsQuote(s[|s| - 1]) && !IsSpace(s[|s| - 1])
  }

  /** Print and parse of the Authorization header. */
  lemma AuthorizationParses(accessKey: string, scope: string, signed: seq<string>, sig: string)
    requires HeaderField(Credential(accessKey, scope)) && HeaderField(Join(signed, ";")) && HeaderField(sig)
    ensures var text := AuthorizationText(accessKey, scope, signed, sig);
            && AUTH_SCHEME <= text
            && ParseAuthHeader(text[|AUTH_SCHEME|..])
               == map["Credential" := Credential(accessKey, scope),
                      "SignedHeaders" := Join(signed, ";"),
                      "Signature" := sig]
  {
    hide Split, AddPart, Credential;
    var c, n := Credential(accessKey, scope), Join(signed, ";");
    var p0, p1, p2 := "Credential=" + c, " SignedHeaders=" + n, " Signature=" + sig;
    var parts := [p0, p1, p2];
    var text := AuthorizationText(accessKey, scope, signed, sig);
    assert text[|AUTH_SCHEME|..] == Join(parts, ",");
    assert ',' !in "Credential=" && ',' !in " SignedHeaders=" && ',' !in " Signature=";
    SplitOfJoin(parts, ',');
    AddThree(p0, p1, p2);
    assert "Credential=" == "Credential" + "=";
    AddKeyed(map[], p0, "Credential", c);
    var m1: map<string, string> := map["Credential" := c];
    assert " SignedHeaders=" == " " + ("SignedHeaders" + "=");
    assert p1 == " " + ("SignedHeaders" + "=" + n);
    AddKeyed(m1, p1, "SignedHeaders", n);
    assert " Signature=" == " " + ("Signature" + "=");
    assert p2 == " " + ("Signature" + "=" + sig);
    AddKeyed(m1["SignedHeaders" := n], p2, "Signature", sig);
  }

  lemma AddThree(p0: string, p1: string, p2: string)
    ensures AddParts(map[], [p0, p1, p2]) == AddPart(AddPart(AddPart(map[], p0), p1), p2)
  {
    hide AddPart;
    assert [p0, p1, p2][1..] == [p1, p2] && [p1, p2][1..] == [p2] && [p2][1..] == [];
    var m1 := AddPart(map[], p0);
    var m2 := AddPart(m1, p1);
    assert AddParts(m2, [p2]) == AddPart(m2, p2);
    assert AddParts(m1, [p1, p2]) == AddParts(m2, [p2]);
  }

  //// Signed header names

  lemma NamesSorted(hs: Headers)
    ensures forall n :: n in SignedNames(hs) <==> n in NamesToSign(hs)
    ensures SignedNames(hs) != []
  {
    var names := NamesToSign(hs);
    SortByOrdered(Enumerate(names), Self);
    assert forall n :: n in SignedNames(hs) <==> n in multiset(SignedNames(hs));
    assert "host" in SignedNames(hs);
  }

  ghost predicate CleanHeaders(hs: Headers) {
    forall n :: n in hs && MustSign(n) ==> HeaderName(n)
  }

  lemma HostIsName()
    ensures HeaderName("host")
  {
  }

  lemma {:induction false} JoinedNames(names: seq<string>)
    requires names != [] && forall i :: 0 <= i < |names| ==> HeaderName(names[i])
    requires HeaderName(names[0]) && HeaderName(names[|names| - 1])
    ensures var s := Join(names, ";");
            && s != "" && ',' !in s && s[0] == names[0][0]
            && s[|s| - 1] == names[|names| - 1][|names[|names| - 1]| - 1]
  {
    assert HeaderName(names[0]);
    if |names| > 1 {
      assert HeaderName(names[1]);
      JoinedNames(names[1..]);
      var rest := Join(names[1..], ";");
      assert Join(names, ";") == names[0] + ";" + rest;
      assert names[1..][|names| - 2] == names[|names| - 1];
    }
  }

  lemma SignedNamesField(hs: Headers)
    requires CleanHeaders(hs)
    ensures HeaderField(Join(SignedNames(hs), ";"))
    ensures Split(Join(SignedNames(hs), ";"), ';') == SignedNames(hs)
  {
    hide SignedNames, Split;
    var names := SignedNames(hs);
    NamesSorted(hs);
    HostIsName();
    assert forall n :: n in names ==> HeaderName(n);
    var first, last := names[0], names[|names| - 1];
    assert HeaderName(first) && HeaderName(last);
    JoinedNames(names);
    assert NameChar(first[0]) && NameChar(last[|last| - 1]);
    forall n | n in names ensures ';' !in n {
      assert forall i :: 0 <= i < |n| ==> NameChar(n[i]);
    }
    SplitOfJoin(names, ';');
  }

  lemma {:induction false} LowerFixed(s: string)
    requires forall i :: 0 <= i < |s| ==> LowerChar(s[i]) == s[i]
    ensures ToLower(s) == s
  {
    if s != "" { LowerFixed(s[1..]); }
  }

  lemma NameNormal(n: string)
    requires HeaderName(n)
    ensures TrimSpace(n) == n && ToLower(n) == n
  {
    assert NameChar(n[0]) && NameChar(n[|n| - 1]);
    TrimUntouched(n, IsSpace);
    assert forall i :: 0 <= i < |n| ==> NameChar(n[i]);
    LowerFixed(n);
  }

  lemma NamesCover(names: seq<string>, hs: Headers)
    requires forall n :: n in names ==> HeaderName(n)
    requires "host" in names
    requires forall n :: n in hs && AMZ_PREFIX <= n ==> n in names
    ensures HeadersSigned(hs, names)
  {
    hide TrimSpace, ToLower;
    forall n | n in names ensures n in SignedSet(names) {
      NameNormal(n);
      assert n in names && TrimSpace(n) != "" && ToLower(TrimSpace(n)) == n;
    }
  }

  lemma {:induction false} SameLines(hs: Headers, hs': Headers, host: string, signed: seq<string>)
    requires forall n :: n in signed ==> HeaderValue(hs, host, n) == HeaderValue(hs', host, n)
    ensures HeaderLines(hs, host, signed) == HeaderLines(hs', host, signed)
  {
    if signed != [] { SameLines(hs, hs', host, signed[1..]); }
  }

  //// Agreement: header authentication

  /** `got` is what the server receives of the signed request `sent`: other headers
      may be added on the way, but no x-amz- header, and the signed ones and the
      Authorization header arrive as they were. */
  ghost predicate Arrives(sent: Request, got: Request) {
    && got.verb == sent.verb && got.path == sent.path && got.query == sent.query && got.host == sent.host
    && (forall n :: n in sent.headers && (MustSign(n) || n == "authorization") ==>
          n in got.headers && got.headers[n] == sent.headers[n])
    && (forall n :: n in got.headers && AMZ_PREFIX <= n ==> n in sent.headers)
  }

  /** The request as SignRequest leaves it. */
  ghost function Signed(l: Library, r: Request, creds: Credentials, region: string, service: string,
                        payloadHash: string, now: int): Request {
    r.(headers := SignedHeaders(l, r, creds, region, service, payloadHash, now))
  }

  lemma NotSigned()
    ensures !MustSign("host") && !MustSign("authorization")
  {
    assert AMZ_PREFIX[0] == 'x' && "host"[0] == 'h' && "authorization"[0] == 'a';
    assert "content-type"[0] == 'c' && "content-md5"[0] == 'c';
  }

  lemma AmzNames()
    ensures HeaderName("x-amz-date") && HeaderName("x-amz-content-sha256")
  {
  }

  lemma PreparedHeaders(l: Library, r: Request, payload: string, now: int)
    requires CleanHeaders(r.headers) && Faithful(l)
    ensures var hs := Prepared(l, r, payload, now);
            && CleanHeaders(hs) && "x-amz-content-sha256" in hs && "x-amz-date" in hs
            && Get(hs, "x-amz-date") == l.stamp(now / SECOND) != ""
  {
    var hs := Prepared(l, r, payload, now);
    NotSigned();
    AmzNames();
    hide HeaderName;
    forall n | n in hs && MustSign(n) ensures HeaderName(n) {
      assert n in r.headers || n == "x-amz-date" || n == "x-amz-content-sha256";
    }
  }

  lemma ArrivesSame(r: Request, hs: Headers, auth: string, got: Request)
    requires Arrives(r.(headers := Set(hs, "authorization", auth)), got)
    requires "x-amz-content-sha256" in hs && "x-amz-date" in hs
    ensures Get(got.headers, "authorization") == auth
    ensures CanonicalRequest(got, SignedNames(hs)) == CanonicalRequest(r.(headers := hs), SignedNames(hs))
    ensures Get(got.headers, "x-amz-date") == Get(hs, "x-amz-date")
  {
    hide SignedNames, Canonical, Sort, EscapePath;
    var names := SignedNames(hs);
    NotSigned();
    assert MustSign("x-amz-content-sha256") && MustSign("x-amz-date");
    NamesSorted(hs);
    forall n | n in names
      ensures HeaderValue(got.headers, got.host, n) == HeaderValue(hs, r.host, n)
    {
      assert n in NamesToSign(hs);
    }
    SameLines(got.headers, hs, r.host, names);
  }

  lemma NamesArrive(r: Request, hs: Headers, auth: string, got: Request)
    requires Arrives(r.(headers := Set(hs, "authorization", auth)), got)
    requires CleanHeaders(hs)
    ensures HeadersSigned(got.headers, SignedNames(hs))
  {
    hide SignedNames, HeaderName;
    var names := SignedNames(hs);
    NamesSorted(hs);
    HostIsName();
    NotSigned();
    forall n | n in got.headers && AMZ_PREFIX <= n ensures n in names {
      assert n in hs && MustSign(n);
    }
    NamesCover(names, got.headers);
  }

  ghost predicate KnownTo(s: Signer, creds: Credentials) {
    s.lookup(creds.accessKey) == Some(creds) && PlainField(creds.accessKey)
  }

  lemma NoComma()
    ensures ',' !in "aws4_request"
  {
    var tail := "aws4_request";
    assert forall i :: 0 <= i < |tail| ==> tail[i] != ',';
  }

  lemma CredentialIsField(accessKey: string, day: string, region: string, service: string)
    requires PlainField(accessKey) && ',' !in day && ',' !in region && ',' !in service
    ensures HeaderField(Credential(accessKey, Scope(day, region, service)))
  {
    var scope := Scope(day, region, service);
    var tail := "aws4_request";
    assert [day, region, service, tail][1..] == [region, service, tail];
    assert [region, service, tail][1..] == [service, tail] && [service, tail][1..] == [tail];
    assert Join([service, tail], "/") == service + "/" + tail;
    assert Join([region, service, tail], "/") == region + "/" + (service + "/" + tail);
    assert scope == day + "/" + (region + "/" + (service + "/" + tail));
    NoComma();
    assert scope[|scope| - 1] == 't';
    var c := Credential(accessKey, scope);
    assert c[0] == if accessKey == "" then '/' else accessKey[0];
  }

  lemma HexIsField(s: string)
    requires IsLowerHex(s)
    ensures HeaderField(s)
  {
    assert forall i :: 0 <= i < |s| ==> s[i] != ',';
  }

  /** Header authentication accepts what SignRequest signed: for every request,
      at every later time, when region and service match, the key is known and
      plain, header names are HTTP names, the query does not ask for presigned
      authentication, and the token, if any, is sent. */
  lemma SignedIsAccepted(l: Library, s: Signer, r: Request, creds: Credentials, service: string, payloadHash: string,
                         signedAt: int, got: Request, now: int)
    requires Faithful(l) && KnownTo(s, creds)
    requires PlainField(s.region) && PlainField(s.service)
    requires s.service == if service == "" then "s3" else service
    requires CleanHeaders(r.headers) && Get(r.query, "X-Amz-Algorithm") == ""
    requires Arrives(Signed(l, r, creds, s.region, service, payloadHash, signedAt), got)
    requires TokenOK(got, creds)
    ensures Authenticate(l, s, got, now) == Accepted(creds)
  {
    hide SignedNames, CanonicalRequest, TokenOK, Credential, Scope, AuthorizationText, ParseAuthHeader, Split, ScopeOf;
    hide HeadersSigned, HeaderField, CleanHeaders, Join;
    var payload := if payloadHash == "" then "UNSIGNED-PAYLOAD" else payloadHash;
    var hs := Prepared(l, r, payload, signedAt);
    var names := SignedNames(hs);
    var day, date := l.day(signedAt / SECOND), l.stamp(signedAt / SECOND);
    var scope := Scope(day, s.region, s.service);
    var text := StringToSign(l, date, scope, CanonicalRequest(r.(headers := hs), names));
    var sig := l.sign(creds.secretKey, day, s.region, s.service, text);
    var auth := AuthorizationText(creds.accessKey, scope, names, sig);
    var sent := Signed(l, r, creds, s.region, service, payloadHash, signedAt);
    assert sent.headers == Set(hs, "authorization", auth);
    PreparedHeaders(l, r, payload, signedAt);
    CredentialIsField(creds.accessKey, day, s.region, s.service);
    SignedNamesField(hs);
    HexIsField(sig);
    AuthorizationParses(creds.accessKey, scope, names, sig);
    CredentialFields(creds.accessKey, day, s.region, s.service);
    ArrivesSame(r, hs, auth, got);
    NamesArrive(r, hs, auth, got);
  }

  //// Agreement: presigned URLs

  /** The caller added a header that a presigned URL does not sign. */
  ghost predicate AddsAmz(headers: Headers) {
    exists n :: n in headers && AMZ_PREFIX <= n
  }

  /** The verdict on a presigned URL, for every known key, path, endpoint query, headers
      added by the caller, and time: refused as invalid for the root key, or when its
      lifetime is not within 1 second and 7 days; refused as expired once that lifetime
      has passed since the whole second it was signed in; refused when the caller adds
      an x-amz- header; refused as invalid when the key has a session token that the
      endpoint query does not carry; accepted otherwise. */
  lemma PresignedVerdict(l: Library, s: Signer, verb: string, path: string, host: string, endpoint: Query,
                         creds: Credentials, expires: int, signedAt: int, headers: Headers, now: int)
    requires Faithful(l) && KnownTo(s, creds)
    requires '/' !in s.region && '/' !in s.service
    requires -0x8000_0000_0000_0000 < WholeSeconds(expires) < 0x8000_0000_0000_0000
    requires FourDigitYear(signedAt / SECOND)
    ensures var q := PresignedQuery(l, s, verb, path, host, endpoint, creds, expires, signedAt);
            var secs, token := WholeSeconds(expires), creds.sessionToken;
            var verdict := Authenticate(l, s, Request(verb, path, q, headers, host), now);
            if s.rootAccessKey != "" && s.rootAccessKey == creds.accessKey then verdict == Refused(InvalidAuth)
            else if secs <= 0 || secs > MAX_PRESIGN_SECONDS then verdict == Refused(InvalidAuth)
            else if now - signedAt / SECOND * SECOND > secs * SECOND then verdict == Refused(Expired)
            else if AddsAmz(headers) then
              verdict == Refused(UnsignedHeaders)
              || (verdict == Refused(SignatureMismatch) && Get(headers, "x-amz-date") != "")
            else if token != "" && token != Get(endpoint, "X-Amz-Security-Token") then verdict == Refused(InvalidAuth)
            else verdict == Accepted(creds)
  {
    hide PresignedQuery, Authenticate, AfterSignature, AddsAmz, WholeSeconds, Get, Faithful;
    PresignedChecks(l, s, verb, path, host, endpoint, creds, expires, signedAt, headers, now);
    var q := PresignedQuery(l, s, verb, path, host, endpoint, creds, expires, signedAt);
    PresignedEnd(Request(verb, path, q, headers, host), creds);
    TokenOfEndpoint(l, s, verb, path, host, endpoint, creds, expires, signedAt);
  }

  lemma TokenOfEndpoint(l: Library, s: Signer, verb: string, path: string, host: string, endpoint: Query,
                        creds: Credentials, expires: int, signedAt: int)
    ensures Get(PresignedQuery(l, s, verb, path, host, endpoint, creds, expires, signedAt), "X-Amz-Security-Token")
            == Get(endpoint, "X-Amz-Security-Token")
  {
    hide Credential, Scope, FormatInt, CanonicalPresigned, StringToSign, ScopeOf, WholeSeconds;
  }

  /** The checks after the signature, when only host is signed. */
  lemma PresignedEnd(r: Request, creds: Credentials)
    ensures AfterSignature(r, ["host"], creds)
            == if AddsAmz(r.headers) then Refused(UnsignedHeaders)
               else if creds.sessionToken != "" && creds.sessionToken != Get(r.query, "X-Amz-Security-Token")
               then Refused(InvalidAuth)
               else Accepted(creds)
    ensures !AddsAmz(r.headers) ==> Get(r.headers, "x-amz-date") == ""
  {
    HostAlone();
    if AddsAmz(r.headers) {
      var n :| n in r.headers && AMZ_PREFIX <= n;
      OnlyHostSigned();
      assert n[0] == 'x' && "host"[0] == 'h';
    } else {
      NamesCover(["host"], r.headers);
      hide HeadersSigned;
      assert AMZ_PREFIX <= "x-amz-date" && AMZ_PREFIX <= "x-amz-security-token";
    }
  }

  lemma OnlyHostSigned()
    ensures SignedSet(["host"]) == {"host"}
  {
    assert TrimSpace("host") == "host" by { TrimUntouched("host", IsSpace); }
    hide TrimSpace;
    NameNormal("host");
    assert "host" in ["host"];
  }

  /** Everything up to the signature, and the signature of a URL whose date the caller
      does not override. */
  lemma PresignedChecks(l: Library, s: Signer, verb: string, path: string, host: string, endpoint: Query,
                        creds: Credentials, expires: int, signedAt: int, headers: Headers, now: int)
    requires Faithful(l) && KnownTo(s, creds)
    requires '/' !in s.region && '/' !in s.service
    requires -0x8000_0000_0000_0000 < WholeSeconds(expires) < 0x8000_0000_0000_0000
    requires FourDigitYear(signedAt / SECOND)
    ensures var q := PresignedQuery(l, s, verb, path, host, endpoint, creds, expires, signedAt);
            var r, secs := Request(verb, path, q, headers, host), WholeSeconds(expires);
            var verdict := Authenticate(l, s, r, now);
            if s.rootAccessKey != "" && s.rootAccessKey == creds.accessKey then verdict == Refused(InvalidAuth)
            else if secs <= 0 || secs > MAX_PRESIGN_SECONDS then verdict == Refused(InvalidAuth)
            else if now - signedAt / SECOND * SECOND > secs * SECOND then verdict == Refused(Expired)
            else verdict == AfterSignature(r, ["host"], creds)
                 || (verdict == Refused(SignatureMismatch) && Get(headers, "x-amz-date") != "")
  {
    hide Split, ScopeOf, Credential, Scope, ScanInt, FormatInt, CanonicalPresigned, WholeSeconds, AfterSignature;
    var q := PresignedQuery(l, s, verb, path, host, endpoint, creds, expires, signedAt);
    var day, date := l.day(signedAt / SECOND), l.stamp(signedAt / SECOND);
    var r := Request(verb, path, q, headers, host);
    CredentialFields(creds.accessKey, day, s.region, s.service);
    ScanOfFormat(WholeSeconds(expires));
    HostAlone();
    PresignedCanonical(l, s, verb, path, host, endpoint, creds, expires, signedAt, headers);
  }

  lemma HostAlone()
    ensures Split("host", ';') == ["host"]
    ensures HeaderName("host")
  {
    assert ';' !in "host";
  }

  lemma PresignedCanonical(l: Library, s: Signer, verb: string, path: string, host: string, endpoint: Query,
                           creds: Credentials, expires: int, signedAt: int, headers: Headers)
    ensures var q := PresignedQuery(l, s, verb, path, host, endpoint, creds, expires, signedAt);
            var u := UnsignedQuery(l, s, endpoint, creds, expires, signedAt);
            CanonicalPresigned(Request(verb, path, q, headers, host), ["host"])
            == CanonicalPresigned(Request(verb, path, u, map[], host), ["host"])
  {
    hide Canonical, EscapePath, CanonicalPresigned;
    var q := PresignedQuery(l, s, verb, path, host, endpoint, creds, expires, signedAt);
    var u := UnsignedQuery(l, s, endpoint, creds, expires, signedAt);
    SignatureDropped(u, Get(q, "X-Amz-Signature"));
    HostOnly(Request(verb, path, q, headers, host), Request(verb, path, u, map[], host));
  }

  lemma SignatureDropped(u: Query, sig: string)
    ensures Set(u, "X-Amz-Signature", sig) - {"X-Amz-Signature"} == u - {"X-Amz-Signature"}
  {
  }

  lemma HostOnly(a: Request, b: Request)
    requires a.verb == b.verb && a.path == b.path && a.host == b.host
    requires a.query - {"X-Amz-Signature"} == b.query - {"X-Amz-Signature"}
    ensures CanonicalPresigned(a, ["host"]) == CanonicalPresigned(b, ["host"])
  {
    hide Canonical, EscapePath, Sort;
    SameLines(a.headers, b.headers, a.host, ["host"]);
  }

  //// What the signed text binds

  lemma FirstLine(x: string, y: string, r: string, t: string)
    requires '\n' !in x && '\n' !in y
    requires x + "\n" + r == y + "\n" + t
    ensures x == y && r == t
  {
    var s := x + "\n" + r;
    assert s[..|x|] == x;
    IndexByteUnique(s, '\n', |x|);
    assert s == y + "\n" + t && s[..|y|] == y;
    IndexByteUnique(s, '\n', |y|);
    assert r == s[|x| + 1..] && t == s[|y| + 1..];
  }

  lemma {:induction false} PathRead(s: string)
    requires IsBytes(s)
    ensures Unescape(EscapePath(s)) == s
  {
    hide EscapeByte;
    if s != "" {
      var rest := EscapePath(s[1..]);
      PathRead(s[1..]);
      if s[0] == '/' {
        assert ("/" + rest)[1..] == rest;
      } else {
        UnescapeByte(s[0], rest);
      }
    }
  }

  lemma {:induction false} PathOneLine(s: string)
    ensures '\n' !in EscapePath(s)
  {
    if s != "" { PathOneLine(s[1..]); }
  }

  lemma {:induction false} TextsOneLine(ps: seq<(string, string)>)
    ensures forall t :: t in Texts(ps) ==> '\n' !in t
  {
    if ps != [] {
      TextsOneLine(ps[1..]);
      EscapeAvoids(ps[0].0, '\n');
      EscapeAvoids(ps[0].1, '\n');
    }
  }

  lemma {:induction false} JoinOneLine(parts: seq<string>)
    requires forall t :: t in parts ==> '\n' !in t
    ensures '\n' !in Join(parts, "&")
  {
    if |parts| == 1 {
      assert parts[0] in parts;
    } else if |parts| > 1 {
      assert parts[0] in parts;
      JoinOneLine(parts[1..]);
    }
  }

  lemma CanonicalOneLine(q: Query)
    ensures '\n' !in Canonical(q)
  {
    hide Texts, Join, Pairs;
    TextsOneLine(Pairs(q));
    JoinOneLine(Texts(Pairs(q)));
  }

  lemma HostHeaders(hs: Headers, host: string)
    ensures CanonicalHeaders(hs, host, ["host"]) == "host:" + host + "\n"
  {
    var line := "host" + ":" + HeaderValue(hs, host, "host");
    assert HeaderLines(hs, host, ["host"]) == [line];
    SortByOrdered([line], Self);
    assert multiset(Sort([line])) == multiset{line} && |Sort([line])| == 1;
    assert Sort([line])[0] in multiset(Sort([line]));
    assert Sort([line]) == [line];
    assert "host" + ":" == "host:";
  }

  ghost function Body(r: Request): string {
    "host:" + r.host + "\n" + "\n" + "host" + "\n" + "UNSIGNED-PAYLOAD"
  }

  lemma PresignedLines(r: Request)
    ensures CanonicalPresigned(r, ["host"])
            == r.verb + "\n" + (EscapePath(r.path) + "\n" + (Canonical(r.query - {"X-Amz-Signature"}) + "\n" + Body(r)))
  {
    hide EscapePath, Canonical, CanonicalHeaders;
    HostHeaders(r.headers, r.host);
    assert Join(["host"], ";") == "host";
    Reassociate(r.verb, EscapePath(r.path), Canonical(r.query - {"X-Amz-Signature"}), "host:" + r.host + "\n");
  }

  lemma Reassociate(v: string, p: string, q: string, h: string)
    ensures v + "\n" + p + "\n" + q + "\n" + h + "\n" + "host" + "\n" + "UNSIGNED-PAYLOAD"
            == v + "\n" + (p + "\n" + (q + "\n" + (h + "\n" + "host" + "\n" + "UNSIGNED-PAYLOAD")))
  {
  }

  lemma SameHost(a: Request, b: Request)
    ensures Body(a) == Body(b) <==> a.host == b.host
  {
    if Body(a) == Body(b) {
      assert |a.host| == |b.host|;
      assert Body(a)[5..5 + |a.host|] == a.host && Body(b)[5..5 + |b.host|] == b.host;
    }
  }

  lemma BoundParts(a: Request, b: Request)
    requires '\n' !in a.verb && '\n' !in b.verb && IsBytes(a.path) && IsBytes(b.path)
    requires CanonicalPresigned(a, ["host"]) == CanonicalPresigned(b, ["host"])
    ensures a.verb == b.verb && a.path == b.path && a.host == b.host
    ensures Canonical(a.query - {"X-Amz-Signature"}) == Canonical(b.query - {"X-Amz-Signature"})
  {
    hide EscapePath, Canonical, CanonicalPresigned, Body;
    var ca, cb := Canonical(a.query - {"X-Amz-Signature"}), Canonical(b.query - {"X-Amz-Signature"});
    PresignedLines(a);
    PresignedLines(b);
    PathRead(a.path);
    PathRead(b.path);
    PathOneLine(a.path);
    PathOneLine(b.path);
    CanonicalOneLine(a.query - {"X-Amz-Signature"});
    CanonicalOneLine(b.query - {"X-Amz-Signature"});
    var ra, rb := ca + "\n" + Body(a), cb + "\n" + Body(b);
    FirstLine(a.verb, b.verb, EscapePath(a.path) + "\n" + ra, EscapePath(b.path) + "\n" + rb);
    FirstLine(EscapePath(a.path), EscapePath(b.path), ra, rb);
    FirstLine(ca, cb, Body(a), Body(b));
    SameHost(a, b);
  }

  ghost predicate SameValues(a: Query, b: Query) {
    forall k :: k != "X-Amz-Signature" ==> multiset(Values(a, k)) == multiset(Values(b, k))
  }

  lemma SameCanonicalQuery(a: Query, b: Query)
    requires ByteQuery(a) && ByteQuery(b)
    ensures Canonical(a - {"X-Amz-Signature"}) == Canonical(b - {"X-Amz-Signature"}) <==> SameValues(a, b)
  {
    hide Canonical;
    var qa, qb := a - {"X-Amz-Signature"}, b - {"X-Amz-Signature"};
    CanonicalInjective(qa, qb);
    assert forall k :: k != "X-Amz-Signature" ==> Values(qa, k) == Values(a, k) && Values(qb, k) == Values(b, k);
    assert Values(qa, "X-Amz-Signature") == [] && Values(qb, "X-Amz-Signature") == [];
  }

  /** Two presigned requests have the same signed text exactly when they have the
      same verb, path and host, and every query key but the signature has the
      same multiset of values. */
  lemma PresignedBinds(a: Request, b: Request)
    requires '\n' !in a.verb && '\n' !in b.verb && IsBytes(a.path) && IsBytes(b.path)
    requires ByteQuery(a.query) && ByteQuery(b.query)
    ensures CanonicalPresigned(a, ["host"]) == CanonicalPresigned(b, ["host"]) <==>
              a.verb == b.verb && a.path == b.path && a.host == b.host && SameValues(a.query, b.query)
  {
    hide EscapePath, Canonical, CanonicalPresigned, SameValues;
    SameCanonicalQuery(a.query, b.query);
    if CanonicalPresigned(a, ["host"]) == CanonicalPresigned(b, ["host"]) {
      BoundParts(a, b);
    } else {
      PresignedLines(a);
      PresignedLines(b);
    }
  }
}
