/** Only what was signed is accepted: the verdict on every request that bears a signature. */
module SigV4Forgery {
  import opened Clock
  import opened Strings
  import opened CanonicalQuery
  import opened SigV4
  import opened SigV4Theorems
  import opened SigV4Binding

  const DATE := "x-amz-date"
  const PAYLOAD := "x-amz-content-sha256"

  //// Requests signed in a header

  predicate Signable(n: string) {
    "x-amz-" <= n || n == "content-type" || n == "content-md5"
  }

  lemma SignableMeans(n: string)
    ensures Signable(n) <==> MustSign(n)
  {
  }

  /** What the signer signs beside the host. */
  predicate Covered(r: Request, n: string) {
    Signable(n) && (n in r.headers || n == DATE || n == PAYLOAD)
  }

  /** A request an HTTP client can write: names without colons, texts on one line. */
  ghost predicate Sendable(r: Request) {
    && OneLine(r.verb) && OneLine(r.host) && IsBytes(r.path) && ByteQuery(r.query) && CleanHeaders(r.headers)
    && forall n :: n in r.headers && Signable(n) ==> ':' !in n && OneLine(Seen(r.headers, n))
  }

  function Wanted(r: Request, n: string, date: string, payload: string): string {
    if n == DATE then TrimSpace(date) else if n == PAYLOAD then TrimSpace(payload) else Seen(r.headers, n)
  }

  /** `got` is the request that was signed, as far as the signature goes. */
  ghost predicate AsSigned(r: Request, date: string, payload: string, got: Request) {
    && got.verb == r.verb && got.path == r.path && got.host == r.host && SameQuery(r.query, got.query)
    && (if Get(got.headers, DATE) != "" then Get(got.headers, DATE) else Get(got.query, "X-Amz-Date")) == date
    && Get(got.headers, PAYLOAD) == payload
    && forall n :: Covered(r, n) ==> Seen(got.headers, n) == Wanted(r, n, date, payload)
  }

  /** `got` has an x-amz- header that was not signed. */
  ghost predicate AddsUnsigned(r: Request, got: Request) {
    exists n :: n in got.headers && AMZ_PREFIX <= n && !Covered(r, n)
  }

  predicate TokenSent(got: Request, token: string) {
    var h, q := Get(got.headers, "x-amz-security-token"), Get(got.query, "X-Amz-Security-Token");
    token == "" || token == if h != "" then h else q
  }

  lemma {:induction false} TrimOneLine(s: string)
    requires OneLine(s)
    ensures OneLine(TrimSpace(s))
  {
    TrimLeftPart(s);
    TrimRightPart(TrimLeft(s, IsSpace));
  }

  lemma {:induction false} TrimLeftPart(s: string)
    requires OneLine(s)
    ensures OneLine(TrimLeft(s, IsSpace))
  {
    if s != [] && IsSpace(s[0]) { TrimLeftPart(s[1..]); }
  }

  lemma {:induction false} TrimRightPart(s: string)
    requires OneLine(s)
    ensures OneLine(TrimRight(s, IsSpace))
  {
    if s != [] && IsSpace(s[|s| - 1]) { TrimRightPart(s[..|s| - 1]); }
  }

  lemma NameOneLine(n: string)
    requires HeaderName(n)
    ensures OneLine(n)
  {
    assert forall i :: 0 <= i < |n| ==> NameChar(n[i]);
  }

  lemma FixedNames()
    ensures Signable(DATE) && Signable(PAYLOAD) && ':' !in DATE && ':' !in PAYLOAD && ':' !in "host"
    ensures !Signable("host") && !Signable("authorization") && DATE != "host" && PAYLOAD != "host" && DATE != PAYLOAD
  {
    NotSigned();
    assert |DATE| == 10 && |PAYLOAD| == 20 && |"host"| == 4;
    var d, p := DATE, PAYLOAD;
    assert forall i :: 0 <= i < |d| ==> d[i] != ':';
    assert forall i :: 0 <= i < |p| ==> p[i] != ':';
  }

  /** The names signed are host and what is covered. */
  lemma NamesAre(l: Library, r: Request, payload: string, now: int)
    requires CleanHeaders(r.headers) && Faithful(l)
    ensures var names := SignedNames(Prepared(l, r, payload, now));
            && names != [] && (forall n :: n in names ==> HeaderName(n))
            && forall n :: n in names <==> n == "host" || Covered(r, n)
  {
    hide SignedNames, HeaderName;
    var hs := Prepared(l, r, payload, now);
    PreparedHeaders(l, r, payload, now);
    NamesSorted(hs);
    HostIsName();
    FixedNames();
    assert forall n :: Signable(n) <==> MustSign(n);
    hide MustSign, Signable;
    assert forall n :: n in NamesToSign(hs) <==> n == "host" || Covered(r, n);
  }

  /** The value signed for each name. */
  lemma ValueSigned(l: Library, r: Request, payload: string, now: int, n: string)
    requires Covered(r, n)
    ensures HeaderValue(Prepared(l, r, payload, now), r.host, n) == Wanted(r, n, l.stamp(now / SECOND), payload)
    ensures n != "host"
  {
    FixedNames();
    hide TrimSpace, Signable;
  }

  lemma SenderWrites(l: Library, r: Request, payload: string, now: int)
    requires Ideal(l) && Sendable(r) && OneLine(payload)
    ensures var hs := Prepared(l, r, payload, now);
            Writable(r.(headers := hs), SignedNames(hs), payload)
  {
    hide SignedNames, HeaderName, TrimSpace, Prepared, HeaderValue, Signable;
    var hs, date := Prepared(l, r, payload, now), l.stamp(now / SECOND);
    NamesAre(l, r, payload, now);
    FixedNames();
    forall n | n in SignedNames(hs) ensures ':' !in n && OneLine(n) && OneLine(HeaderValue(hs, r.host, n)) {
      NameOneLine(n);
      if n == "host" {
        HostValue(hs, r.host);
      } else {
        ValueSigned(l, r, payload, now, n);
        TrimOneLine(date);
        TrimOneLine(payload);
      }
    }
  }

  lemma HostValue(hs: Headers, host: string)
    ensures HeaderValue(hs, host, "host") == host
  {
  }

  /** Agreement on the signed headers, name by name. */
  lemma SameSigned(l: Library, r: Request, payload: string, now: int, got: Request)
    requires CleanHeaders(r.headers) && Faithful(l)
    ensures var hs := Prepared(l, r, payload, now);
            SameHeaders(r.(headers := hs), got, SignedNames(hs)) <==>
              && r.host == got.host
              && forall n :: Covered(r, n) ==> Seen(got.headers, n) == Wanted(r, n, l.stamp(now / SECOND), payload)
  {
    hide SignedNames, HeaderName, Prepared, Signable, TrimSpace, Wanted, Seen;
    var hs, date := Prepared(l, r, payload, now), l.stamp(now / SECOND);
    var names := SignedNames(hs);
    NamesAre(l, r, payload, now);
    HostValue(hs, r.host);
    HostValue(got.headers, got.host);
    assert "host" in names;
    forall n | Covered(r, n)
      ensures HeaderValue(hs, r.host, n) == Wanted(r, n, date, payload)
      ensures HeaderValue(got.headers, got.host, n) == Seen(got.headers, n)
    {
      ValueSigned(l, r, payload, now, n);
      SeenIsValue(got.headers, got.host, n);
    }
    hide HeaderValue;
  }

  lemma SeenIsValue(hs: Headers, host: string, n: string)
    requires n != "host"
    ensures HeaderValue(hs, host, n) == Seen(hs, n)
  {
  }

  /** requireSignedHeaders on the names that were signed. */
  lemma CoverExactly(l: Library, r: Request, payload: string, now: int, got: Request)
    requires CleanHeaders(r.headers) && Faithful(l)
    ensures HeadersSigned(got.headers, SignedNames(Prepared(l, r, payload, now))) <==> !AddsUnsigned(r, got)
  {
    hide SignedNames, HeaderName, Prepared, TrimSpace, ToLower, Covered;
    var names := SignedNames(Prepared(l, r, payload, now));
    NamesAre(l, r, payload, now);
    forall n | n in names ensures TrimSpace(n) == n && ToLower(n) == n && n != "" {
      NameNormal(n);
      assert HeaderName(n);
      NameNotEmpty(n);
    }
    assert forall n :: n in SignedSet(names) <==> n in names;
    hide SignedSet;
    AmzNotHost();
  }

  lemma NameNotEmpty(n: string)
    requires HeaderName(n)
    ensures n != ""
  {
  }

  lemma AmzNotHost()
    ensures !(AMZ_PREFIX <= "host")
  {
    assert AMZ_PREFIX[0] == 'x' && "host"[0] == 'h';
  }

  //// The verdict

  /** The verdict on an Authorization header as SignRequest prints it, whatever its fields. */
  lemma HeaderShape(l: Library, s: Signer, got: Request, now: int, accessKey: string, day: string, region: string,
                    service: string, names: seq<string>, sig: string)
    requires Get(got.query, "X-Amz-Algorithm") == ""
    requires Get(got.headers, "authorization") == AuthorizationText(accessKey, Scope(day, region, service), names, sig)
    requires PlainField(accessKey) && PlainField(region) && PlainField(service) && '/' !in day && ',' !in day
    requires HeaderField(Join(names, ";")) && Split(Join(names, ";"), ';') == names && HeaderField(sig)
    ensures Authenticate(l, s, got, now) ==
            match s.lookup(accessKey)
            case None => Refused(InvalidAuth)
            case Some(k) =>
              var text := StringToSign(l, RequestDate(got), Scope(day, region, service), CanonicalRequest(got, names));
              if sig != l.sign(k.secretKey, day, s.region, s.service, text) then Refused(SignatureMismatch)
              else AfterSignature(got, names, k)
  {
    hide CanonicalRequest, Credential, Scope, AuthorizationText, ParseAuthHeader, Split, ScopeOf, AfterSignature;
    hide HeaderField, Join, RequestDate, StringToSign;
    var scope := Scope(day, region, service);
    CredentialIsField(accessKey, day, region, service);
    AuthorizationParses(accessKey, scope, names, sig);
    CredentialFields(accessKey, day, region, service);
    AuthorizationLong(accessKey, scope, names, sig);
  }

  lemma AuthorizationLong(accessKey: string, scope: string, names: seq<string>, sig: string)
    ensures AuthorizationText(accessKey, scope, names, sig) != ""
  {
    hide Join, Credential;
  }

  ghost predicate KeyText(creds: Credentials, region: string, service: string) {
    PlainField(creds.accessKey) && PlainField(region) && PlainField(service) && OneLine(region) && OneLine(service)
  }

  function ServiceOf(service: string): string {
    if service == "" then "s3" else service
  }

  function PayloadOf(payloadHash: string): string {
    if payloadHash == "" then "UNSIGNED-PAYLOAD" else payloadHash
  }

  lemma ScopeOneLine(day: string, region: string, service: string)
    requires OneLine(day) && OneLine(region) && OneLine(service)
    ensures OneLine(Scope(day, region, service))
  {
    var tail := "aws4_request";
    assert forall i :: 0 <= i < |tail| ==> tail[i] != '\n';
    assert [day, region, service, tail][1..] == [region, service, tail];
    assert [region, service, tail][1..] == [service, tail] && [service, tail][1..] == [tail];
    assert Join([service, tail], "/") == service + "/" + tail;
    assert Join([region, service, tail], "/") == region + "/" + (service + "/" + tail);
    assert Scope(day, region, service) == day + "/" + (region + "/" + (service + "/" + tail));
  }

  /** The text the server computes is the one that was signed exactly when the request is. */
  lemma SameTextExactly(l: Library, r: Request, payload: string, now: int, scope: string, got: Request)
    requires Ideal(l) && Sendable(r) && OneLine(payload) && OneLine(scope)
    requires IsBytes(got.path) && ByteQuery(got.query)
    ensures var hs, date := Prepared(l, r, payload, now), l.stamp(now / SECOND);
            var names := SignedNames(hs);
            StringToSign(l, date, scope, CanonicalRequest(r.(headers := hs), names))
            == StringToSign(l, RequestDate(got), scope, CanonicalRequest(got, names))
            <==> AsSigned(r, date, payload, got)
  {
    hide SignedNames, Prepared, StringToSign, CanonicalText, SameHeaders, Writable, Covered, Wanted, Seen, SameQuery;
    var hs, date := Prepared(l, r, payload, now), l.stamp(now / SECOND);
    var names, sent := SignedNames(hs), r.(headers := hs);
    NamesAre(l, r, payload, now);
    SenderWrites(l, r, payload, now);
    SameSigned(l, r, payload, now, got);
    PayloadPrepared(l, r, payload, now);
    hide Sendable, Faithful, HeaderName;
    TextBinds(sent, got, names, payload, Get(got.headers, PAYLOAD));
    StringBinds(l, date, scope, CanonicalRequest(sent, names), RequestDate(got), scope, CanonicalRequest(got, names));
  }

  lemma PayloadPrepared(l: Library, r: Request, payload: string, now: int)
    ensures Get(Prepared(l, r, payload, now), PAYLOAD) == payload
  {
    FixedNames();
  }

  lemma StandardsOneLine(service: string, payloadHash: string)
    requires PlainField(service) && OneLine(service) && OneLine(payloadHash)
    ensures PlainField(ServiceOf(service)) && OneLine(ServiceOf(service)) && OneLine(PayloadOf(payloadHash))
  {
    var u := "UNSIGNED-PAYLOAD";
    assert forall i :: 0 <= i < |u| ==> u[i] != '\n';
  }

  /** The Authorization header that SignRequest sets. */
  lemma HeaderSet(l: Library, r: Request, creds: Credentials, region: string, service: string, payloadHash: string,
                  now: int) returns (sig: string)
    requires Faithful(l) && CleanHeaders(r.headers)
    ensures var svc, payload, day := ServiceOf(service), PayloadOf(payloadHash), l.day(now / SECOND);
            var hs := Prepared(l, r, payload, now);
            var names, scope := SignedNames(hs), Scope(day, region, svc);
            var text := StringToSign(l, l.stamp(now / SECOND), scope, CanonicalRequest(r.(headers := hs), names));
            && sig == l.sign(creds.secretKey, day, region, svc, text)
            && Get(Signed(l, r, creds, region, service, payloadHash, now).headers, "authorization")
               == AuthorizationText(creds.accessKey, scope, names, sig)
            && HeaderField(sig) && HeaderField(Join(names, ";")) && Split(Join(names, ";"), ';') == names
  {
    hide SignedNames, CanonicalRequest, Scope, AuthorizationText, StringToSign, Join, Split, HeaderField, Prepared;
    var svc, payload, day := ServiceOf(service), PayloadOf(payloadHash), l.day(now / SECOND);
    var hs := Prepared(l, r, payload, now);
    var names, scope := SignedNames(hs), Scope(day, region, svc);
    var text := StringToSign(l, l.stamp(now / SECOND), scope, CanonicalRequest(r.(headers := hs), names));
    sig := l.sign(creds.secretKey, day, region, svc, text);
    PreparedHeaders(l, r, payload, now);
    SignedNamesField(hs);
    HexIsField(sig);
  }

  /** The verdict on any request whatever that carries the Authorization header of a
      signed one: mismatch, unless key, region, service, date, payload hash, verb, path,
      host, query values and signed headers are those that were signed. */
  lemma HeaderVerdict(l: Library, s: Signer, r: Request, creds: Credentials, region: string, service: string,
                      payloadHash: string, signedAt: int, got: Request, now: int)
    requires Ideal(l) && Sendable(r) && KeyText(creds, region, service) && OneLine(payloadHash)
    requires Get(got.query, "X-Amz-Algorithm") == "" && IsBytes(got.path) && ByteQuery(got.query)
    requires Get(got.headers, "authorization")
             == Get(Signed(l, r, creds, region, service, payloadHash, signedAt).headers, "authorization")
    ensures Authenticate(l, s, got, now) ==
            match s.lookup(creds.accessKey)
            case None => Refused(InvalidAuth)
            case Some(k) =>
              if k.secretKey != creds.secretKey || s.region != region || s.service != ServiceOf(service)
                 || !AsSigned(r, l.stamp(signedAt / SECOND), PayloadOf(payloadHash), got)
              then Refused(SignatureMismatch)
              else if AddsUnsigned(r, got) then Refused(UnsignedHeaders)
              else if !TokenSent(got, k.sessionToken) then Refused(InvalidAuth)
              else Accepted(k)
  {
    hide SignedNames, Prepared, StringToSign, CanonicalRequest, Scope, AuthorizationText, Join, Split, HeaderField;
    hide Signed, Authenticate, AsSigned, AddsUnsigned, Sendable, HeadersSigned, ServiceOf, PayloadOf, RequestDate;
    var svc, payload, day := ServiceOf(service), PayloadOf(payloadHash), l.day(signedAt / SECOND);
    var hs, scope := Prepared(l, r, payload, signedAt), Scope(day, region, svc);
    assert CleanHeaders(r.headers) by { SendableClean(r); }
    StandardsOneLine(service, payloadHash);
    ScopeOneLine(day, region, svc);
    var sig := HeaderSet(l, r, creds, region, service, payloadHash, signedAt);
    HeaderShape(l, s, got, now, creds.accessKey, day, region, svc, SignedNames(hs), sig);
    SameTextExactly(l, r, payload, signedAt, scope, got);
    CoverExactly(l, r, payload, signedAt, got);
    hide CleanHeaders, PlainField;
  }

  lemma SendableClean(r: Request)
    requires Sendable(r)
    ensures CleanHeaders(r.headers)
  {
  }

  /** The request that was signed, with any other signature in its header, is refused. */
  lemma OtherSignature(l: Library, s: Signer, r: Request, creds: Credentials, service: string, payloadHash: string,
                       signedAt: int, sig: string, got: Request, now: int)
    requires Faithful(l) && KnownTo(s, creds) && PlainField(s.region) && PlainField(s.service)
    requires s.service == ServiceOf(service) && CleanHeaders(r.headers) && HeaderField(sig)
    requires Get(got.query, "X-Amz-Algorithm") == ""
    requires var sent := Signed(l, r, creds, s.region, service, payloadHash, signedAt);
             var scope := Scope(l.day(signedAt / SECOND), s.region, s.service);
             var header := AuthorizationText(creds.accessKey, scope, SignedNames(sent.headers), sig);
             && header != Get(sent.headers, "authorization")
             && Arrives(sent.(headers := Set(sent.headers, "authorization", header)), got)
    ensures Authenticate(l, s, got, now) == Refused(SignatureMismatch)
  {
    hide SignedNames, Prepared, StringToSign, CanonicalRequest, Scope, AuthorizationText, Join, Split, HeaderField;
    hide Authenticate, Arrives, ServiceOf, PayloadOf, CleanHeaders, PlainField;
    var payload, day := PayloadOf(payloadHash), l.day(signedAt / SECOND);
    var hs, scope := Prepared(l, r, payload, signedAt), Scope(day, s.region, s.service);
    var own := HeaderSet(l, r, creds, s.region, service, payloadHash, signedAt);
    var sent := Signed(l, r, creds, s.region, service, payloadHash, signedAt);
    SentHeaders(l, r, creds, s.region, service, payloadHash, signedAt);
    var header := AuthorizationText(creds.accessKey, scope, SignedNames(sent.headers), sig);
    assert Set(sent.headers, "authorization", header) == Set(hs, "authorization", header);
    PreparedHeaders(l, r, payload, signedAt);
    ArrivesSame(r, hs, header, got);
    HeaderShape(l, s, got, now, creds.accessKey, day, s.region, s.service, SignedNames(hs), sig);
  }

  lemma SentHeaders(l: Library, r: Request, creds: Credentials, region: string, service: string, payloadHash: string,
                    now: int)
    ensures var sent := Signed(l, r, creds, region, service, payloadHash, now);
            var hs := Prepared(l, r, PayloadOf(payloadHash), now);
            && sent.headers == Set(hs, "authorization", Get(sent.headers, "authorization"))
            && SignedNames(sent.headers) == SignedNames(hs)
            && sent == r.(headers := sent.headers)
  {
    hide Prepared, StringToSign, CanonicalRequest, Scope, AuthorizationText, Sort, MustSign;
    NotSigned();
    var sent := Signed(l, r, creds, region, service, payloadHash, now);
    var hs := Prepared(l, r, PayloadOf(payloadHash), now);
    assert NamesToSign(sent.headers) == NamesToSign(hs);
  }

  //// Requests that name no signature

  /** Credentials are missing exactly when there is no Authorization header and no algorithm in the query. */
  lemma MissingExactly(l: Library, s: Signer, r: Request, now: int)
    ensures Authenticate(l, s, r, now) == Refused(MissingAuth) <==>
              Get(r.query, "X-Amz-Algorithm") == "" && Get(r.headers, "authorization") == ""
  {
    hide CanonicalRequest, CanonicalPresigned, StringToSign, Split, ScopeOf, ParseAuthHeader, ScanInt, HeadersSigned;
  }

  /** Another scheme, or a credential that does not have five parts, is invalid. */
  lemma Unreadable(l: Library, s: Signer, r: Request, now: int, accessKey: string, scope: string, names: seq<string>,
                   sig: string)
    requires Get(r.query, "X-Amz-Algorithm") == "" && Get(r.headers, "authorization") != ""
    requires HeaderField(Credential(accessKey, scope)) && HeaderField(Join(names, ";")) && HeaderField(sig)
    ensures !("AWS4-HMAC-SHA256 " <= Get(r.headers, "authorization")) ==>
              Authenticate(l, s, r, now) == Refused(InvalidAuth)
    ensures Get(r.headers, "authorization") == AuthorizationText(accessKey, scope, names, sig)
            && |Split(Credential(accessKey, scope), '/')| != 5 ==>
              Authenticate(l, s, r, now) == Refused(InvalidAuth)
  {
    hide CanonicalRequest, StringToSign, Split, ScopeOf, ParseAuthHeader, HeaderField, AuthorizationText, Credential;
    AuthorizationParses(accessKey, scope, names, sig);
  }
}
