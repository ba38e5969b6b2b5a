/** Presigned URLs: the verdict on every request that bears the signature of a URL. */
module SigV4Presigned {
  import opened Clock
  import opened Strings
  import opened CanonicalQuery
  import opened SigV4
  import opened SigV4Theorems
  import opened SigV4Binding
  import SigV4Forgery

  /** What PresignURL was asked for. */
  datatype Link = Link(verb: string, path: string, host: string, endpoint: Query, creds: Credentials, expires: int,
                       signedAt: int)

  /** The query of the URL. */
  ghost function Url(l: Library, s: Signer, k: Link): Query {
    PresignedQuery(l, s, k.verb, k.path, k.host, k.endpoint, k.creds, k.expires, k.signedAt)
  }

  function Asked(l: Library, s: Signer, k: Link): Query {
    UnsignedQuery(l, s, k.endpoint, k.creds, k.expires, k.signedAt)
  }

  function Date(l: Library, k: Link): string {
    l.stamp(k.signedAt / SECOND)
  }

  function Day(l: Library, k: Link): string {
    l.day(k.signedAt / SECOND)
  }

  ghost predicate Sendable(s: Signer, k: Link) {
    && OneLine(k.verb) && OneLine(k.host) && IsBytes(k.path)
    && OneLine(s.region) && OneLine(s.service) && '/' !in s.region && '/' !in s.service && '/' !in k.creds.accessKey
  }

  /** The request is the URL: its date may be repeated in a header. */
  ghost predicate AsSigned(l: Library, s: Signer, k: Link, got: Request) {
    && got.verb == k.verb && got.path == k.path && got.host == k.host && SameValues(Url(l, s, k), got.query)
    && (Get(got.headers, "x-amz-date") == "" || Get(got.headers, "x-amz-date") == Date(l, k))
  }

  /** The request names the key, the time and the lifetime of the URL. */
  ghost predicate SameTicket(l: Library, s: Signer, k: Link, got: Request) {
    && Get(got.query, "X-Amz-Credential") == Get(Url(l, s, k), "X-Amz-Credential")
    && Get(got.query, "X-Amz-Date") == Get(Url(l, s, k), "X-Amz-Date")
    && Get(got.query, "X-Amz-Expires") == Get(Url(l, s, k), "X-Amz-Expires")
  }

  //// The fields of a URL

  lemma UrlFields(l: Library, s: Signer, k: Link)
    ensures var q := Url(l, s, k);
            && Values(q, "X-Amz-Credential") == [Credential(k.creds.accessKey, Scope(Day(l, k), s.region, s.service))]
            && Values(q, "X-Amz-Date") == [Date(l, k)]
            && Values(q, "X-Amz-Expires") == [FormatInt(WholeSeconds(k.expires))]
            && Values(q, "X-Amz-SignedHeaders") == ["host"]
            && q - {"X-Amz-Signature"} == Asked(l, s, k) - {"X-Amz-Signature"}
  {
    hide Credential, Scope, FormatInt, CanonicalPresigned, StringToSign, ScopeOf, WholeSeconds;
  }

  lemma Single(q: Query, key: string, v: string)
    requires multiset(Values(q, key)) == multiset([v])
    ensures Get(q, key) == v
  {
    assert |multiset(Values(q, key))| == 1;
    assert Values(q, key)[0] in multiset(Values(q, key));
  }

  lemma UrlSignature(l: Library, s: Signer, k: Link)
    requires '/' !in s.region && '/' !in s.service && '/' !in k.creds.accessKey && Faithful(l)
    ensures var r := Request(k.verb, k.path, Asked(l, s, k), map[], k.host);
            var scope := Scope(Day(l, k), s.region, s.service);
            var text := StringToSign(l, Date(l, k), scope, CanonicalPresigned(r, ["host"]));
            Get(Url(l, s, k), "X-Amz-Signature") == l.sign(k.creds.secretKey, Day(l, k), s.region, s.service, text)
  {
    hide Scope, Credential, FormatInt, CanonicalPresigned, StringToSign, ScopeOf, WholeSeconds;
    CredentialFields(k.creds.accessKey, Day(l, k), s.region, s.service);
  }

  //// What the text binds, whatever headers a request says are signed

  lemma HostColonFree()
    ensures ':' !in "host" && OneLine("host")
  {
  }

  lemma OnlyHost(a: Request, b: Request, names: seq<string>)
    requires OneLine(a.verb) && OneLine(a.host) && names != []
    requires Text(a, ["host"], "UNSIGNED-PAYLOAD") == Text(b, names, "UNSIGNED-PAYLOAD")
    ensures names == ["host"]
  {
    hide Text, Lines, HeaderLines, EscapePath, Canonical, Sort;
    HostWritable(a);
    LinesApart(a, b, ["host"], names, "UNSIGNED-PAYLOAD", "UNSIGNED-PAYLOAD");
    TextIsLines(a, ["host"], "UNSIGNED-PAYLOAD");
    TextIsLines(b, names, "UNSIGNED-PAYLOAD");
    assert |names| == 1;
    LinesFields(a, b, ["host"], names, "UNSIGNED-PAYLOAD", "UNSIGNED-PAYLOAD");
    assert names == [names[0]];
  }

  lemma HostWritable(a: Request)
    requires OneLine(a.verb) && OneLine(a.host)
    ensures Writable(a, ["host"], "UNSIGNED-PAYLOAD")
  {
    HostColonFree();
    var u := "UNSIGNED-PAYLOAD";
    assert forall i :: 0 <= i < |u| ==> u[i] != '\n';
    assert forall n :: n in ["host"] ==> n == "host";
  }

  lemma PresignedText(r: Request, names: seq<string>)
    ensures CanonicalPresigned(r, names) == Text(r.(query := r.query - {"X-Amz-Signature"}), names, "UNSIGNED-PAYLOAD")
  {
    hide CanonicalText;
  }

  lemma ByteRest(q: Query)
    requires ByteQuery(q)
    ensures ByteQuery(q - {"X-Amz-Signature"})
  {
  }

  /** The canonical request of a URL is that of another request exactly when that one
      signs its host alone and has the URL's verb, path, host and query values. */
  lemma PresignedBindsAny(a: Request, b: Request, names: seq<string>)
    requires OneLine(a.verb) && OneLine(a.host) && names != []
    requires IsBytes(a.path) && IsBytes(b.path) && ByteQuery(a.query) && ByteQuery(b.query)
    ensures CanonicalPresigned(a, ["host"]) == CanonicalPresigned(b, names) <==>
              && names == ["host"] && a.verb == b.verb && a.path == b.path && a.host == b.host
              && SameValues(a.query, b.query)
  {
    hide CanonicalPresigned, Text, Canonical, SameValues;
    var cut := {"X-Amz-Signature"};
    var a', b' := a.(query := a.query - cut), b.(query := b.query - cut);
    PresignedText(a, ["host"]);
    PresignedText(b, names);
    if Text(a', ["host"], "UNSIGNED-PAYLOAD") == Text(b', names, "UNSIGNED-PAYLOAD") { OnlyHost(a', b', names); }
    HostWritable(a');
    ByteRest(a.query);
    ByteRest(b.query);
    TextBinds(a', b', ["host"], "UNSIGNED-PAYLOAD", "UNSIGNED-PAYLOAD");
    SameCanonicalQuery(a.query, b.query);
    CanonicalInjective(a'.query, b'.query);
    HostCompared(a', b');
  }

  lemma HostCompared(a: Request, b: Request)
    ensures SameHeaders(a, b, ["host"]) <==> a.host == b.host
  {
    assert "host" in ["host"];
  }

  //// The verdict

  /** The signature that the server expects of a request. */
  ghost function Expected(l: Library, s: Signer, secret: string, day: string, scope: string, got: Request): string {
    var names := Split(Get(got.query, "X-Amz-SignedHeaders"), ';');
    l.sign(secret, day, s.region, s.service, StringToSign(l, RequestDate(got), scope, CanonicalPresigned(got, names)))
  }

  lemma SameValuesOfAsked(l: Library, s: Signer, k: Link, q: Query)
    ensures SameValues(Url(l, s, k), q) <==> SameValues(Asked(l, s, k), q)
  {
    UrlFields(l, s, k);
    hide Url, Asked;
    var u, v, cut := Url(l, s, k), Asked(l, s, k), {"X-Amz-Signature"};
    forall key | key != "X-Amz-Signature" ensures Values(u, key) == Values(v, key) {
      assert Values(u - cut, key) == Values(u, key) && Values(v - cut, key) == Values(v, key);
    }
  }

  /** The fields of a request that has the URL's query values. */
  lemma TicketOfValues(l: Library, s: Signer, k: Link, got: Request)
    requires SameValues(Url(l, s, k), got.query)
    ensures SameTicket(l, s, k, got) && Get(got.query, "X-Amz-Date") == Date(l, k)
    ensures Get(got.query, "X-Amz-SignedHeaders") == "host"
  {
    UrlFields(l, s, k);
    hide Url, Scope, Credential, FormatInt, WholeSeconds;
    var u := Url(l, s, k);
    Single(got.query, "X-Amz-Credential", Credential(k.creds.accessKey, Scope(Day(l, k), s.region, s.service)));
    Single(got.query, "X-Amz-Date", Date(l, k));
    Single(got.query, "X-Amz-Expires", FormatInt(WholeSeconds(k.expires)));
    Single(got.query, "X-Amz-SignedHeaders", "host");
  }

  /** The server expects the URL's signature of exactly the requests that are the URL. */
  lemma ExpectedExactly(l: Library, s0: Signer, s: Signer, k: Link, secret: string, day: string, scope: string,
                        got: Request)
    requires Ideal(l) && Sendable(s0, k) && ByteQuery(Asked(l, s0, k)) && IsBytes(got.path) && ByteQuery(got.query)
    ensures Get(Url(l, s0, k), "X-Amz-Signature") == Expected(l, s, secret, day, scope, got) <==>
              && secret == k.creds.secretKey && day == Day(l, k) && s.region == s0.region && s.service == s0.service
              && scope == Scope(day, s.region, s.service) && AsSigned(l, s0, k, got)
  {
    hide Url, Asked, CanonicalPresigned, StringToSign, Scope, Split, SameValues, SameTicket, Faithful;
    var names := Split(Get(got.query, "X-Amz-SignedHeaders"), ';');
    var own := Request(k.verb, k.path, Asked(l, s0, k), map[], k.host);
    var date, scope0 := Date(l, k), Scope(Day(l, k), s0.region, s0.service);
    UrlSignature(l, s0, k);
    SigV4Forgery.ScopeOneLine(Day(l, k), s0.region, s0.service);
    StringBinds(l, date, scope0, CanonicalPresigned(own, ["host"]), RequestDate(got), scope,
                CanonicalPresigned(got, names));
    PresignedBindsAny(own, got, names);
    SameValuesOfAsked(l, s0, k, got.query);
    if SameValues(Url(l, s0, k), got.query) { TicketOfValues(l, s0, k, got); }
    HostAlone();
  }

  /** A request that bears the signature of a URL and is accepted is that URL: the same
      verb, path, host, date and query values, sent to the region and service it was made for. */
  lemma AcceptedWasSigned(l: Library, s0: Signer, s: Signer, k: Link, got: Request, now: int)
    requires Ideal(l) && Sendable(s0, k) && ByteQuery(Asked(l, s0, k)) && IsBytes(got.path) && ByteQuery(got.query)
    requires Get(got.query, "X-Amz-Algorithm") != ""
    requires Get(got.query, "X-Amz-Signature") == Get(Url(l, s0, k), "X-Amz-Signature")
    requires Authenticate(l, s, got, now).Accepted?
    ensures AsSigned(l, s0, k, got) && s.region == s0.region && s.service == s0.service
    ensures Authenticate(l, s, got, now).creds.secretKey == k.creds.secretKey
  {
    hide Url, Asked, CanonicalPresigned, StringToSign, Scope, Split, AsSigned, Ideal, Sendable, ScopeOf, ScanInt;
    hide HeadersSigned, RequestDate;
    var credential := Get(got.query, "X-Amz-Credential");
    var fields := Split(credential, '/');
    FiveFields(credential);
    var creds := s.lookup(fields[0]).value;
    ExpectedExactly(l, s0, s, k, creds.secretKey, fields[1], ScopeOf(credential), got);
  }

  /** The verdict on any request that names the key, time and lifetime of a URL, up to its signature. */
  lemma TicketVerdict(l: Library, s: Signer, k: Link, got: Request, now: int)
    requires Faithful(l) && KnownTo(s, k.creds) && '/' !in s.region && '/' !in s.service
    requires -0x8000_0000_0000_0000 < WholeSeconds(k.expires) < 0x8000_0000_0000_0000
    requires FourDigitYear(k.signedAt / SECOND)
    requires Get(got.query, "X-Amz-Algorithm") != "" && SameTicket(l, s, k, got)
    ensures var secs, scope := WholeSeconds(k.expires), Scope(Day(l, k), s.region, s.service);
            Authenticate(l, s, got, now) ==
            if s.rootAccessKey != "" && s.rootAccessKey == k.creds.accessKey then Refused(InvalidAuth)
            else if secs <= 0 || secs > 604_800 then Refused(InvalidAuth)
            else if now - k.signedAt / SECOND * SECOND > secs * SECOND then Refused(Expired)
            else if Get(got.query, "X-Amz-Signature")
                    != Expected(l, s, k.creds.secretKey, Day(l, k), scope, got) then Refused(SignatureMismatch)
            else AfterSignature(got, Split(Get(got.query, "X-Amz-SignedHeaders"), ';'), k.creds)
  {
    UrlFields(l, s, k);
    hide Url, Split, ScopeOf, Credential, Scope, ScanInt, FormatInt, CanonicalPresigned, WholeSeconds, AfterSignature;
    hide StringToSign, RequestDate;
    CredentialFields(k.creds.accessKey, Day(l, k), s.region, s.service);
    ScanOfFormat(WholeSeconds(k.expires));
  }

  /** The verdict on any request that names the key, time and lifetime of a URL and bears its
      signature: after the checks of key, lifetime and expiry, mismatch unless it is the URL. */
  lemma PresignedExactly(l: Library, s: Signer, k: Link, got: Request, now: int)
    requires Ideal(l) && KnownTo(s, k.creds) && Sendable(s, k) && ByteQuery(Asked(l, s, k))
    requires -0x8000_0000_0000_0000 < WholeSeconds(k.expires) < 0x8000_0000_0000_0000
    requires FourDigitYear(k.signedAt / SECOND)
    requires Get(got.query, "X-Amz-Algorithm") != "" && IsBytes(got.path) && ByteQuery(got.query)
    requires SameTicket(l, s, k, got) && Get(got.query, "X-Amz-Signature") == Get(Url(l, s, k), "X-Amz-Signature")
    ensures var secs, token := WholeSeconds(k.expires), k.creds.sessionToken;
            Authenticate(l, s, got, now) ==
            if s.rootAccessKey != "" && s.rootAccessKey == k.creds.accessKey then Refused(InvalidAuth)
            else if secs <= 0 || secs > 604_800 then Refused(InvalidAuth)
            else if now - k.signedAt / SECOND * SECOND > secs * SECOND then Refused(Expired)
            else if !AsSigned(l, s, k, got) then Refused(SignatureMismatch)
            else if AddsAmz(got.headers) then Refused(UnsignedHeaders)
            else if token != "" && token != Get(got.query, "X-Amz-Security-Token") then Refused(InvalidAuth)
            else Accepted(k.creds)
  {
    hide Url, Asked, Expected, Authenticate, AfterSignature, WholeSeconds, SameTicket, SameValues, Scope, AddsAmz;
    hide Split;
    TicketVerdict(l, s, k, got, now);
    ExpectedExactly(l, s, s, k, k.creds.secretKey, Day(l, k), Scope(Day(l, k), s.region, s.service), got);
    hide Ideal, Sendable, Faithful, KnownTo;
    if AsSigned(l, s, k, got) {
      TicketOfValues(l, s, k, got);
      HostAlone();
      PresignedEnd(got, k.creds);
    }
  }

  /** The URL with any other signature is refused. */
  lemma OtherSignature(l: Library, s: Signer, k: Link, sig: string, headers: Headers, now: int)
    requires Faithful(l) && KnownTo(s, k.creds) && '/' !in s.region && '/' !in s.service
    requires -0x8000_0000_0000_0000 < WholeSeconds(k.expires) < 0x8000_0000_0000_0000
    requires FourDigitYear(k.signedAt / SECOND)
    requires Get(headers, "x-amz-date") == "" && sig != Get(Url(l, s, k), "X-Amz-Signature")
    ensures var got := Request(k.verb, k.path, Set(Url(l, s, k), "X-Amz-Signature", sig), headers, k.host);
            var secs := WholeSeconds(k.expires);
            Authenticate(l, s, got, now) ==
            if s.rootAccessKey != "" && s.rootAccessKey == k.creds.accessKey then Refused(InvalidAuth)
            else if secs <= 0 || secs > 604_800 then Refused(InvalidAuth)
            else if now - k.signedAt / SECOND * SECOND > secs * SECOND then Refused(Expired)
            else Refused(SignatureMismatch)
  {
    hide Url, Scope, WholeSeconds, Authenticate, AfterSignature, Expected, SameTicket, Set, Split;
    var q := Set(Url(l, s, k), "X-Amz-Signature", sig);
    Resigned(l, s, k, sig, headers);
    ExpectedOfUrl(l, s, k, sig, headers);
    TicketVerdict(l, s, k, Request(k.verb, k.path, q, headers, k.host), now);
  }

  lemma UrlNames(l: Library, s: Signer, k: Link)
    ensures Get(Url(l, s, k), "X-Amz-Algorithm") == "AWS4-HMAC-SHA256"
  {
    hide Credential, Scope, FormatInt, CanonicalPresigned, StringToSign, ScopeOf, WholeSeconds;
  }

  lemma Resigned(l: Library, s: Signer, k: Link, sig: string, headers: Headers)
    ensures var got := Request(k.verb, k.path, Set(Url(l, s, k), "X-Amz-Signature", sig), headers, k.host);
            && Get(got.query, "X-Amz-Algorithm") != "" && SameTicket(l, s, k, got)
            && Get(got.query, "X-Amz-Signature") == sig && Get(got.query, "X-Amz-SignedHeaders") == "host"
            && Get(got.query, "X-Amz-Date") == Date(l, k)
  {
    UrlNames(l, s, k);
    UrlFields(l, s, k);
    hide Url, Scope, Credential, FormatInt, WholeSeconds;
  }

  lemma ExpectedOfUrl(l: Library, s: Signer, k: Link, sig: string, headers: Headers)
    requires '/' !in s.region && '/' !in s.service && '/' !in k.creds.accessKey && Faithful(l)
    requires Get(headers, "x-amz-date") == ""
    ensures Expected(l, s, k.creds.secretKey, Day(l, k), Scope(Day(l, k), s.region, s.service),
                     Request(k.verb, k.path, Set(Url(l, s, k), "X-Amz-Signature", sig), headers, k.host))
            == Get(Url(l, s, k), "X-Amz-Signature")
  {
    var q := Set(Url(l, s, k), "X-Amz-Signature", sig);
    Resigned(l, s, k, sig, headers);
    UrlFields(l, s, k);
    UrlSignature(l, s, k);
    HostAlone();
    SignatureDropped(Url(l, s, k), sig);
    hide Url, Asked, Scope, CanonicalPresigned, StringToSign, Split, Set, SameTicket, Values;
    HostOnly(Request(k.verb, k.path, q, headers, k.host), Request(k.verb, k.path, Asked(l, s, k), map[], k.host));
  }
}
