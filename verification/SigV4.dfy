/** Signing and verification of requests: internal/auth/sigv4.go and
    internal/auth/client.go. Header maps are keyed by the lower-case name. */
module SigV4 {
  import opened Clock
  import opened Strings
  import opened CanonicalQuery

  const MAX_PRESIGN_SECONDS := 7 * 24 * 3600
  const AUTH_SCHEME := "AWS4-HMAC-SHA256 "
  const AMZ_PREFIX := "x-amz-"

  type Headers = map<string, seq<string>>

  datatype Credentials = Credentials(accessKey: string, secretKey: string, sessionToken: string)

  datatype AuthError = MissingAuth | InvalidAuth | SignatureMismatch | Expired | UnsignedHeaders

  datatype Verdict = Accepted(creds: Credentials) | Refused(error: AuthError)

  /** What a server sees of a request. `path` is URL.EscapedPath(). */
  datatype Request = Request(verb: string, path: string, query: Query, headers: Headers, host: string)

  /** Library functions the code calls, of which only what a lemma requires is
      assumed: the SigV4 HMAC chain, hex SHA-256, and Go's time formatting.
      `stamp` is the layout 20060102T150405Z of a Unix second, `day` 20060102. */
  datatype Library = Library(
    sign: (string, string, string, string, string) -> string,
    shaHex: string -> string,
    stamp: int -> string,
    day: int -> string,
    parseStamp: string -> Option<int>)

  datatype Signer = Signer(
    region: string,
    service: string,
    lookup: string -> Option<Credentials>,
    rootAccessKey: string)

  //// Maps

  function Get(m: map<string, seq<string>>, k: string): string {
    if k in m && m[k] != [] then m[k][0] else ""
  }

  function Set(m: map<string, seq<string>>, k: string, v: string): map<string, seq<string>> {
    m[k := [v]]
  }

  //// Integers in headers: fmt.Sprintf("%d") and fmt.Sscanf("%d")

  function FormatNat(n: nat): (s: string)
    ensures s != "" && forall i :: 0 <= i < |s| ==> '0' <= s[i] <= '9'
  {
    var d := ('0' as int + n % 10) as char;
    if n < 10 then [d] else FormatNat(n / 10) + [d]
  }

  function FormatInt(n: int): string {
    if n < 0 then "-" + FormatNat(-n) else FormatNat(n)
  }

  function DigitPrefix(s: string): (r: string)
    ensures r <= s && forall i :: 0 <= i < |r| ==> '0' <= r[i] <= '9'
  {
    if s != "" && '0' <= s[0] <= '9' then [s[0]] + DigitPrefix(s[1..]) else ""
  }

  function NatValue(s: string): (n: nat)
    requires forall i :: 0 <= i < |s| ==> '0' <= s[i] <= '9'
  {
    if s == "" then 0 else NatValue(s[..|s| - 1]) * 10 + (s[|s| - 1] as int - '0' as int)
  }

  predicate IsBlank(c: char) {
    c == ' ' || c == '\t'
  }

  /** Anything after the digits is ignored, as Sscanf does. */
  function ScanInt(s: string): Option<int> {
    var t := TrimLeft(s, IsBlank);
    var neg := t != "" && t[0] == '-';
    var digits := DigitPrefix(if t != "" && (t[0] == '-' || t[0] == '+') then t[1..] else t);
    if digits == "" then None
    else
      var n: int := NatValue(digits);
      if n > 0x8000_0000_0000_0000 || (!neg && n == 0x8000_0000_0000_0000) then None
      else Some(if neg then -n else n)
  }

  /** int(d.Seconds()): truncation toward zero. */
  function WholeSeconds(d: int): int {
    if d >= 0 then d / SECOND else -(-d / SECOND)
  }

  //// Canonical request

  function EscapePathByte(c: char): string {
    if c == '/' then [c] else EscapeByte(c)
  }

  /** uriEncode. */
  function EscapePath(s: string): string {
    if s == "" then "" else EscapePathByte(s[0]) + EscapePath(s[1..])
  }

  function HeaderValue(hs: Headers, host: string, name: string): string {
    if name == "host" then host
    else if name in hs then TrimSpace(Join(hs[name], ","))
    else ""
  }

  function HeaderLines(hs: Headers, host: string, signed: seq<string>): seq<string> {
    if signed == [] then []
    else [signed[0] + ":" + HeaderValue(hs, host, signed[0])] + HeaderLines(hs, host, signed[1..])
  }

  function CanonicalHeaders(hs: Headers, host: string, signed: seq<string>): string {
    Join(Sort(HeaderLines(hs, host, signed)), "\n") + "\n"
  }

  ghost function CanonicalText(verb: string, path: string, query: Query, hs: Headers, host: string,
                               signed: seq<string>, payload: string): string {
    verb + "\n" + EscapePath(path) + "\n" + Canonical(query) + "\n" + CanonicalHeaders(hs, host, signed)
    + "\n" + Join(signed, ";") + "\n" + payload
  }

  /** canonicalRequest. */
  ghost function CanonicalRequest(r: Request, signed: seq<string>): string {
    CanonicalText(r.verb, r.path, r.query, r.headers, r.host, signed, Get(r.headers, "x-amz-content-sha256"))
  }

  /** canonicalPresignedRequest. */
  ghost function CanonicalPresigned(r: Request, signed: seq<string>): string {
    CanonicalText(r.verb, r.path, r.query - {"X-Amz-Signature"}, r.headers, r.host, signed, "UNSIGNED-PAYLOAD")
  }

  function RequestDate(r: Request): string {
    if Get(r.headers, "x-amz-date") != "" then Get(r.headers, "x-amz-date") else Get(r.query, "X-Amz-Date")
  }

  function StringToSign(l: Library, date: string, scope: string, canonical: string): string {
    Join(["AWS4-HMAC-SHA256", date, scope, l.shaHex(canonical)], "\n")
  }

  /** strings.SplitN(credential, "/", 2)[1]. */
  function ScopeOf(credential: string): string
    requires '/' in credential
  {
    credential[IndexByte(credential, '/') + 1..]
  }

  //// Authorization header

  function AddPart(m: map<string, string>, part: string): map<string, string> {
    var p := TrimSpace(part);
    var i := IndexByte(p, '=');
    if i <= 0 then m else m[p[..i] := Trim(p[i + 1..], IsQuote)]
  }

  function AddParts(m: map<string, string>, parts: seq<string>): map<string, string>
    decreases |parts|
  {
    if parts == [] then m else AddParts(AddPart(m, parts[0]), parts[1..])
  }

  /** parseAuthHeader, after the scheme. */
  function ParseAuthHeader(s: string): map<string, string> {
    AddParts(map[], Split(s, ','))
  }

  function Lookup(m: map<string, string>, k: string): string {
    if k in m then m[k] else ""
  }

  //// Signed header names

  function SignedSet(signed: seq<string>): set<string> {
    set h | h in signed && TrimSpace(h) != "" :: ToLower(TrimSpace(h))
  }

  /** requireSignedHeaders: host is signed, and so is every x-amz- header. */
  predicate HeadersSigned(hs: Headers, signed: seq<string>) {
    && "host" in SignedSet(signed)
    && forall name :: name in hs && AMZ_PREFIX <= name ==> name in SignedSet(signed)
  }

  predicate MustSign(name: string) {
    AMZ_PREFIX <= name || name == "content-type" || name == "content-md5"
  }

  function NamesToSign(hs: Headers): set<string> {
    {"host"} + set n | n in hs && MustSign(n)
  }

  /** signedHeaderNames. */
  ghost function SignedNames(hs: Headers): seq<string> {
    Sort(Enumerate(NamesToSign(hs)))
  }

  //// Verification

  predicate TokenOK(r: Request, creds: Credentials) {
    creds.sessionToken == "" ||
    creds.sessionToken == (if Get(r.headers, "x-amz-security-token") != ""
                           then Get(r.headers, "x-amz-security-token")
                           else Get(r.query, "X-Amz-Security-Token"))
  }

  /** The checks that follow the signature. */
  function AfterSignature(r: Request, signed: seq<string>, creds: Credentials): Verdict {
    if !HeadersSigned(r.headers, signed) then Refused(UnsignedHeaders)
    else if !TokenOK(r, creds) then Refused(InvalidAuth)
    else Accepted(creds)
  }

  /** Authenticate, at the clock reading `now` in nanoseconds. */
  ghost function Authenticate(l: Library, s: Signer, r: Request, now: int): Verdict {
    if Get(r.query, "X-Amz-Algorithm") != "" then VerifyPresigned(l, s, r, now)
    else
      var auth := Get(r.headers, "authorization");
      if auth == "" then Refused(MissingAuth)
      else if !(AUTH_SCHEME <= auth) then Refused(InvalidAuth)
      else VerifyHeader(l, s, r, ParseAuthHeader(auth[|AUTH_SCHEME|..]))
  }

  ghost function VerifyHeader(l: Library, s: Signer, r: Request, parts: map<string, string>): Verdict {
    var fields := Split(Lookup(parts, "Credential"), '/');
    if "Credential" !in parts || |fields| != 5 then Refused(InvalidAuth)
    else
      match s.lookup(fields[0])
      case None => Refused(InvalidAuth)
      case Some(creds) =>
        FiveFields(parts["Credential"]);
        var signed := Split(Lookup(parts, "SignedHeaders"), ';');
        var text := StringToSign(l, RequestDate(r), ScopeOf(parts["Credential"]), CanonicalRequest(r, signed));
        if Lookup(parts, "Signature") != l.sign(creds.secretKey, fields[1], s.region, s.service, text)
        then Refused(SignatureMismatch)
        else AfterSignature(r, signed, creds)
  }

  ghost function VerifyPresigned(l: Library, s: Signer, r: Request, now: int): Verdict {
    var credential := Get(r.query, "X-Amz-Credential");
    var fields := Split(credential, '/');
    if |fields| != 5 then Refused(InvalidAuth)
    else if s.rootAccessKey != "" && fields[0] == s.rootAccessKey then Refused(InvalidAuth)
    else if s.lookup(fields[0]).None? then Refused(InvalidAuth)
    else
      var creds := s.lookup(fields[0]).value;
      var t := l.parseStamp(Get(r.query, "X-Amz-Date"));
      var secs := ScanInt(Get(r.query, "X-Amz-Expires"));
      if Get(r.query, "X-Amz-Expires") == "" || Get(r.query, "X-Amz-Date") == "" then Refused(InvalidAuth)
      else if t.None? || secs.None? || secs.value <= 0 || secs.value > MAX_PRESIGN_SECONDS then Refused(InvalidAuth)
      else if now - t.value * SECOND > secs.value * SECOND then Refused(Expired)
      else
        FiveFields(credential);
        var names := Get(r.query, "X-Amz-SignedHeaders");
        var signed := Split(names, ';');
        var text := StringToSign(l, RequestDate(r), ScopeOf(credential), CanonicalPresigned(r, signed));
        if Get(r.query, "X-Amz-Signature") != l.sign(creds.secretKey, fields[1], s.region, s.service, text)
        then Refused(SignatureMismatch)
        else AfterSignature(r, signed, creds)
  }

  lemma FiveFields(credential: string)
    requires |Split(credential, '/')| == 5
    ensures '/' in credential
  {
  }

  //// Signing

  function Credential(accessKey: string, scope: string): string {
    accessKey + "/" + scope
  }

  function Scope(day: string, region: string, service: string): string {
    Join([day, region, service, "aws4_request"], "/")
  }

  /** The query of a presigned URL before its signature is added. */
  function UnsignedQuery(l: Library, s: Signer, endpoint: Query, creds: Credentials, expires: int, now: int): Query {
    var sec := now / SECOND;
    var q := Set(endpoint, "X-Amz-Algorithm", "AWS4-HMAC-SHA256");
    var q := Set(q, "X-Amz-Credential", Credential(creds.accessKey, Scope(l.day(sec), s.region, s.service)));
    var q := Set(q, "X-Amz-Date", l.stamp(sec));
    var q := Set(q, "X-Amz-Expires", FormatInt(WholeSeconds(expires)));
    Set(q, "X-Amz-SignedHeaders", "host")
  }

  /** PresignURL: the query of the URL for `path` on `host`. */
  ghost function PresignedQuery(l: Library, s: Signer, verb: string, path: string, host: string, endpoint: Query,
                                creds: Credentials, expires: int, now: int): Query {
    var q := UnsignedQuery(l, s, endpoint, creds, expires, now);
    var day := l.day(now / SECOND);
    var credential := Credential(creds.accessKey, Scope(day, s.region, s.service));
    var r := Request(verb, path, q, map[], host);
    var text := StringToSign(l, RequestDate(r), ScopeOf(credential), CanonicalPresigned(r, ["host"]));
    Set(q, "X-Amz-Signature", l.sign(creds.secretKey, day, s.region, s.service, text))
  }

  /** The headers SignRequest sets before it signs. */
  function Prepared(l: Library, r: Request, payloadHash: string, now: int): Headers {
    var hs := Set(r.headers, "x-amz-date", l.stamp(now / SECOND));
    var hs := Set(hs, "x-amz-content-sha256", payloadHash);
    if Get(hs, "host") == "" then Set(hs, "host", r.host) else hs
  }

  function AuthorizationText(accessKey: string, scope: string, signed: seq<string>, sig: string): string {
    AUTH_SCHEME + Join(["Credential=" + Credential(accessKey, scope),
                        " SignedHeaders=" + Join(signed, ";"),
                        " Signature=" + sig], ",")
  }

  /** The headers SignRequest leaves on the request. */
  ghost function SignedHeaders(l: Library, r: Request, creds: Credentials, region: string, service: string,
                               payloadHash: string, now: int): Headers {
    var svc := if service == "" then "s3" else service;
    var payload := if payloadHash == "" then "UNSIGNED-PAYLOAD" else payloadHash;
    var hs := Prepared(l, r, payload, now);
    var signed := SignedNames(hs);
    var day := l.day(now / SECOND);
    var scope := Scope(day, region, svc);
    var text := StringToSign(l, l.stamp(now / SECOND), scope, CanonicalRequest(r.(headers := hs), signed));
    var sig := l.sign(creds.secretKey, day, region, svc, text);
    Set(hs, "authorization", AuthorizationText(creds.accessKey, scope, signed, sig))
  }
}
