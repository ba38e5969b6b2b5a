/** Who may push to and read from a node: the peer API acts on exactly what a holder of the
    secret signed, and on bytes that the metadata row describes. */
module ReplicaAuth {
  import opened Clock
  import opened Strings
  import opened Replica
  import opened ReplicaTheorems
  import RN = ReplicaNonces

  /** The library without collisions: codes of different texts decode to different bytes,
      and digests of different bytes differ. */
  ghost predicate Ideal(p: Primitives) {
    && Library(p)
    && (forall s, t, u :: p.hexDecode(p.hmac(s, t)) == p.hexDecode(p.hmac(s, u)) ==> t == u)
    && (forall x, y :: p.sha256(x) == p.sha256(y) ==> x == y)
    && (forall x :: OneLine(p.sha256(x)))
    && (forall n :: OneLine(p.formatInt(n)))
  }

  /** The signature of a request by a holder of the secret, for a peer. */
  datatype Letter = Letter(now: int, nonce: string, dest: string, verb: string, name: Name, body: string)

  ghost function Send(p: Primitives, secret: string, m: Letter): Request {
    Signed(p, secret, m.now, m.nonce, m.dest, m.verb, m.name, m.body)
  }

  ghost predicate OneLines(m: Letter) {
    OneLine(m.nonce) && OneLine(m.dest) && OneLine(m.verb) && OneLineName(m.name)
  }

  /** The request bears the code of this letter. */
  ghost predicate Bears(p: Primitives, secret: string, m: Letter, r: Request) {
    r.mac != "" && p.hexDecode(r.mac) == p.hexDecode(Send(p, secret, m).mac)
  }

  /** The request is the letter: the body counts for a PUT only. */
  ghost predicate Is(p: Primitives, m: Letter, r: Request) {
    && r.verb == m.verb && r.expires == p.formatInt((m.now + 20 * SECOND) / SECOND)
    && r.nonce == m.nonce && r.nodeID == m.dest && r.name == m.name
    && (m.verb == "PUT" ==> r.body == m.body)
  }

  ghost function CanonOf(p: Primitives, r: Request): string {
    Canon(r.verb, p.sha256(if r.verb == "PUT" then r.body else ""), r.expires, r.nonce, r.nodeID, r.name)
  }

  lemma LetterText(p: Primitives, secret: string, m: Letter)
    ensures Send(p, secret, m).mac == p.hmac(secret, CanonOf(p, Send(p, secret, m)))
    ensures Is(p, m, Send(p, secret, m))
  {
    hide Canon;
  }

  /** The signed text of a request is that of a letter exactly when it is the letter. */
  lemma TextIsLetter(p: Primitives, secret: string, m: Letter, r: Request)
    requires Ideal(p) && OneLines(m)
    ensures CanonOf(p, r) == CanonOf(p, Send(p, secret, m)) <==> Is(p, m, r)
  {
    hide Canon, Library;
    var s := Send(p, secret, m);
    var h, g := p.sha256(if s.verb == "PUT" then s.body else ""), p.sha256(if r.verb == "PUT" then r.body else "");
    CanonBinds(s.verb, h, s.expires, s.nonce, s.nodeID, s.name, r.verb, g, r.expires, r.nonce, r.nodeID, r.name);
  }

  /** A request that bears any code but that of its own text is refused, and changes neither
      a file nor the nonce table. */
  lemma ForgedIsRefused(p: Primitives, id: Identity, n: Node, rows: Rows, r: Request, e: Env)
    requires id.secret == "" || r.mac == "" || p.hexDecode(r.mac) != p.hexDecode(p.hmac(id.secret, CanonOf(p, r)))
             || p.hexDecode(r.mac).None?
    ensures var o := Handle(p, id, n, rows, r, e);
            o.node == n && o.response.status in {403, 405, 500}
  {
    hide Canon, ExpiryOK;
  }

  /** So is one that bears the code of a letter and is not that letter. */
  lemma AlteredIsRefused(p: Primitives, id: Identity, n: Node, rows: Rows, m: Letter, r: Request, e: Env)
    requires Ideal(p) && OneLines(m) && Bears(p, id.secret, m, r) && !Is(p, m, r)
    ensures var o := Handle(p, id, n, rows, r, e);
            o.node == n && o.response.status in {403, 405, 500}
  {
    hide Canon, Library;
    LetterText(p, id.secret, m);
    TextIsLetter(p, id.secret, m, r);
    assert p.hexDecode(p.hmac(id.secret, CanonOf(p, r)))
           != p.hexDecode(p.hmac(id.secret, CanonOf(p, Send(p, id.secret, m))));
    hide Send, Is;
    ForgedIsRefused(p, id, n, rows, r, e);
  }

  /** What lets the letter in, at the node that receives it. */
  ghost predicate Welcome(id: Identity, n: Node, m: Letter, e: Env) {
    && id.secret != "" && m.dest != "" && m.dest == id.nodeID && m.name.bucket != "" && m.name.key != ""
    && m.verb in {"PUT", "GET", "HEAD"} && (m.verb == "PUT" ==> e.spooled)
    && Timely(m.now, e.checked) && RN.Admits(n.seen, m.nonce, e.admitted / SECOND)
  }

  lemma LetterAccepted(p: Primitives, id: Identity, n: Node, m: Letter, r: Request, e: Env)
    requires Ideal(p) && OneLines(m) && Bears(p, id.secret, m, r) && Is(p, m, r) && Int64(m.now)
    ensures Accepted(p, id, n, r, e) <==> Welcome(id, n, m, e)
  {
    hide Canon, ExpiryOK, Timely, RN.Admits;
    LetterText(p, id.secret, m);
    TextIsLetter(p, id.secret, m, r);
    SignedInTime(m.now, e.checked);
    assert Int64((m.now + 20 * SECOND) / SECOND);
    assert p.parseInt(r.expires) == Some((m.now + 20 * SECOND) / SECOND);
    assert p.hexDecode(p.hmac(id.secret, CanonOf(p, r))).Some?;
    hide Ideal, Library, Send, OneLines;
  }

  /** A push that bears the code of a letter is confirmed exactly when it is that letter,
      the letter is welcome, and its body is what the row describes and can be stored.
      Otherwise no file changes. */
  lemma PushExactly(p: Primitives, id: Identity, n: Node, rows: Rows, m: Letter, r: Request, e: Env)
    requires Ideal(p) && OneLines(m) && Int64(m.now) && r.verb == "PUT" && Bears(p, id.secret, m, r)
    requires Honest(p, e.put, r.body)
    ensures var o := Handle(p, id, n, rows, r, e);
            && (o.response.status == 204 <==>
                  && Is(p, m, r) && Welcome(id, n, m, e)
                  && r.name in rows && Fits(p, rows[r.name], r.body) && e.rewound && e.put.Stored?)
            && o.node.files == if o.response.status == 204 then n.files[r.name := r.body] else n.files
  {
    hide Handle, Fits, Is, Welcome, Bears, OneLines, Accepted;
    assert HexDigests(p);
    PutVerdict(p, id, n, rows, r, e);
    if Is(p, m, r) {
      LetterAccepted(p, id, n, m, r, e);
    } else {
      AlteredIsRefused(p, id, n, rows, m, r, e);
    }
  }

  /** A read that bears the code of a letter is answered with bytes exactly when it is that
      letter, the letter is welcome, and the node holds bytes that fit the row. */
  lemma ReadExactly(p: Primitives, id: Identity, n: Node, rows: Rows, m: Letter, r: Request, e: Env)
    requires Ideal(p) && OneLines(m) && Int64(m.now) && r.verb == "GET" && Bears(p, id.secret, m, r)
    ensures Handle(p, id, n, rows, r, e).response.status == 200 <==>
              && Is(p, m, r) && Welcome(id, n, m, e)
              && r.name in rows && rows[r.name].name in n.files
              && Fits(p, rows[r.name], n.files[rows[r.name].name]) && e.read && e.spooled && e.rewound
  {
    hide Handle, Fits, Is, Welcome, Bears, OneLines, Accepted;
    GetVerdict(p, id, n, rows, r, e);
    if Is(p, m, r) {
      LetterAccepted(p, id, n, m, r, e);
    } else {
      AlteredIsRefused(p, id, n, rows, m, r, e);
    }
  }

  /** A push that the backend hashed otherwise is refused, and taken back if it can be. */
  lemma TakenBack(p: Primitives, id: Identity, n: Node, rows: Rows, m: Letter, r: Request, e: Env)
    requires Ideal(p) && OneLines(m) && Int64(m.now) && r.verb == "PUT" && Bears(p, id.secret, m, r)
    requires Is(p, m, r) && Welcome(id, n, m, e) && r.name in rows && Fits(p, rows[r.name], r.body)
    requires e.rewound && e.put.Stored? && !EtagEqual(e.put.etag, p.md5(r.body))
    ensures var o := Handle(p, id, n, rows, r, e);
            && o.response.status == 409
            && o.node.files == if e.removed then n.files - {r.name} else n.files[r.name := r.body]
  {
    LetterAccepted(p, id, n, m, r, e);
    hide Fits, Is, Welcome, Bears, OneLines, Ideal, RN.Admits, RN.Record, Refusal, EtagEqual;
  }

  /** When every peer answers 404, what the caller of a pull is told is that the object is
      nowhere, and no file changes. */
  lemma {:induction false} AllMissing(p: Primitives, files: Files, name: Name, attempts: seq<Attempt>, last: Error)
    requires forall i :: 0 <= i < |attempts| ==> attempts[i].reply.Reply? && attempts[i].reply.status == 404
    ensures PullAll(p, files, name, attempts, last)
            == (files, Some(if attempts == [] then last else ErrNotFound))
    decreases |attempts|
  {
    hide Fits;
    if attempts != [] { AllMissing(p, files, name, attempts[1..], ErrNotFound); }
  }

  //// What a row describes

  /** A row with this digest, quoted or not, and in any letter case. */
  ghost predicate HasDigest(row: Row, digest: string) {
    exists e :: EqualFold(e, digest) && (row.etag == e || row.etag == "\"" + e + "\"")
  }

  lemma {:induction false} LowerAt(s: string, i: nat)
    requires i < |s|
    ensures ToLower(s)[i] == LowerChar(s[i])
  {
    if i > 0 { LowerAt(s[1..], i - 1); }
  }

  lemma LowerEnds(a: string, b: string)
    requires ToLower(a) == ToLower(b)
    ensures |a| == |b| && forall i :: 0 <= i < |a| ==> LowerChar(a[i]) == LowerChar(b[i])
  {
    assert |a| == |b|;
    forall i | 0 <= i < |a| ensures LowerChar(a[i]) == LowerChar(b[i]) {
      LowerAt(a, i);
      LowerAt(b, i);
    }
  }

  lemma QuotesStripped(e: string)
    requires e != "" && !IsQuote(e[0]) && !IsQuote(e[|e| - 1])
    ensures Trim(e, IsQuote) == e && Trim("\"" + e + "\"", IsQuote) == e
  {
    TrimUntouched(e, IsQuote);
    var s := "\"" + e + "\"";
    assert s[1..] == e + "\"" && (e + "\"")[..|e|] == e;
    assert TrimLeft(s, IsQuote) == e + "\"";
    assert TrimRight(e + "\"", IsQuote) == TrimRight(e, IsQuote) == e;
  }

  /** Bytes fit a row that carries a digest exactly when they have that digest and, unless
      the row is sealed, the row's length. */
  lemma FitsMeans(p: Primitives, row: Row, digest: string, bytes: string)
    requires Unquoted(digest) && HasDigest(row, digest)
    ensures Fits(p, row, bytes) <==> EqualFold(digest, p.md5(bytes)) && (row.sealed || row.size == |bytes|)
  {
    var e :| EqualFold(e, digest) && (row.etag == e || row.etag == "\"" + e + "\"");
    LowerEnds(e, digest);
    assert LowerChar(e[0]) == LowerChar(digest[0]) && LowerChar(e[|e| - 1]) == LowerChar(digest[|digest| - 1]);
    QuotesStripped(e);
    hide ToLower, Trim;
  }

  /** A row without an ETag fits nothing. */
  lemma NoEtagFitsNothing(p: Primitives, row: Row, bytes: string)
    requires row.etag == "" || row.etag == "\"\""
    ensures !Fits(p, row, bytes)
  {
    assert TrimLeft("\"\"", IsQuote) == "" by { assert "\"\""[1..] == "\"" && "\""[1..] == ""; }
  }
}
