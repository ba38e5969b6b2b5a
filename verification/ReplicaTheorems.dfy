/** What peer replication keeps: only bytes that fit their metadata row are installed or
    sent, whatever the peers, the network and the backends do. */
module ReplicaTheorems {
  import opened Clock
  import opened Strings
  import opened Replica
  import RN = ReplicaNonces

  //// Honest backends

  predicate Unquoted(s: string) {
    s != "" && !IsQuote(s[0]) && !IsQuote(s[|s| - 1])
  }

  /** Digests are printed without quotes. */
  ghost predicate HexDigests(p: Primitives) {
    forall s :: Unquoted(p.md5(s))
  }

  /** The ETag that the backend of internal/storage/fs.go gives. */
  function BackendEtag(p: Primitives, bytes: string): string {
    "\"" + p.md5(bytes) + "\""
  }

  predicate Honest(p: Primitives, put: PutReply, bytes: string) {
    put.Stored? ==> put.etag == BackendEtag(p, bytes)
  }

  lemma HonestEtag(p: Primitives, bytes: string)
    requires HexDigests(p)
    ensures EtagEqual(BackendEtag(p, bytes), p.md5(bytes))
  {
    var d := p.md5(bytes);
    assert Unquoted(d);
    var s := BackendEtag(p, bytes);
    assert s[1..] == d + "\"" && (d + "\"")[..|d|] == d;
    assert TrimLeft(s, IsQuote) == d + "\"";
    assert TrimRight(d + "\"", IsQuote) == TrimRight(d, IsQuote) == d;
  }

  //// One step

  lemma StorePutFits(p: Primitives, files: Files, r: Request, row: Row, e: Env, name: Name)
    requires var files' := StorePut(p, files, r, row, e).0;
             name in files' && !(name in files && files[name] == files'[name])
    ensures name == r.name && StorePut(p, files, r, row, e).0[name] == r.body && Fits(p, row, r.body)
  {
    hide Fits, EtagEqual;
  }

  /** What the handler leaves changed on disk is the body of a PUT that fits the row of
      its name. */
  lemma HandleInstallsFitting(p: Primitives, id: Identity, n: Node, rows: Rows, r: Request, e: Env, name: Name)
    requires var files' := Handle(p, id, n, rows, r, e).node.files;
             name in files' && !(name in n.files && n.files[name] == files'[name])
    ensures r.verb == "PUT" && name == r.name && name in rows
    ensures Handle(p, id, n, rows, r, e).node.files[name] == r.body && Fits(p, rows[name], r.body)
  {
    hide Fits, EtagEqual, Refusal, StorePut, Serve, RN.Record, RN.Admits;
    HandlePutOnly(p, id, n, rows, r, e);
    StorePutFits(p, n.files, r, rows[r.name], e, name);
  }

  /** Files change only at the end of a PUT. */
  lemma HandlePutOnly(p: Primitives, id: Identity, n: Node, rows: Rows, r: Request, e: Env)
    requires Handle(p, id, n, rows, r, e).node.files != n.files
    ensures r.verb == "PUT" && r.name in rows
    ensures Handle(p, id, n, rows, r, e).node.files == StorePut(p, n.files, r, rows[r.name], e).0
  {
    hide Fits, EtagEqual, Refusal, StorePut, Serve, RN.Record, RN.Admits;
  }

  /** A 200 answers a GET or a HEAD, and what is sent is the stored file that fits the
      row, announced with its true length and the row's ETag. */
  lemma HandleSendsFitting(p: Primitives, id: Identity, n: Node, rows: Rows, r: Request, e: Env)
    requires Handle(p, id, n, rows, r, e).response.status == 200
    ensures (r.verb == "GET" || r.verb == "HEAD") && r.name in rows && rows[r.name].name in n.files
    ensures Fits(p, rows[r.name], n.files[rows[r.name].name])
    ensures var bytes, res := n.files[rows[r.name].name], Handle(p, id, n, rows, r, e).response;
            && res.length == |bytes| && res.etag == rows[r.name].etag
            && res.body == if r.verb == "GET" then bytes else ""
  {
    hide Fits, EtagEqual, MacOK, ExpiryOK, Canon, BodyHash, RN.Record, RN.Admits;
  }

  /** A request passes every check before the metadata lookup. */
  ghost predicate Accepted(p: Primitives, id: Identity, n: Node, r: Request, e: Env) {
    Refusal(p, id, r, e).None? && RN.Admits(n.seen, r.nonce, e.admitted / SECOND)
  }

  /** With an honest backend a PUT is confirmed exactly when it is accepted, its body
      fits the row, and the file operations succeed; then the body is stored, and
      otherwise nothing on disk changes. */
  lemma PutVerdict(p: Primitives, id: Identity, n: Node, rows: Rows, r: Request, e: Env)
    requires HexDigests(p) && r.verb == "PUT" && Honest(p, e.put, r.body)
    ensures var o := Handle(p, id, n, rows, r, e);
            && (o.response.status == 204 <==>
                  && Accepted(p, id, n, r, e)
                  && r.name in rows && Fits(p, rows[r.name], r.body)
                  && e.rewound && e.put.Stored?)
            && o.node.files == if o.response.status == 204 then n.files[r.name := r.body] else n.files
  {
    HonestEtag(p, r.body);
    hide Fits, EtagEqual, MacOK, ExpiryOK, Canon, BodyHash, RN.Record, RN.Admits, HexDigests, BackendEtag;
  }

  /** A GET is answered with bytes exactly when it is accepted, the row is there, and the
      file it names is there, fits it and can be read. */
  lemma GetVerdict(p: Primitives, id: Identity, n: Node, rows: Rows, r: Request, e: Env)
    requires r.verb == "GET"
    ensures Handle(p, id, n, rows, r, e).response.status == 200 <==>
              && Accepted(p, id, n, r, e)
              && r.name in rows && rows[r.name].name in n.files
              && Fits(p, rows[r.name], n.files[rows[r.name].name])
              && e.read && e.spooled && e.rewound
    ensures Handle(p, id, n, rows, r, e).node.files == n.files
  {
    hide Fits, EtagEqual, MacOK, ExpiryOK, Canon, BodyHash, RN.Record, RN.Admits;
  }

  /** What a pull changes on disk is the peer's body, and it fits the local row. */
  lemma PullInstallsFitting(p: Primitives, files: Files, name: Name, a: Attempt, at: Name)
    requires var files' := Pull(p, files, name, a).0;
             at in files' && !(at in files && files[at] == files'[at])
    ensures at == name && a.row.Some? && a.reply.Reply?
    ensures Pull(p, files, name, a).0[at] == a.reply.body && Fits(p, a.row.value, a.reply.body)
  {
    hide Fits, EtagEqual;
  }

  //// Fetching

  /** The peer yields bytes that fit the local row, and they can be written here. */
  predicate Yields(p: Primitives, a: Attempt) {
    && a.reply.Reply? && a.reply.status == 200 && a.spooled
    && a.row.Some? && Fits(p, a.row.value, a.reply.body)
    && a.rewound && a.put.Stored?
  }

  predicate HonestAttempt(p: Primitives, a: Attempt) {
    a.reply.Reply? ==> Honest(p, a.put, a.reply.body)
  }

  lemma PullVerdict(p: Primitives, files: Files, name: Name, a: Attempt)
    requires HexDigests(p) && HonestAttempt(p, a)
    ensures Yields(p, a) ==> Pull(p, files, name, a) == (files[name := a.reply.body], None)
    ensures !Yields(p, a) ==> Pull(p, files, name, a).0 == files && Pull(p, files, name, a).1.Some?
  {
    if a.reply.Reply? { HonestEtag(p, a.reply.body); }
    hide Fits, EtagEqual, BackendEtag, HexDigests;
  }

  /** A fetch succeeds exactly when some peer in the list yields fitting bytes. It then
      installs the bytes of the first such peer under the name asked for and
      changes nothing else; a failed fetch changes nothing at all. */
  lemma {:induction false} FetchVerdict(p: Primitives, files: Files, name: Name, attempts: seq<Attempt>, last: Error)
    requires HexDigests(p) && forall i :: 0 <= i < |attempts| ==> HonestAttempt(p, attempts[i])
    ensures PullAll(p, files, name, attempts, last).1.None? <==>
              exists i :: 0 <= i < |attempts| && Yields(p, attempts[i])
    ensures PullAll(p, files, name, attempts, last).1.Some? ==> PullAll(p, files, name, attempts, last).0 == files
    ensures forall i :: 0 <= i < |attempts| && Yields(p, attempts[i])
                        && (forall j :: 0 <= j < i ==> !Yields(p, attempts[j])) ==>
              PullAll(p, files, name, attempts, last).0 == files[name := attempts[i].reply.body]
    decreases |attempts|
  {
    hide Pull, HexDigests, HonestAttempt;
    if attempts != [] {
      PullVerdict(p, files, name, attempts[0]);
      if !Yields(p, attempts[0]) {
        var rest := attempts[1..];
        var err := Pull(p, files, name, attempts[0]).1.value;
        assert forall i :: 0 <= i < |rest| ==> rest[i] == attempts[i + 1];
        FetchVerdict(p, files, name, rest, err);
        assert PullAll(p, files, name, attempts, last) == PullAll(p, files, name, rest, err);
        hide PullAll, Yields;
        if i :| 0 <= i < |rest| && Yields(p, rest[i]) { assert Yields(p, attempts[i + 1]); }
        if i :| 0 <= i < |attempts| && Yields(p, attempts[i]) { assert Yields(p, rest[i - 1]); }
        forall i | 0 <= i < |attempts| && Yields(p, attempts[i]) && (forall j :: 0 <= j < i ==> !Yields(p, attempts[j]))
          ensures PullAll(p, files, name, attempts, last).0 == files[name := attempts[i].reply.body]
        {
          assert forall j :: 0 <= j < i - 1 ==> !Yields(p, rest[j]);
          assert Yields(p, rest[i - 1]);
        }
      }
    }
  }

  //// Runs of a cluster

  /** The shared metadata and every node's state; a node is known by its id. */
  datatype World = World(rows: Rows, nodes: map<string, Node>)

  const Start := World(map[], map[])

  datatype Step =
    | Metadata(rows: Rows)
    | Elsewhere(node: string, files: Files)
    | Peer(node: string, request: Request, env: Env)
    | PullFrom(node: string, name: Name, attempt: Attempt)
    | Restart(node: string)

  function At(w: World, node: string): Node {
    if node in w.nodes then w.nodes[node] else Node(map[], map[])
  }

  /** Metadata changes at will, the rest of the program changes disks at will, and the
      replica steps see the rows of the moment. A restart empties the nonce table, which
      is kept in memory. */
  function Next(p: Primitives, secret: string, w: World, s: Step): World {
    match s
    case Metadata(rows) => w.(rows := rows)
    case Elsewhere(node, files) => w.(nodes := w.nodes[node := At(w, node).(files := files)])
    case Peer(node, r, e) =>
      w.(nodes := w.nodes[node := Handle(p, Identity(secret, node), At(w, node), w.rows, r, e).node])
    case PullFrom(node, name, a) =>
      var files := Pull(p, At(w, node).files, name, a.(row := Lookup(w.rows, name))).0;
      w.(nodes := w.nodes[node := At(w, node).(files := files)])
    case Restart(node) => w.(nodes := w.nodes[node := At(w, node).(seen := map[])])
  }

  function After(p: Primitives, secret: string, run: seq<Step>): World {
    if run == [] then Start
    else Next(p, secret, After(p, secret, run[..|run| - 1]), run[|run| - 1])
  }

  predicate Holds(w: World, node: string, name: Name, bytes: string) {
    name in At(w, node).files && At(w, node).files[name] == bytes
  }

  /** Only the rest of the program puts bytes on a disk that do not fit the row of the
      moment. */
  lemma StepFits(p: Primitives, secret: string, w: World, s: Step, node: string, name: Name, bytes: string)
    requires Holds(Next(p, secret, w, s), node, name, bytes) && !Holds(w, node, name, bytes)
    ensures || (s.Elsewhere? && s.node == node && name in s.files && s.files[name] == bytes)
            || ((s.Peer? || s.PullFrom?) && s.node == node && name in w.rows && Fits(p, w.rows[name], bytes))
  {
    hide Handle, Pull, Fits;
    match s
    case Metadata(rows) =>
    case Elsewhere(m, files) =>
    case Peer(m, r, e) =>
      if m == node { HandleInstallsFitting(p, Identity(secret, m), At(w, m), w.rows, r, e, name); }
    case PullFrom(m, asked, a) =>
      if m == node { PullInstallsFitting(p, At(w, m).files, asked, a.(row := Lookup(w.rows, asked)), name); }
    case Restart(m) =>
  }

  /** Step i of the run accounts for the bytes: the rest of the program wrote them, or a
      replica step did and they fitted the row that metadata had at that step. */
  ghost predicate Accounts(p: Primitives, secret: string, run: seq<Step>, i: nat, node: string, name: Name,
                           bytes: string)
    requires i < |run|
  {
    var s, rows := run[i], After(p, secret, run[..i]).rows;
    || (s.Elsewhere? && s.node == node && name in s.files && s.files[name] == bytes)
    || ((s.Peer? || s.PullFrom?) && s.node == node && name in rows && Fits(p, rows[name], bytes))
  }

  /** The bytes have been there from step i to the end of the run. */
  ghost predicate KeptSince(p: Primitives, secret: string, run: seq<Step>, i: nat, node: string, name: Name,
                            bytes: string) {
    forall j :: i < j <= |run| ==> Holds(After(p, secret, run[..j]), node, name, bytes)
  }

  lemma AccountsSnoc(p: Primitives, secret: string, run: seq<Step>, i: nat, node: string, name: Name, bytes: string)
    requires i < |run| - 1 && Holds(After(p, secret, run), node, name, bytes)
    requires var init := run[..|run| - 1];
             Accounts(p, secret, init, i, node, name, bytes) && KeptSince(p, secret, init, i, node, name, bytes)
    ensures Accounts(p, secret, run, i, node, name, bytes) && KeptSince(p, secret, run, i, node, name, bytes)
  {
    hide Fits, After, Holds;
    var n := |run| - 1;
    assert run[..n][..i] == run[..i] && run[..n][i] == run[i];
    forall j | i < j <= |run| ensures Holds(After(p, secret, run[..j]), node, name, bytes) {
      if j <= n { assert run[..n][..j] == run[..j]; } else { assert run[..j] == run; }
    }
  }

  /** After any run, every byte string on every disk is accounted for, and it has been
      there ever since the step that accounts for it. */
  lemma {:induction false} EveryFileAccounted(p: Primitives, secret: string, run: seq<Step>, node: string, name: Name,
                                              bytes: string)
    requires Holds(After(p, secret, run), node, name, bytes)
    ensures exists i :: 0 <= i < |run| && Accounts(p, secret, run, i, node, name, bytes)
                        && KeptSince(p, secret, run, i, node, name, bytes)
  {
    hide Fits, Next, Accounts, KeptSince;
    if run != [] {
      var n := |run| - 1;
      var init, w := run[..n], After(p, secret, run[..n]);
      if Holds(w, node, name, bytes) {
        EveryFileAccounted(p, secret, init, node, name, bytes);
        var i :| 0 <= i < |init| && Accounts(p, secret, init, i, node, name, bytes)
                 && KeptSince(p, secret, init, i, node, name, bytes);
        AccountsSnoc(p, secret, run, i, node, name, bytes);
      } else {
        LastAccounts(p, secret, run, node, name, bytes);
      }
    }
  }

  lemma LastAccounts(p: Primitives, secret: string, run: seq<Step>, node: string, name: Name, bytes: string)
    requires run != [] && Holds(After(p, secret, run), node, name, bytes)
    requires !Holds(After(p, secret, run[..|run| - 1]), node, name, bytes)
    ensures Accounts(p, secret, run, |run| - 1, node, name, bytes)
    ensures KeptSince(p, secret, run, |run| - 1, node, name, bytes)
  {
    hide Fits, Next, Holds;
    var n := |run| - 1;
    StepFits(p, secret, After(p, secret, run[..n]), run[n], node, name, bytes);
    hide After;
    assert run[..|run|] == run;
  }

  /** In any run, whatever a node sends in a 200 is a file it holds at that step, and it
      fits the row that metadata has at that step. */
  lemma EverySendFits(p: Primitives, secret: string, run: seq<Step>, i: nat)
    requires i < |run| && run[i].Peer?
    requires var w := After(p, secret, run[..i]);
             Handle(p, Identity(secret, run[i].node), At(w, run[i].node), w.rows, run[i].request, run[i].env)
             .response.status == 200
    ensures var w, r := After(p, secret, run[..i]), run[i].request;
            && r.name in w.rows
            && exists bytes :: Holds(w, run[i].node, w.rows[r.name].name, bytes) && Fits(p, w.rows[r.name], bytes)
                 && Handle(p, Identity(secret, run[i].node), At(w, run[i].node), w.rows, r, run[i].env).response
                    == Response(200, |bytes|, w.rows[r.name].etag, if r.verb == "GET" then bytes else "")
  {
    hide Fits, Handle, After;
    var w, r := After(p, secret, run[..i]), run[i].request;
    HandleSendsFitting(p, Identity(secret, run[i].node), At(w, run[i].node), w.rows, r, run[i].env);
    assert Holds(w, run[i].node, w.rows[r.name].name, At(w, run[i].node).files[w.rows[r.name].name]);
  }

  //// Signed requests between peers

  predicate Int64(n: int) {
    -0x8000_0000_0000_0000 <= n < 0x8000_0000_0000_0000
  }

  /** What the library gives peers that share a secret. */
  ghost predicate Library(p: Primitives) {
    && HexDigests(p)
    && (forall n :: Int64(n) ==> p.parseInt(p.formatInt(n)) == Some(n))
    && (forall s, t :: p.hmac(s, t) != "" && p.hexDecode(p.hmac(s, t)).Some?)
  }

  /** signReplica: a request made at `now` for the peer `nodeID`. */
  function Signed(p: Primitives, secret: string, now: int, nonce: string, nodeID: string, verb: string, name: Name,
                  body: string): Request {
    var expires := p.formatInt((now + 20 * SECOND) / SECOND);
    var hash := p.sha256(if verb == "PUT" then body else "");
    Request(verb, name, expires, nodeID, nonce, p.hmac(secret, Canon(verb, hash, expires, nonce, nodeID, name)), body)
  }

  /** Counted from the whole second it was signed in, a request is in time on a clock from
      10 s before to 25 s after. */
  predicate Timely(now: int, arrived: int) {
    now - now % SECOND - 10 * SECOND <= arrived <= now - now % SECOND + 25 * SECOND
  }

  /** That is exactly when a peer finds a signed request in time. */
  lemma SignedInTime(now: int, arrived: int)
    ensures ExpiryOK((now + 20 * SECOND) / SECOND, arrived) <==> Timely(now, arrived)
  {
    assert (now + 20 * SECOND) / SECOND * SECOND == now - now % SECOND + 20 * SECOND;
  }

  /** A signed request for this node passes the checks before the nonce exactly while it
      is in time. */
  lemma SignedPasses(p: Primitives, id: Identity, now: int, nonce: string, verb: string, name: Name,
                     body: string, e: Env)
    requires Library(p) && id.secret != "" && id.nodeID != "" && e.spooled && Int64(now)
    requires (verb == "PUT" || verb == "GET" || verb == "HEAD") && name.bucket != "" && name.key != ""
    ensures Refusal(p, id, Signed(p, id.secret, now, nonce, id.nodeID, verb, name, body), e).None?
            <==> Timely(now, e.checked)
  {
    SignedInTime(now, e.checked);
    hide ExpiryOK, Canon, HexDigests, Timely;
  }

  /** A push of fitting bytes to a healthy peer, with a nonce the peer has not seen,
      ends with those bytes on the peer's disk. */
  lemma PushReplicates(p: Primitives, id: Identity, n: Node, rows: Rows, now: int, nonce: string, name: Name,
                       body: string, e: Env)
    requires Library(p) && id.secret != "" && id.nodeID != "" && e.spooled && e.rewound
    requires name.bucket != "" && name.key != "" && Int64(now) && Timely(now, e.checked)
    requires nonce != "" && nonce !in n.seen && name in rows && Fits(p, rows[name], body)
    requires e.put == Stored(BackendEtag(p, body))
    ensures var o := Handle(p, id, n, rows, Signed(p, id.secret, now, nonce, id.nodeID, "PUT", name, body), e);
            o.response.status == 204 && o.node.files == n.files[name := body] && nonce in o.node.seen
  {
    var r := Signed(p, id.secret, now, nonce, id.nodeID, "PUT", name, body);
    SignedPasses(p, id, now, nonce, "PUT", name, body, e);
    PutVerdict(p, id, n, rows, r, e);
    hide Refusal, StorePut, Serve, Fits, BackendEtag, HexDigests, Canon;
  }

  /** A fetch from a peer that holds fitting bytes under its row brings those bytes here:
      serving and pulling agree on what fits. */
  lemma FetchFromHolder(p: Primitives, id: Identity, n: Node, rows: Rows, now: int, nonce: string, name: Name, e: Env,
                        files: Files, a: Attempt)
    requires Library(p) && id.secret != "" && id.nodeID != "" && e.spooled && e.rewound && e.read
    requires name.bucket != "" && name.key != "" && Int64(now) && Timely(now, e.checked)
    requires nonce != "" && nonce !in n.seen && name in rows && rows[name].name in n.files
    requires Fits(p, rows[name], n.files[rows[name].name])
    requires var get := Signed(p, id.secret, now, nonce, id.nodeID, "GET", name, "");
             var res := Handle(p, id, n, rows, get, e).response;
             a == Attempt(Reply(res.status, res.body), Some(rows[name]), true, true, Stored(BackendEtag(p, res.body)))
    ensures Pull(p, files, name, a) == (files[name := n.files[rows[name].name]], None)
  {
    var r := Signed(p, id.secret, now, nonce, id.nodeID, "GET", name, "");
    SignedPasses(p, id, now, nonce, "GET", name, "", e);
    GetVerdict(p, id, n, rows, r, e);
    HandleSendsFitting(p, id, n, rows, r, e);
    PullVerdict(p, files, name, a);
    hide Handle, Pull, Fits, BackendEtag, HexDigests;
  }

  //// What the canonical text binds

  predicate OneLineName(n: Name) {
    OneLine(n.bucket) && OneLine(n.key) && OneLine(n.version)
  }

  /** A canonical text made of one-line fields is made by no other fields, one-line or not:
      it determines the verb, the body hash, the expiry, the nonce, the destination
      node and the object. */
  lemma CanonBinds(m1: string, h1: string, e1: string, c1: string, d1: string, n1: Name,
                   m2: string, h2: string, e2: string, c2: string, d2: string, n2: Name)
    requires OneLine(m1) && OneLine(h1) && OneLine(e1) && OneLine(c1) && OneLine(d1) && OneLineName(n1)
    ensures Canon(m1, h1, e1, c1, d1, n1) == Canon(m2, h2, e2, c2, d2, n2) <==>
              m1 == m2 && h1 == h2 && e1 == e2 && c1 == c2 && d1 == d2 && n1 == n2
  {
    var a := [m1, REPLICA_PATH, h1, e1, c1, d1, n1.bucket, n1.key, n1.version];
    var b := [m2, REPLICA_PATH, h2, e2, c2, d2, n2.bucket, n2.key, n2.version];
    JoinInjective(a, b, '\n');
    hide Join;
    assert Canon(m1, h1, e1, c1, d1, n1) == Join(a, "\n") && Canon(m2, h2, e2, c2, d2, n2) == Join(b, "\n");
    if a == b {
      assert a[0] == b[0] && a[2] == b[2] && a[3] == b[3] && a[4] == b[4] && a[5] == b[5];
      assert a[6] == b[6] && a[7] == b[7] && a[8] == b[8];
    }
  }

  function NameText(n: Name): string {
    n.bucket + "\n" + (n.key + "\n" + n.version)
  }

  /** The canonical text before the name. */
  function Front(m: string, h: string, e: string, c: string, d: string): string {
    m + "\n" + (REPLICA_PATH + "\n" + (h + "\n" + (e + "\n" + (c + "\n" + (d + "\n")))))
  }

  lemma NameLast(m: string, h: string, e: string, c: string, d: string, n: Name)
    ensures Canon(m, h, e, c, d, n) == Front(m, h, e, c, d) + NameText(n)
  {
    var t3 := [n.bucket, n.key, n.version];
    JoinThree(n);
    JoinFront(d, t3);
    JoinFront(c, [d] + t3);
    JoinFront(e, [c, d] + t3);
    JoinFront(h, [e, c, d] + t3);
    JoinFront(REPLICA_PATH, [h, e, c, d] + t3);
    JoinFront(m, [REPLICA_PATH, h, e, c, d] + t3);
    hide Join, NameText;
    assert [c] + ([d] + t3) == [c, d] + t3;
    assert [e] + ([c, d] + t3) == [e, c, d] + t3;
    assert [h] + ([e, c, d] + t3) == [h, e, c, d] + t3;
    assert [REPLICA_PATH] + ([h, e, c, d] + t3) == [REPLICA_PATH, h, e, c, d] + t3;
    assert [m] + ([REPLICA_PATH, h, e, c, d] + t3) == [m, REPLICA_PATH, h, e, c, d, n.bucket, n.key, n.version];
  }

  lemma JoinThree(n: Name)
    ensures Join([n.bucket, n.key, n.version], "\n") == NameText(n)
  {
    JoinFront(n.bucket, [n.key, n.version]);
    JoinFront(n.key, [n.version]);
    assert Join([n.version], "\n") == n.version;
    hide Join;
    assert [n.bucket] + [n.key, n.version] == [n.bucket, n.key, n.version];
    assert [n.key] + [n.version] == [n.key, n.version];
  }

  lemma JoinFront(x: string, rest: seq<string>)
    requires rest != []
    ensures Join([x] + rest, "\n") == x + "\n" + Join(rest, "\n")
  {
    assert ([x] + rest)[1..] == rest;
  }

  /** Where a name has a line break, the break can move to a neighbouring field. */
  function Shifted(n: Name): Name
    requires !OneLineName(n)
  {
    if !OneLine(n.bucket) then
      var i := IndexByte(n.bucket, '\n');
      Name(n.bucket[..i], n.bucket[i + 1..] + "\n" + n.key, n.version)
    else if !OneLine(n.key) then
      var i := IndexByte(n.key, '\n');
      Name(n.bucket, n.key[..i], n.key[i + 1..] + "\n" + n.version)
    else
      var i := IndexByte(n.version, '\n');
      Name(n.bucket, n.key + "\n" + n.version[..i], n.version[i + 1..])
  }

  lemma AtBreak(s: string)
    requires !OneLine(s)
    ensures var i := IndexByte(s, '\n'); i >= 0 && s == s[..i] + "\n" + s[i + 1..]
  {
  }

  lemma Regroup(a: string, b: string, c: string, d: string)
    ensures (a + "\n" + b) + "\n" + (c + "\n" + d) == a + "\n" + ((b + "\n" + c) + "\n" + d)
    ensures a + "\n" + ((b + "\n" + c) + "\n" + d) == a + "\n" + (b + "\n" + (c + "\n" + d))
  {
  }

  lemma ShiftedReadsSame(n: Name)
    requires !OneLineName(n)
    ensures NameText(Shifted(n)) == NameText(n) && Shifted(n) != n
  {
    hide IndexByte, OneLine;
    var part := if !OneLine(n.bucket) then n.bucket else if !OneLine(n.key) then n.key else n.version;
    AtBreak(part);
    var i := IndexByte(part, '\n');
    var a, b := part[..i], part[i + 1..];
    assert part == a + "\n" + b && |a| < |part|;
    if !OneLine(n.bucket) {
      Regroup(a, b, n.key, n.version);
    } else if !OneLine(n.key) {
      Regroup(n.bucket, a, b, n.version);
    } else {
      Regroup(n.bucket, n.key, a, b);
    }
  }

  /** With one-line header fields, the signed text determines the object name exactly when
      the name is one-line. */
  lemma NameBoundExactly(m: string, h: string, e: string, c: string, d: string, n: Name)
    requires OneLine(m) && OneLine(h) && OneLine(e) && OneLine(c) && OneLine(d)
    ensures (forall n2: Name :: Canon(m, h, e, c, d, n2) == Canon(m, h, e, c, d, n) ==> n2 == n) <==> OneLineName(n)
  {
    hide Canon, NameText, OneLine;
    if OneLineName(n) {
      forall n2: Name | Canon(m, h, e, c, d, n2) == Canon(m, h, e, c, d, n) ensures n2 == n {
        CanonBinds(m, h, e, c, d, n, m, h, e, c, d, n2);
      }
    } else {
      ShiftedReadsSame(n);
      NameLast(m, h, e, c, d, n);
      NameLast(m, h, e, c, d, Shifted(n));
      assert Canon(m, h, e, c, d, Shifted(n)) == Canon(m, h, e, c, d, n);
    }
  }

  /** Two names that share a signed text. */
  lemma SharedText(m: string, h: string, e: string, c: string, d: string, bucket: string)
    ensures Canon(m, h, e, c, d, Name(bucket, "k\nv", "")) == Canon(m, h, e, c, d, Name(bucket, "k", "v\n"))
  {
    var a, b := Name(bucket, "k\nv", ""), Name(bucket, "k", "v\n");
    assert NameText(a) == NameText(b);
    NameLast(m, h, e, c, d, a);
    NameLast(m, h, e, c, d, b);
    hide Canon, NameText;
  }
}
