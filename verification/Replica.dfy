/** Peer object replication: the handler, the serve path and the pull loop of
    internal/api/ha_object_replica.go. Times are nanoseconds. */
module Replica {
  import opened Clock
  import opened Strings
  import RN = ReplicaNonces

  const REPLICA_TTL := 30 * SECOND
  const REPLICA_PATH := "/api/v1/ha/object-replica"

  /** The library functions, all over byte strings; digests and MACs are hexadecimal. */
  datatype Primitives = Primitives(
    md5: string -> string,
    sha256: string -> string,
    hmac: (string, string) -> string,
    hexDecode: string -> Option<string>,
    parseInt: string -> Option<int>,
    formatInt: int -> string)

  /** Where a backend keeps bytes; version "" is the unversioned object. */
  datatype Name = Name(bucket: string, key: string, version: string)

  /** A metadata row. Its own name can carry a version when the lookup did not. */
  datatype Row = Row(name: Name, etag: string, size: int, sealed: bool)

  type Rows = map<Name, Row>

  type Files = map<Name, string>

  /** replicaMeta. */
  function Lookup(rows: Rows, name: Name): Option<Row> {
    if name in rows then Some(rows[name]) else None
  }

  //// Matching bytes

  predicate EtagEqual(stored: string, md5hex: string) {
    var s := Trim(stored, IsQuote);
    s != "" && EqualFold(s, md5hex)
  }

  predicate PayloadOK(row: Row, n: int, md5hex: string) {
    EtagEqual(row.etag, md5hex) && (row.sealed || row.size == n)
  }

  /** The bytes are those the row describes. */
  predicate Fits(p: Primitives, row: Row, bytes: string) {
    PayloadOK(row, |bytes|, p.md5(bytes))
  }

  //// Admission

  datatype Identity = Identity(secret: string, nodeID: string)

  datatype Request = Request(verb: string, name: Name, expires: string, nodeID: string, nonce: string,
                             mac: string, body: string)

  function Canon(verb: string, bodyHash: string, expires: string, nonce: string, nodeID: string, name: Name): string {
    Join([verb, REPLICA_PATH, bodyHash, expires, nonce, nodeID, name.bucket, name.key, name.version], "\n")
  }

  predicate MacOK(p: Primitives, secret: string, canon: string, got: string) {
    && secret != "" && got != ""
    && p.hexDecode(p.hmac(secret, canon)).Some?
    && p.hexDecode(got) == p.hexDecode(p.hmac(secret, canon))
  }

  predicate ExpiryOK(exp: int, now: int) {
    now - 5 * SECOND <= exp * SECOND <= now + REPLICA_TTL
  }

  function BodyHash(p: Primitives, r: Request): string {
    p.sha256(if r.verb == "PUT" then r.body else "")
  }

  /** What a call meets outside the program: the clock at the expiry check and at the
      nonce check, and whether each file operation succeeds. */
  datatype Env = Env(checked: int, admitted: int, spooled: bool, rewound: bool, read: bool, put: PutReply,
                     removed: bool)

  /** A failed write leaves the object as it was. */
  datatype PutReply = PutFailed | Stored(etag: string)

  datatype Response = Response(status: int, length: int, etag: string, body: string)

  function Status(code: int): Response {
    Response(code, 0, "", "")
  }

  /** The refusal that the checks before the nonce give, if any. */
  function Refusal(p: Primitives, id: Identity, r: Request, e: Env): Option<int> {
    if r.verb != "PUT" && r.verb != "GET" && r.verb != "HEAD" then Some(405)
    else if r.name.bucket == "" || r.name.key == "" then Some(403)
    else if p.parseInt(r.expires).None? || !ExpiryOK(p.parseInt(r.expires).value, e.checked) then Some(403)
    else if r.nodeID == "" || r.nodeID != id.nodeID then Some(403)
    else if r.verb == "PUT" && !e.spooled then Some(500)
    else
      var canon := Canon(r.verb, BodyHash(p, r), r.expires, r.nonce, r.nodeID, r.name);
      if !MacOK(p, id.secret, canon, r.mac) then Some(403) else None
  }

  //// Serving and storing

  /** serveObjectReplica. */
  function Serve(p: Primitives, files: Files, r: Request, row: Row, e: Env): Response {
    if row.name !in files then Status(404)
    else if !e.read || !e.spooled then Status(500)
    else if !Fits(p, row, files[row.name]) then Status(409)
    else if !e.rewound then Status(500)
    else Response(200, |files[row.name]|, row.etag, if r.verb == "HEAD" then "" else files[row.name])
  }

  /** The end of a PUT: check, store, and take back what the backend hashed otherwise. */
  function StorePut(p: Primitives, files: Files, r: Request, row: Row, e: Env): (Files, Response) {
    if !Fits(p, row, r.body) then (files, Status(409))
    else if !e.rewound || e.put.PutFailed? then (files, Status(500))
    else if !EtagEqual(e.put.etag, p.md5(r.body)) then
      (if e.removed then files - {r.name} else files[r.name := r.body], Status(409))
    else (files[r.name := r.body], Status(204))
  }

  datatype Node = Node(files: Files, seen: RN.Seen)

  datatype Outcome = Outcome(node: Node, response: Response)

  /** The handler once the checks before the nonce have passed. */
  function Answer(p: Primitives, n: Node, rows: Rows, r: Request, exp: int, e: Env): Outcome {
    var n' := n.(seen := RN.Record(n.seen, r.nonce, exp, e.admitted / SECOND));
    if !RN.Admits(n.seen, r.nonce, e.admitted / SECOND) then Outcome(n', Status(403))
    else if Lookup(rows, r.name).None? then Outcome(n', Status(404))
    else
      var row := Lookup(rows, r.name).value;
      if r.verb != "PUT" then Outcome(n', Serve(p, n.files, r, row, e))
      else
        var (files, response) := StorePut(p, n.files, r, row, e);
        Outcome(n'.(files := files), response)
  }

  /** handleObjectReplica. */
  function Handle(p: Primitives, id: Identity, n: Node, rows: Rows, r: Request, e: Env): Outcome {
    if Refusal(p, id, r, e).Some? then Outcome(n, Status(Refusal(p, id, r, e).value))
    else Answer(p, n, rows, r, p.parseInt(r.expires).value, e)
  }

  //// Pulling

  datatype Reply = NoReply | Reply(status: int, body: string)

  datatype Error = ErrNotFound | ErrStatus(code: int) | ErrOther

  /** One attempt at one peer: its reply, the local row at that moment, and the local
      file operations. */
  datatype Attempt = Attempt(reply: Reply, row: Option<Row>, spooled: bool, rewound: bool, put: PutReply)

  /** pullObjectReplica: the error, if any, and the files afterwards. */
  function Pull(p: Primitives, files: Files, name: Name, a: Attempt): (Files, Option<Error>) {
    if a.reply.NoReply? then (files, Some(ErrOther))
    else if a.reply.status == 404 then (files, Some(ErrNotFound))
    else if a.reply.status != 200 then (files, Some(ErrStatus(a.reply.status)))
    else if !a.spooled || a.row.None? then (files, Some(ErrOther))
    else if !Fits(p, a.row.value, a.reply.body) then (files, Some(ErrStatus(409)))
    else if !a.rewound || a.put.PutFailed? then (files, Some(ErrOther))
    else
      (files[name := a.reply.body],
       if EtagEqual(a.put.etag, p.md5(a.reply.body)) then None else Some(ErrStatus(409)))
  }

  /** pullFromPeers: the peers in turn, up to the first success. */
  function PullAll(p: Primitives, files: Files, name: Name, attempts: seq<Attempt>, last: Error): (Files, Option<Error>)
    decreases |attempts|
  {
    if attempts == [] then (files, Some(last))
    else
      var (files', err) := Pull(p, files, name, attempts[0]);
      if err.None? then (files', None)
      else PullAll(p, files', name, attempts[1..], err.value)
  }

  //// A server

  class Server {
    const prims: Primitives
    const id: Identity
    const nonces: RN.Table
    var files: Files

    constructor (prims: Primitives, id: Identity, nonces: RN.Table, files: Files)
      ensures this.prims == prims && this.id == id && this.nonces == nonces && this.files == files
    {
      this.prims := prims;
      this.id := id;
      this.nonces := nonces;
      this.files := files;
    }

    ghost function View(): Node
      reads this, nonces
    {
      Node(files, nonces.seen)
    }

    method ReplicaMacOK(canon: string, got: string) returns (ok: bool)
      ensures ok == MacOK(prims, id.secret, canon, got)
    {
      if id.secret == "" || got == "" {
        return false;
      }
      var want := prims.hmac(id.secret, canon);
      var a, b := prims.hexDecode(want), prims.hexDecode(got);
      if a.None? || b.None? || |a.value| != |b.value| {
        return false;
      }
      return a.value == b.value;
    }

    method ServeObjectReplica(r: Request, row: Row, e: Env) returns (response: Response)
      ensures response == Serve(prims, files, r, row, e)
    {
      if row.name !in files {
        return Status(404);
      }
      if !e.read {
        return Status(500);
      }
      var bytes := files[row.name];
      if !e.spooled {
        return Status(500);
      }
      var md5hex, n := prims.md5(bytes), |bytes|;
      if !PayloadOK(row, n, md5hex) {
        return Status(409);
      }
      if !e.rewound {
        return Status(500);
      }
      response := Response(200, n, row.etag, "");
      if r.verb == "HEAD" {
        return;
      }
      response := response.(body := bytes);
    }

    /** The bytes of a PUT, already spooled. */
    method StoreReplica(r: Request, row: Row, e: Env) returns (response: Response)
      modifies this`files
      ensures (files, response) == StorePut(prims, old(files), r, row, e)
    {
      var md5hex, n := prims.md5(r.body), |r.body|;
      if !PayloadOK(row, n, md5hex) {
        return Status(409);
      }
      if !e.rewound {
        return Status(500);
      }
      if e.put.PutFailed? {
        return Status(500);
      }
      files := files[r.name := r.body];
      if !EtagEqual(e.put.etag, md5hex) {
        if e.removed {
          files := files - {r.name};
          assert files == old(files) - {r.name};
        }
        return Status(409);
      }
      return Status(204);
    }

    method HandleObjectReplica(r: Request, rows: Rows, e: Env) returns (response: Response)
      modifies this`files, nonces
      ensures Outcome(View(), response) == Handle(prims, id, old(View()), rows, r, e)
    {
      if r.verb != "PUT" && r.verb != "GET" && r.verb != "HEAD" {
        return Status(405);
      }
      if r.name.bucket == "" || r.name.key == "" {
        return Status(403);
      }
      var exp := prims.parseInt(r.expires);
      if exp.None? || !ExpiryOK(exp.value, e.checked) {
        return Status(403);
      }
      if r.nodeID == "" || r.nodeID != id.nodeID {
        return Status(403);
      }
      var bodyHash;
      if r.verb == "PUT" {
        if !e.spooled {
          return Status(500);
        }
        bodyHash := prims.sha256(r.body);
      } else {
        bodyHash := prims.sha256("");
      }
      var canon := Canon(r.verb, bodyHash, r.expires, r.nonce, r.nodeID, r.name);
      var authentic := ReplicaMacOK(canon, r.mac);
      if !authentic {
        return Status(403);
      }
      var admitted := nonces.Accept(r.nonce, exp.value, e.admitted / SECOND);
      if !admitted {
        return Status(403);
      }
      if r.name !in rows {
        return Status(404);
      }
      if r.verb == "GET" || r.verb == "HEAD" {
        response := ServeObjectReplica(r, rows[r.name], e);
      } else {
        response := StoreReplica(r, rows[r.name], e);
      }
    }

    method PullObjectReplica(name: Name, a: Attempt) returns (err: Option<Error>)
      modifies this`files
      ensures (files, err) == Pull(prims, old(files), name, a)
    {
      if a.reply.NoReply? {
        return Some(ErrOther);
      }
      if a.reply.status == 404 {
        return Some(ErrNotFound);
      }
      if a.reply.status != 200 {
        return Some(ErrStatus(a.reply.status));
      }
      if !a.spooled {
        return Some(ErrOther);
      }
      var md5hex, n := prims.md5(a.reply.body), |a.reply.body|;
      if a.row.None? {
        return Some(ErrOther);
      }
      if !PayloadOK(a.row.value, n, md5hex) {
        return Some(ErrStatus(409));
      }
      if !a.rewound || a.put.PutFailed? {
        return Some(ErrOther);
      }
      files := files[name := a.reply.body];
      if !EtagEqual(a.put.etag, md5hex) {
        return Some(ErrStatus(409));
      }
      return None;
    }

    method PullFromPeers(name: Name, attempts: seq<Attempt>) returns (err: Option<Error>)
      modifies this`files
      ensures (files, err) == PullAll(prims, old(files), name, attempts, ErrNotFound)
    {
      hide Pull;
      if attempts == [] {
        return Some(ErrNotFound);
      }
      var last := ErrNotFound;
      var i := 0;
      while i < |attempts|
        invariant 0 <= i <= |attempts|
        invariant PullAll(prims, files, name, attempts[i..], last)
               == PullAll(prims, old(files), name, attempts, ErrNotFound)
      {
        assert attempts[i..][0] == attempts[i] && attempts[i..][1..] == attempts[i + 1..];
        err := PullObjectReplica(name, attempts[i]);
        if err.None? {
          return None;
        }
        last := err.value;
        i := i + 1;
      }
      return Some(last);
    }
  }
}
