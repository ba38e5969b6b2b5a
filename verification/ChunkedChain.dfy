/** What the chunk signatures of aws-chunked bind: each covers its bytes and the signature
    before it, so chunks cannot be dropped, repeated or exchanged. */
module ChunkedChain {
  import opened Strings
  import opened Chunked
  import opened ChunkedTheorems

  /** Signatures and digests without collisions, printed in hexadecimal. */
  ghost predicate Ideal(p: Primitives) {
    && HexSignatures(p)
    && (forall x :: IsLowerHex(p.shaHex(x)))
    && (forall x, y :: p.shaHex(x) == p.shaHex(y) ==> x == y)
    && (forall k, d, r, s, t, u :: p.sign(k, d, r, s, t) == p.sign(k, d, r, s, u) ==> t == u)
  }

  ghost predicate SameKey(a: Config, b: Config) {
    a.prims == b.prims && a.secret == b.secret && a.dateStamp == b.dateStamp && a.region == b.region
  }

  /** A chunk signature is made by one date, scope, previous signature and data only. */
  lemma ChunkSigBinds(a: Config, p: string, d: string, b: Config, q: string, e: string)
    requires Ideal(a.prims) && SameKey(a, b) && OneLine(a.amzDate) && OneLine(a.scope) && OneLine(p)
    ensures ChunkSig(a, p, d) == ChunkSig(b, q, e) <==> a.amzDate == b.amzDate && a.scope == b.scope && p == q && d == e
  {
    var sha := a.prims.shaHex;
    var x := ["AWS4-HMAC-SHA256-PAYLOAD", a.amzDate, a.scope, p, sha(""), sha(d)];
    var y := ["AWS4-HMAC-SHA256-PAYLOAD", b.amzDate, b.scope, q, sha(""), sha(e)];
    DigestOneLine(a.prims, "");
    DigestOneLine(a.prims, d);
    JoinInjective(x, y, '\n');
    hide Join;
    if x == y { assert x[1] == y[1] && x[2] == y[2] && x[3] == y[3] && x[5] == y[5]; }
    if ChunkSig(a, p, d) == ChunkSig(b, q, e) { assert Join(x, "\n") == Join(y, "\n"); }
  }

  lemma DigestOneLine(p: Primitives, x: string)
    requires Ideal(p)
    ensures OneLine(p.shaHex(x))
  {
    HexHasNone(p.shaHex(x), '\n');
  }

  /** A trailer signature is made by one date, scope, previous signature and trailer only. */
  lemma TrailerSigBinds(a: Config, p: string, d: string, b: Config, q: string, e: string)
    requires Ideal(a.prims) && SameKey(a, b) && OneLine(a.amzDate) && OneLine(a.scope) && OneLine(p)
    ensures TrailerSig(a, p, d) == TrailerSig(b, q, e) <==>
              a.amzDate == b.amzDate && a.scope == b.scope && p == q && d == e
  {
    var sha := a.prims.shaHex;
    var x := ["AWS4-HMAC-SHA256-TRAILER", a.amzDate, a.scope, p, sha(d)];
    var y := ["AWS4-HMAC-SHA256-TRAILER", b.amzDate, b.scope, q, sha(e)];
    DigestOneLine(a.prims, d);
    JoinInjective(x, y, '\n');
    hide Join;
    if x == y { assert x[1] == y[1] && x[2] == y[2] && x[3] == y[3] && x[4] == y[4]; }
    if TrailerSig(a, p, d) == TrailerSig(b, q, e) { assert Join(x, "\n") == Join(y, "\n"); }
  }

  /** A trailer signature is no chunk signature. */
  lemma TrailerIsNoChunk(a: Config, p: string, d: string, q: string, e: string)
    requires Ideal(a.prims) && OneLine(a.amzDate) && OneLine(a.scope) && OneLine(p)
    ensures TrailerSig(a, p, d) != ChunkSig(a, q, e)
  {
    var sha := a.prims.shaHex;
    var x := ["AWS4-HMAC-SHA256-TRAILER", a.amzDate, a.scope, p, sha(d)];
    var y := ["AWS4-HMAC-SHA256-PAYLOAD", a.amzDate, a.scope, q, sha(""), sha(e)];
    DigestOneLine(a.prims, d);
    JoinInjective(x, y, '\n');
    hide Join;
    assert |x| != |y|;
    assert Join(x, "\n") != Join(y, "\n");
  }

  //// A body of many chunks, as clients send it

  predicate Chunks(ds: seq<string>) {
    forall i :: 0 <= i < |ds| ==> 0 < |ds[i]| <= MAX_CHUNK_SIZE
  }

  /** The signature before the i-th chunk. */
  function Before(c: Config, seed: string, ds: seq<string>, i: nat): string
    requires i <= |ds|
  {
    if i == 0 then seed else ChunkSig(c, Before(c, seed, ds, i - 1), ds[i - 1])
  }

  function FrameAt(c: Config, seed: string, ds: seq<string>, i: nat): Frame
    requires i < |ds|
  {
    EncodedFrame(c, Before(c, seed, ds, i), ds[i])
  }

  predicate Indices(idx: seq<nat>, ds: seq<string>) {
    forall k :: 0 <= k < |idx| ==> idx[k] < |ds|
  }

  /** The signed frames of the body, in whatever selection and order. */
  function Pick(c: Config, seed: string, ds: seq<string>, idx: seq<nat>): (fs: seq<Frame>)
    requires Indices(idx, ds)
    ensures |fs| == |idx|
  {
    seq(|idx|, k requires 0 <= k < |idx| => FrameAt(c, seed, ds, idx[k]))
  }

  /** The signed zero chunk of the body. */
  function Closer(c: Config, seed: string, ds: seq<string>): string {
    ChunkText("", ChunkSig(c, Before(c, seed, ds, |ds|), ""))
  }

  function All(ds: seq<string>): string {
    if ds == [] then "" else ds[0] + All(ds[1..])
  }

  /** The first p frames are in place, and the next one, if any, is not. */
  predicate InPlace(idx: seq<nat>, ds: seq<string>, p: nat) {
    p <= |idx| && p <= |ds| && (forall k :: 0 <= k < p ==> idx[k] == k) && (p < |idx| ==> idx[p] != p)
  }

  /** A seed that is no chunk signature itself. */
  ghost predicate Seed(c: Config, seed: string) {
    OneLine(c.amzDate) && OneLine(c.scope) && OneLine(seed) && forall p, d :: ChunkSig(c, p, d) != seed
  }

  /** The signature of the request itself is such a seed: its text has another shape. */
  lemma RequestSeed(c: Config, date: string, hash: string)
    requires Ideal(c.prims) && OneLine(c.amzDate) && OneLine(c.scope) && OneLine(date) && OneLine(hash)
    ensures Seed(c, c.prims.sign(c.secret, c.dateStamp, c.region, "s3",
                                 Join(["AWS4-HMAC-SHA256", date, c.scope, hash], "\n")))
  {
    var x := ["AWS4-HMAC-SHA256", date, c.scope, hash];
    var seed := c.prims.sign(c.secret, c.dateStamp, c.region, "s3", Join(x, "\n"));
    assert IsLowerHex(seed);
    HexHasNone(seed, '\n');
    hide IsLowerHex;
    forall p, d ensures ChunkSig(c, p, d) != seed {
      var y := ["AWS4-HMAC-SHA256-PAYLOAD", c.amzDate, c.scope, p, c.prims.shaHex(""), c.prims.shaHex(d)];
      JoinInjective(x, y, '\n');
      assert |x| != |y|;
      assert Join(x, "\n") != Join(y, "\n");
    }
  }

  lemma {:induction false} BeforeOneLine(c: Config, seed: string, ds: seq<string>, i: nat)
    requires Ideal(c.prims) && Seed(c, seed) && i <= |ds|
    ensures OneLine(Before(c, seed, ds, i))
  {
    hide ChunkSig;
    if i > 0 {
      assert IsLowerHex(ChunkSig(c, Before(c, seed, ds, i - 1), ds[i - 1])) by {
        SigIsHex(c, Before(c, seed, ds, i - 1), ds[i - 1]);
      }
      HexHasNone(Before(c, seed, ds, i), '\n');
    }
  }

  lemma SigIsHex(c: Config, prev: string, data: string)
    requires Ideal(c.prims)
    ensures IsLowerHex(ChunkSig(c, prev, data))
  {
    hide Join;
  }

  /** No two chunks follow the same signature. */
  lemma {:induction false} BeforeDistinct(c: Config, seed: string, ds: seq<string>, i: nat, j: nat)
    requires Ideal(c.prims) && Seed(c, seed) && i < j <= |ds|
    ensures Before(c, seed, ds, i) != Before(c, seed, ds, j)
  {
    hide ChunkSig, Ideal;
    if i > 0 {
      BeforeDistinct(c, seed, ds, i - 1, j - 1);
      BeforeOneLine(c, seed, ds, i - 1);
      ChunkSigBinds(c, Before(c, seed, ds, i - 1), ds[i - 1], c, Before(c, seed, ds, j - 1), ds[j - 1]);
    }
  }

  lemma {:induction false} LowerOfHex(s: string)
    requires forall i :: 0 <= i < |s| ==> IsLowerHexDigit(s[i])
    ensures ToLower(s) == s
  {
    if s != "" {
      assert IsLowerHexDigit(s[0]);
      LowerOfHex(s[1..]);
    }
  }

  lemma SigsDiffer(c: Config, p: string, q: string, data: string)
    requires Ideal(c.prims) && OneLine(c.amzDate) && OneLine(c.scope) && OneLine(p) && p != q
    ensures !EqualFold(ChunkSig(c, p, data), ChunkSig(c, q, data))
  {
    hide ChunkSig;
    ChunkSigBinds(c, p, data, c, q, data);
    SigIsHex(c, p, data);
    SigIsHex(c, q, data);
    LowerOfHex(ChunkSig(c, p, data));
    LowerOfHex(ChunkSig(c, q, data));
  }

  /** A frame signed after q is refused after p. */
  lemma WrongFrame(c: Config, p: string, q: string, data: string, rest: string)
    requires Ideal(c.prims) && c.signed && OneLine(c.amzDate) && OneLine(c.scope) && OneLine(p) && p != q
    requires 0 < |data| <= MAX_CHUNK_SIZE
    ensures NextPiece(c, Wire(EncodedFrame(c, q, data)) + rest, p) == Bad(ChunkSignature)
  {
    hide ParseHeader, TrimRight, ReadLine, HeaderText, ChunkSig, Ideal;
    var sig := ChunkSig(c, q, data);
    SigIsHex(c, q, data);
    SigsDiffer(c, p, q, data);
    HeaderParses(|data|, sig);
    var body := data + "\r\n" + rest;
    HeaderLineReads(|data|, sig, body);
    assert Wire(EncodedFrame(c, q, data)) + rest == HeaderText(|data|, sig) + "\r\n" + body;
    assert body[..|data|] == data && body[|data|..|data| + 2] == "\r\n";
  }

  lemma WrongZero(c: Config, p: string, q: string)
    requires Ideal(c.prims) && c.signed && OneLine(c.amzDate) && OneLine(c.scope) && OneLine(p) && p != q
    ensures NextPiece(c, ChunkText("", ChunkSig(c, q, "")), p) == Bad(ChunkSignature)
  {
    hide ParseHeader, TrimRight, ReadLine, ChunkSig, Ideal, HeaderText, ChunkText, EqualFold;
    var sig := ChunkSig(c, q, "");
    SigIsHex(c, q, "");
    SigsDiffer(c, p, q, "");
    HeaderParses(0, sig);
    HeaderLineReads(0, sig, "");
    ZeroText(sig);
    assert ""[..0] == "";
  }

  lemma ZeroText(sig: string)
    ensures ChunkText("", sig) == HeaderText(0, sig) + "\r\n" + ""
  {
    assert ";" + SIG_PREFIX == ";chunk-signature=";
  }

  /** The first p frames of the body. */
  function First(c: Config, seed: string, ds: seq<string>, p: nat): (fs: seq<Frame>)
    requires p <= |ds|
    ensures |fs| == p
  {
    if p == 0 then [] else First(c, seed, ds, p - 1) + [FrameAt(c, seed, ds, p - 1)]
  }

  lemma {:induction false} FirstAt(c: Config, seed: string, ds: seq<string>, p: nat, k: nat)
    requires k < p <= |ds|
    ensures First(c, seed, ds, p)[k] == FrameAt(c, seed, ds, k)
  {
    if k < p - 1 { FirstAt(c, seed, ds, p - 1, k); }
  }

  lemma {:induction false} FirstVerifies(c: Config, seed: string, ds: seq<string>, p: nat)
    requires Ideal(c.prims) && c.signed && Chunks(ds) && p <= |ds|
    ensures Verified(c, seed, First(c, seed, ds, p))
    ensures ChainAfter(c, seed, First(c, seed, ds, p)) == Before(c, seed, ds, p)
  {
    hide ChunkSig, Announces, Ideal, FrameAt, Verified, ChainAfter;
    if p > 0 {
      FirstVerifies(c, seed, ds, p - 1);
      FrameVerifies(c, seed, ds, p - 1);
      VerifiedSnoc(c, seed, First(c, seed, ds, p - 1), FrameAt(c, seed, ds, p - 1));
    } else {
      NoFrames(c, seed);
    }
  }

  lemma NoFrames(c: Config, seed: string)
    ensures Verified(c, seed, []) && ChainAfter(c, seed, []) == seed
  {
  }

  lemma VerifiedSnoc(c: Config, seed: string, init: seq<Frame>, last: Frame)
    requires c.signed && Verified(c, seed, init) && Announces(c, ChainAfter(c, seed, init), last)
    ensures Verified(c, seed, init + [last])
    ensures ChainAfter(c, seed, init + [last]) == ChunkSig(c, ChainAfter(c, seed, init), last.data)
  {
    hide ChunkSig, Announces;
    var fs := init + [last];
    assert fs[..|init|] == init;
    forall i | 0 <= i < |fs| ensures Announces(c, ChainAfter(c, seed, fs[..i]), fs[i]) {
      if i < |init| { assert fs[..i] == init[..i] && fs[i] == init[i]; }
    }
  }

  /** They carry the first p chunks. */
  lemma {:induction false} FirstPayload(c: Config, seed: string, ds: seq<string>, p: nat)
    requires p <= |ds|
    ensures Payload(First(c, seed, ds, p)) == All(ds[..p])
  {
    if p == 0 {
      assert ds[..0] == [];
    } else {
      hide Before, HeaderText, ChunkSig;
      FirstPayload(c, seed, ds, p - 1);
      PayloadSnoc(First(c, seed, ds, p - 1), FrameAt(c, seed, ds, p - 1));
      assert ds[..p] == ds[..p - 1] + [ds[p - 1]];
      AllSnoc(ds[..p - 1], ds[p - 1]);
    }
  }

  lemma InPlaceIsFirst(c: Config, seed: string, ds: seq<string>, idx: seq<nat>, p: nat)
    requires Indices(idx, ds) && InPlace(idx, ds, p)
    ensures Pick(c, seed, ds, idx)[..p] == First(c, seed, ds, p)
  {
    hide FrameAt, First;
    forall k | 0 <= k < p ensures Pick(c, seed, ds, idx)[k] == First(c, seed, ds, p)[k] { FirstAt(c, seed, ds, p, k); }
  }

  lemma FrameVerifies(c: Config, seed: string, ds: seq<string>, i: nat)
    requires Ideal(c.prims) && c.signed && Chunks(ds) && i < |ds|
    ensures Announces(c, Before(c, seed, ds, i), FrameAt(c, seed, ds, i))
    ensures c.signed ==> ChunkSig(c, Before(c, seed, ds, i), FrameAt(c, seed, ds, i).data) == Before(c, seed, ds, i + 1)
  {
    hide Announces, ChunkSig, HeaderText;
    EncodedFrameVerifies(c, Before(c, seed, ds, i), ds[i]);
  }

  lemma {:induction false} PayloadSnoc(fs: seq<Frame>, f: Frame)
    ensures Payload(fs + [f]) == Payload(fs) + f.data
  {
    if fs == [] {
      assert fs + [f] == [f] && [f][1..] == [];
    } else {
      assert (fs + [f])[1..] == fs[1..] + [f];
      PayloadSnoc(fs[1..], f);
    }
  }

  lemma {:induction false} AllSnoc(ds: seq<string>, d: string)
    ensures All(ds + [d]) == All(ds) + d
  {
    if ds == [] {
      assert ds + [d] == [d] && [d][1..] == [];
    } else {
      assert (ds + [d])[1..] == ds[1..] + [d];
      AllSnoc(ds[1..], d);
    }
  }

  lemma {:induction false} WireSplit(fs: seq<Frame>, p: nat)
    requires p <= |fs|
    ensures WireAll(fs) == WireAll(fs[..p]) + WireAll(fs[p..])
  {
    if p == 0 {
      assert fs[..0] == [] && fs[0..] == fs;
    } else {
      WireSplit(fs[1..], p - 1);
      assert fs[..p][1..] == fs[1..][..p - 1] && fs[p..] == fs[1..][p - 1..];
      assert fs[..p][0] == fs[0];
    }
  }

  /** What remains after the frames in place is refused at once, unless it is the zero
      chunk of a body that is complete. */
  lemma RestRefused(c: Config, seed: string, ds: seq<string>, idx: seq<nat>, p: nat)
    requires Ideal(c.prims) && c.signed && Chunks(ds) && Indices(idx, ds) && InPlace(idx, ds, p) && Seed(c, seed)
    requires !(p == |idx| == |ds|)
    ensures NextPiece(c, WireAll(Pick(c, seed, ds, idx)[p..]) + Closer(c, seed, ds), Before(c, seed, ds, p))
            == Bad(ChunkSignature)
  {
    hide ChunkSig, NextPiece, Ideal, HeaderText;
    var fs, here := Pick(c, seed, ds, idx)[p..], Before(c, seed, ds, p);
    BeforeOneLine(c, seed, ds, p);
    if p < |idx| {
      var k := idx[p];
      if k < p { BeforeDistinct(c, seed, ds, k, p); } else { BeforeDistinct(c, seed, ds, p, k); }
      var rest := WireAll(fs[1..]) + Closer(c, seed, ds);
      assert fs[0] == FrameAt(c, seed, ds, k);
      assert WireAll(fs) + Closer(c, seed, ds) == Wire(fs[0]) + rest;
      WrongFrame(c, here, Before(c, seed, ds, k), ds[k], rest);
    } else {
      BeforeDistinct(c, seed, ds, p, |ds|);
      assert fs == [] && WireAll(fs) + Closer(c, seed, ds) == Closer(c, seed, ds);
      WrongZero(c, here, Before(c, seed, ds, |ds|));
    }
  }

  /** A signed body of which frames were dropped, repeated or exchanged is delivered up to
      the first frame out of place, and ends there in a signature error; in its own order
      it is delivered whole, and ends in EOF when the declared length, if any, agrees. */
  lemma FramesKeepOrder(c: Config, seed: string, ds: seq<string>, idx: seq<nat>, p: nat)
    requires Ideal(c.prims) && c.signed && !c.trailers && Seed(c, seed)
    requires Chunks(ds) && Indices(idx, ds) && InPlace(idx, ds, p)
    ensures Decode(c, WireAll(Pick(c, seed, ds, idx)) + Closer(c, seed, ds), seed, "")
            == if p == |idx| == |ds|
               then Delivery(All(ds), if c.want >= 0 && c.want != |All(ds)| then DecodedLength else EOF)
               else Delivery(All(ds[..p]), ChunkSignature)
  {
    hide ChunkSig, NextPiece, Ideal, Verified, Seed, Chunks, Pick, First, Closer, Indices, Before;
    var fs, mine, closer := Pick(c, seed, ds, idx), First(c, seed, ds, p), Closer(c, seed, ds);
    InPlaceIsFirst(c, seed, ds, idx, p);
    WireSplit(fs, p);
    var rest := WireAll(fs[p..]) + closer;
    assert WireAll(fs) + closer == WireAll(mine) + rest;
    FirstVerifies(c, seed, ds, p);
    FirstPayload(c, seed, ds, p);
    VerifiedIsDelivered(c, seed, mine, rest, "");
    hide WireAll, Payload, ChainAfter, All;
    assert "" + Payload(mine) == All(ds[..p]);
    if p == |idx| == |ds| {
      Whole(c, seed, ds, idx, p);
      assert All(ds) + "" == All(ds);
    } else {
      RestRefused(c, seed, ds, idx, p);
      assert All(ds[..p]) + "" == All(ds[..p]);
    }
  }

  lemma Whole(c: Config, seed: string, ds: seq<string>, idx: seq<nat>, p: nat)
    requires Ideal(c.prims) && c.signed && Indices(idx, ds) && p == |idx| == |ds|
    ensures ds[..p] == ds
    ensures NextPiece(c, WireAll(Pick(c, seed, ds, idx)[p..]) + Closer(c, seed, ds), Before(c, seed, ds, p))
            == Zero("", ChunkSig(c, Before(c, seed, ds, p), ""))
  {
    hide ChunkSig, NextPiece, ChunkText, Before;
    IdealHex(c);
    EncodedZero(c, Before(c, seed, ds, p), "");
    assert Pick(c, seed, ds, idx)[p..] == [];
    assert WireAll([]) + Closer(c, seed, ds) == Closer(c, seed, ds) + "";
  }

  lemma IdealHex(c: Config)
    requires Ideal(c.prims)
    ensures HexSignatures(c.prims)
  {
  }
}
