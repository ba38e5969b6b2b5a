/** The chunkReader object and EncodeSignedChunks of internal/auth/chunked.go. */
module ChunkReaders {
  import opened Strings
  import opened Chunked
  import opened ChunkedTheorems

  class ChunkReader {
    const c: Config
    var input: string          // unread bytes of the request body
    var prevSig: string
    var got: int
    var left: string           // bytes of the current chunk not yet copied out
    var err: Option<Error>
    var hashed: string         // what the five running hashes have absorbed

    ghost predicate Valid()
      reads this
    {
      got == |hashed|
    }

    /** Everything still to be delivered and the error that will end it. */
    ghost function Remaining(): Delivery
      reads this
    {
      if err.Some? then Delivery(left, err.value)
      else
        var d := Decode(c, input, prevSig, hashed);
        Delivery(left + d.data, d.end)
    }

    constructor (c: Config, body: string, seed: string)
      ensures Valid()
      ensures this.c == c && err == None
      ensures Remaining() == Decode(c, body, seed, "")
    {
      this.c := c;
      input, prevSig, got := body, seed, 0;
      left, err, hashed := "", None, "";
      new;
      var d := Decode(c, body, seed, "");
      assert "" + d.data == d.data;
    }

    /** io.Reader.Read. Whatever the buffer sizes, the bytes copied out are the
        next ones of the decoded stream; the error comes once nothing is left,
        and every later call returns it again. */
    method Read(p: array<char>) returns (n: nat, e: Option<Error>)
      requires Valid()
      modifies this, p
      ensures Valid()
      ensures n <= p.Length && p[n..] == old(p[n..])
      ensures old(Remaining()).data == p[..n] + Remaining().data
      ensures old(Remaining()).end == Remaining().end
      ensures e == if old(Remaining()).data == "" then Some(old(Remaining()).end) else None
      ensures e.None? && p.Length > 0 ==> n > 0
    {
      hide Decode;
      if |left| > 0 {
        n := CopyOut(p);
        return n, None;
      }
      if err.Some? {
        return 0, err;
      }
      e := ReadChunk();
      if e.Some? {
        n := 0;
        return;
      }
      n := CopyOut(p);
    }

    /** copy(p, left) and the reslice of `left`. */
    method CopyOut(p: array<char>) returns (n: nat)
      modifies this`left, p
      ensures n == if p.Length < |old(left)| then p.Length else |old(left)|
      ensures p[..n] == old(left)[..n] && p[n..] == old(p[n..])
      ensures left == old(left)[n..]
    {
      n := if p.Length < |left| then p.Length else |left|;
      forall i | 0 <= i < n { p[i] := left[i]; }
      left := left[n..];
    }

    /** The part of Read that consumes one chunk: on success its bytes are in
        `left`, otherwise `err` holds the error returned. */
    method ReadChunk() returns (e: Option<Error>)
      requires Valid() && left == "" && err == None
      modifies this
      ensures Valid() && e == err
      ensures Remaining() == old(Remaining())
      ensures e.None? <==> left != ""
    {
      hide ReadLine, ParseHeader, Closing, ChunkSig, EqualFold;
      ghost var d := Decode(c, input, prevSig, hashed);
      assert left + d.data == d.data;
      var header := ReadHeader();
      if header.None? {
        err := Some(MalformedChunk);
        return err;
      }
      var (size, sig) := header.value;
      var buf := TakeBody(size);
      if buf.None? {
        err := Some(MalformedChunk);
        return err;
      }
      var signatureOK := CheckSignature(buf.value, sig);
      if !signatureOK {
        err := Some(ChunkSignature);
        return err;
      }
      if size == 0 {
        var end := EndOfBody();
        err := Some(end);
        return err;
      }
      hashed := hashed + buf.value;
      got := got + size;
      left := buf.value;
      e := None;
    }

    /** io.ReadFull of the chunk bytes and the CRLF after them. */
    method TakeBody(size: nat) returns (buf: Option<string>)
      modifies this`input
      ensures buf.Some? <==>
              && size <= MAX_CHUNK_SIZE
              && (size > 0 ==> size + 2 <= |old(input)| && old(input)[size..size + 2] == "\r\n")
      ensures buf.Some? ==>
              && buf.value == old(input)[..size]
              && input == if size == 0 then old(input) else old(input)[size + 2..]
    {
      if size > MAX_CHUNK_SIZE { return None; }
      if size == 0 { return Some(""); }
      if |input| < size {
        input := "";
        return None;
      }
      buf := Some(input[..size]);
      input := input[size..];
      var ok := ExpectCRLF();
      if !ok { return None; }
    }

    method CheckSignature(buf: string, sig: string) returns (ok: bool)
      modifies this`prevSig
      ensures ok <==> (c.signed ==> EqualFold(ChunkSig(c, old(prevSig), buf), sig))
      ensures prevSig == if ok && c.signed then ChunkSig(c, old(prevSig), buf) else old(prevSig)
    {
      if c.signed {
        var next := ChunkSig(c, prevSig, buf);
        if !EqualFold(next, sig) { return false; }
        prevSig := next;
      }
      return true;
    }

    /** After a valid zero chunk: trailers, then the declared length. */
    method EndOfBody() returns (e: Error)
      requires Valid()
      modifies this`input
      ensures e == Closing(c, old(input), prevSig, hashed)
    {
      if c.trailers {
        var te := ReadTrailers();
        if te.Some? { return te.value; }
      }
      if c.want >= 0 && got != c.want { return DecodedLength; }
      return EOF;
    }

    method NextLine() returns (line: Option<string>)
      modifies this`input
      ensures match ReadLine(old(input))
              case None => line == None
              case Some((l, rest)) => line == Some(l) && input == rest
      ensures line.Some? ==> |input| < |old(input)|
    {
      var i := IndexByte(input, '\n');
      if i < 0 {
        input := "";
        return None;
      }
      line := Some(TrimRight(input[..i + 1], IsEol));
      input := input[i + 1..];
    }

    method ReadHeader() returns (r: Option<(nat, string)>)
      modifies this`input
      ensures match ReadLine(old(input))
              case None => r == None
              case Some((l, rest)) => r == ParseHeader(c.signed, l) && input == rest
    {
      hide ParseHeader, ReadLine;
      var line := NextLine();
      if line.None? { return None; }
      r := HeaderFields(line.value);
    }

    method HeaderFields(line: string) returns (r: Option<(nat, string)>)
      ensures r == ParseHeader(c.signed, line)
    {
      hide ParseHex, Trim;
      ParseHexEmpty();
      var sig, hexSize := "", line;
      var i := IndexByte(line, ';');
      if i >= 0 {
        hexSize := line[..i];
        var rest := line[i + 1..];
        var j := Index(rest, SIG_PREFIX);
        if j < 0 {
          if c.signed { return None; }
        } else {
          sig := rest[j + |SIG_PREFIX|..];
          var k := IndexByte(sig, ';');
          if k >= 0 {
            sig := sig[..k];
          }
          sig := TrimSpace(sig);
        }
      } else if c.signed {
        return None;
      }
      if hexSize == "" { return None; }
      var n := ParseHex(hexSize);
      if n.None? || n.value < 0 { return None; }
      return Some((n.value, sig));
    }

    method ExpectCRLF() returns (ok: bool)
      modifies this`input
      ensures ok <==> |old(input)| >= 2 && old(input)[..2] == "\r\n"
      ensures ok ==> input == old(input)[2..]
    {
      if |input| < 2 {
        input := "";
        return false;
      }
      var b := input[..2];
      input := input[2..];
      return b[0] == '\r' && b[1] == '\n';
    }

    /** finishTrailerBlock. */
    method FinishTrailerBlock() returns (ok: bool)
      modifies this`input
      ensures ok == BlockEndOK(old(input))
      ensures input == if old(input) == "" || old(input)[0] != '\r' then old(input)
                       else if |old(input)| == 1 then ""
                       else old(input)[2..]
    {
      if input == "" || input[0] != '\r' { return true; }
      input := input[1..];
      if input == "" { return false; }
      var n := input[0];
      input := input[1..];
      return n == '\n';
    }

    method ReadTrailerLines() returns (block: TrailerBlock)
      modifies this`input
      ensures block == ReadTrailerBlock(old(input))
    {
      hide ReadLine, ToLower, Trim;
      var lines: seq<string> := [];
      ghost var whole := ReadTrailerBlock(input);
      while true
        invariant whole == After(lines, ReadTrailerBlock(input))
        decreases |input|
      {
        ghost var rest := ReadTrailerBlock(input);
        var next := NextLine();
        if next.None? { return NoBlock; }
        var line := next.value;
        if line == "" { return Block(lines, ""); }
        if TRAILER_SIG_PREFIX <= ToLower(line) {
          var trailerSig := TrimSpace(line[|TRAILER_SIG_PREFIX|..]);
          var ok := FinishTrailerBlock();
          return if ok then Block(lines, trailerSig) else NoBlock;
        }
        AfterSnoc(lines, line, ReadTrailerBlock(input));
        lines := lines + [line];
      }
    }

    method ReadTrailers() returns (e: Option<Error>)
      requires c.trailers
      modifies this`input
      ensures e == TrailerError(c, old(input), prevSig, hashed)
    {
      hide ReadTrailerBlock, LineOK, EqualFold, TrailerSig;
      var block := ReadTrailerLines();
      if block.NoBlock? { return Some(MalformedChunk); }
      var lines, trailerSig := block.lines, block.sig;
      if c.signed && c.trailers {
        var canonical := "";
        if |lines| > 0 {
          canonical := Join(lines, "\n") + "\n";
        }
        if trailerSig == "" || !EqualFold(TrailerSig(c, prevSig, canonical), trailerSig) {
          return Some(ChunkSignature);
        }
      }
      var i := 0;
      while i < |lines|
        invariant 0 <= i <= |lines|
        invariant forall k :: 0 <= k < i ==> LineOK(c.prims, lines[k], hashed)
      {
        var ok := CheckLine(lines[i]);
        if !ok { return Some(BadDigest); }
        i := i + 1;
      }
      return None;
    }

    method CheckLine(line: string) returns (ok: bool)
      ensures ok == LineOK(c.prims, line, hashed)
    {
      var i := IndexByte(line, ':');
      if i <= 0 { return true; }
      var name := ToLower(TrimSpace(line[..i]));
      var val := TrimSpace(line[i + 1..]);
      ok := ChecksumOK(name, val);
    }

    method ChecksumOK(name: string, b64: string) returns (ok: bool)
      ensures ok == match AlgoNamed(name)
                    case None => true
                    case Some(a) => c.prims.unbase64(b64) == Some(c.prims.sum(a, hashed))
    {
      var algo := AlgoNamed(name);
      if algo.None? { return true; }
      var sum := c.prims.sum(algo.value, hashed);
      var decoded := c.prims.unbase64(b64);
      if decoded.None? { return false; }
      var bytes := decoded.value;
      if |bytes| != |sum| { return false; }
      var i := 0;
      while i < |bytes|
        invariant 0 <= i <= |bytes|
        invariant bytes[..i] == sum[..i]
      {
        if bytes[i] != sum[i] { return false; }
        i := i + 1;
      }
      assert bytes == bytes[..|bytes|] && sum == sum[..|bytes|];
      return true;
    }
  }

  lemma ParseHexEmpty()
    ensures ParseHex("") == None
  {
  }

  ghost function After(lines: seq<string>, b: TrailerBlock): TrailerBlock {
    match b
    case NoBlock => NoBlock
    case Block(more, sig) => Block(lines + more, sig)
  }

  lemma AfterSnoc(lines: seq<string>, line: string, b: TrailerBlock)
    ensures b.Block? ==> After(lines, Block([line] + b.lines, b.sig)) == After(lines + [line], b)
  {
    if b.Block? {
      assert lines + ([line] + b.lines) == lines + [line] + b.lines;
    }
  }

  //// Encoder

  method WriteChunk(c: Config, prevSig: string, buf: string, data: string) returns (sig: string, out: string)
    ensures sig == ChunkSig(c, prevSig, data)
    ensures out == buf + ChunkText(data, sig)
  {
    sig := ChunkSig(c, prevSig, data);
    out := buf + (FormatHex(|data|) + ";chunk-signature=" + sig + "\r\n");
    out := out + data;
    if |data| > 0 {
      out := out + ['\r', '\n'];
    }
  }

  method EncodeSignedChunks(prims: Primitives, secret: string, amzDate: string, scope: string, region: string,
                            dateStamp: string, seed: string, payload: string)
    returns (buf: string)
    ensures forall trailers, want ::
              buf == Encoded(Config(prims, true, trailers, secret, amzDate, scope, region, dateStamp, want),
                             seed, payload)
  {
    var c := Config(prims, true, false, secret, amzDate, scope, region, dateStamp, 0);
    buf := "";
    var sig;
    sig, buf := WriteChunk(c, seed, buf, payload);
    ghost var first := buf;
    sig, buf := WriteChunk(c, sig, buf, "");
    assert first == ChunkText(payload, ChunkSig(c, seed, payload));
  }

  //// Runs of reads

  /** Any sequence of reads, stopped at the first error. The bytes are a prefix of
      the decoded stream; at the error they are all of it; and with non-empty
      buffers the error comes after at most one read per byte, plus one. */
  method ReadThrough(r: ChunkReader, sizes: seq<nat>) returns (out: string, end: Option<Error>)
    requires r.Valid()
    modifies r
    ensures r.Valid()
    ensures old(r.Remaining()) == Delivery(out + r.Remaining().data, r.Remaining().end)
    ensures end.Some? ==> old(r.Remaining()) == Delivery(out, end.value)
    ensures (forall i :: 0 <= i < |sizes| ==> sizes[i] > 0) && |sizes| > |old(r.Remaining()).data| ==> end.Some?
  {
    out, end := "", None;
    var i := 0;
    ghost var all := r.Remaining();
    assert out + all.data == all.data;
    while i < |sizes| && end.None?
      invariant r.Valid() && 0 <= i <= |sizes|
      invariant all == Delivery(out + r.Remaining().data, r.Remaining().end)
      invariant end.Some? ==> r.Remaining() == Delivery("", end.value)
      invariant end.None? && (forall k :: 0 <= k < |sizes| ==> sizes[k] > 0) ==> |out| >= i
      decreases |sizes| - i
    {
      var p := new char[sizes[i]];
      ghost var before := r.Remaining();
      var n, e := r.Read(p);
      assert out + before.data == out + p[..n] + r.Remaining().data;
      out := out + p[..n];
      end := e;
      i := i + 1;
    }
    if end.Some? { assert out + "" == out; }
  }

  /** Encoding a payload and reading it back with the same secret, scope and seed,
      through any non-empty buffers, gives the payload and then EOF. */
  method EncodeThenRead(c: Config, seed: string, payload: string, sizes: seq<nat>)
    returns (out: string, end: Option<Error>)
    requires HexSignatures(c.prims) && c.signed && !c.trailers
    requires |payload| <= MAX_CHUNK_SIZE && (c.want < 0 || c.want == |payload|)
    requires |sizes| > |payload| && forall i :: 0 <= i < |sizes| ==> sizes[i] > 0
    ensures out == payload && end == Some(EOF)
  {
    var wire := EncodeSignedChunks(c.prims, c.secret, c.amzDate, c.scope, c.region, c.dateStamp, seed, payload);
    assert c == Config(c.prims, true, false, c.secret, c.amzDate, c.scope, c.region, c.dateStamp, c.want);
    RoundTrip(c, seed, payload);
    var r := new ChunkReader(c, wire, seed);
    out, end := ReadThrough(r, sizes);
  }
}
