/** What the aws-chunked format guarantees, for every stream. */
module ChunkedTheorems {
  import opened Strings
  import opened Chunked

  //// Verified frames, stated without the parser's control flow

  /** One data chunk as it stands in the stream: header line, bytes, CRLF. */
  datatype Frame = Frame(header: string, data: string)

  function Wire(f: Frame): string {
    f.header + "\n" + f.data + "\r\n"
  }

  function WireAll(fs: seq<Frame>): string {
    if fs == [] then "" else Wire(fs[0]) + WireAll(fs[1..])
  }

  function Payload(fs: seq<Frame>): string {
    if fs == [] then "" else fs[0].data + Payload(fs[1..])
  }

  /** The signature the next chunk is chained to after one frame. */
  function Chained(c: Config, prev: string, f: Frame): string {
    if c.signed then ChunkSig(c, prev, f.data) else prev
  }

  /** The signature the next chunk is chained to after the frames `fs`. */
  function ChainAfter(c: Config, seed: string, fs: seq<Frame>): string {
    if fs == [] || !c.signed then seed
    else ChunkSig(c, ChainAfter(c, seed, fs[..|fs| - 1]), fs[|fs| - 1].data)
  }

  /** A header line that announces exactly these bytes and, in signed mode,
      carries their signature chained to `prev`. */
  ghost predicate Announces(c: Config, prev: string, f: Frame) {
    && '\n' !in f.header
    && 0 < |f.data| <= MAX_CHUNK_SIZE
    && exists sig ::
         && ParseHeader(c.signed, TrimRight(f.header + "\n", IsEol)) == Some((|f.data|, sig))
         && (c.signed ==> EqualFold(ChunkSig(c, prev, f.data), sig))
  }

  /** Every frame's signature matches, chained from the seed. */
  ghost predicate Verified(c: Config, seed: string, fs: seq<Frame>) {
    forall i :: 0 <= i < |fs| ==> Announces(c, ChainAfter(c, seed, fs[..i]), fs[i])
  }

  ghost predicate StartsVerified(c: Config, prev: string, input: string) {
    exists f, rest :: Announces(c, prev, f) && input == Wire(f) + rest
  }

  lemma ReadLineOf(header: string, rest: string)
    requires '\n' !in header
    ensures ReadLine(header + "\n" + rest) == Some((TrimRight(header + "\n", IsEol), rest))
  {
    var input := header + "\n" + rest;
    assert input[..|header|] == header;
    IndexByteUnique(input, '\n', |header|);
    assert input[..|header| + 1] == header + "\n";
    assert input[|header| + 1..] == rest;
  }

  lemma BodyOfData(c: Config, sig: string, data: string, rest: string, prev: string)
    requires 0 < |data| <= MAX_CHUNK_SIZE
    requires c.signed ==> EqualFold(ChunkSig(c, prev, data), sig)
    ensures PieceOfBody(c, |data|, sig, data + "\r\n" + rest, prev)
            == Data(data, rest, if c.signed then ChunkSig(c, prev, data) else prev)
  {
    var body := data + "\r\n" + rest;
    assert body[..|data|] == data;
    assert body[|data|..|data| + 2] == "\r\n";
    assert body[|data| + 2..] == rest;
  }

  lemma ChainOfOne(c: Config, prev: string, f: Frame)
    ensures ChainAfter(c, prev, [f]) == Chained(c, prev, f)
  {
    assert [f][..0] == [];
  }

  lemma NextIsFrame(c: Config, prev: string, f: Frame, input: string, rest: string)
    requires Announces(c, prev, f) && input == Wire(f) + rest
    ensures var p := NextPiece(c, input, prev);
            p.Data? && p.data == f.data && p.rest == rest && p.sig == Chained(c, prev, f)
  {
    hide ParseHeader, PieceOfBody, ReadLine, TrimRight;
    var body := f.data + "\r\n" + rest;
    assert input == f.header + "\n" + body;
    ReadLineOf(f.header, body);
    var size, sig := |f.data|, ParseHeader(c.signed, TrimRight(f.header + "\n", IsEol)).value.1;
    BodyOfData(c, sig, f.data, rest, prev);
  }

  lemma DataOfBody(c: Config, size: nat, sig: string, body: string, prev: string)
    requires PieceOfBody(c, size, sig, body, prev).Data?
    ensures var p := PieceOfBody(c, size, sig, body, prev);
            && body == p.data + "\r\n" + p.rest
            && 0 < |p.data| == size <= MAX_CHUNK_SIZE
            && (c.signed ==> EqualFold(ChunkSig(c, prev, p.data), sig))
  {
    assert body == body[..size] + body[size..size + 2] + body[size + 2..];
  }

  lemma HeaderOfLine(input: string) returns (header: string)
    requires ReadLine(input).Some?
    ensures '\n' !in header
    ensures ReadLine(input).value.0 == TrimRight(header + "\n", IsEol)
    ensures input == header + "\n" + ReadLine(input).value.1
  {
    var i := IndexByte(input, '\n');
    header := input[..i];
    assert input[..i + 1] == header + "\n";
  }

  lemma FrameOfNext(c: Config, prev: string, input: string) returns (f: Frame)
    requires NextPiece(c, input, prev).Data?
    ensures Announces(c, prev, f)
    ensures input == Wire(f) + NextPiece(c, input, prev).rest
    ensures f.data == NextPiece(c, input, prev).data
  {
    hide ParseHeader, TrimRight, ReadLine, PieceOfBody;
    var header := HeaderOfLine(input);
    var (line, body) := ReadLine(input).value;
    var (size, sig) := ParseHeader(c.signed, line).value;
    DataOfBody(c, size, sig, body, prev);
    f := Frame(header, PieceOfBody(c, size, sig, body, prev).data);
  }

  lemma {:induction false} ChainPrepend(c: Config, seed: string, f: Frame, fs: seq<Frame>)
    ensures ChainAfter(c, seed, [f] + fs) == ChainAfter(c, ChainAfter(c, seed, [f]), fs)
    decreases |fs|
  {
    if fs == [] {
      assert [f] + fs == [f];
    } else {
      var all := [f] + fs;
      assert all[..|all| - 1] == [f] + fs[..|fs| - 1];
      ChainPrepend(c, seed, f, fs[..|fs| - 1]);
    }
  }

  lemma VerifiedTail(c: Config, seed: string, fs: seq<Frame>)
    requires Verified(c, seed, fs) && fs != []
    ensures Announces(c, seed, fs[0])
    ensures Verified(c, ChainAfter(c, seed, [fs[0]]), fs[1..])
  {
    hide Announces;
    assert fs[..0] == [];
    var f, t := fs[0], fs[1..];
    forall i | 0 <= i < |t|
      ensures Announces(c, ChainAfter(c, ChainAfter(c, seed, [f]), t[..i]), t[i])
    {
      assert fs[..i + 1] == [f] + t[..i];
      ChainPrepend(c, seed, f, t[..i]);
      assert t[i] == fs[i + 1];
    }
  }

  lemma VerifiedPrepend(c: Config, seed: string, f: Frame, t: seq<Frame>)
    requires Announces(c, seed, f)
    requires Verified(c, ChainAfter(c, seed, [f]), t)
    ensures Verified(c, seed, [f] + t)
  {
    hide Announces;
    var fs := [f] + t;
    forall i | 0 <= i < |fs| ensures Announces(c, ChainAfter(c, seed, fs[..i]), fs[i]) {
      if i == 0 {
        assert fs[..0] == [];
      } else {
        assert fs[..i] == [f] + t[..i - 1];
        ChainPrepend(c, seed, f, t[..i - 1]);
      }
    }
  }

  /** Every verified run of frames at the front of a stream is delivered whole,
      whatever follows it. */
  lemma {:induction false} VerifiedIsDelivered(c: Config, seed: string, fs: seq<Frame>, rest: string, seen: string)
    requires Verified(c, seed, fs)
    ensures var d := Decode(c, rest, ChainAfter(c, seed, fs), seen + Payload(fs));
            Decode(c, WireAll(fs) + rest, seed, seen) == Delivery(Payload(fs) + d.data, d.end)
    decreases |fs|
  {
    hide Announces, NextPiece;
    if fs == [] {
      assert WireAll(fs) + rest == rest && seen + Payload(fs) == seen;
      var d := Decode(c, rest, seed, seen);
      assert Payload(fs) + d.data == d.data;
    } else {
      var f, t := fs[0], fs[1..];
      VerifiedTail(c, seed, fs);
      var next := ChainAfter(c, seed, [f]);
      assert WireAll(fs) + rest == Wire(f) + (WireAll(t) + rest);
      NextIsFrame(c, seed, f, WireAll(fs) + rest, WireAll(t) + rest);
      ChainOfOne(c, seed, f);
      VerifiedIsDelivered(c, next, t, rest, seen + f.data);
      assert fs == [f] + t;
      ChainPrepend(c, seed, f, t);
      assert seen + f.data + Payload(t) == seen + Payload(fs);
      var d := Decode(c, rest, ChainAfter(c, seed, fs), seen + Payload(fs));
      assert f.data + (Payload(t) + d.data) == Payload(fs) + d.data;
    }
  }

  /** Verified prefix: the bytes delivered are exactly the payload of the longest
      run of chunks whose signatures, chained from the seed, all match; the
      piece after that run is bad or is the zero chunk, and gives the error. */
  lemma {:induction false} DeliveredIsVerified(c: Config, input: string, seed: string, seen: string)
      returns (fs: seq<Frame>, rest: string)
    ensures input == WireAll(fs) + rest
    ensures Verified(c, seed, fs)
    ensures Decode(c, input, seed, seen).data == Payload(fs)
    ensures !StartsVerified(c, ChainAfter(c, seed, fs), rest)
    ensures var p := NextPiece(c, rest, ChainAfter(c, seed, fs));
            && !p.Data?
            && Decode(c, input, seed, seen).end
               == if p.Bad? then p.error else Closing(c, p.rest, p.sig, seen + Payload(fs))
    decreases |input|
  {
    hide Announces, NextPiece, Closing;
    var p := NextPiece(c, input, seed);
    if p.Data? {
      var f := FrameOfNext(c, seed, input);
      NextIsFrame(c, seed, f, input, p.rest);
      ChainOfOne(c, seed, f);
      var t;
      t, rest := DeliveredIsVerified(c, p.rest, ChainAfter(c, seed, [f]), seen + f.data);
      fs := [f] + t;
      VerifiedPrepend(c, seed, f, t);
      ChainPrepend(c, seed, f, t);
      assert fs[0] == f && fs[1..] == t;
      assert input == WireAll(fs) + rest;
      assert seen + f.data + Payload(t) == seen + Payload(fs);
    } else {
      fs, rest := [], input;
      assert input == WireAll(fs) + rest;
      assert seen + Payload(fs) == seen;
      forall f, more | Announces(c, seed, f) ensures input != Wire(f) + more {
        if input == Wire(f) + more { NextIsFrame(c, seed, f, input, more); }
      }
    }
  }

  //// Clean end of stream

  /** The trailer block after the zero chunk is present, is signed when the body
      is, and every checksum it declares is the hash of `data`. */
  ghost predicate TrailersAgree(c: Config, tail: string, sig: string, data: string) {
    var block := ReadTrailerBlock(tail);
    && block.Block?
    && (c.signed ==> block.sig != "" && EqualFold(TrailerSig(c, sig, CanonicalTrailer(block.lines)), block.sig))
    && forall line :: line in block.lines && DeclaredChecksum(line).Some? ==>
         var (algo, value) := DeclaredChecksum(line).value;
         c.prims.unbase64(value) == Some(c.prims.sum(algo, data))
  }

  /** A reader reports EOF exactly when a chained zero chunk follows the verified
      frames, the trailers agree with the bytes delivered over all chunks, and
      the declared decoded length, if any, is their number. */
  lemma CleanEof(c: Config, input: string, seed: string) returns (fs: seq<Frame>, rest: string)
    ensures input == WireAll(fs) + rest && Verified(c, seed, fs)
    ensures Decode(c, input, seed, "").data == Payload(fs)
    ensures var data := Payload(fs);
            var p := NextPiece(c, rest, ChainAfter(c, seed, fs));
            Decode(c, input, seed, "").end == EOF <==>
              && p.Zero?
              && (c.trailers ==> TrailersAgree(c, p.rest, p.sig, data))
              && (c.want >= 0 ==> |data| == c.want)
  {
    hide Announces, Decode;
    fs, rest := DeliveredIsVerified(c, input, seed, "");
    var data := Payload(fs);
    assert "" + data == data;
    var p := NextPiece(c, rest, ChainAfter(c, seed, fs));
    NeverEof(c, rest, ChainAfter(c, seed, fs));
    if p.Zero? { ClosingEof(c, p.rest, p.sig, data); }
  }

  lemma NeverEof(c: Config, input: string, prev: string)
    ensures NextPiece(c, input, prev) != Bad(EOF)
  {
    hide ParseHeader, ReadLine, ChunkSig;
  }

  lemma ClosingEof(c: Config, tail: string, sig: string, seen: string)
    ensures Closing(c, tail, sig, seen) == EOF <==>
              && (c.trailers ==> TrailersAgree(c, tail, sig, seen))
              && (c.want >= 0 ==> |seen| == c.want)
  {
    hide ReadTrailerBlock, DeclaredChecksum;
    var block := ReadTrailerBlock(tail);
    if block.Block? {
      var lines := block.lines;
      assert (forall i :: 0 <= i < |lines| ==> LineOK(c.prims, lines[i], seen))
        <==> (forall line :: line in lines ==> LineOK(c.prims, line, seen));
    }
  }

  //// Round trip

  /** One chunk as EncodeSignedChunks writes it. */
  function ChunkText(data: string, sig: string): string {
    FormatHex(|data|) + ";chunk-signature=" + sig + "\r\n" + data + (if |data| > 0 then "\r\n" else "")
  }

  function Encoded(c: Config, seed: string, payload: string): string {
    var sig := ChunkSig(c, seed, payload);
    ChunkText(payload, sig) + ChunkText("", ChunkSig(c, sig, ""))
  }

  function HeaderText(n: nat, sig: string): string {
    FormatHex(n) + ";" + SIG_PREFIX + sig
  }

  lemma HexHasNone(s: string, c: char)
    requires IsLowerHex(s) && !IsLowerHexDigit(c)
    ensures c !in s
  {
  }

  lemma LowerHexUntrimmed(s: string)
    requires IsLowerHex(s)
    ensures SignatureField(s) == s
  {
    HexHasNone(s, ';');
    TrimUntouched(s, IsSpace);
  }

  lemma HeaderFields(n: nat, sig: string)
    ensures var line, hex := HeaderText(n, sig), FormatHex(n);
            && IndexByte(line, ';') == |hex|
            && line[..|hex|] == hex
            && line[|hex| + 1..] == SIG_PREFIX + sig
  {
    var line, hex := HeaderText(n, sig), FormatHex(n);
    assert line[..|hex|] == hex;
    HexHasNone(hex, ';');
    IndexByteUnique(line, ';', |hex|);
  }

  lemma FormatParses(n: nat)
    ensures ParseHex(FormatHex(n)) == if n < 0x8000_0000_0000_0000 then Some(n) else None
  {
    HexValueOfFormat(n);
    assert IsLowerHexDigit(FormatHex(n)[0]);
  }

  lemma HeaderParses(n: nat, sig: string)
    requires IsLowerHex(sig)
    ensures ParseHeader(true, HeaderText(n, sig))
            == if n < 0x8000_0000_0000_0000 then Some((n, sig)) else None
  {
    hide ParseHex, FormatHex, HeaderText, SignatureField;
    HeaderFields(n, sig);
    var rest := SIG_PREFIX + sig;
    assert Index(rest, SIG_PREFIX) == 0;
    assert rest[|SIG_PREFIX|..] == sig;
    LowerHexUntrimmed(sig);
    FormatParses(n);
  }

  lemma TrimCrLf(text: string)
    requires text == "" || !IsEol(text[|text| - 1])
    ensures TrimRight(text + "\r" + "\n", IsEol) == text
  {
    var line := text + "\r" + "\n";
    assert line[..|line| - 1] == text + "\r";
    assert (text + "\r")[..|text|] == text;
    assert TrimRight(text + "\r", IsEol) == TrimRight(text, IsEol);
  }

  lemma HeaderLineReads(n: nat, sig: string, body: string)
    requires IsLowerHex(sig)
    ensures '\n' !in HeaderText(n, sig) + "\r"
    ensures TrimRight(HeaderText(n, sig) + "\r" + "\n", IsEol) == HeaderText(n, sig)
    ensures ReadLine(HeaderText(n, sig) + "\r\n" + body) == Some((HeaderText(n, sig), body))
  {
    hide ReadLine, TrimRight;
    var text := HeaderText(n, sig);
    HexHasNone(FormatHex(n), '\n');
    HexHasNone(sig, '\n');
    assert '\n' !in SIG_PREFIX;
    assert IsLowerHexDigit(sig[|sig| - 1]) && text[|text| - 1] == sig[|sig| - 1];
    TrimCrLf(text);
    ReadLineOf(text + "\r", body);
    assert text + "\r\n" + body == (text + "\r") + "\n" + body;
  }

  function EncodedFrame(c: Config, prev: string, data: string): Frame {
    Frame(HeaderText(|data|, ChunkSig(c, prev, data)) + "\r", data)
  }

  lemma EncodedFrameVerifies(c: Config, prev: string, data: string)
    requires HexSignatures(c.prims) && c.signed
    requires 0 < |data| <= MAX_CHUNK_SIZE
    ensures Announces(c, prev, EncodedFrame(c, prev, data))
  {
    hide ParseHeader, TrimRight, ReadLine, HeaderText;
    var sig := ChunkSig(c, prev, data);
    HeaderParses(|data|, sig);
    HeaderLineReads(|data|, sig, "");
    assert EqualFold(sig, sig);
  }

  lemma EncodedFrameText(c: Config, prev: string, data: string)
    requires data != ""
    ensures Wire(EncodedFrame(c, prev, data)) == ChunkText(data, ChunkSig(c, prev, data))
  {
    hide ChunkSig;
    var sig := ChunkSig(c, prev, data);
    assert ";" + SIG_PREFIX == ";chunk-signature=";
  }

  lemma EncodedZero(c: Config, prev: string, rest: string)
    requires HexSignatures(c.prims) && c.signed
    ensures var sig := ChunkSig(c, prev, "");
            NextPiece(c, ChunkText("", sig) + rest, prev) == Zero(rest, sig)
  {
    hide ParseHeader, TrimRight, ReadLine;
    var sig := ChunkSig(c, prev, "");
    HeaderParses(0, sig);
    HeaderLineReads(0, sig, rest);
    assert ChunkText("", sig) + rest == HeaderText(0, sig) + "\r\n" + rest;
    assert rest[..0] == "";
  }

  lemma EncodedOversize(c: Config, prev: string, data: string, rest: string)
    requires HexSignatures(c.prims) && c.signed
    requires |data| > MAX_CHUNK_SIZE
    ensures NextPiece(c, ChunkText(data, ChunkSig(c, prev, data)) + rest, prev) == Bad(MalformedChunk)
  {
    hide ParseHeader, TrimRight, ReadLine;
    var sig := ChunkSig(c, prev, data);
    HeaderParses(|data|, sig);
    HeaderLineReads(|data|, sig, data + "\r\n" + rest);
    assert ChunkText(data, sig) + rest == HeaderText(|data|, sig) + "\r\n" + (data + "\r\n" + rest);
  }

  /** Round trip: the encoder's output decodes to the payload, whatever bytes it
      holds, followed by EOF, exactly when the payload fits one chunk and the
      declared length, if any, is its length. */
  lemma RoundTrip(c: Config, seed: string, payload: string)
    requires HexSignatures(c.prims) && c.signed && !c.trailers
    ensures Decode(c, Encoded(c, seed, payload), seed, "")
            == if |payload| > 134_217_728 then Delivery("", MalformedChunk)
               else Delivery(payload, if c.want >= 0 && c.want != |payload| then DecodedLength else EOF)
  {
    hide NextPiece, ChunkText;
    var sig := ChunkSig(c, seed, payload);
    var zero := ChunkText("", ChunkSig(c, sig, ""));
    if |payload| > MAX_CHUNK_SIZE {
      EncodedOversize(c, seed, payload, zero);
    } else if payload == "" {
      EncodedZero(c, seed, zero);
    } else {
      EncodedFrameVerifies(c, seed, payload);
      EncodedFrameText(c, seed, payload);
      var f := EncodedFrame(c, seed, payload);
      NextIsFrame(c, seed, f, Encoded(c, seed, payload), zero);
      ChainOfOne(c, seed, f);
      EncodedZero(c, sig, "");
      assert zero + "" == zero;
      assert "" + payload == payload && payload + "" == payload;
    }
  }

  //// Trailer lines

  function LinesText(lines: seq<string>): string {
    if lines == [] then "" else lines[0] + "\r\n" + LinesText(lines[1..])
  }

  predicate PlainLine(line: string) {
    line != "" && '\n' !in line && !IsEol(line[|line| - 1]) && !(TRAILER_SIG_PREFIX <= ToLower(line))
  }

  /** Trailer lines written one per CRLF line and closed by a blank line are read
      back as they were written. */
  lemma {:induction false} TrailerLinesRead(lines: seq<string>, rest: string)
    requires forall i :: 0 <= i < |lines| ==> PlainLine(lines[i])
    ensures ReadTrailerBlock(LinesText(lines) + "\r\n" + rest) == Block(lines, "")
    decreases |lines|
  {
    hide ReadLine, TrimRight, ToLower, TrimSpace;
    if lines == [] {
      ReadLineOf("\r", rest);
      assert LinesText(lines) + "\r\n" + rest == "\r" + "\n" + rest;
      TrimCrLf("");
      assert "" + "\r" + "\n" == "\r" + "\n";
    } else {
      var line := lines[0];
      var more := LinesText(lines[1..]) + "\r\n" + rest;
      assert LinesText(lines) + "\r\n" + rest == (line + "\r") + "\n" + more;
      ReadLineOf(line + "\r", more);
      TrimCrLf(line);
      TrailerLinesRead(lines[1..], rest);
      assert lines == [line] + lines[1..];
    }
  }
}
