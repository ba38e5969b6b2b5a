/** Unsigned bodies, and what a trailing checksum line declares. */
module ChunkedTrailers {
  import opened Strings
  import opened Chunked
  import opened ChunkedTheorems

  //// Unsigned bodies

  /** A chunk header without a signature. */
  function PlainFrame(data: string): Frame {
    Frame(FormatHex(|data|) + "\r", data)
  }

  function PlainFrames(ds: seq<string>): (fs: seq<Frame>)
    ensures |fs| == |ds|
  {
    if ds == [] then [] else [PlainFrame(ds[0])] + PlainFrames(ds[1..])
  }

  function Bytes(ds: seq<string>): string {
    if ds == [] then "" else ds[0] + Bytes(ds[1..])
  }

  lemma PlainHeaderParses(n: nat)
    requires n < 0x8000_0000_0000_0000
    ensures ParseHeader(false, FormatHex(n)) == Some((n, ""))
  {
    hide ParseHex, FormatHex;
    HexHasNone(FormatHex(n), ';');
    FormatParses(n);
  }

  lemma PlainLineReads(n: nat, body: string)
    ensures '\n' !in FormatHex(n) + "\r"
    ensures TrimRight(FormatHex(n) + "\r" + "\n", IsEol) == FormatHex(n)
    ensures ReadLine(FormatHex(n) + "\r\n" + body) == Some((FormatHex(n), body))
  {
    hide ReadLine, TrimRight, FormatHex;
    var text := FormatHex(n);
    HexHasNone(text, '\n');
    assert IsLowerHexDigit(text[|text| - 1]);
    TrimCrLf(text);
    ReadLineOf(text + "\r", body);
    assert text + "\r\n" + body == (text + "\r") + "\n" + body;
  }

  lemma PlainFrameAnnounces(c: Config, prev: string, data: string)
    requires !c.signed && 0 < |data| <= MAX_CHUNK_SIZE
    ensures Announces(c, prev, PlainFrame(data))
  {
    hide ParseHeader, TrimRight, FormatHex, ReadLine;
    PlainHeaderParses(|data|);
    PlainLineReads(|data|, "");
  }

  lemma {:induction false} PlainFacts(ds: seq<string>)
    ensures Payload(PlainFrames(ds)) == Bytes(ds)
    ensures forall i :: 0 <= i < |ds| ==> PlainFrames(ds)[i] == PlainFrame(ds[i])
  {
    hide FormatHex;
    if ds != [] {
      PlainFacts(ds[1..]);
      assert PlainFrames(ds)[1..] == PlainFrames(ds[1..]);
    }
  }

  lemma PlainVerifies(c: Config, seed: string, ds: seq<string>)
    requires !c.signed && forall i :: 0 <= i < |ds| ==> 0 < |ds[i]| <= MAX_CHUNK_SIZE
    ensures Verified(c, seed, PlainFrames(ds)) && ChainAfter(c, seed, PlainFrames(ds)) == seed
  {
    hide Announces, PlainFrame, PlainFrames;
    PlainFacts(ds);
    forall i | 0 <= i < |ds| ensures Announces(c, ChainAfter(c, seed, PlainFrames(ds)[..i]), PlainFrames(ds)[i]) {
      PlainFrameAnnounces(c, ChainAfter(c, seed, PlainFrames(ds)[..i]), ds[i]);
    }
  }

  lemma PlainZero(c: Config, prev: string, rest: string)
    requires !c.signed
    ensures NextPiece(c, "0\r\n" + rest, prev) == Zero(rest, prev)
  {
    hide ParseHeader, TrimRight, ReadLine;
    assert FormatHex(0) == "0";
    PlainHeaderParses(0);
    PlainLineReads(0, rest);
    assert "0\r\n" + rest == FormatHex(0) + "\r\n" + rest;
    assert rest[..0] == "";
  }

  /** Round trip without signatures: chunks of any sizes, closed by a zero chunk, are
      delivered in order and whole, and end in EOF when the declared length, if any,
      agrees, whatever follows. */
  lemma PlainBody(c: Config, seed: string, ds: seq<string>, rest: string)
    requires !c.signed && !c.trailers && forall i :: 0 <= i < |ds| ==> 0 < |ds[i]| <= MAX_CHUNK_SIZE
    ensures Decode(c, WireAll(PlainFrames(ds)) + ("0\r\n" + rest), seed, "")
            == Delivery(Bytes(ds), if c.want >= 0 && c.want != |Bytes(ds)| then DecodedLength else EOF)
  {
    hide NextPiece, Verified, WireAll, ChainAfter, PlainFrames, Payload;
    PlainVerifies(c, seed, ds);
    PlainFacts(ds);
    VerifiedIsDelivered(c, seed, PlainFrames(ds), "0\r\n" + rest, "");
    assert "" + Bytes(ds) == Bytes(ds) && Bytes(ds) + "" == Bytes(ds);
    PlainZero(c, seed, rest);
  }

  //// Trailing checksums

  /** The trailer header of each checksum, as the AWS documentation names them. */
  function HeaderOf(a: Algo): string {
    match a
    case Crc32 => "x-amz-checksum-crc32"
    case Crc32c => "x-amz-checksum-crc32c"
    case Sha1 => "x-amz-checksum-sha1"
    case Sha256 => "x-amz-checksum-sha256"
    case Crc64 => "x-amz-checksum-crc64nvme"
  }

  lemma NamedIs(a: Algo)
    ensures AlgoNamed(HeaderOf(a)) == Some(a)
  {
    assert |HeaderOf(Crc32)| == 20 && |HeaderOf(Crc32c)| == 21 && |HeaderOf(Sha1)| == 19;
    assert |HeaderOf(Sha256)| == 21 && |HeaderOf(Crc64)| == 24;
    assert HeaderOf(Crc32c)[15] == 'c' && HeaderOf(Sha256)[15] == 's';
  }

  lemma OthersUnnamed(name: string)
    requires forall a: Algo :: name != HeaderOf(a)
    ensures AlgoNamed(name) == None
  {
    assert name != HeaderOf(Crc32) && name != HeaderOf(Crc32c) && name != HeaderOf(Sha1);
    assert name != HeaderOf(Sha256) && name != HeaderOf(Crc64);
  }

  lemma LineParts(header: string, value: string)
    requires header != "" && ':' !in header
    ensures var line := header + ":" + value; IndexByte(line, ':') == |header| && line[..|header|] == header
                                              && line[|header| + 1..] == value
  {
    var line := header + ":" + value;
    assert line[..|header|] == header;
    IndexByteUnique(line, ':', |header|);
  }

  /** A line under the header of an algorithm, in any letter case and with blanks around
      header and value, passes exactly when its value decodes to that algorithm's digest
      of the bytes seen. */
  lemma ChecksumLine(p: Primitives, a: Algo, header: string, value: string, seen: string)
    requires header != "" && ':' !in header && ToLower(TrimSpace(header)) == HeaderOf(a)
    ensures LineOK(p, header + ":" + value, seen) <==> p.unbase64(TrimSpace(value)) == Some(p.sum(a, seen))
  {
    hide TrimSpace, ToLower, IndexByte, AlgoNamed;
    LineParts(header, value);
    NamedIs(a);
  }

  /** Lines under any other header pass. */
  lemma OtherLine(p: Primitives, header: string, value: string, seen: string)
    requires header != "" && ':' !in header && forall a: Algo :: ToLower(TrimSpace(header)) != HeaderOf(a)
    ensures LineOK(p, header + ":" + value, seen)
  {
    hide TrimSpace, ToLower, IndexByte, AlgoNamed;
    LineParts(header, value);
    OthersUnnamed(ToLower(TrimSpace(header)));
  }

  //// Signed trailers

  /** A CR that is not part of CRLF. */
  predicate BrokenEnd(rest: string) {
    rest != "" && rest[0] == '\r' && !(|rest| >= 2 && rest[1] == '\n')
  }

  /** The signature line, whose name may be in any letter case. */
  ghost predicate SignatureLine(line: string, name: string, value: string) {
    && line == name + value && |name| == 24 && ToLower(name) == "x-amz-trailer-signature:"
    && '\n' !in line && !IsEol(line[|line| - 1])
  }

  lemma {:induction false} LowerConcat(a: string, b: string)
    ensures ToLower(a + b) == ToLower(a) + ToLower(b)
  {
    if a == "" {
      assert a + b == b;
    } else {
      assert (a + b)[1..] == a[1..] + b;
      LowerConcat(a[1..], b);
    }
  }

  /** Trailer lines closed by a signature line are read back with its signature, unless a
      broken line end follows. */
  lemma {:induction false} SignedBlockRead(lines: seq<string>, line: string, name: string, value: string, rest: string)
    requires SignatureLine(line, name, value) && forall i :: 0 <= i < |lines| ==> PlainLine(lines[i])
    ensures ReadTrailerBlock(LinesText(lines) + (line + "\r\n" + rest))
            == if BrokenEnd(rest) then NoBlock else Block(lines, TrimSpace(value))
    decreases |lines|
  {
    hide ReadLine, TrimRight, ToLower, TrimSpace;
    if lines == [] {
      ReadLineOf(line + "\r", rest);
      assert LinesText(lines) + (line + "\r\n" + rest) == (line + "\r") + "\n" + rest;
      TrimCrLf(line);
      LowerConcat(name, value);
      assert line[24..] == value;
    } else {
      var first, more := lines[0], LinesText(lines[1..]) + (line + "\r\n" + rest);
      assert LinesText(lines) + (line + "\r\n" + rest) == (first + "\r") + "\n" + more;
      ReadLineOf(first + "\r", more);
      TrimCrLf(first);
      SignedBlockRead(lines[1..], line, name, value, rest);
      assert lines == [first] + lines[1..];
    }
  }

  /** What a trailer signature must be: it covers the lines, each ended by a line feed. */
  function WantedSignature(c: Config, prev: string, lines: seq<string>): string {
    var text := if lines == [] then "" else Join(lines, "\n") + "\n";
    c.prims.sign(c.secret, c.dateStamp, c.region, "s3",
                 Join(["AWS4-HMAC-SHA256-TRAILER", c.amzDate, c.scope, prev, c.prims.shaHex(text)], "\n"))
  }

  /** The end of a signed body with trailers: malformed on a broken line end; refused unless
      the signature is the wanted one, in any letter case; then a bad digest if some line
      declares one; then the declared length; EOF otherwise. */
  lemma SignedTrailers(c: Config, lines: seq<string>, line: string, name: string, value: string, rest: string,
                       prev: string, seen: string)
    requires HexSignatures(c.prims) && c.signed && c.trailers
    requires SignatureLine(line, name, value) && forall i :: 0 <= i < |lines| ==> PlainLine(lines[i])
    ensures Closing(c, LinesText(lines) + (line + "\r\n" + rest), prev, seen)
            == if BrokenEnd(rest) then MalformedChunk
               else if !EqualFold(TrimSpace(value), WantedSignature(c, prev, lines)) then ChunkSignature
               else if exists i :: 0 <= i < |lines| && !LineOK(c.prims, lines[i], seen) then BadDigest
               else if c.want >= 0 && |seen| != c.want then DecodedLength
               else EOF
  {
    hide ReadTrailerBlock, LineOK, TrimSpace, EqualFold, PlainLine, LinesText, SignatureLine, TrailerSigOK;
    hide WantedSignature, HexSignatures;
    SignedBlockRead(lines, line, name, value, rest);
    SignatureWanted(c, lines, TrimSpace(value), prev);
  }

  lemma SignatureWanted(c: Config, lines: seq<string>, sig: string, prev: string)
    requires HexSignatures(c.prims) && c.signed
    ensures TrailerSigOK(c, Block(lines, sig), prev) <==> EqualFold(sig, WantedSignature(c, prev, lines))
  {
    hide Join, ToLower;
    assert TrailerSig(c, prev, CanonicalTrailer(lines)) == WantedSignature(c, prev, lines);
    assert WantedSignature(c, prev, lines) != "";
  }

  /** The end of an unsigned body with trailers closed by a blank line. */
  lemma PlainTrailers(c: Config, lines: seq<string>, rest: string, prev: string, seen: string)
    requires !c.signed && c.trailers && forall i :: 0 <= i < |lines| ==> PlainLine(lines[i])
    ensures Closing(c, LinesText(lines) + "\r\n" + rest, prev, seen)
            == if exists i :: 0 <= i < |lines| && !LineOK(c.prims, lines[i], seen) then BadDigest
               else if c.want >= 0 && |seen| != c.want then DecodedLength
               else EOF
  {
    hide ReadTrailerBlock, LineOK, TrimSpace, ToLower, Join, PlainLine, LinesText;
    TrailerLinesRead(lines, rest);
  }

  /** A header line whose signature is followed by another extension. */
  lemma ExtendedHeaderParses(n: nat, sig: string, more: string)
    requires IsLowerHex(sig) && n < 0x8000_0000_0000_0000
    ensures ParseHeader(true, FormatHex(n) + ";chunk-signature=" + sig + ";" + more) == Some((n, sig))
  {
    hide ParseHex, FormatHex, SignatureField, Index, IndexByte;
    var hex, tail := FormatHex(n), sig + ";" + more;
    var line := hex + ";chunk-signature=" + sig + ";" + more;
    assert line == hex + ";" + (SIG_PREFIX + tail);
    ExtendedFields(hex, tail);
    FieldEnds(sig, more);
    FormatParses(n);
  }

  lemma ExtendedFields(hex: string, tail: string)
    requires IsLowerHex(hex)
    ensures var line, rest := hex + ";" + (SIG_PREFIX + tail), SIG_PREFIX + tail;
            && IndexByte(line, ';') == |hex| && line[..|hex|] == hex && line[|hex| + 1..] == rest
            && Index(rest, SIG_PREFIX) == 0 && rest[|SIG_PREFIX|..] == tail
  {
    var line := hex + ";" + (SIG_PREFIX + tail);
    assert line[..|hex|] == hex;
    HexHasNone(hex, ';');
    IndexByteUnique(line, ';', |hex|);
  }

  lemma FieldEnds(sig: string, more: string)
    requires IsLowerHex(sig)
    ensures SignatureField(sig + ";" + more) == sig
  {
    var tail := sig + ";" + more;
    assert tail[..|sig|] == sig;
    HexHasNone(sig, ';');
    IndexByteUnique(tail, ';', |sig|);
    TrimUntouched(sig, IsSpace);
  }
}
