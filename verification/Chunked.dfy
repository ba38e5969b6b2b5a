/** The aws-chunked body format of internal/auth/chunked.go: one chunk header
    line, the chunk bytes, CRLF; a zero chunk ends the body, and trailer lines
    may follow it. This module gives the format as functions on the whole
    stream; ChunkReader holds the reader and the encoder themselves. */
module Chunked {
  import opened Strings

  const MAX_CHUNK_SIZE := 128 * 1024 * 1024
  const SIG_PREFIX := "chunk-signature="
  const TRAILER_SIG_PREFIX := "x-amz-trailer-signature:"

  datatype Error = EOF | ChunkSignature | MalformedChunk | BadDigest | DecodedLength

  datatype Algo = Crc32 | Crc32c | Sha1 | Sha256 | Crc64

  /** The cryptographic and encoding primitives, of which nothing is assumed:
      `sign(secret, dateStamp, region, service, text)` is the SigV4 HMAC chain,
      `shaHex` the hex SHA-256, `sum` the five trailing checksums and
      `unbase64` the standard base64 decoder. */
  datatype Primitives = Primitives(
    sign: (string, string, string, string, string) -> string,
    shaHex: string -> string,
    sum: (Algo, string) -> string,
    unbase64: string -> Option<string>)

  /** The fields of chunkReader that no read changes. `want` is the declared
      decoded length, negative when the request gave none. */
  datatype Config = Config(
    prims: Primitives,
    signed: bool,
    trailers: bool,
    secret: string,
    amzDate: string,
    scope: string,
    region: string,
    dateStamp: string,
    want: int)

  //// Signatures

  function ChunkSig(c: Config, prev: string, data: string): string {
    c.prims.sign(c.secret, c.dateStamp, c.region, "s3",
                 Join(["AWS4-HMAC-SHA256-PAYLOAD", c.amzDate, c.scope, prev,
                       c.prims.shaHex(""), c.prims.shaHex(data)], "\n"))
  }

  function TrailerSig(c: Config, prev: string, canonical: string): string {
    c.prims.sign(c.secret, c.dateStamp, c.region, "s3",
                 Join(["AWS4-HMAC-SHA256-TRAILER", c.amzDate, c.scope, prev,
                       c.prims.shaHex(canonical)], "\n"))
  }

  /** What hex.EncodeToString guarantees of every signature. */
  ghost predicate HexSignatures(p: Primitives) {
    forall a, b, c, d, e :: IsLowerHex(p.sign(a, b, c, d, e))
  }

  //// Hexadecimal integers: strconv.FormatInt(n, 16) and strconv.ParseInt(s, 16, 64)

  function HexDigit(d: nat): (c: char)
    requires d < 16
    ensures IsLowerHexDigit(c)
  {
    if d < 10 then ('0' as int + d) as char else ('a' as int + d - 10) as char
  }

  function HexDigitValue(c: char): int {
    if '0' <= c <= '9' then c as int - '0' as int
    else if 'a' <= c <= 'f' then c as int - 'a' as int + 10
    else if 'A' <= c <= 'F' then c as int - 'A' as int + 10
    else -1
  }

  function FormatHex(n: nat): (s: string)
    ensures IsLowerHex(s)
  {
    if n < 16 then [HexDigit(n)] else FormatHex(n / 16) + [HexDigit(n % 16)]
  }

  predicate AllHexDigits(s: string) {
    forall i :: 0 <= i < |s| ==> HexDigitValue(s[i]) >= 0
  }

  function HexValue(s: string): (n: nat)
    requires AllHexDigits(s)
  {
    if s == [] then 0 else HexValue(s[..|s| - 1]) * 16 + HexDigitValue(s[|s| - 1])
  }

  function ParseHex(s: string): Option<int> {
    var neg := s != [] && s[0] == '-';
    var digits := if s != [] && (s[0] == '-' || s[0] == '+') then s[1..] else s;
    if digits == [] || !AllHexDigits(digits) then None
    else
      var n: int := HexValue(digits);
      if n > 0x8000_0000_0000_0000 || (!neg && n == 0x8000_0000_0000_0000) then None
      else Some(if neg then -n else n)
  }

  lemma {:induction false} HexValueOfFormat(n: nat)
    ensures AllHexDigits(FormatHex(n)) && HexValue(FormatHex(n)) == n
  {
    if n >= 16 {
      HexValueOfFormat(n / 16);
      var s := FormatHex(n);
      assert s[..|s| - 1] == FormatHex(n / 16);
      assert HexDigitValue(HexDigit(n % 16)) == n % 16;
    } else {
      assert FormatHex(n)[..0] == [];
    }
  }

  //// One chunk

  predicate IsEol(c: char) {
    c == '\r' || c == '\n'
  }

  /** bufio ReadString('\n') with the line end trimmed: the line and what follows. */
  function ReadLine(input: string): Option<(string, string)> {
    var i := IndexByte(input, '\n');
    if i < 0 then None else Some((TrimRight(input[..i + 1], IsEol), input[i + 1..]))
  }

  /** Size and signature of a chunk header line. */
  function ParseHeader(signed: bool, line: string): Option<(nat, string)> {
    var i := IndexByte(line, ';');
    var hexSize := if i >= 0 then line[..i] else line;
    var j := if i >= 0 then Index(line[i + 1..], SIG_PREFIX) else -1;
    if j < 0 && signed then None
    else
      var sig := if j < 0 then "" else SignatureField(line[i + 1..][j + |SIG_PREFIX|..]);
      match ParseHex(hexSize)
      case None => None
      case Some(n) => if n < 0 then None else Some((n, sig))
  }

  function SignatureField(s: string): string {
    var k := IndexByte(s, ';');
    TrimSpace(if k >= 0 then s[..k] else s)
  }

  /** What the bytes at the reader's position start with. */
  datatype Piece =
    | Bad(error: Error)
    | Zero(rest: string, sig: string)
    | Data(data: string, rest: string, sig: string)

  function NextPiece(c: Config, input: string, prev: string): (p: Piece)
    ensures p.Data? ==> p.data != "" && |p.rest| < |input|
  {
    match ReadLine(input)
    case None => Bad(MalformedChunk)
    case Some((line, body)) =>
      match ParseHeader(c.signed, line)
      case None => Bad(MalformedChunk)
      case Some((size, sig)) => PieceOfBody(c, size, sig, body, prev)
  }

  /** The chunk of `size` bytes that `body` starts with. */
  function PieceOfBody(c: Config, size: nat, sig: string, body: string, prev: string): (p: Piece)
    ensures p.Data? ==> p.data != "" && |p.rest| < |body|
  {
    if size > MAX_CHUNK_SIZE then Bad(MalformedChunk)
    else if size > 0 && !(size + 2 <= |body| && body[size..size + 2] == "\r\n") then Bad(MalformedChunk)
    else
      var data := body[..size];
      var next := ChunkSig(c, prev, data);
      if c.signed && !EqualFold(next, sig) then Bad(ChunkSignature)
      else
        var chained := if c.signed then next else prev;
        if size == 0 then Zero(body, chained) else Data(data, body[size + 2..], chained)
  }

  //// Trailers

  datatype TrailerBlock = NoBlock | Block(lines: seq<string>, sig: string)

  /** The lines after the zero chunk, up to a blank line or the signature line. */
  function ReadTrailerBlock(input: string): TrailerBlock
    decreases |input|
  {
    match ReadLine(input)
    case None => NoBlock
    case Some((line, rest)) =>
      if line == "" then Block([], "")
      else if TRAILER_SIG_PREFIX <= ToLower(line) then
        if BlockEndOK(rest) then Block([], TrimSpace(line[|TRAILER_SIG_PREFIX|..])) else NoBlock
      else
        match ReadTrailerBlock(rest)
        case NoBlock => NoBlock
        case Block(lines, sig) => Block([line] + lines, sig)
  }

  /** A CR after the signature line must be part of CRLF. */
  predicate BlockEndOK(rest: string) {
    rest == "" || rest[0] != '\r' || (|rest| >= 2 && rest[1] == '\n')
  }

  function CanonicalTrailer(lines: seq<string>): string {
    if lines == [] then "" else Join(lines, "\n") + "\n"
  }

  function AlgoNamed(name: string): Option<Algo> {
    if name == "x-amz-checksum-crc32" then Some(Crc32)
    else if name == "x-amz-checksum-crc32c" then Some(Crc32c)
    else if name == "x-amz-checksum-sha1" then Some(Sha1)
    else if name == "x-amz-checksum-sha256" then Some(Sha256)
    else if name == "x-amz-checksum-crc64nvme" then Some(Crc64)
    else None
  }

  /** The algorithm and value a trailer line declares, if it declares one. */
  function DeclaredChecksum(line: string): Option<(Algo, string)> {
    var i := IndexByte(line, ':');
    if i <= 0 then None
    else
      match AlgoNamed(ToLower(TrimSpace(line[..i])))
      case None => None
      case Some(a) => Some((a, TrimSpace(line[i + 1..])))
  }

  /** Whether a trailer line agrees with the bytes delivered so far. */
  predicate LineOK(p: Primitives, line: string, seen: string) {
    match DeclaredChecksum(line)
    case None => true
    case Some((a, v)) => p.unbase64(v) == Some(p.sum(a, seen))
  }

  predicate TrailerSigOK(c: Config, block: TrailerBlock, prev: string)
    requires block.Block?
  {
    c.signed ==> block.sig != "" && EqualFold(TrailerSig(c, prev, CanonicalTrailer(block.lines)), block.sig)
  }

  function TrailerError(c: Config, input: string, prev: string, seen: string): Option<Error> {
    var block := ReadTrailerBlock(input);
    if block.NoBlock? then Some(MalformedChunk)
    else if !TrailerSigOK(c, block, prev) then Some(ChunkSignature)
    else if exists i :: 0 <= i < |block.lines| && !LineOK(c.prims, block.lines[i], seen) then Some(BadDigest)
    else None
  }

  /** The error a reader reports after a valid zero chunk, EOF when all is well. */
  function Closing(c: Config, input: string, prev: string, seen: string): Error {
    var e := if c.trailers then TrailerError(c, input, prev, seen) else None;
    if e.Some? then e.value
    else if c.want >= 0 && |seen| != c.want then DecodedLength
    else EOF
  }

  //// The whole stream

  datatype Delivery = Delivery(data: string, end: Error)

  /** Every byte a reader at `input` will still deliver, and the error that ends
      it. `seen` is what it delivered before. */
  function Decode(c: Config, input: string, prev: string, seen: string): Delivery
    decreases |input|
  {
    match NextPiece(c, input, prev)
    case Bad(e) => Delivery("", e)
    case Zero(rest, sig) => Delivery("", Closing(c, rest, sig, seen))
    case Data(data, rest, sig) =>
      var d := Decode(c, rest, sig, seen + data);
      Delivery(data + d.data, d.end)
  }
}
