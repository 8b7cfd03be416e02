/**
 * The aws-chunked stream format: what a stream means as a whole, independently of how it is read.
 * Chunk signatures form a chain from a seed; HMAC and SHA-256 are functions.
 */
module ChunkedFormat {
  import opened Numbers
  import opened Text

  /** `chunkMac(previous signature, payload hash)`; `trailerMac(previous signature, trailer hash)`. */
  datatype Signer = Signer(chunkMac: (string, string) -> string, trailerMac: (string, string) -> string,
                           sha: string -> string, trailerSigned: bool)

  /** `None` is the unsigned-trailer variant. */
  datatype Mode = Unsigned | Signed(s: Signer)

  datatype Error =
    | HeaderMissing | MalformedSize | MissingSignature | BadSignature | MalformedTrailer | BadTrailerSignature
    | TruncatedData | TerminatorMissing | UnexpectedData

  datatype Header = Pair(name: string, value: string)

  datatype Outcome = EndOfStream(trailers: map<string, string>) | Failed(error: Error)

  /** Everything a reader delivers, and how it ends. */
  datatype Decoded = Decoded(payload: string, end: Outcome)

  function Then(front: string, d: Decoded): Decoded {
    Decoded(front + d.payload, d.end)
  }

  // ---------------------------------------------------------------------------------------------
  // Lines
  // ---------------------------------------------------------------------------------------------

  /** The length of the first line including its newline, or of the whole rest. */
  function LineLength(s: string): (n: nat)
    requires s != ""
    ensures 1 <= n <= |s|
  {
    if s[0] == '\n' || |s| == 1 then 1 else 1 + LineLength(s[1..])
  }

  /** `strings.TrimRight(s, "\r\n")`. */
  function TrimNewline(s: string): string {
    if s != "" && s[|s| - 1] in {'\r', '\n'} then TrimNewline(s[..|s| - 1]) else s
  }

  function LineText(s: string): string
    requires s != ""
  {
    TrimNewline(s[..LineLength(s)])
  }

  function LineRest(s: string): (r: string)
    requires s != ""
    ensures |r| < |s|
  {
    s[LineLength(s)..]
  }

  // ---------------------------------------------------------------------------------------------
  // Chunk headers and trailers
  // ---------------------------------------------------------------------------------------------

  const SigPrefix := "chunk-signature="

  function HeaderSize(line: string): Parsed {
    match CutAt(line, ';')
    case NotFound => ParseInt(line, 16)
    case Found(size, _) => ParseInt(size, 16)
  }

  function HeaderSignature(line: string): string {
    match CutAt(line, ';')
    case NotFound => ""
    case Found(_, sig) => if SigPrefix <= sig then sig[|SigPrefix|..] else sig
  }

  datatype TrailerSection = BadTrailer | Trailer(headers: map<string, string>, canonical: string, sig: string)

  const TrailerSignatureName := "x-amz-trailer-signature"

  /** The trailer lines up to a blank one or the end of input; a later signature line wins. */
  function TrailersFrom(input: string, t: TrailerSection): TrailerSection
    requires t.Trailer?
    decreases |input|
  {
    if input == "" || LineText(input) == "" then t
    else
      match CutAt(LineText(input), ':')
      case NotFound => BadTrailer
      case Found(rawName, rawValue) =>
        var name, value := ToLower(TrimSpace(rawName)), TrimSpace(rawValue);
        if name == TrailerSignatureName then TrailersFrom(LineRest(input), t.(sig := value))
        else TrailersFrom(LineRest(input), t.(headers := t.headers[name := value], canonical := t.canonical + name + ":" + value + "\n"))
  }

  function ReadTrailers(input: string): TrailerSection {
    TrailersFrom(input, Trailer(map[], "", ""))
  }

  function Finish(m: Mode, prev: string, input: string): Outcome {
    match ReadTrailers(input)
    case BadTrailer => Failed(MalformedTrailer)
    case Trailer(headers, canonical, sig) =>
      if m.Signed? && m.s.trailerSigned && ToLower(sig) != m.s.trailerMac(prev, m.s.sha(canonical)) then Failed(BadTrailerSignature)
      else EndOfStream(headers)
  }

  predicate SignatureOk(m: Mode, prev: string, sig: string, payload: string) {
    m.Signed? ==> ToLower(sig) == m.s.chunkMac(prev, m.s.sha(payload))
  }

  /** The signature the next chunk builds on. */
  function NextPrev(m: Mode, prev: string, payload: string): string {
    if m.Signed? then m.s.chunkMac(prev, m.s.sha(payload)) else prev
  }

  // ---------------------------------------------------------------------------------------------
  // The stream
  // ---------------------------------------------------------------------------------------------

  /** Decoding from a chunk header on. */
  function Decode(m: Mode, prev: string, input: string): Decoded
    decreases |input|, 0
  {
    if input == "" then Decoded("", Failed(HeaderMissing))
    else
      var line, rest := LineText(input), LineRest(input);
      match HeaderSize(line)
      case NotANumber => Decoded("", Failed(MalformedSize))
      case Number(size) =>
        if size < 0 then Decoded("", Failed(MalformedSize))
        else if m.Signed? && HeaderSignature(line) == "" then Decoded("", Failed(MissingSignature))
        else if size > 0 then Body(m, prev, HeaderSignature(line), "", size, rest)
        else if !SignatureOk(m, prev, HeaderSignature(line), "") then Decoded("", Failed(BadSignature))
        else Decoded("", Finish(m, NextPrev(m, prev, ""), rest))
  }

  /** Decoding from inside a chunk: `seen` of its bytes are behind, `remaining` are still to come. */
  function Body(m: Mode, prev: string, sig: string, seen: string, remaining: int, input: string): Decoded
    requires remaining > 0
    decreases |input|, 1
  {
    if |input| < remaining then Decoded(input, Failed(TruncatedData))
    else Then(input[..remaining], AfterBody(m, prev, sig, seen + input[..remaining], input[remaining..]))
  }

  /** The chunk terminator, the signature over the whole chunk, and then the next header. */
  function AfterBody(m: Mode, prev: string, sig: string, payload: string, input: string): Decoded
    decreases |input|, 0
  {
    if input == "" then Decoded("", Failed(TerminatorMissing))
    else if LineText(input) != "" then Decoded("", Failed(UnexpectedData))
    else if !SignatureOk(m, prev, sig, payload) then Decoded("", Failed(BadSignature))
    else Decode(m, NextPrev(m, prev, payload), LineRest(input))
  }

  // ---------------------------------------------------------------------------------------------
  // Framing and signatures, taken apart
  // ---------------------------------------------------------------------------------------------

  datatype Frame = Frame(payload: string, sig: string)

  /** The frames of a stream, the empty final one included, and where the trailers start. */
  datatype Framing = BadFraming | Framed(frames: seq<Frame>, tail: string)

  function Frames(input: string): Framing
    decreases |input|
  {
    if input == "" then BadFraming
    else
      var line, rest := LineText(input), LineRest(input);
      match HeaderSize(line)
      case NotANumber => BadFraming
      case Number(size) =>
        if size < 0 || |rest| < size then BadFraming
        else if size == 0 then Framed([Frame("", HeaderSignature(line))], rest)
        else if rest[size..] == "" || LineText(rest[size..]) != "" then BadFraming
        else
          match Frames(LineRest(rest[size..]))
          case BadFraming => BadFraming
          case Framed(fs, tail) => Framed([Frame(rest[..size], HeaderSignature(line))] + fs, tail)
  }

  /** Each frame's signature covers its payload and the signature before it, from the seed on. */
  predicate Chain(s: Signer, seed: string, frames: seq<Frame>)
    decreases |frames|
  {
    frames == [] ||
    (&& frames[0].sig != ""
     && ToLower(frames[0].sig) == s.chunkMac(seed, s.sha(frames[0].payload))
     && Chain(s, ToLower(frames[0].sig), frames[1..]))
  }

  function LastSignature(seed: string, frames: seq<Frame>): string {
    if frames == [] then seed else ToLower(frames[|frames| - 1].sig)
  }

  function PayloadOf(frames: seq<Frame>): string {
    if frames == [] then "" else frames[0].payload + PayloadOf(frames[1..])
  }

  predicate TrailerOk(s: Signer, prev: string, tail: string) {
    ReadTrailers(tail).Trailer?
    && (s.trailerSigned ==> ToLower(ReadTrailers(tail).sig) == s.trailerMac(prev, s.sha(ReadTrailers(tail).canonical)))
  }

  /** A correctly framed stream whose frames, final one included, form one chain from the seed. */
  predicate Verified(s: Signer, seed: string, input: string) {
    var f := Frames(input);
    f.Framed? && Chain(s, seed, f.frames) && TrailerOk(s, LastSignature(seed, f.frames), f.tail)
  }

  lemma LastOfTail(seed: string, f: Frame, fs: seq<Frame>)
    requires fs != []
    ensures LastSignature(seed, [f] + fs) == LastSignature(ToLower(f.sig), fs)
  {
  }

  lemma {:induction false} FramesNonEmpty(input: string)
    ensures Frames(input).Framed? ==> Frames(input).frames != []
  {
  }

  lemma ChainUnfolds(s: Signer, seed: string, f: Frame, fs: seq<Frame>)
    ensures Chain(s, seed, [f] + fs) <==>
            f.sig != "" && SignatureOk(Signed(s), seed, f.sig, f.payload) && Chain(s, ToLower(f.sig), fs)
    ensures PayloadOf([f] + fs) == f.payload + PayloadOf(fs)
  {
    assert ([f] + fs)[1..] == fs;
  }

  /** Clean end, verification and payload agree for a stream. */
  predicate Agrees(s: Signer, seed: string, input: string) {
    && (Decode(Signed(s), seed, input).end.EndOfStream? <==> Verified(s, seed, input))
    && (Verified(s, seed, input) ==> Decode(Signed(s), seed, input).payload == PayloadOf(Frames(input).frames))
  }

  /**
   * For every input: in signed mode the stream ends cleanly exactly when it is verified, and then
   * what was delivered is the payload of the verified frames.
   */
  lemma {:induction false} EndsIffVerified(s: Signer, seed: string, input: string)
    ensures Decode(Signed(s), seed, input).end.EndOfStream? <==> Verified(s, seed, input)
    ensures Verified(s, seed, input) ==> Decode(Signed(s), seed, input).payload == PayloadOf(Frames(input).frames)
    decreases |input|
  {
    if input != "" && HeaderSize(LineText(input)).Number? {
      var line, rest := LineText(input), LineRest(input);
      var size := HeaderSize(line).n;
      if size == 0 {
        FinalFrame(s, seed, input, HeaderSignature(line), rest);
      } else if size > |rest| {
        Truncated(s, seed, input);
      } else if size > 0 {
        var payload, after := rest[..size], rest[size..];
        if after != "" && LineText(after) == "" {
          EndsIffVerified(s, ToLower(HeaderSignature(line)), LineRest(after));
          DataFrame(s, seed, input, HeaderSignature(line), payload, after, LineRest(after));
        } else {
          Unterminated(s, seed, input, payload, after);
        }
      }
    }
  }

  lemma FinalFrame(s: Signer, seed: string, input: string, sig: string, rest: string)
    requires input != "" && HeaderSize(LineText(input)) == Number(0)
    requires sig == HeaderSignature(LineText(input)) && rest == LineRest(input)
    ensures Agrees(s, seed, input)
  {
    var f := Frame("", sig);
    assert Frames(input) == Framed([f], rest);
    ChainUnfolds(s, seed, f, []);
    assert [f] + [] == [f];
    assert LastSignature(seed, [f]) == ToLower(sig);
    if sig != "" && SignatureOk(Signed(s), seed, sig, "") {
      assert Decode(Signed(s), seed, input) == Decoded("", Finish(Signed(s), ToLower(sig), rest));
    }
  }

  lemma Truncated(s: Signer, seed: string, input: string)
    requires input != "" && HeaderSize(LineText(input)).Number? && HeaderSize(LineText(input)).n > |LineRest(input)|
    ensures Frames(input).BadFraming? && Decode(Signed(s), seed, input).end.Failed?
  {
  }

  lemma Unterminated(s: Signer, seed: string, input: string, payload: string, after: string)
    requires input != "" && HeaderSize(LineText(input)) == Number(|payload|) && payload != ""
    requires LineRest(input) == payload + after
    requires after == "" || LineText(after) != ""
    ensures Frames(input).BadFraming? && Decode(Signed(s), seed, input).end.Failed?
  {
    DataChunk(Signed(s), seed, input, HeaderSignature(LineText(input)), payload, after);
    assert LineRest(input)[|payload|..] == after;
  }

  /** What a data chunk does to the stream. */
  lemma DataChunk(m: Mode, seed: string, input: string, sig: string, payload: string, after: string)
    requires input != "" && HeaderSize(LineText(input)) == Number(|payload|) && payload != ""
    requires sig == HeaderSignature(LineText(input)) && LineRest(input) == payload + after
    ensures m.Signed? && sig == "" ==> Decode(m, seed, input) == Decoded("", Failed(MissingSignature))
    ensures (m.Signed? ==> sig != "") ==> Decode(m, seed, input) == Then(payload, AfterBody(m, seed, sig, payload, after))
  {
    var rest := LineRest(input);
    assert rest[..|payload|] == payload && rest[|payload|..] == after;
    assert "" + payload == payload;
  }

  lemma DataFrames(input: string, sig: string, payload: string, after: string)
    requires input != "" && HeaderSize(LineText(input)) == Number(|payload|) && payload != ""
    requires sig == HeaderSignature(LineText(input)) && LineRest(input) == payload + after
    requires after != "" && LineText(after) == ""
    ensures Frames(LineRest(after)).BadFraming? ==> Frames(input).BadFraming?
    ensures Frames(LineRest(after)).Framed? ==>
              Frames(input) == Framed([Frame(payload, sig)] + Frames(LineRest(after)).frames, Frames(LineRest(after)).tail)
  {
    var rest := LineRest(input);
    assert rest[..|payload|] == payload && rest[|payload|..] == after;
  }

  lemma DataFrame(s: Signer, seed: string, input: string, sig: string, payload: string, after: string, next: string)
    requires input != "" && HeaderSize(LineText(input)) == Number(|payload|) && payload != ""
    requires sig == HeaderSignature(LineText(input)) && LineRest(input) == payload + after
    requires after != "" && LineText(after) == "" && next == LineRest(after)
    requires Agrees(s, ToLower(sig), next)
    ensures Agrees(s, seed, input)
  {
    DataChunk(Signed(s), seed, input, sig, payload, after);
    DataFrames(input, sig, payload, after);
    FramesNonEmpty(next);
    if Frames(next).Framed? {
      var fs := Frames(next).frames;
      ChainUnfolds(s, seed, Frame(payload, sig), fs);
      LastOfTail(seed, Frame(payload, sig), fs);
    }
  }

  // ---------------------------------------------------------------------------------------------
  // Encoding
  // ---------------------------------------------------------------------------------------------

  function ChunkLine(m: Mode, prev: string, payload: string): string {
    if m.Signed? then Format(|payload|, 16) + ";" + (SigPrefix + m.s.chunkMac(prev, m.s.sha(payload))) else Format(|payload|, 16)
  }

  function EncodeTrailers(ts: seq<Header>): string {
    if ts == [] then "" else ts[0].name + ":" + ts[0].value + "\r\n" + EncodeTrailers(ts[1..])
  }

  /** The headers a reader ends up with: a repeated name keeps its last value. */
  function HeaderMap(ts: seq<Header>): map<string, string> {
    if ts == [] then map[] else HeaderMap(ts[..|ts| - 1])[ts[|ts| - 1].name := ts[|ts| - 1].value]
  }

  function CanonicalTrailers(ts: seq<Header>): string {
    if ts == [] then "" else CanonicalTrailers(ts[..|ts| - 1]) + ts[|ts| - 1].name + ":" + ts[|ts| - 1].value + "\n"
  }

  function SentTrailerSignature(m: Mode, prev: string, ts: seq<Header>): string {
    if m.Signed? && m.s.trailerSigned then m.s.trailerMac(prev, m.s.sha(CanonicalTrailers(ts))) else ""
  }

  function TrailerSignatureLine(m: Mode, prev: string, ts: seq<Header>): string {
    if m.Signed? && m.s.trailerSigned
    then TrailerSignatureName + ":" + SentTrailerSignature(m, prev, ts) + "\r\n"
    else ""
  }

  /** How a client frames chunks and trailers. */
  function Encode(m: Mode, prev: string, chunks: seq<string>, ts: seq<Header>): string
    decreases |chunks|
  {
    if chunks == [] then
      var last := NextPrev(m, prev, "");
      ChunkLine(m, prev, "") + "\r\n" + (EncodeTrailers(ts) + (TrailerSignatureLine(m, last, ts) + "\r\n"))
    else
      ChunkLine(m, prev, chunks[0]) + "\r\n" + (chunks[0] + ("\r\n" + Encode(m, NextPrev(m, prev, chunks[0]), chunks[1..], ts)))
  }

  function Joined(chunks: seq<string>): string {
    if chunks == [] then "" else chunks[0] + Joined(chunks[1..])
  }

  // ---------------------------------------------------------------------------------------------
  // Decoding what was encoded
  // ---------------------------------------------------------------------------------------------

  /** Text that can stand on a line: no newline characters. */
  predicate OneLine(s: string) {
    '\n' !in s && '\r' !in s
  }

  /** MACs are non-empty lowercase hexadecimal. */
  ghost predicate HexMacs(m: Mode) {
    m.Signed? ==> (forall a, b :: HexText(m.s.chunkMac(a, b))) && (forall a, b :: HexText(m.s.trailerMac(a, b)))
  }

  predicate HexText(s: string) {
    s != "" && forall i :: 0 <= i < |s| ==> '0' <= s[i] <= '9' || 'a' <= s[i] <= 'f'
  }

  lemma HexTextFacts(s: string)
    requires HexText(s)
    ensures OneLine(s) && ToLower(s) == s && TrimSpace(s) == s && ';' !in s && ':' !in s
  {
    ToLowerFixed(s);
    NothingToTrim(s);
  }

  /** A trailer as HTTP sends them: lowercase name, trimmed value, one line, not the signature. */
  predicate ProperTrailer(t: Header) {
    && OneLine(t.name) && OneLine(t.value) && ':' !in t.name && t.name != TrailerSignatureName
    && ToLower(t.name) == t.name && TrimSpace(t.name) == t.name && TrimSpace(t.value) == t.value
  }

  lemma {:induction false} LineLengthOf(text: string, rest: string)
    requires '\n' !in text
    ensures LineLength(text + "\r\n" + rest) == |text| + 2
  {
    var s := text + "\r\n" + rest;
    if text == "" {
      assert s[0] == '\r' && s[1] == '\n' && s[1..][0] == '\n';
    } else {
      assert s[1..] == text[1..] + "\r\n" + rest;
      LineLengthOf(text[1..], rest);
    }
  }

  lemma ReadOneLine(text: string, rest: string)
    requires OneLine(text)
    ensures LineText(text + "\r\n" + rest) == text && LineRest(text + "\r\n" + rest) == rest
  {
    var s := text + "\r\n" + rest;
    LineLengthOf(text, rest);
    var line := s[..|text| + 2];
    assert line == text + "\r\n";
    assert line[..|line| - 1] == text + "\r";
    assert (text + "\r")[..|text|] == text;
    assert TrimNewline(line) == TrimNewline(text + "\r") == TrimNewline(text);
    assert text == "" || text[|text| - 1] in text;
  }

  lemma SizeText(n: nat)
    requires n <= MaxInt64
    ensures OneLine(Format(n, 16)) && ';' !in Format(n, 16) && ParseInt(Format(n, 16), 16) == Number(n)
  {
    ParseFormat(n, 16);
  }

  lemma PlainHeader(size: string)
    requires ';' !in size
    ensures HeaderSize(size) == ParseInt(size, 16) && HeaderSignature(size) == ""
  {
    CutAtMeaning(size, ';');
  }

  lemma SignedHeader(size: string, sig: string)
    requires ';' !in size
    ensures HeaderSize(size + ";" + (SigPrefix + sig)) == ParseInt(size, 16)
    ensures HeaderSignature(size + ";" + (SigPrefix + sig)) == sig
  {
    CutAtFirst(size, SigPrefix + sig, ';');
    StripPrefix(SigPrefix, sig);
  }

  lemma StripPrefix(p: string, s: string)
    ensures p <= p + s && (p + s)[|p|..] == s
  {
  }

  /** The signature a client writes into a chunk header. */
  function SentSignature(m: Mode, prev: string, payload: string): string {
    if m.Signed? then m.s.chunkMac(prev, m.s.sha(payload)) else ""
  }

  lemma HeaderLine(m: Mode, prev: string, payload: string)
    requires HexMacs(m) && |payload| <= MaxInt64
    ensures OneLine(ChunkLine(m, prev, payload))
  {
    SizeText(|payload|);
    if m.Signed? {
      HexTextFacts(m.s.chunkMac(prev, m.s.sha(payload)));
      SeparatorsPlain();
    }
  }

  lemma SeparatorsPlain()
    ensures OneLine(";" + SigPrefix) && OneLine(TrailerSignatureName + ":") && ':' !in TrailerSignatureName
  {
  }

  lemma HeaderOf(m: Mode, prev: string, payload: string)
    requires |payload| <= MaxInt64
    ensures HeaderSize(ChunkLine(m, prev, payload)) == Number(|payload|)
    ensures HeaderSignature(ChunkLine(m, prev, payload)) == SentSignature(m, prev, payload)
  {
    var size := Format(|payload|, 16);
    SizeText(|payload|);
    if m.Signed? {
      SignedHeader(size, SentSignature(m, prev, payload));
    } else {
      PlainHeader(size);
    }
  }

  lemma SignatureHolds(m: Mode, prev: string, payload: string)
    requires HexMacs(m)
    ensures SignatureOk(m, prev, SentSignature(m, prev, payload), payload)
    ensures m.Signed? ==> SentSignature(m, prev, payload) != ""
  {
    if m.Signed? {
      HexTextFacts(m.s.chunkMac(prev, m.s.sha(payload)));
    }
  }

  /** The lines read so far, as the reader's accumulated state. */
  function Collected(done: seq<Header>, sig: string): (t: TrailerSection)
    ensures t.Trailer?
  {
    Trailer(HeaderMap(done), CanonicalTrailers(done), sig)
  }

  lemma CollectedGrows(done: seq<Header>, t: Header, sig: string)
    ensures HeaderMap(done + [t]) == HeaderMap(done)[t.name := t.value]
    ensures CanonicalTrailers(done + [t]) == CanonicalTrailers(done) + t.name + ":" + t.value + "\n"
  {
    var next := done + [t];
    assert next[..|next| - 1] == done;
  }

  /** A line of name, colon and value is cut where it was joined. */
  lemma TrailerLine(name: string, value: string, rest: string, input: string)
    requires OneLine(name) && OneLine(value) && ':' !in name
    requires input == name + ":" + value + "\r\n" + rest
    ensures input != "" && LineText(input) != ""
    ensures LineRest(input) == rest
    ensures CutAt(LineText(input), ':') == Found(name, value)
  {
    ReadOneLine(name + ":" + value, rest);
    CutAtFirst(name, value, ':');
  }

  lemma TrailerStep(t: Header, done: seq<Header>, rest: string, input: string)
    requires ProperTrailer(t)
    requires input == t.name + ":" + t.value + "\r\n" + rest
    ensures TrailersFrom(input, Collected(done, "")) == TrailersFrom(rest, Collected(done + [t], ""))
  {
    TrailerLine(t.name, t.value, rest, input);
    CollectedGrows(done, t, "");
  }

  lemma EncodedFirst(ts: seq<Header>, rest: string)
    requires ts != []
    ensures EncodeTrailers(ts) + rest == ts[0].name + ":" + ts[0].value + "\r\n" + (EncodeTrailers(ts[1..]) + rest)
  {
  }

  /** The canonical text and headers collected from encoded trailers. */
  lemma {:induction false} TrailersBack(ts: seq<Header>, done: seq<Header>, rest: string)
    requires forall i :: 0 <= i < |ts| ==> ProperTrailer(ts[i])
    ensures TrailersFrom(EncodeTrailers(ts) + rest, Collected(done, "")) == TrailersFrom(rest, Collected(done + ts, ""))
    decreases |ts|
  {
    if ts == [] {
      assert EncodeTrailers(ts) + rest == rest;
      assert done + ts == done;
    } else {
      var first, more := ts[0], ts[1..];
      EncodedFirst(ts, rest);
      TrailerStep(first, done, EncodeTrailers(more) + rest, EncodeTrailers(ts) + rest);
      MovedOver(done, ts);
      TrailersBack(more, done + [first], rest);
    }
  }

  lemma MovedOver(done: seq<Header>, ts: seq<Header>)
    requires ts != []
    ensures done + [ts[0]] + ts[1..] == done + ts
  {
  }

  lemma BlankEnds(t: TrailerSection)
    requires t.Trailer?
    ensures TrailersFrom("\r\n", t) == t
  {
    ReadOneLine("", "");
    assert "" + "\r\n" + "" == "\r\n";
  }

  lemma SignatureStep(sig: string, ts: seq<Header>, input: string)
    requires HexText(sig)
    requires input == TrailerSignatureName + ":" + sig + "\r\n" + "\r\n"
    ensures TrailersFrom(input, Collected(ts, "")) == Collected(ts, sig)
  {
    HexTextFacts(sig);
    SeparatorsPlain();
    TrailerLine(TrailerSignatureName, sig, "\r\n", input);
    TrailerNameFixed();
    BlankEnds(Collected(ts, sig));
  }

  /** What stands after the encoded trailers: the signature line when there is one, and a blank line. */
  lemma SectionEnds(m: Mode, prev: string, ts: seq<Header>)
    requires HexMacs(m)
    ensures TrailersFrom(TrailerSignatureLine(m, prev, ts) + "\r\n", Collected(ts, "")) == Collected(ts, SentTrailerSignature(m, prev, ts))
  {
    var rest := TrailerSignatureLine(m, prev, ts) + "\r\n";
    if m.Signed? && m.s.trailerSigned {
      SignatureStep(SentTrailerSignature(m, prev, ts), ts, rest);
    } else {
      assert rest == "\r\n";
      BlankEnds(Collected(ts, ""));
    }
  }

  lemma SectionBack(ts: seq<Header>, rest: string, sig: string, input: string)
    requires forall i :: 0 <= i < |ts| ==> ProperTrailer(ts[i])
    requires input == EncodeTrailers(ts) + rest && TrailersFrom(rest, Collected(ts, "")) == Collected(ts, sig)
    ensures ReadTrailers(input) == Collected(ts, sig)
  {
    TrailersBack(ts, [], rest);
    assert [] + ts == ts;
  }

  lemma FinishOf(m: Mode, prev: string, ts: seq<Header>, sig: string, input: string)
    requires ReadTrailers(input) == Collected(ts, sig)
    requires m.Signed? && m.s.trailerSigned ==> ToLower(sig) == m.s.trailerMac(prev, m.s.sha(CanonicalTrailers(ts)))
    ensures Finish(m, prev, input) == EndOfStream(HeaderMap(ts))
  {
  }

  lemma FinishBack(m: Mode, prev: string, ts: seq<Header>, rest: string)
    requires HexMacs(m) && forall i :: 0 <= i < |ts| ==> ProperTrailer(ts[i])
    requires rest == TrailerSignatureLine(m, prev, ts) + "\r\n"
    ensures Finish(m, prev, EncodeTrailers(ts) + rest) == EndOfStream(HeaderMap(ts))
  {
    var sig := SentTrailerSignature(m, prev, ts);
    SectionEnds(m, prev, ts);
    SectionBack(ts, rest, sig, EncodeTrailers(ts) + rest);
    if m.Signed? && m.s.trailerSigned {
      HexTextFacts(sig);
    }
    FinishOf(m, prev, ts, sig, EncodeTrailers(ts) + rest);
  }

  lemma TrailerNameFixed()
    ensures ToLower(TrimSpace(TrailerSignatureName)) == TrailerSignatureName
  {
    PlainName(TrailerSignatureName);
  }

  lemma PlainName(name: string)
    requires name != "" && Visible(name[0]) && Visible(name[|name| - 1])
    requires forall i :: 0 <= i < |name| ==> ToLowerChar(name[i]) == name[i]
    ensures ToLower(TrimSpace(name)) == name
  {
    NothingToTrim(name);
    ToLowerFixed(name);
  }

  /**
   * For every list of non-empty chunks and every list of proper trailers, decoding the framed stream
   * delivers the concatenated payload and ends with exactly those headers.
   */
  lemma {:induction false} DecodeEncode(m: Mode, prev: string, chunks: seq<string>, ts: seq<Header>)
    requires HexMacs(m)
    requires forall i :: 0 <= i < |chunks| ==> 0 < |chunks[i]| <= MaxInt64
    requires forall i :: 0 <= i < |ts| ==> ProperTrailer(ts[i])
    ensures Decode(m, prev, Encode(m, prev, chunks, ts)) == Decoded(Joined(chunks), EndOfStream(HeaderMap(ts)))
    decreases |chunks|
  {
    var payload := if chunks == [] then "" else chunks[0];
    var line := ChunkLine(m, prev, payload);
    HeaderLine(m, prev, payload);
    HeaderOf(m, prev, payload);
    SignatureHolds(m, prev, payload);
    if chunks == [] {
      var last := NextPrev(m, prev, "");
      var rest := TrailerSignatureLine(m, last, ts) + "\r\n";
      ReadOneLine(line, EncodeTrailers(ts) + rest);
      FinishBack(m, last, ts, rest);
    } else {
      var next := Encode(m, NextPrev(m, prev, payload), chunks[1..], ts);
      ReadOneLine(line, payload + ("\r\n" + next));
      DecodeEncode(m, NextPrev(m, prev, payload), chunks[1..], ts);
      BodyBack(m, prev, payload, next);
    }
  }

  lemma BodyBack(m: Mode, prev: string, payload: string, next: string)
    requires HexMacs(m) && payload != ""
    ensures Body(m, prev, SentSignature(m, prev, payload), "", |payload|, payload + ("\r\n" + next)) ==
            Then(payload, Decode(m, NextPrev(m, prev, payload), next))
  {
    var input := payload + ("\r\n" + next);
    SignatureHolds(m, prev, payload);
    assert input[..|payload|] == payload && input[|payload|..] == "\r\n" + next;
    assert "" + payload == payload;
    ReadOneLine("", next);
    assert "" + "\r\n" + next == "\r\n" + next;
  }

  // ---------------------------------------------------------------------------------------------
  // Input as other clients send it
  // ---------------------------------------------------------------------------------------------

  /** A line goes up to and including the first newline, or to the end of the input. */
  lemma {:induction false} LineEndsAtNewline(s: string)
    requires s != ""
    ensures forall j :: 0 <= j < LineLength(s) - 1 ==> s[j] != '\n'
    ensures LineLength(s) == |s| || s[LineLength(s) - 1] == '\n'
  {
    if s[0] != '\n' && |s| > 1 {
      LineEndsAtNewline(s[1..]);
    }
  }

  /** Its text is what stands before the carriage returns and newlines at its end. */
  lemma {:induction false} NewlinesTrimmed(s: string, ends: string)
    requires s == "" || (s[|s| - 1] != '\r' && s[|s| - 1] != '\n')
    requires forall i :: 0 <= i < |ends| ==> ends[i] == '\r' || ends[i] == '\n'
    ensures TrimNewline(s + ends) == s
  {
    if ends == "" {
      assert s + ends == s;
    } else {
      var n := |ends| - 1;
      assert (s + ends)[..|s| + n] == s + ends[..n];
      NewlinesTrimmed(s, ends[..n]);
    }
  }

  /** The signature of a chunk header is what follows the semicolon, with or without its name. */
  lemma SignatureRead(size: string, sig: string)
    requires ';' !in size
    ensures HeaderSignature(size + ";chunk-signature=" + sig) == sig
    ensures !("chunk-signature=" <= sig) ==> HeaderSignature(size + ";" + sig) == sig
    ensures HeaderSize(size + ";" + sig) == ParseInt(size, 16)
  {
    SignedHeader(size, sig);
    assert size + ";" + (SigPrefix + sig) == size + ";chunk-signature=" + sig;
    CutAtFirst(size, sig, ';');
  }

  /** A trailer's name counts in lower case, and the white space around name and value does not count. */
  lemma LooseTrailer(name: string, value: string, l1: string, r1: string, l2: string, r2: string, rest: string, t: TrailerSection)
    requires t.Trailer? && OneLine(l1 + name + r1) && OneLine(l2 + value + r2) && ':' !in l1 + name + r1
    requires AllSpaces(l1) && AllSpaces(r1) && AllSpaces(l2) && AllSpaces(r2)
    requires Outer(name) && Outer(value)
    ensures TrailersFrom((l1 + name + r1) + ":" + (l2 + value + r2) + "\r\n" + rest, t) ==
            if ToLower(name) == "x-amz-trailer-signature" then TrailersFrom(rest, t.(sig := value))
            else TrailersFrom(rest, t.(headers := t.headers[ToLower(name) := value],
                                       canonical := t.canonical + ToLower(name) + ":" + value + "\n"))
  {
    hide ToLower, TrimSpace, LineText, LineRest, CutAt;
    TrailerLine(l1 + name + r1, l2 + value + r2, rest, (l1 + name + r1) + ":" + (l2 + value + r2) + "\r\n" + rest);
    TrimSpaceAround(l1, name, r1);
    TrimSpaceAround(l2, value, r2);
  }

  predicate Outer(s: string) {
    s == "" || (Visible(s[0]) && Visible(s[|s| - 1]))
  }

  /** A trailer line without a colon spoils the section; the end of input ends it as a blank line does. */
  lemma OddTrailers(line: string, rest: string, t: TrailerSection)
    requires t.Trailer? && OneLine(line)
    ensures line != "" && ':' !in line ==> TrailersFrom(line + "\r\n" + rest, t) == BadTrailer
    ensures TrailersFrom("\r\n" + rest, t) == t && TrailersFrom("", t) == t
  {
    ReadOneLine(line, rest);
    ReadOneLine("", rest);
    assert "" + "\r\n" + rest == "\r\n" + rest;
    CutAtMeaning(line, ':');
  }

  // ---------------------------------------------------------------------------------------------
  // Unsigned streams
  // ---------------------------------------------------------------------------------------------

  /** Framed to the end, with a readable trailer section: all that an unsigned stream must be. */
  predicate WellFramed(input: string) {
    Frames(input).Framed? && ReadTrailers(Frames(input).tail).Trailer?
  }

  ghost predicate UnsignedAgrees(prev: string, input: string) {
    && (Decode(Unsigned, prev, input).end.EndOfStream? <==> WellFramed(input))
    && (WellFramed(input) ==>
          Decode(Unsigned, prev, input) == Decoded(PayloadOf(Frames(input).frames), EndOfStream(ReadTrailers(Frames(input).tail).headers)))
  }

  /**
   * For every input, whatever signatures it carries: without signing the stream ends cleanly exactly
   * when it is well framed, and then delivers the payload of its frames and the headers of its trailer.
   */
  lemma {:induction false} UnsignedEndsIffFramed(prev: string, input: string)
    ensures UnsignedAgrees(prev, input)
    decreases |input|
  {
    if input != "" && HeaderSize(LineText(input)).Number? {
      var line, rest := LineText(input), LineRest(input);
      var size := HeaderSize(line).n;
      if size == 0 {
        UnsignedFinal(prev, input, HeaderSignature(line), rest);
      } else if 0 < size <= |rest| {
        var payload, after := rest[..size], rest[size..];
        if after != "" && LineText(after) == "" {
          UnsignedEndsIffFramed(prev, LineRest(after));
          UnsignedFrame(prev, input, HeaderSignature(line), payload, after, LineRest(after));
        } else {
          UnsignedUnterminated(prev, input, payload, after);
        }
      }
    }
  }

  lemma UnsignedFinal(prev: string, input: string, sig: string, rest: string)
    requires input != "" && HeaderSize(LineText(input)) == Number(0)
    requires sig == HeaderSignature(LineText(input)) && rest == LineRest(input)
    ensures UnsignedAgrees(prev, input)
  {
    assert Frames(input) == Framed([Frame("", sig)], rest);
    assert PayloadOf([Frame("", sig)]) == "" by {
      assert [Frame("", sig)][1..] == [];
    }
    assert Decode(Unsigned, prev, input) == Decoded("", Finish(Unsigned, prev, rest));
  }

  lemma UnsignedUnterminated(prev: string, input: string, payload: string, after: string)
    requires input != "" && HeaderSize(LineText(input)) == Number(|payload|) && payload != ""
    requires LineRest(input) == payload + after
    requires after == "" || LineText(after) != ""
    ensures UnsignedAgrees(prev, input)
  {
    DataChunk(Unsigned, prev, input, HeaderSignature(LineText(input)), payload, after);
    assert LineRest(input)[|payload|..] == after;
  }

  lemma UnsignedFrame(prev: string, input: string, sig: string, payload: string, after: string, next: string)
    requires input != "" && HeaderSize(LineText(input)) == Number(|payload|) && payload != ""
    requires sig == HeaderSignature(LineText(input)) && LineRest(input) == payload + after
    requires after != "" && LineText(after) == "" && next == LineRest(after)
    requires UnsignedAgrees(prev, next)
    ensures UnsignedAgrees(prev, input)
  {
    DataChunk(Unsigned, prev, input, sig, payload, after);
    DataFrames(input, sig, payload, after);
    if Frames(next).Framed? {
      var fs := Frames(next).frames;
      assert ([Frame(payload, sig)] + fs)[1..] == fs;
    }
  }
}
