/**
 * The incremental reader of aws-chunked bodies. Each call may get a different buffer, and the stream
 * underneath may return fewer bytes than asked for; the result is always the decoding of the whole stream.
 */
module ChunkedReader {
  import opened Numbers
  import opened Text
  import opened ChunkedFormat
  import opened Wrappers

  /** What a call to `Read` returns beside its count. */
  datatype ReadResult = Data | Eof | Fault(error: Error)

  // ---------------------------------------------------------------------------------------------
  // Reading a chunk body piece by piece
  // ---------------------------------------------------------------------------------------------

  lemma BodyPiece(m: Mode, prev: string, sig: string, seen: string, remaining: int, piece: string, rest: string)
    requires 0 < |piece| < remaining
    ensures Body(m, prev, sig, seen, remaining, piece + rest) ==
            Then(piece, Body(m, prev, sig, seen + piece, remaining - |piece|, rest))
  {
    var left := remaining - |piece|;
    if |rest| >= left {
      var more, after := rest[..left], rest[left..];
      SplitBody(piece, rest, left);
      assert seen + piece + more == seen + (piece + more);
      ThenTwice(piece, more, AfterBody(m, prev, sig, seen + (piece + more), after));
    }
  }

  lemma ThenTwice(a: string, b: string, d: Decoded)
    ensures Then(a, Then(b, d)) == Then(a + b, d)
  {
    assert a + (b + d.payload) == a + b + d.payload;
  }

  lemma SplitBody(piece: string, rest: string, left: nat)
    requires left <= |rest|
    ensures (piece + rest)[..|piece| + left] == piece + rest[..left]
    ensures (piece + rest)[|piece| + left..] == rest[left..]
  {
  }

  lemma BodyWhole(m: Mode, prev: string, sig: string, seen: string, piece: string, rest: string)
    requires piece != ""
    ensures Body(m, prev, sig, seen, |piece|, piece + rest) == Then(piece, AfterBody(m, prev, sig, seen + piece, rest))
  {
    assert (piece + rest)[..|piece|] == piece && (piece + rest)[|piece|..] == rest;
  }

  /** Without signatures the bytes already seen do not matter. */
  lemma UnsignedForgets(prev: string, sig: string, a: string, b: string, input: string)
    ensures AfterBody(Unsigned, prev, sig, a, input) == AfterBody(Unsigned, prev, sig, b, input)
  {
  }

  lemma UnsignedBodyForgets(prev: string, sig: string, a: string, b: string, remaining: int, input: string)
    requires remaining > 0
    ensures Body(Unsigned, prev, sig, a, remaining, input) == Body(Unsigned, prev, sig, b, remaining, input)
  {
    if |input| >= remaining {
      UnsignedForgets(prev, sig, a + input[..remaining], b + input[..remaining], input[remaining..]);
    }
  }

  // ---------------------------------------------------------------------------------------------
  // The reader
  // ---------------------------------------------------------------------------------------------

  class Reader {
    const mode: Mode
    var unread: string
    var prevSig: string
    var remaining: int
    var chunkSig: string
    /** The bytes fed to the running chunk hash; `None` when there is no hash. */
    var hashed: Option<string>
    var trailer: map<string, string>
    var done: bool
    var err: Option<Error>

    ghost predicate Valid()
      reads this
    {
      && remaining >= 0
      && (err.None? && remaining > 0 ==> !done && hashed.Some? == mode.Signed?)
    }

    /** The bytes of the current chunk that count towards its signature. */
    ghost function Seen(): string
      reads this
    {
      if hashed.Some? then hashed.value else ""
    }

    /** What this reader still has to deliver, and how it will end. */
    ghost function Rest(): Decoded
      requires Valid()
      reads this
    {
      if err.Some? then Decoded("", Failed(err.value))
      else if done then Decoded("", EndOfStream(trailer))
      else if remaining == 0 then Decode(mode, prevSig, unread)
      else Body(mode, prevSig, chunkSig, Seen(), remaining, unread)
    }

    constructor (m: Mode, seed: string, input: string)
      ensures Valid() && mode == m && Rest() == Decode(m, seed, input)
    {
      mode, unread, prevSig, remaining := m, input, seed, 0;
      chunkSig, hashed, trailer, done, err := "", None, map[], false, None;
    }

    /** One line without its newline; nothing at the end of input. */
    method ReadLine() returns (line: string, ok: bool)
      modifies this`unread
      ensures ok == (old(unread) != "")
      ensures ok ==> line == LineText(old(unread)) && unread == LineRest(old(unread))
      ensures !ok ==> line == "" && unread == ""
    {
      ok := unread != "";
      if ok {
        line := LineText(unread);
        unread := LineRest(unread);
      } else {
        line := "";
      }
    }

    method VerifyChunk(payload: string) returns (e: Option<Error>)
      requires mode.Signed?
      modifies this`prevSig
      ensures e.None? ==> SignatureOk(mode, old(prevSig), chunkSig, payload) && prevSig == NextPrev(mode, old(prevSig), payload)
      ensures e.Some? ==> !SignatureOk(mode, old(prevSig), chunkSig, payload) && e.value == BadSignature
    {
      var want := mode.s.chunkMac(prevSig, mode.s.sha(payload));
      if want != ToLower(chunkSig) {
        return Some(BadSignature);
      }
      prevSig := want;
      return None;
    }

    /** Trailing headers up to a blank line or the end of input, then their signature. */
    method ReadTrailer() returns (e: Option<Error>)
      modifies this`unread, this`trailer, this`done
      ensures e.None? ==> done && Finish(mode, prevSig, old(unread)) == EndOfStream(trailer)
      ensures e.Some? ==> done == old(done) && Finish(mode, prevSig, old(unread)) == Failed(e.value)
    {
      ghost var start := unread;
      trailer := map[];
      var canonical, sig := "", "";
      while unread != ""
        invariant done == old(done)
        invariant TrailersFrom(unread, Trailer(trailer, canonical, sig)) == ReadTrailers(start)
        decreases |unread|
      {
        var line, _ := ReadLine();
        if line == "" {
          assert ReadTrailers(start) == Trailer(trailer, canonical, sig);
          break;
        }
        match CutAt(line, ':') {
          case NotFound =>
            return Some(MalformedTrailer);
          case Found(rawName, rawValue) =>
            var name, value := ToLower(TrimSpace(rawName)), TrimSpace(rawValue);
            if name == TrailerSignatureName {
              sig := value;
            } else {
              trailer := trailer[name := value];
              canonical := canonical + name + ":" + value + "\n";
            }
        }
      }
      assert ReadTrailers(start) == Trailer(trailer, canonical, sig);
      if mode.Signed? && mode.s.trailerSigned {
        if ToLower(sig) != mode.s.trailerMac(prevSig, mode.s.sha(canonical)) {
          return Some(BadTrailerSignature);
        }
      }
      done := true;
      return None;
    }

    /** Consumes a chunk header; a chunk of size zero ends the stream. */
    method Advance() returns (e: Option<Error>)
      requires Valid() && err.None? && !done && remaining == 0
      modifies this`unread, this`prevSig, this`remaining, this`chunkSig, this`hashed, this`trailer, this`done
      ensures Valid()
      ensures e.None? ==> Rest() == old(Rest()) && (done || remaining > 0)
      ensures e.Some? ==> old(Rest()) == Decoded("", Failed(e.value)) && remaining == 0
    {
      var line, ok := ReadLine();
      if !ok {
        return Some(HeaderMissing);
      }
      match HeaderSize(line) {
        case NotANumber =>
          return Some(MalformedSize);
        case Number(size) =>
          if size < 0 {
            return Some(MalformedSize);
          }
          chunkSig := HeaderSignature(line);
          if mode.Signed? && chunkSig == "" {
            return Some(MissingSignature);
          }
          if size == 0 {
            if mode.Signed? {
              e := VerifyChunk("");
              if e.Some? {
                return;
              }
            }
            e := ReadTrailer();
            return;
          }
          remaining := size;
          hashed := if mode.Signed? then Some("") else None;
          return None;
      }
    }

    /** Consumes a chunk's terminator and verifies its signature. */
    method FinishChunk(ghost payload: string) returns (e: Option<Error>)
      requires Valid() && err.None? && !done && remaining == 0
      requires if mode.Signed? then hashed == Some(payload) else hashed.None?
      modifies this`unread, this`prevSig, this`hashed
      ensures Valid()
      ensures e.None? ==> Rest() == AfterBody(mode, old(prevSig), chunkSig, payload, old(unread))
      ensures e.Some? ==> AfterBody(mode, old(prevSig), chunkSig, payload, old(unread)) == Decoded("", Failed(e.value))
    {
      var line, ok := ReadLine();
      if !ok {
        return Some(TerminatorMissing);
      }
      if line != "" {
        return Some(UnexpectedData);
      }
      if mode.Unsigned? {
        return None;
      }
      var sum := hashed.value;
      hashed := None;
      e := VerifyChunk(sum);
    }

    /** The stream underneath: any positive number of bytes up to `limit`, unless it has ended. */
    method Fill(p: array<char>, limit: nat) returns (n: nat)
      requires 0 < limit <= p.Length
      modifies p, this`unread
      ensures n <= limit && (n == 0 <==> old(unread) == "")
      ensures old(unread) == p[..n] + unread
    {
      n := 0;
      if unread != "" {
        n :| 1 <= n <= limit && n <= |unread|;
        var data := unread;
        forall i | 0 <= i < n {
          p[i] := data[i];
        }
        assert p[..n] == data[..n];
        unread := unread[n..];
      } else {
        assert p[..0] == "";
      }
    }

    /**
     * One read into any non-empty buffer. Data is a non-empty prefix of what was still to come; end of
     * stream and faults are reported exactly when nothing more was to come, and stay reported.
     */
    method Read(p: array<char>) returns (n: nat, r: ReadResult)
      requires Valid() && p.Length > 0
      modifies this, p
      ensures Valid() && n <= p.Length && (n > 0 <==> r.Data?)
      ensures r.Data? ==> old(Rest()) == Then(p[..n], Rest())
      ensures !r.Data? ==> Rest() == old(Rest())
      ensures r.Eof? ==> Rest() == Decoded("", EndOfStream(trailer))
      ensures r.Fault? ==> Rest() == Decoded("", Failed(r.error))
    {
      while true
        invariant Valid() && Rest() == old(Rest())
        decreases if err.None? && !done && remaining == 0 then 1 else 0
      {
        if err.Some? {
          return 0, Fault(err.value);
        }
        if done {
          return 0, Eof;
        }
        if remaining == 0 {
          var e := Advance();
          if e.Some? {
            err := e;
            return 0, Fault(e.value);
          }
        } else {
          n, r := ReadBody(p);
          return;
        }
      }
    }

    /** The part of `Read` inside a chunk. */
    method ReadBody(p: array<char>) returns (n: nat, r: ReadResult)
      requires Valid() && p.Length > 0 && err.None? && remaining > 0
      modifies this, p
      ensures Valid() && n <= p.Length && (n > 0 <==> r.Data?)
      ensures r.Data? ==> old(Rest()) == Then(p[..n], Rest())
      ensures !r.Data? ==> r.Fault? && Rest() == old(Rest()) == Decoded("", Failed(r.error))
    {
      n := Fill(p, if p.Length > remaining then remaining else p.Length);
      if n == 0 {
        err := Some(TruncatedData);
        return n, Fault(TruncatedData);
      }
      Account(p[..n]);
      return n, Data;
    }

    /** Bookkeeping for bytes just read from a chunk, which may complete it. */
    method Account(piece: string)
      requires Valid() && err.None? && 0 < |piece| <= remaining
      modifies this
      ensures Valid()
      ensures old(Body(mode, prevSig, chunkSig, Seen(), remaining, piece + unread)) == Then(piece, Rest())
    {
      ghost var seen, left := Seen(), remaining;
      remaining := remaining - |piece|;
      if hashed.Some? {
        hashed := Some(hashed.value + piece);
      }
      if remaining == 0 {
        BodyWhole(mode, prevSig, chunkSig, seen, piece, unread);
        var e := FinishChunk(seen + piece);
        if e.Some? {
          err := e;
        }
      } else {
        BodyPiece(mode, prevSig, chunkSig, seen, left, piece, unread);
        if mode.Unsigned? {
          UnsignedBodyForgets(prevSig, chunkSig, seen + piece, Seen(), remaining, unread);
        }
      }
    }
  }

  // ---------------------------------------------------------------------------------------------
  // Whole streams under any schedule of buffers
  // ---------------------------------------------------------------------------------------------

  /** Reads until end or fault, with a buffer of `size(k)` bytes for the k-th call. */
  method Drain(r: Reader, size: nat -> nat) returns (data: string, end: Outcome)
    requires r.Valid() && forall k :: size(k) > 0
    modifies r
    ensures r.Valid() && Decoded(data, end) == old(r.Rest())
  {
    data := "";
    var k: nat := 0;
    while true
      invariant r.Valid() && old(r.Rest()) == Then(data, r.Rest())
      decreases |r.Rest().payload|
    {
      var p := new char[size(k)];
      var n, result := r.Read(p);
      match result {
        case Data =>
          data := data + p[..n];
        case Eof =>
          return data, EndOfStream(r.trailer);
        case Fault(e) =>
          return data, Failed(e);
      }
      k := k + 1;
    }
  }

  /**
   * For every input, buffer schedule and pattern of short reads: what arrives is the decoding of the
   * stream, and in signed mode it ends cleanly exactly when the whole stream is verified.
   */
  method ReadStream(m: Mode, seed: string, input: string, size: nat -> nat) returns (data: string, end: Outcome)
    requires forall k :: size(k) > 0
    ensures Decoded(data, end) == Decode(m, seed, input)
    ensures m.Signed? ==> (end.EndOfStream? <==> Verified(m.s, seed, input))
    ensures m.Signed? && end.EndOfStream? ==> data == PayloadOf(Frames(input).frames)
  {
    var r := new Reader(m, seed, input);
    data, end := Drain(r, size);
    if m.Signed? {
      EndsIffVerified(m.s, seed, input);
    }
  }

  /** Every framed upload arrives whole, whatever the buffers and short reads. */
  method Receive(m: Mode, seed: string, chunks: seq<string>, ts: seq<Header>, size: nat -> nat) returns (data: string, end: Outcome)
    requires HexMacs(m) && forall k :: size(k) > 0
    requires forall i :: 0 <= i < |chunks| ==> 0 < |chunks[i]| <= MaxInt64
    requires forall i :: 0 <= i < |ts| ==> ProperTrailer(ts[i])
    ensures data == Joined(chunks) && end == EndOfStream(HeaderMap(ts))
  {
    DecodeEncode(m, seed, chunks, ts);
    data, end := ReadStream(m, seed, Encode(m, seed, chunks, ts), size);
  }
}
