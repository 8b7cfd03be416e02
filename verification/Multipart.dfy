/**
 * Multipart uploads: part uploads and copies, completion, the multipart ETag, and retried
 * completions. One bucket is modelled; a key's entry is its latest version.
 */
module Multipart {
  import opened Wrappers
  import opened Text
  import Hex
  import Numbers

  type Md5 = string -> string

  const MinPartSize := 5 * 1024 * 1024

  datatype StoredPart = StoredPart(etag: string, size: int, data: string)

  datatype Session = Session(key: string, parts: map<int, StoredPart>)

  /** An object: simple when it has no parts, composite otherwise. */
  datatype Entry = Entry(etag: string, size: int, data: string, parts: seq<StoredPart>)

  datatype Wanted = Wanted(number: int, etag: string)

  // ---------------------------------------------------------------------------------------------
  // ETags
  // ---------------------------------------------------------------------------------------------

  /** The bytes `hex.DecodeString` returns, up to the first error. */
  function DecodePrefix(s: string): string {
    if |s| < 2 || !Hex.IsHexDigit(s[0]) || !Hex.IsHexDigit(s[1]) then ""
    else [(16 * Numbers.DigitValue(s[0]) + Numbers.DigitValue(s[1])) as char] + DecodePrefix(s[2..])
  }

  lemma {:induction false} DecodePrefixWhole(s: string)
    requires Hex.Decode(s).Bytes?
    ensures DecodePrefix(s) == Hex.Decode(s).s
  {
    if s != "" {
      DecodePrefixWhole(s[2..]);
    }
  }

  function Hashed(parts: seq<StoredPart>): string {
    if parts == [] then "" else Hashed(parts[..|parts| - 1]) + DecodePrefix(parts[|parts| - 1].etag)
  }

  function ETagOf(md5: Md5, bytes: string, count: nat): string {
    Hex.Encode(md5(bytes)) + "-" + Numbers.Format(count, 10)
  }

  /** An ETag reads back: a digest, a dash, and the number of parts. */
  lemma ETagReads(md5: Md5, bytes: string, count: nat)
    requires ProducesBytes(md5)
    ensures CutAt(ETagOf(md5, bytes, count), '-').Found?
    ensures Hex.Decode(CutAt(ETagOf(md5, bytes, count), '-').before) == Hex.Bytes(md5(bytes))
    ensures count <= Numbers.MaxInt64 ==>
              Numbers.ParseInt(CutAt(ETagOf(md5, bytes, count), '-').after, 10) == Numbers.Number(count)
    ensures forall c :: c in CutAt(ETagOf(md5, bytes, count), '-').before ==> '0' <= c <= '9' || 'a' <= c <= 'f'
  {
    var h := Hex.Encode(md5(bytes));
    Hex.DecodeEncode(md5(bytes));
    Hex.EncodesLowercase(md5(bytes));
    CutAtFirst(h, Numbers.Format(count, 10), '-');
    assert ETagOf(md5, bytes, count) == h + ['-'] + Numbers.Format(count, 10);
    Numbers.ParseFormat(count, 10);
  }

  /** The hash loop of `multipartETag`. */
  method MultipartETag(md5: Md5, parts: seq<StoredPart>) returns (etag: string)
    ensures etag == ETagOf(md5, Hashed(parts), |parts|)
  {
    var h := "";
    for i := 0 to |parts|
      invariant h == Hashed(parts[..i])
    {
      assert parts[..i + 1][..i] == parts[..i];
      h := h + DecodePrefix(parts[i].etag);
    }
    assert parts[..|parts|] == parts;
    return ETagOf(md5, h, |parts|);
  }

  /** A plain ETag: the hex MD5 of the bytes. */
  predicate PlainETag(md5: Md5, etag: string, data: string) {
    etag == Hex.Encode(md5(data))
  }

  ghost predicate ProducesBytes(md5: Md5) {
    forall s :: forall i :: 0 <= i < |md5(s)| ==> md5(s)[i] as int < 256
  }

  // ---------------------------------------------------------------------------------------------
  // Completion
  // ---------------------------------------------------------------------------------------------

  datatype Completion = Accepted(entry: Entry) | MalformedXml | InvalidPartOrder | InvalidPart | EntityTooSmall

  /** The number before position `i`, zero at the start. */
  function Prior(req: seq<Wanted>, i: nat): int
    requires i <= |req|
  {
    if i == 0 then 0 else req[i - 1].number
  }

  predicate Ascending(req: seq<Wanted>) {
    forall i :: 0 <= i < |req| ==> Prior(req, i) < req[i].number
  }

  predicate Present(parts: map<int, StoredPart>, w: Wanted) {
    w.number in parts && parts[w.number].etag == TrimETag(w.etag)
  }

  predicate LargeEnough(parts: map<int, StoredPart>, req: seq<Wanted>, i: nat)
    requires i < |req|
  {
    req[i].number in parts && (i < |req| - 1 ==> parts[req[i].number].size >= MinPartSize)
  }

  predicate Good(parts: map<int, StoredPart>, req: seq<Wanted>, i: nat)
    requires i < |req|
  {
    Present(parts, req[i]) && LargeEnough(parts, req, i)
  }

  ghost predicate AllGood(parts: map<int, StoredPart>, req: seq<Wanted>) {
    forall i :: 0 <= i < |req| ==> Good(parts, req, i)
  }

  function PartAt(parts: map<int, StoredPart>, n: int): StoredPart {
    if n in parts then parts[n] else StoredPart("", 0, "")
  }

  /** The parts a request names, in its order. */
  function Named(parts: map<int, StoredPart>, req: seq<Wanted>): (r: seq<StoredPart>)
    ensures |r| == |req|
  {
    seq(|req|, i requires 0 <= i < |req| => PartAt(parts, req[i].number))
  }

  /** The first wanted part that is missing, mismatched or too small, from position `i` on. */
  function FirstBad(parts: map<int, StoredPart>, req: seq<Wanted>, i: nat): (k: nat)
    requires i <= |req|
    ensures i <= k <= |req| && (k < |req| ==> !Good(parts, req, k))
    ensures forall j :: i <= j < k ==> Good(parts, req, j)
    decreases |req| - i
  {
    if i == |req| || !Good(parts, req, i) then i else FirstBad(parts, req, i + 1)
  }

  function TotalSize(parts: seq<StoredPart>): int {
    if parts == [] then 0 else TotalSize(parts[..|parts| - 1]) + parts[|parts| - 1].size
  }

  function Content(parts: seq<StoredPart>): string {
    if parts == [] then "" else Content(parts[..|parts| - 1]) + parts[|parts| - 1].data
  }

  function Composite(md5: Md5, parts: seq<StoredPart>): Entry {
    Entry(ETagOf(md5, Hashed(parts), |parts|), TotalSize(parts), Content(parts), parts)
  }

  /** What the validation makes of a request: exactly which answer it gives, and the object on acceptance. */
  ghost predicate Answers(md5: Md5, parts: map<int, StoredPart>, req: seq<Wanted>, r: Completion) {
    var bad := FirstBad(parts, req, 0);
    && (r == MalformedXml <==> req == [])
    && (r == InvalidPartOrder <==> req != [] && !Ascending(req))
    && (r == InvalidPart <==> req != [] && Ascending(req) && bad < |req| && !Present(parts, req[bad]))
    && (r == EntityTooSmall <==> req != [] && Ascending(req) && bad < |req| && Present(parts, req[bad]))
    && (r.Accepted? <==> req != [] && Ascending(req) && AllGood(parts, req))
    && (r.Accepted? ==> r.entry == Composite(md5, Named(parts, req)))
  }

  /** The first loop: the order of the whole list. */
  method CheckOrder(req: seq<Wanted>) returns (ok: bool)
    ensures ok <==> Ascending(req)
  {
    var prev := 0;
    for i := 0 to |req|
      invariant prev == Prior(req, i)
      invariant forall j :: 0 <= j < i ==> Prior(req, j) < req[j].number
    {
      if req[i].number <= prev {
        return false;
      }
      prev := req[i].number;
    }
    return true;
  }

  /** The second loop: each wanted part in turn, up to the first that will not do. */
  method ChooseParts(parts: map<int, StoredPart>, req: seq<Wanted>) returns (bad: nat, chosen: seq<StoredPart>, totalSize: int)
    ensures bad == FirstBad(parts, req, 0) && (bad == |req| ==> chosen == Named(parts, req) && totalSize == TotalSize(chosen))
  {
    chosen, totalSize := [], 0;
    for i := 0 to |req|
      invariant |chosen| == i && totalSize == TotalSize(chosen)
      invariant forall j :: 0 <= j < i ==> chosen[j] == PartAt(parts, req[j].number)
      invariant FirstBad(parts, req, 0) == FirstBad(parts, req, i)
    {
      var want := req[i];
      if want.number !in parts || parts[want.number].etag != TrimETag(want.etag) {
        return i, chosen, totalSize;
      }
      var p := parts[want.number];
      if i < |req| - 1 && p.size < MinPartSize {
        return i, chosen, totalSize;
      }
      assert (chosen + [p])[..i] == chosen;
      totalSize := totalSize + p.size;
      chosen := chosen + [p];
    }
    return |req|, chosen, totalSize;
  }

  /**
   * The validation loops: the whole list's order first, then each part in turn. Acceptance means
   * exactly a non-empty strictly ascending list of uploaded parts with matching ETags, all but the
   * last large enough; a refusal names the first thing wrong.
   */
  method CompleteUpload(md5: Md5, parts: map<int, StoredPart>, req: seq<Wanted>) returns (r: Completion)
    ensures Answers(md5, parts, req, r)
    ensures forall other :: Requoted(req, other) ==> Answers(md5, parts, other, r)
  {
    r := Validate(md5, parts, req);
    forall other | Requoted(req, other)
      ensures Answers(md5, parts, other, r)
    {
      QuotesDoNotMatter(md5, parts, req, other, r);
    }
  }

  /** The checks in the order they are made, then the object. */
  method Validate(md5: Md5, parts: map<int, StoredPart>, req: seq<Wanted>) returns (r: Completion)
    ensures Answers(md5, parts, req, r)
  {
    if req == [] {
      return MalformedXml;
    }
    var ordered := CheckOrder(req);
    if !ordered {
      return InvalidPartOrder;
    }
    var bad, chosen, totalSize := ChooseParts(parts, req);
    if bad < |req| {
      var want := req[bad];
      if want.number !in parts || parts[want.number].etag != TrimETag(want.etag) {
        return InvalidPart;
      }
      return EntityTooSmall;
    }
    var etag := MultipartETag(md5, chosen);
    return Accepted(Entry(etag, totalSize, Content(chosen), chosen));
  }

  /** A request names a part's ETag bare or in double quotes, as the part upload returned it. */
  predicate Names(w: Wanted, e: string) {
    Hex.AllHex(e) && (w.etag == e || w.etag == "\"" + e + "\"")
  }

  lemma NamesTrimmed(w: Wanted, e: string)
    requires Names(w, e)
    ensures TrimETag(w.etag) == e
  {
    Hex.HexIsBare(e);
    TrimETagQuoted(e);
  }

  /** A part is there for a wanted ETag exactly when it was stored with that ETag. */
  lemma PresentIff(parts: map<int, StoredPart>, w: Wanted, e: string)
    requires Names(w, e)
    ensures Present(parts, w) <==> w.number in parts && parts[w.number].etag == e
  {
    NamesTrimmed(w, e);
  }

  /** `es` are the ETags a request names, whichever way it writes each of them. */
  ghost predicate NamesAll(req: seq<Wanted>, es: seq<string>) {
    |es| == |req| && forall i :: 0 <= i < |req| ==> Names(req[i], es[i])
  }

  /** The i-th wanted part was uploaded with the ETag named. */
  predicate Uploaded(parts: map<int, StoredPart>, req: seq<Wanted>, es: seq<string>, i: nat)
    requires i < |req| == |es|
  {
    req[i].number in parts && parts[req[i].number].etag == es[i]
  }

  /** The i-th wanted part may stand where it does: at least 5 MiB unless it is the last. */
  predicate Sized(parts: map<int, StoredPart>, req: seq<Wanted>, i: nat)
    requires i < |req|
  {
    req[i].number in parts && (i == |req| - 1 || parts[req[i].number].size >= 5 * 1024 * 1024)
  }

  ghost predicate Increasing(req: seq<Wanted>) {
    && (forall i :: 0 <= i < |req| ==> req[i].number > 0)
    && forall i, j :: 0 <= i < j < |req| ==> req[i].number < req[j].number
  }

  lemma {:induction false} AscendsFrom(req: seq<Wanted>, i: nat, j: nat)
    requires Ascending(req) && i <= j < |req|
    ensures req[i].number <= req[j].number && (i < j ==> req[i].number < req[j].number) && req[i].number > 0
    decreases j
  {
    assert Prior(req, j) < req[j].number;
    if i < j {
      AscendsFrom(req, i, j - 1);
    } else if j > 0 {
      AscendsFrom(req, j - 1, j - 1);
    }
  }

  lemma AscendingIff(req: seq<Wanted>)
    ensures Ascending(req) <==> Increasing(req)
  {
    if Ascending(req) {
      forall i, j | 0 <= i <= j < |req|
        ensures req[i].number > 0 && (i < j ==> req[i].number < req[j].number)
      {
        AscendsFrom(req, i, j);
      }
    }
  }

  /** The first `n` wanted parts will do. */
  ghost predicate Fits(parts: map<int, StoredPart>, req: seq<Wanted>, es: seq<string>, n: nat)
    requires n <= |req| == |es|
  {
    forall i :: 0 <= i < n ==> Uploaded(parts, req, es, i) && Sized(parts, req, i)
  }

  /**
   * The answer in plain terms. It is decided by the first part that will not do: one that is missing
   * or was uploaded with another ETag is invalid, a small one that is not the last is too small.
   */
  lemma AnswerMeaning(md5: Md5, parts: map<int, StoredPart>, req: seq<Wanted>, es: seq<string>, r: Completion)
    requires Answers(md5, parts, req, r) && NamesAll(req, es)
    ensures r.Accepted? <==> req != [] && Increasing(req) && Fits(parts, req, es, |req|)
    ensures r.Accepted? ==> |r.entry.parts| == |req|
    ensures r.Accepted? ==>
              forall i :: 0 <= i < |req| ==> req[i].number in parts && r.entry.parts[i] == parts[req[i].number]
    ensures r == MalformedXml <==> req == []
    ensures r == InvalidPartOrder <==> req != [] && !Increasing(req)
    ensures r == InvalidPart <==>
              req != [] && Increasing(req) && exists i ::
                (0 <= i < |req| && Fits(parts, req, es, i) && !Uploaded(parts, req, es, i))
    ensures r == EntityTooSmall <==>
              req != [] && Increasing(req) && exists i ::
                (0 <= i < |req| && Fits(parts, req, es, i) && Uploaded(parts, req, es, i) && !Sized(parts, req, i))
  {
    hide Ascending, Increasing, Names;
    AscendingIff(req);
    forall i | 0 <= i < |req|
      ensures Present(parts, req[i]) <==> Uploaded(parts, req, es, i)
      ensures Good(parts, req, i) <==> Uploaded(parts, req, es, i) && Sized(parts, req, i)
    {
      assert Names(req[i], es[i]);
      PresentIff(parts, req[i], es[i]);
    }
    var bad := FirstBad(parts, req, 0);
    assert bad < |req| ==> !Good(parts, req, bad);
  }

  /** There is one answer to a request. */
  lemma AnswerUnique(md5: Md5, parts: map<int, StoredPart>, req: seq<Wanted>, r1: Completion, r2: Completion)
    requires Answers(md5, parts, req, r1) && Answers(md5, parts, req, r2)
    ensures r1 == r2
  {
    hide Ascending, Composite, AllGood, Present;
  }

  /** The same request with some of its hexadecimal ETags put in double quotes. */
  ghost predicate Requoted(req: seq<Wanted>, other: seq<Wanted>) {
    && |other| == |req|
    && forall i :: 0 <= i < |req| ==>
                     && other[i].number == req[i].number
                     && (other[i].etag == req[i].etag || Names(other[i], req[i].etag))
  }

  lemma RequotedTrims(req: seq<Wanted>, other: seq<Wanted>, i: nat)
    requires Requoted(req, other) && i < |req|
    ensures other[i].number == req[i].number && TrimETag(other[i].etag) == TrimETag(req[i].etag)
  {
    if other[i].etag != req[i].etag {
      NamesTrimmed(other[i], req[i].etag);
      NamesTrimmed(Wanted(0, req[i].etag), req[i].etag);
    }
  }

  lemma {:induction false} RequotedFirstBad(parts: map<int, StoredPart>, req: seq<Wanted>, other: seq<Wanted>, i: nat)
    requires |other| == |req| && i <= |req|
    requires forall j :: 0 <= j < |req| ==> (Good(parts, other, j) <==> Good(parts, req, j))
    ensures FirstBad(parts, other, i) == FirstBad(parts, req, i)
    decreases |req| - i
  {
    hide Good;
    if i < |req| && Good(parts, req, i) {
      RequotedFirstBad(parts, req, other, i + 1);
    }
  }

  /** Quotes around the ETags do not change the answer. */
  lemma QuotesDoNotMatter(md5: Md5, parts: map<int, StoredPart>, req: seq<Wanted>, other: seq<Wanted>, r: Completion)
    requires Requoted(req, other) && Answers(md5, parts, req, r)
    ensures Answers(md5, parts, other, r)
  {
    hide Requoted, TrimETag, Composite;
    forall i | 0 <= i < |req|
      ensures |other| == |req| && other[i].number == req[i].number
      ensures Present(parts, other[i]) <==> Present(parts, req[i])
      ensures Good(parts, other, i) <==> Good(parts, req, i)
    {
      SameLength(req, other);
      RequotedTrims(req, other, i);
    }
    SameLength(req, other);
    RequotedFirstBad(parts, req, other, 0);
    SameOrder(req, other);
    assert Named(parts, other) == Named(parts, req);
  }

  lemma SameLength(req: seq<Wanted>, other: seq<Wanted>)
    requires Requoted(req, other)
    ensures |other| == |req|
  {
  }

  lemma SameOrder(req: seq<Wanted>, other: seq<Wanted>)
    requires |other| == |req| && forall i :: 0 <= i < |req| ==> other[i].number == req[i].number
    ensures Ascending(other) <==> Ascending(req)
  {
    forall i | 0 <= i < |req|
      ensures Prior(req, i) < req[i].number <==> Prior(other, i) < other[i].number
    {
    }
  }

  // ---------------------------------------------------------------------------------------------
  // Retried completions
  // ---------------------------------------------------------------------------------------------

  datatype Digest = NoDigest | Digest(bytes: string)

  function RequestBytes(req: seq<Wanted>): Digest {
    if req == [] then Digest("")
    else
      match RequestBytes(req[..|req| - 1])
      case NoDigest => NoDigest
      case Digest(h) =>
        match Hex.Decode(TrimETag(req[|req| - 1].etag))
        case NotHex => NoDigest
        case Bytes(b) => Digest(h + b)
  }

  /** The bytes a list of ETags decodes to, one after the other. */
  function DecodedAll(es: seq<string>): Digest {
    if es == [] then Digest("")
    else match Hex.Decode(es[0])
         case NotHex => NoDigest
         case Bytes(b) => match DecodedAll(es[1..])
                          case NoDigest => NoDigest
                          case Digest(h) => Digest(b + h)
  }

  lemma {:induction false} DecodedLast(es: seq<string>, e: string)
    ensures DecodedAll(es + [e]) ==
            match DecodedAll(es)
            case NoDigest => NoDigest
            case Digest(h) => match Hex.Decode(e) case NotHex => NoDigest case Bytes(b) => Digest(h + b)
  {
    hide Hex.Decode;
    if es == [] {
      assert (es + [e])[1..] == [];
      assert DecodedAll([]) == Digest("");
    } else {
      assert (es + [e])[1..] == es[1..] + [e];
      DecodedLast(es[1..], e);
      match (Hex.Decode(es[0]), DecodedAll(es[1..]), Hex.Decode(e)) {
        case (Bytes(a), Digest(h), Bytes(b)) => assert a + (h + b) == (a + h) + b;
        case _ =>
      }
    }
  }

  /** A retry's request stands for the decoded digests of the ETags it names, bare or quoted. */
  lemma {:induction false} RequestDecodes(req: seq<Wanted>, es: seq<string>)
    requires NamesAll(req, es)
    ensures RequestBytes(req) == DecodedAll(es)
  {
    hide Hex.Decode, DecodedAll, TrimETag, Names;
    if req == [] {
      assert DecodedAll([]) == Digest("") by { NothingDecoded(); }
    } else {
      var n := |req| - 1;
      RequestDecodes(req[..n], es[..n]);
      assert Names(req[n], es[n]);
      NamesTrimmed(req[n], es[n]);
      DecodedLast(es[..n], es[n]);
      assert es[..n] + [es[n]] == es;
    }
  }

  lemma NothingDecoded()
    ensures DecodedAll([]) == Digest("")
  {
  }

  /** `alreadyCompleted`: the ETag is recomputed from the request alone. */
  method AlreadyCompleted(md5: Md5, req: seq<Wanted>, latest: Option<Entry>) returns (r: Option<string>)
    ensures r == match RequestBytes(req)
                 case NoDigest => None
                 case Digest(h) => if latest.Some? && latest.value.etag == ETagOf(md5, h, |req|) then Some(latest.value.etag) else None
    ensures forall es :: NamesAll(req, es) && DecodedAll(es).Digest? ==>
                           (r.Some? <==> latest.Some? && latest.value.etag == ETagOf(md5, DecodedAll(es).bytes, |req|))
    ensures forall es :: NamesAll(req, es) && DecodedAll(es).NoDigest? ==> r.None?
  {
    forall es | NamesAll(req, es)
      ensures RequestBytes(req) == DecodedAll(es)
    {
      RequestDecodes(req, es);
    }
    var h := "";
    for i := 0 to |req|
      invariant RequestBytes(req[..i]) == Digest(h)
    {
      assert req[..i + 1][..i] == req[..i];
      match Hex.Decode(TrimETag(req[i].etag)) {
        case NotHex =>
          NoDigestStays(req, i + 1);
          return None;
        case Bytes(b) => h := h + b;
      }
    }
    assert req[..|req|] == req;
    if latest.None? || latest.value.etag != ETagOf(md5, h, |req|) {
      return None;
    }
    return Some(latest.value.etag);
  }

  lemma {:induction false} NoDigestStays(req: seq<Wanted>, n: nat)
    requires n <= |req| && RequestBytes(req[..n]).NoDigest?
    ensures RequestBytes(req).NoDigest?
    decreases |req| - n
  {
    if n < |req| {
      assert req[..n + 1][..n] == req[..n];
      NoDigestStays(req, n + 1);
    } else {
      assert req[..n] == req;
    }
  }

  /** With plain part ETags the request determines what the completed object's ETag hashes. */
  lemma {:induction false} RequestMatchesParts(md5: Md5, parts: map<int, StoredPart>, req: seq<Wanted>)
    requires ProducesBytes(md5) && forall i :: 0 <= i < |req| ==> Present(parts, req[i])
    requires forall n :: n in parts ==> PlainETag(md5, parts[n].etag, parts[n].data)
    ensures RequestBytes(req) == Digest(Hashed(Named(parts, req)))
  {
    hide TrimETag, Hex.Encode, Hex.Decode;
    if req != [] {
      var n := |req| - 1;
      var last := req[n];
      RequestMatchesParts(md5, parts, req[..n]);
      assert Present(parts, last);
      PlainDecodes(md5, parts[last.number].data);
      assert Named(parts, req)[..n] == Named(parts, req[..n]);
    }
  }

  lemma PlainDecodes(md5: Md5, data: string)
    requires ProducesBytes(md5)
    ensures Hex.Decode(Hex.Encode(md5(data))) == Hex.Bytes(md5(data)) && DecodePrefix(Hex.Encode(md5(data))) == md5(data)
  {
    Hex.DecodeEncode(md5(data));
    DecodePrefixWhole(Hex.Encode(md5(data)));
  }

  /** The digests of the parts' bytes, one after the other. */
  function Digests(md5: Md5, parts: seq<StoredPart>): string {
    if parts == [] then "" else md5(parts[0].data) + Digests(md5, parts[1..])
  }

  lemma {:induction false} DigestsLast(md5: Md5, parts: seq<StoredPart>, p: StoredPart)
    ensures Digests(md5, parts + [p]) == Digests(md5, parts) + md5(p.data)
  {
    if parts == [] {
      assert (parts + [p])[1..] == [];
    } else {
      assert (parts + [p])[1..] == parts[1..] + [p];
      DigestsLast(md5, parts[1..], p);
    }
  }

  /** With plain part ETags, what is hashed is the binary digests of the parts in order. */
  lemma {:induction false} HashedDigests(md5: Md5, parts: seq<StoredPart>)
    requires ProducesBytes(md5)
    requires forall i :: 0 <= i < |parts| ==> PlainETag(md5, parts[i].etag, parts[i].data)
    ensures Hashed(parts) == Digests(md5, parts)
  {
    hide Hex.Encode, Hex.Decode, DecodePrefix, ProducesBytes;
    if parts != [] {
      var n := |parts| - 1;
      assert PlainETag(md5, parts[n].etag, parts[n].data);
      HashedDigests(md5, parts[..n]);
      PlainDecodes(md5, parts[n].data);
      DigestsLast(md5, parts[..n], parts[n]);
      assert parts[..n] + [parts[n]] == parts;
    }
  }

  /** A retry after the bookkeeping is gone succeeds with the same ETag while the key is unchanged. */
  lemma RetrySucceeds(md5: Md5, parts: map<int, StoredPart>, req: seq<Wanted>)
    requires ProducesBytes(md5) && AllGood(parts, req)
    requires forall n :: n in parts ==> PlainETag(md5, parts[n].etag, parts[n].data)
    ensures RequestBytes(req).Digest?
    ensures ETagOf(md5, RequestBytes(req).bytes, |req|) == Composite(md5, Named(parts, req)).etag
  {
    forall i | 0 <= i < |req|
      ensures Present(parts, req[i])
    {
      assert Good(parts, req, i);
    }
    RequestMatchesParts(md5, parts, req);
  }

  // ---------------------------------------------------------------------------------------------
  // Runs
  // ---------------------------------------------------------------------------------------------

  /** `roots` are the commits of the bucket. */
  datatype World = World(sessions: map<string, Session>, objects: map<string, Entry>, roots: map<string, map<string, Entry>>)

  datatype Op =
    | Put(key: string, data: string)
    | CopyObject(src: string, dst: string)
    | Create(u: string, key: string)
    | Abort(u: string)
    | UploadPart(u: string, n: int, data: string)
    | CopyWhole(u: string, n: int, src: string)
    | CopyRange(u: string, n: int, src: string, lo: nat, hi: nat)
    | Complete(u: string, req: seq<Wanted>)
    | Remove(key: string)
    | Commit(root: string)
    | Restore(root: string)

  function Plain(md5: Md5, data: string): StoredPart {
    StoredPart(Hex.Encode(md5(data)), |data|, data)
  }

  /** The part a step stores, if it stores one; composite sources cannot be copied into parts. */
  function PartStored(md5: Md5, s: World, op: Op): Option<(string, int, StoredPart)> {
    match op
    case UploadPart(u, n, data) => if u in s.sessions then Some((u, n, Plain(md5, data))) else None
    case CopyWhole(u, n, src) =>
      if u in s.sessions && src in s.objects && s.objects[src].parts == []
      then Some((u, n, StoredPart(s.objects[src].etag, s.objects[src].size, s.objects[src].data))) else None
    case CopyRange(u, n, src, lo, hi) =>
      if u in s.sessions && src in s.objects && s.objects[src].parts == [] && lo <= hi < |s.objects[src].data|
      then Some((u, n, Plain(md5, s.objects[src].data[lo..hi + 1]))) else None
    case _ => None
  }

  predicate Acceptable(parts: map<int, StoredPart>, req: seq<Wanted>) {
    req != [] && Ascending(req) && forall i :: 0 <= i < |req| ==> Good(parts, req, i)
  }

  function Serve(md5: Md5, s: World, op: Op): World {
    match op
    case Put(key, data) => s.(objects := s.objects[key := Entry(Hex.Encode(md5(data)), |data|, data, [])])
    case CopyObject(src, dst) => if src in s.objects then s.(objects := s.objects[dst := s.objects[src]]) else s
    case Create(u, key) => if u in s.sessions then s else s.(sessions := s.sessions[u := Session(key, map[])])
    case Abort(u) => s.(sessions := s.sessions - {u})
    case Complete(u, req) =>
      if u in s.sessions && Acceptable(s.sessions[u].parts, req)
      then s.(sessions := s.sessions - {u}, objects := s.objects[s.sessions[u].key := Composite(md5, Named(s.sessions[u].parts, req))])
      else s
    case Remove(key) => s.(objects := s.objects - {key})
    case Commit(root) => s.(roots := s.roots[root := s.objects])
    case Restore(root) => if root in s.roots then s.(objects := s.roots[root]) else s
    case _ =>
      match PartStored(md5, s, op)
      case None => s
      case Some((u, n, p)) => s.(sessions := s.sessions[u := s.sessions[u].(parts := s.sessions[u].parts[n := p])])
  }

  /** The state after the first `i` operations. */
  function At(md5: Md5, ops: seq<Op>, i: nat): World
    requires i <= |ops|
  {
    if i == 0 then World(map[], map[], map[]) else Serve(md5, At(md5, ops, i - 1), ops[i - 1])
  }

  predicate EntriesOk(md5: Md5, objects: map<string, Entry>) {
    forall k :: k in objects && objects[k].parts == [] ==>
                  PlainETag(md5, objects[k].etag, objects[k].data) && objects[k].size == |objects[k].data|
  }

  /** Part ETags are plain MD5s; simple objects' too, committed ones included; sizes are byte counts. */
  ghost predicate ETagsOk(md5: Md5, s: World) {
    && (forall u, n :: u in s.sessions && n in s.sessions[u].parts ==>
                         PlainETag(md5, s.sessions[u].parts[n].etag, s.sessions[u].parts[n].data)
                         && s.sessions[u].parts[n].size == |s.sessions[u].parts[n].data|)
    && EntriesOk(md5, s.objects) && forall root :: root in s.roots ==> EntriesOk(md5, s.roots[root])
  }

  lemma ServeKeepsETags(md5: Md5, s: World, op: Op)
    requires ETagsOk(md5, s)
    ensures ETagsOk(md5, Serve(md5, s, op))
  {
    var s' := Serve(md5, s, op);
    if op.Complete? && op.u in s.sessions && Acceptable(s.sessions[op.u].parts, op.req) {
      assert s'.objects[s.sessions[op.u].key].parts != [];
    }
  }

  lemma {:induction false} RunKeepsETags(md5: Md5, ops: seq<Op>, i: nat)
    requires i <= |ops|
    ensures ETagsOk(md5, At(md5, ops, i))
  {
    if i > 0 {
      hide Serve;
      RunKeepsETags(md5, ops, i - 1);
      ServeKeepsETags(md5, At(md5, ops, i - 1), ops[i - 1]);
    }
  }

  /** The bytes most recently stored under a part number since the upload was created. */
  function Latest(md5: Md5, ops: seq<Op>, i: nat, u: string, n: int): Option<string>
    requires i <= |ops|
  {
    if i == 0 then None
    else
      var s, op := At(md5, ops, i - 1), ops[i - 1];
      var stored := PartStored(md5, s, op);
      if stored.Some? && stored.value.0 == u && stored.value.1 == n then Some(stored.value.2.data)
      else if u !in s.sessions then None
      else Latest(md5, ops, i - 1, u, n)
  }

  /** What one operation does to a part number of a session that is there afterwards. */
  lemma SessionStep(md5: Md5, s: World, op: Op, u: string, n: int)
    requires u in Serve(md5, s, op).sessions
    ensures var p, parts := PartStored(md5, s, op), Serve(md5, s, op).sessions[u].parts;
            if p.Some? && p.value.0 == u && p.value.1 == n then n in parts && parts[n] == p.value.2
            else if u !in s.sessions then n !in parts
            else (n in parts <==> n in s.sessions[u].parts) && (n in parts ==> parts[n] == s.sessions[u].parts[n])
  {
  }

  /** A session holds, under every part number, the latest bytes stored there. */
  lemma {:induction false} HoldsLatest(md5: Md5, ops: seq<Op>, i: nat, u: string, n: int)
    requires i <= |ops| && u in At(md5, ops, i).sessions
    ensures var parts := At(md5, ops, i).sessions[u].parts;
            Latest(md5, ops, i, u, n) == if n in parts then Some(parts[n].data) else None
  {
    if i > 0 {
      hide Serve, PartStored;
      var s, op := At(md5, ops, i - 1), ops[i - 1];
      SessionStep(md5, s, op, u, n);
      if u in s.sessions {
        HoldsLatest(md5, ops, i - 1, u, n);
      }
    }
  }

  function LatestAll(md5: Md5, ops: seq<Op>, i: nat, u: string, req: seq<Wanted>): string
    requires i <= |ops|
  {
    if req == [] then ""
    else
      var last := Latest(md5, ops, i, u, req[|req| - 1].number);
      LatestAll(md5, ops, i, u, req[..|req| - 1]) + (if last.Some? then last.value else "")
  }

  lemma {:induction false} ContentIsLatest(md5: Md5, ops: seq<Op>, i: nat, u: string, req: seq<Wanted>)
    requires i <= |ops| && u in At(md5, ops, i).sessions
    ensures Content(Named(At(md5, ops, i).sessions[u].parts, req)) == LatestAll(md5, ops, i, u, req)
  {
    if req != [] {
      var n := |req| - 1;
      ContentIsLatest(md5, ops, i, u, req[..n]);
      HoldsLatest(md5, ops, i, u, req[n].number);
      assert Named(At(md5, ops, i).sessions[u].parts, req)[..n] == Named(At(md5, ops, i).sessions[u].parts, req[..n]);
    }
  }

  lemma {:induction false} SizeIsLength(parts: seq<StoredPart>)
    requires forall i :: 0 <= i < |parts| ==> parts[i].size == |parts[i].data|
    ensures TotalSize(parts) == |Content(parts)|
  {
    if parts != [] {
      SizeIsLength(parts[..|parts| - 1]);
    }
  }

  /**
   * In every run of uploads, re-uploads and copies, an accepted completion writes an object whose
   * bytes are the latest upload of each named part in order, whose size is their sum, and whose ETag
   * a retry of the same request recomputes.
   */
  lemma CompletionMeaning(md5: Md5, ops: seq<Op>, i: nat)
    requires ProducesBytes(md5) && i < |ops| && ops[i].Complete?
    requires ops[i].u in At(md5, ops, i).sessions && Acceptable(At(md5, ops, i).sessions[ops[i].u].parts, ops[i].req)
    ensures var key := At(md5, ops, i).sessions[ops[i].u].key;
            && key in At(md5, ops, i + 1).objects && ops[i].u !in At(md5, ops, i + 1).sessions
            && var e := At(md5, ops, i + 1).objects[key];
               && e.data == LatestAll(md5, ops, i, ops[i].u, ops[i].req) && e.size == |e.data|
               && RequestBytes(ops[i].req).Digest? && e.etag == ETagOf(md5, RequestBytes(ops[i].req).bytes, |ops[i].req|)
               && e.etag == ETagOf(md5, Digests(md5, Named(At(md5, ops, i).sessions[ops[i].u].parts, ops[i].req)), |ops[i].req|)
  {
    hide PartStored, Latest, LatestAll, Hashed, Content, TotalSize, RequestBytes;
    var s := At(md5, ops, i);
    var parts, req := s.sessions[ops[i].u].parts, ops[i].req;
    RunKeepsETags(md5, ops, i);
    forall j | 0 <= j < |req|
      ensures req[j].number in parts
    {
      assert Good(parts, req, j);
    }
    ContentIsLatest(md5, ops, i, ops[i].u, req);
    RetrySucceeds(md5, parts, req);
    SizeIsLength(Named(parts, req));
    HashedDigests(md5, Named(parts, req));
  }

  /** An operation that may write or remove the entry of a key. */
  predicate Rewrites(s: World, op: Op, key: string) {
    match op
    case Put(k, _) => k == key
    case CopyObject(_, dst) => dst == key
    case Complete(u, _) => u in s.sessions && s.sessions[u].key == key
    case Remove(k) => k == key
    case Restore(root) =>
      root in s.roots && !(key in s.objects && key in s.roots[root] && s.roots[root][key] == s.objects[key])
    case _ => false
  }

  lemma EntryStep(md5: Md5, s: World, op: Op, key: string)
    requires key in s.objects && !Rewrites(s, op, key)
    ensures key in Serve(md5, s, op).objects && Serve(md5, s, op).objects[key] == s.objects[key]
  {
  }

  lemma {:induction false} EntryStays(md5: Md5, ops: seq<Op>, i: nat, j: nat, key: string)
    requires i <= j <= |ops| && key in At(md5, ops, i).objects
    requires forall k :: i <= k < j ==> !Rewrites(At(md5, ops, k), ops[k], key)
    ensures key in At(md5, ops, j).objects && At(md5, ops, j).objects[key] == At(md5, ops, i).objects[key]
  {
    if i < j {
      hide Serve, Rewrites;
      EntryStays(md5, ops, i, j - 1, key);
      assert !Rewrites(At(md5, ops, j - 1), ops[j - 1], key);
      EntryStep(md5, At(md5, ops, j - 1), ops[j - 1], key);
    }
  }

  /** Any time later, while the key is not rewritten, a retry of the request recognises its object. */
  lemma RetryLater(md5: Md5, ops: seq<Op>, i: nat, j: nat)
    requires ProducesBytes(md5) && i < j <= |ops| && ops[i].Complete?
    requires ops[i].u in At(md5, ops, i).sessions && Acceptable(At(md5, ops, i).sessions[ops[i].u].parts, ops[i].req)
    requires forall k :: i < k < j ==> !Rewrites(At(md5, ops, k), ops[k], At(md5, ops, i).sessions[ops[i].u].key)
    ensures var key := At(md5, ops, i).sessions[ops[i].u].key;
            && key in At(md5, ops, j).objects && RequestBytes(ops[i].req).Digest?
            && At(md5, ops, j).objects[key].etag == ETagOf(md5, RequestBytes(ops[i].req).bytes, |ops[i].req|)
  {
    hide Serve, LatestAll, RequestBytes;
    CompletionMeaning(md5, ops, i);
    EntryStays(md5, ops, i + 1, j, At(md5, ops, i).sessions[ops[i].u].key);
  }

  // ---------------------------------------------------------------------------------------------
  // What is found later is what was sent
  // ---------------------------------------------------------------------------------------------

  /** An operation that stores this part again or ends its upload. */
  predicate Touches(op: Op, u: string, n: int) {
    match op
    case UploadPart(v, m, _) => v == u && m == n
    case CopyWhole(v, m, _) => v == u && m == n
    case CopyRange(v, m, _, _, _) => v == u && m == n
    case Abort(v) => v == u
    case Complete(v, _) => v == u
    case _ => false
  }

  /** `p` is part `n` of upload `u`. */
  predicate HoldsPart(s: World, u: string, n: int, p: StoredPart) {
    u in s.sessions && n in s.sessions[u].parts && s.sessions[u].parts[n] == p
  }

  predicate HoldsEntry(objects: map<string, Entry>, key: string, e: Entry) {
    key in objects && objects[key] == e
  }

  lemma PartStep(md5: Md5, s: World, op: Op, u: string, n: int, p: StoredPart)
    requires HoldsPart(s, u, n, p) && !Touches(op, u, n)
    ensures HoldsPart(Serve(md5, s, op), u, n, p) && Serve(md5, s, op).sessions[u].key == s.sessions[u].key
  {
  }

  lemma {:induction false} PartStays(md5: Md5, ops: seq<Op>, i: nat, j: nat, u: string, n: int, p: StoredPart)
    requires i <= j <= |ops| && HoldsPart(At(md5, ops, i), u, n, p)
    requires forall k :: i <= k < j ==> !Touches(ops[k], u, n)
    ensures HoldsPart(At(md5, ops, j), u, n, p)
  {
    if i < j {
      hide Serve, Touches;
      PartStays(md5, ops, i, j - 1, u, n, p);
      assert !Touches(ops[j - 1], u, n);
      PartStep(md5, At(md5, ops, j - 1), ops[j - 1], u, n, p);
    }
  }

  /** The part a step sends: uploaded bytes, the bytes first to last of a simple source, or all of it. */
  ghost predicate Sends(md5: Md5, s: World, op: Op, u: string, n: int, p: StoredPart) {
    && u in s.sessions
    && match op
       case UploadPart(v, m, data) => v == u && m == n && p.data == data && p.size == |data| && PlainETag(md5, p.etag, data)
       case CopyRange(v, m, src, first, last) =>
         && v == u && m == n && src in s.objects && s.objects[src].parts == [] && first <= last < |s.objects[src].data|
         && p.size == |p.data| == last - first + 1 && PlainETag(md5, p.etag, p.data)
         && forall k :: 0 <= k < |p.data| ==> p.data[k] == s.objects[src].data[first + k]
       case CopyWhole(v, m, src) =>
         && v == u && m == n && src in s.objects && s.objects[src].parts == []
         && p.data == s.objects[src].data && p.size == s.objects[src].size && p.etag == s.objects[src].etag
       case _ => false
  }

  lemma SentIsHeld(md5: Md5, s: World, op: Op, u: string, n: int, p: StoredPart)
    requires Sends(md5, s, op, u, n, p)
    ensures HoldsPart(Serve(md5, s, op), u, n, p)
  {
    if op.CopyRange? {
      assert p.data == s.objects[op.src].data[op.lo..op.hi + 1];
    }
  }

  /** A part sent and not touched since is there with exactly its bytes, size and ETag. */
  lemma SentPart(md5: Md5, ops: seq<Op>, i: nat, j: nat, u: string, n: int, p: StoredPart)
    requires i < j <= |ops| && Sends(md5, At(md5, ops, i), ops[i], u, n, p)
    requires forall k :: i < k < j ==> !Touches(ops[k], u, n)
    ensures HoldsPart(At(md5, ops, j), u, n, p)
  {
    hide Serve, Sends, Touches, HoldsPart;
    SentIsHeld(md5, At(md5, ops, i), ops[i], u, n, p);
    PartStays(md5, ops, i + 1, j, u, n, p);
  }

  /** An object put and not rewritten since is there with exactly its bytes; so is a copy of any object. */
  lemma SentObject(md5: Md5, ops: seq<Op>, i: nat, j: nat, key: string, e: Entry)
    requires i < j <= |ops|
    requires || (ops[i] == Put(key, e.data) && e == Entry(Hex.Encode(md5(e.data)), |e.data|, e.data, []))
             || exists src :: ops[i] == CopyObject(src, key) && HoldsEntry(At(md5, ops, i).objects, src, e)
    requires forall k :: i < k < j ==> !Rewrites(At(md5, ops, k), ops[k], key)
    ensures HoldsEntry(At(md5, ops, j).objects, key, e)
  {
    hide Rewrites;
    EntryStays(md5, ops, i + 1, j, key);
  }

  lemma {:induction false} RootStays(md5: Md5, ops: seq<Op>, i: nat, j: nat, root: string, objects: map<string, Entry>)
    requires i <= j <= |ops| && root in At(md5, ops, i).roots && At(md5, ops, i).roots[root] == objects
    requires forall k :: i <= k < j ==> ops[k] != Commit(root)
    ensures root in At(md5, ops, j).roots && At(md5, ops, j).roots[root] == objects
  {
    if i < j {
      RootStays(md5, ops, i, j - 1, root, objects);
      assert ops[j - 1] != Commit(root);
    }
  }

  /** Restoring a commit brings back exactly the objects that were committed. */
  lemma RestoredObjects(md5: Md5, ops: seq<Op>, i: nat, j: nat, root: string)
    requires i < j < |ops| && ops[i] == Commit(root) && ops[j] == Restore(root)
    requires forall k :: i < k < j ==> ops[k] != Commit(root)
    ensures At(md5, ops, j + 1).objects == At(md5, ops, i).objects
    ensures At(md5, ops, j + 1).sessions == At(md5, ops, j).sessions
  {
    RootStays(md5, ops, i + 1, j, root, At(md5, ops, i).objects);
  }

  /** An aborted upload is gone, and a removed key has no entry. */
  lemma EndedIsGone(md5: Md5, ops: seq<Op>, i: nat)
    requires i < |ops|
    ensures ops[i].Abort? ==> ops[i].u !in At(md5, ops, i + 1).sessions && At(md5, ops, i + 1).objects == At(md5, ops, i).objects
    ensures ops[i].Remove? ==> ops[i].key !in At(md5, ops, i + 1).objects && At(md5, ops, i + 1).sessions == At(md5, ops, i).sessions
  {
  }
}
