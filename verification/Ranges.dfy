/**
 * Byte ranges: parsing a single-range header (section 14.1.2 of RFC 9110) and stitching a range out
 * of the parts of a composite object.
 */
module Ranges {
  import opened Numbers
  import opened Text

  datatype RangeResult = Ignore | Unsatisfiable | Range(start: int, end: int)

  const Unit := "bytes="

  function ParseRangeSpec(spec: string, size: int): RangeResult {
    if !(Unit <= spec) || ',' in spec[|Unit|..] then Ignore
    else
      match CutAt(TrimSpace(spec[|Unit|..]), '-')
      case NotFound => Ignore
      case Found(first, last) =>
        if first == "" then
          match ParseInt(last, 10)
          case NotANumber => Ignore
          case Number(n) =>
            if n <= 0 || size == 0 then Unsatisfiable
            else Range(if size - n > 0 then size - n else 0, size - 1)
        else
          match ParseInt(first, 10)
          case NotANumber => Ignore
          case Number(st) =>
            if st < 0 then Ignore
            else if st >= size then Unsatisfiable
            else if last == "" then Range(st, size - 1)
            else match ParseInt(last, 10)
                 case NotANumber => Ignore
                 case Number(en) => if en < st then Ignore else Range(st, if en < size - 1 then en else size - 1)
  }

  // ---------------------------------------------------------------------------------------------
  // Against the standard
  // ---------------------------------------------------------------------------------------------

  /** The three forms of a single byte range. */
  datatype ByteRange = FromTo(first: nat, last: nat) | From(first: nat) | Suffix(n: nat)

  function Print(r: ByteRange): string {
    match r
    case FromTo(a, b) => Unit + Format(a, 10) + "-" + Format(b, 10)
    case From(a) => Unit + Format(a, 10) + "-"
    case Suffix(n) => Unit + "-" + Format(n, 10)
  }

  /** Which bytes of a representation of `size` bytes the range selects. */
  predicate Selects(r: ByteRange, size: nat, i: nat) {
    i < size &&
    match r
    case FromTo(a, b) => a <= i <= b
    case From(a) => a <= i
    case Suffix(n) => size <= i + n
  }

  predicate Fits(r: ByteRange) {
    match r
    case FromTo(a, b) => a <= MaxInt64 && b <= MaxInt64
    case From(a) => a <= MaxInt64
    case Suffix(n) => n <= MaxInt64
  }

  lemma NumberText(n: nat)
    ensures var t := Format(n, 10);
            && t != "" && ParseInt(t, 10) == (if n <= MaxInt64 then Number(n) else NotANumber)
            && '-' !in t && ',' !in t && Visible(t[0]) && Visible(t[|t| - 1])
  {
    ParseFormat(n, 10);
    FormatDigits(n, 10);
    var t := Format(n, 10);
    assert t[0] in t && t[|t| - 1] in t;
  }

  lemma CutPrinted(first: string, last: string, size: int)
    requires '-' !in first && ',' !in first && ',' !in last
    requires first != "" ==> Visible(first[0])
    requires last != "" ==> Visible(last[|last| - 1])
    ensures var spec := Unit + first + "-" + last;
            && Unit <= spec && ',' !in spec[|Unit|..]
            && CutAt(TrimSpace(spec[|Unit|..]), '-') == Found(first, last)
  {
    var spec := Unit + first + "-" + last;
    var v := first + "-" + last;
    assert spec[|Unit|..] == v;
    NothingToTrim(v);
    CutAtFirst(first, last, '-');
  }

  /** What the standard says a range request on `size` bytes selects, against how it was parsed. */
  ghost predicate Means(r: ByteRange, size: nat, p: RangeResult) {
    && (p == Ignore <==> r.FromTo? && r.first < size && r.last < r.first)
    && (p == Unsatisfiable ==> forall i: nat :: !Selects(r, size, i))
    && (p.Range? ==> 0 <= p.start <= p.end < size && forall i: nat :: Selects(r, size, i) <==> p.start <= i <= p.end)
  }

  lemma ParseFromTo(a: nat, b: nat, size: nat)
    ensures ParseRangeSpec(Print(FromTo(a, b)), size) ==
            if a > MaxInt64 then Ignore
            else if a >= size then Unsatisfiable
            else if b > MaxInt64 || b < a then Ignore
            else Range(a, if b < size - 1 then b else size - 1)
  {
    NumberText(a);
    NumberText(b);
    CutPrinted(Format(a, 10), Format(b, 10), size);
  }

  lemma ParseFrom(a: nat, size: nat)
    ensures ParseRangeSpec(Print(From(a)), size) ==
            if a > MaxInt64 then Ignore else if a >= size then Unsatisfiable else Range(a, size - 1)
  {
    NumberText(a);
    CutPrinted(Format(a, 10), "", size);
    assert Unit + Format(a, 10) + "-" == Unit + Format(a, 10) + "-" + "";
  }

  lemma ParseSuffix(n: nat, size: nat)
    ensures ParseRangeSpec(Print(Suffix(n)), size) ==
            if n > MaxInt64 then Ignore
            else if n == 0 || size == 0 then Unsatisfiable
            else Range(if size - n > 0 then size - n else 0, size - 1)
  {
    NumberText(n);
    CutPrinted("", Format(n, 10), size);
    assert Unit + "-" + Format(n, 10) == Unit + "" + "-" + Format(n, 10);
  }

  /** The first position fits 64 bits and lies past the end of the object. */
  predicate StartsPastEnd(r: ByteRange, size: nat) {
    r.FromTo? && size <= r.first <= MaxInt64
  }

  /**
   * Parsing a printed range gives exactly the bytes the standard says it selects, is unsatisfiable
   * only when that is none, and ignores only a backwards range, provided its numbers fit 64 bits. A
   * range with a larger number is ignored, unless its first position fits and is past the end.
   */
  lemma ParsePrinted(r: ByteRange, size: nat)
    ensures Fits(r) ==> Means(r, size, ParseRangeSpec(Print(r), size))
    ensures !Fits(r) ==> ParseRangeSpec(Print(r), size) == if StartsPastEnd(r, size) then Unsatisfiable else Ignore
    ensures size <= MaxInt64 ==> (Means(r, size, ParseRangeSpec(Print(r), size)) <==> Fits(r) || StartsPastEnd(r, size))
  {
    match r
    case FromTo(a, b) => ParseFromTo(a, b, size);
    case From(a) => ParseFrom(a, size);
    case Suffix(n) => ParseSuffix(n, size);
  }

  /** White space around the range is ignored. */
  lemma SpacesIgnored(left: string, v: string, right: string, size: int)
    requires AllSpaces(left) && AllSpaces(right) && (v == "" || (Visible(v[0]) && Visible(v[|v| - 1])))
    ensures ParseRangeSpec("bytes=" + (left + v + right), size) == ParseRangeSpec("bytes=" + v, size)
  {
    TrimSpaceAround(left, v, right);
    NothingToTrim(v);
    assert ("bytes=" + v)[6..] == v && ("bytes=" + (left + v + right))[6..] == left + v + right;
    assert ',' !in left && ',' !in right;
    assert ',' in left + v + right <==> ',' in v;
  }

  /** A header in another unit, with several ranges, or without a dash is ignored. */
  lemma IgnoredHeaders(spec: string, rest: string, size: int)
    ensures !("bytes=" <= spec) ==> ParseRangeSpec(spec, size) == Ignore
    ensures ',' in rest || '-' !in rest ==> ParseRangeSpec("bytes=" + rest, size) == Ignore
  {
    assert ("bytes=" + rest)[6..] == rest;
    CutAtMeaning(TrimSpace(rest), '-');
    if '-' !in rest {
      TrimmedInside(rest, '-');
    }
  }

  lemma TrimmedInside(s: string, c: char)
    requires c !in s
    ensures c !in TrimSpace(s)
  {
    TrimLeftInside(s, c);
    TrimRightInside(TrimLeft(s), c);
  }

  lemma {:induction false} TrimLeftInside(s: string, c: char)
    requires c !in s
    ensures c !in TrimLeft(s)
  {
    if LeadingSpace(s) > 0 {
      TrimLeftInside(s[LeadingSpace(s)..], c);
    }
  }

  lemma {:induction false} TrimRightInside(s: string, c: char)
    requires c !in s
    ensures c !in TrimRight(s)
  {
    if TrailingSpace(s) > 0 {
      TrimRightInside(s[..|s| - TrailingSpace(s)], c);
    }
  }

  /** A suffix length with a minus sign selects nothing. */
  lemma NegativeSuffix(n: nat, size: nat)
    requires n <= MaxInt64
    ensures ParseRangeSpec("bytes=-" + ("-" + Format(n, 10)), size) == Unsatisfiable
  {
    hide ParseInt, Format, TrimSpace, CutAt;
    var last := "-" + Format(n, 10);
    NumberText(n);
    ParseSigned(n, "", 10);
    assert "-" + "" + Format(n, 10) == last;
    assert Unit + "" + "-" + last == "bytes=-" + last;
    assert last[|last| - 1] == Format(n, 10)[|Format(n, 10)| - 1];
    CutPrinted("", last, size);
  }

  /** Whatever the header says, an accepted range lies inside the object. */
  lemma RangeInside(spec: string, size: nat)
    ensures var p := ParseRangeSpec(spec, size); p.Range? ==> 0 <= p.start <= p.end < size
  {
  }

  // ---------------------------------------------------------------------------------------------
  // Stitching
  // ---------------------------------------------------------------------------------------------

  /** A part as stored: its recorded size is the length of its bytes. */
  datatype Piece = Piece(data: string)

  function Concat(parts: seq<Piece>): string {
    if parts == [] then "" else Concat(parts[..|parts| - 1]) + parts[|parts| - 1].data
  }

  /** A sub-range read of one part, inclusive bounds. */
  function Download(p: Piece, lo: int, hi: int): string
    requires 0 <= lo <= hi < |p.data|
  {
    p.data[lo..hi + 1]
  }

  datatype Response = Response(status: int, contentLength: int, body: string) | InvalidRange

  lemma {:induction false} ConcatPrefix(parts: seq<Piece>, i: nat)
    requires i <= |parts|
    ensures Concat(parts[..i]) <= Concat(parts)
    decreases |parts| - i
  {
    if i < |parts| {
      assert parts[..i + 1][..i] == parts[..i];
      ConcatPrefix(parts, i + 1);
    } else {
      assert parts[..i] == parts;
    }
  }

  /** Where a part's bytes lie in the whole. */
  lemma PartBounds(parts: seq<Piece>, i: nat)
    requires i < |parts|
    ensures |Concat(parts[..i])| + |parts[i].data| == |Concat(parts[..i + 1])| <= |Concat(parts)|
  {
    assert parts[..i + 1][..i] == parts[..i];
    ConcatPrefix(parts, i + 1);
  }

  lemma PartInWhole(parts: seq<Piece>, i: nat)
    requires i < |parts|
    ensures |Concat(parts[..i])| + |parts[i].data| <= |Concat(parts)|
    ensures Concat(parts)[|Concat(parts[..i])|..|Concat(parts[..i])| + |parts[i].data|] == parts[i].data
  {
    PartBounds(parts, i);
    assert parts[..i + 1][..i] == parts[..i];
    ConcatPrefix(parts, i + 1);
  }

  /** A sub-range read of a part continues the slice that ends where it starts. */
  lemma NextPiece(parts: seq<Piece>, i: nat, start: nat, done: nat, lo: nat, hi: nat)
    requires i < |parts| && lo <= hi < |parts[i].data| && start + done == |Concat(parts[..i])| + lo
    ensures start + done + hi - lo < |Concat(parts)|
    ensures Concat(parts)[start..start + done] + Download(parts[i], lo, hi) == Concat(parts)[start..start + done + (hi - lo + 1)]
  {
    PartInWhole(parts, i);
    SliceOfSlice(Concat(parts), |Concat(parts[..i])|, |parts[i].data|, lo, hi + 1);
  }

  lemma SliceOfSlice(whole: string, base: nat, size: nat, lo: nat, hi: nat)
    requires base + size <= |whole| && lo <= hi <= size
    ensures whole[base..base + size][lo..hi] == whole[base + lo..base + hi]
  {
    var a, b := whole[base..base + size][lo..hi], whole[base + lo..base + hi];
    assert |a| == |b|;
    forall k | 0 <= k < |a|
      ensures a[k] == b[k]
    {
      assert a[k] == whole[base..base + size][lo + k] == whole[base + lo + k];
    }
  }

  function Max(a: int, b: int): int { if a > b then a else b }

  function Min(a: int, b: int): int { if a < b then a else b }

  /** The part loop of `serveComposite`: sub-range reads that add up to the requested slice. */
  method Stitch(parts: seq<Piece>, start: int, length: int) returns (out: string)
    requires 0 <= start && 0 <= length && start + length <= |Concat(parts)|
    ensures out == Concat(parts)[start..start + length]
  {
    out := "";
    var partOffset, remaining := 0, length;
    for i := 0 to |parts|
      invariant partOffset == |Concat(parts[..i])|
      invariant remaining == length - |out| && 0 <= remaining
      invariant out == Concat(parts)[start..start + |out|]
      invariant remaining == 0 || (out == "" && partOffset <= start) || start + |out| == partOffset
    {
      if remaining <= 0 {
        break;
      }
      var size := |parts[i].data|;
      var partStart, partEnd := partOffset, partOffset + size - 1;
      PartBounds(parts, i);
      partOffset := partOffset + size;
      if size == 0 || partEnd < start {
        continue;
      }
      var lo := Max(start - partStart, 0);
      var hi := Min(size - 1, lo + remaining - 1);
      NextPiece(parts, i, start, |out|, lo, hi);
      var piece := Download(parts[i], lo, hi);
      out := out + piece;
      remaining := remaining - |piece|;
    }
    assert parts[..|parts|] == parts;
  }

  /**
   * A composite read: the whole body without a usable range header, a 416 for an unsatisfiable one,
   * and otherwise exactly the selected slice with its announced length.
   */
  method ServeComposite(parts: seq<Piece>, header: string) returns (r: Response)
    ensures var whole, p := Concat(parts), ParseRangeSpec(header, |Concat(parts)|);
            r == if header != "" && p == Unsatisfiable then InvalidRange
                 else if header != "" && p.Range? then Response(206, p.end - p.start + 1, whole[p.start..p.end + 1])
                 else Response(200, |whole|, whole)
    ensures r.Response? ==> r.contentLength == |r.body|
  {
    var size := 0;
    for i := 0 to |parts|
      invariant size == |Concat(parts[..i])|
    {
      assert parts[..i + 1][..i] == parts[..i];
      size := size + |parts[i].data|;
    }
    assert parts[..|parts|] == parts;
    var start, length, status := 0, size, 200;
    if header != "" {
      RangeInside(header, size);
      match ParseRangeSpec(header, size) {
        case Unsatisfiable => return InvalidRange;
        case Range(st, en) => start, length, status := st, en - st + 1, 206;
        case Ignore =>
      }
    }
    var body := Stitch(parts, start, length);
    return Response(status, length, body);
  }

  // ---------------------------------------------------------------------------------------------
  // Requests by part number
  // ---------------------------------------------------------------------------------------------

  datatype PartRequest = InvalidArgument | InvalidPart | UseRange(header: string) | KeepHeader

  const MaxPartNumber := 10000

  /**
   * `preparePartRequest`: an object without parts is one part; otherwise the sum of the earlier
   * sizes is where the part starts.
   */
  method PreparePart(parts: seq<Piece>, size: nat, n: int) returns (r: PartRequest)
    ensures r == InvalidArgument <==> n < 1 || n > 10000
    ensures r == InvalidPart <==> 1 <= n <= MaxPartNumber && n > (if parts == [] then 1 else |parts|)
    ensures n == 1 && parts == [] ==> r == if size == 0 then KeepHeader else UseRange(Print(From(0)))
    ensures 1 <= n <= MaxPartNumber && n <= |parts| ==>
              r == if parts[n - 1].data == "" then KeepHeader
                   else UseRange(Print(FromTo(|Concat(parts[..n - 1])|, |Concat(parts[..n - 1])| + |parts[n - 1].data| - 1)))
  {
    if n < 1 || n > MaxPartNumber {
      return InvalidArgument;
    }
    if parts == [] {
      if n != 1 {
        return InvalidPart;
      }
      if size > 0 {
        assert Format(0, 10) == "0";
        return UseRange("bytes=0-");
      }
      return KeepHeader;
    }
    if n > |parts| {
      return InvalidPart;
    }
    var start := 0;
    for i := 0 to n - 1
      invariant start == |Concat(parts[..i])|
    {
      assert parts[..i + 1][..i] == parts[..i];
      start := start + |parts[i].data|;
    }
    var partSize := |parts[n - 1].data|;
    if partSize > 0 {
      return UseRange(Unit + Format(start, 10) + "-" + Format(start + partSize - 1, 10));
    }
    return KeepHeader;
  }

  /**
   * Asking for a non-empty part by number, through printing its range and parsing it again, serves
   * exactly that part's bytes.
   */
  method GetPart(parts: seq<Piece>, n: int) returns (r: Response)
    requires 1 <= n <= |parts| && n <= MaxPartNumber && parts[n - 1].data != "" && |Concat(parts)| <= MaxInt64
    ensures r == Response(206, |parts[n - 1].data|, parts[n - 1].data)
  {
    var req := PreparePart(parts, |Concat(parts)|, n);
    PartRange(parts, n);
    r := ServeComposite(parts, req.header);
  }

  lemma PartRange(parts: seq<Piece>, n: int)
    requires 1 <= n <= |parts| && parts[n - 1].data != "" && |Concat(parts)| <= MaxInt64
    ensures var a := |Concat(parts[..n - 1])|;
            var b := a + |parts[n - 1].data| - 1;
            && b < |Concat(parts)| && Concat(parts)[a..b + 1] == parts[n - 1].data
            && ParseRangeSpec(Print(FromTo(a, b)), |Concat(parts)|) == Range(a, b) && Print(FromTo(a, b)) != ""
  {
    PartInWhole(parts, n - 1);
    var a := |Concat(parts[..n - 1])|;
    ParseFromTo(a, a + |parts[n - 1].data| - 1, |Concat(parts)|);
  }

  /** Part 1 of an object without parts is the whole of it. */
  lemma OnlyPart(size: nat)
    requires size > 0
    ensures ParseRangeSpec(Print(From(0)), size) == Range(0, size - 1)
  {
    ParseFrom(0, size);
  }
}
