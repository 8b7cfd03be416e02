/**
 * Version listing: version rows and delete markers by key ascending and newest first, rolled up by
 * delimiter, paged by a (key marker, version marker) position.
 */
module VersionPaging {
  import opened ByteStrings
  import opened Objects
  import opened Rollup
  import opened StoreRefinement
  import Escaping
  import MemoryStore
  import Scanning
  import StoreRuns

  datatype Query = Query(prefix: string, delim: string, urlEncoding: bool)

  datatype Marker = Marker(key: string, version: string)

  /** One element of the listing: a version row, or a common prefix. */
  datatype Entry = RowEntry(v: Object) | PrefixEntry(cp: string)

  datatype Response = Response(versions: seq<Object>, markers: seq<Object>, prefixes: seq<string>,
                               truncated: bool, last: Marker)

  const Nothing := Response([], [], [], false, Marker("", ""))

  function Enc(q: Query, s: string): string {
    if q.urlEncoding then Escaping.EncodePath(s) else s
  }

  /** Comparing encoded prefixes is as good as comparing the prefixes. */
  lemma EncInjective(q: Query, s: string, t: string)
    ensures Enc(q, s) == Enc(q, t) <==> s == t
  {
    if Enc(q, s) == Enc(q, t) && q.urlEncoding {
      Escaping.EscapeInjective(s, t, true);
    }
  }

  /** A prefix shows raw, or, on request, as clean text that percent-decodes to it. */
  lemma EncMeaning(q: Query, s: string)
    ensures !q.urlEncoding ==> Enc(q, s) == s
    ensures q.urlEncoding ==> Escaping.Unescape(Enc(q, s)) == Escaping.Text(s)
    ensures q.urlEncoding ==> forall c :: c in Enc(q, s) ==> c == '%' || Escaping.Literal(c, true)
  {
    Escaping.UnescapeUndoes(s, true);
    forall c | c in Escaping.Escape(s, true)
      ensures c == '%' || Escaping.Literal(c, true)
    {
      Escaping.EscapedIsClean(s, true, c);
    }
  }

  /** What the gateway stores: non-empty ids, non-negative stamps, distinct per key. */
  ghost predicate Pageable(st: Stacks) {
    && ValidStacks(st) && Strict(st)
    && forall v :: Holds(st, v) ==> v.versionId != "" && v.vseq >= 0
  }

  // ---------------------------------------------------------------------------------------------
  // Meaning: the entries past a marker
  // ---------------------------------------------------------------------------------------------

  function EntryOf(q: Query, v: Object): Entry {
    if RollsUp(v.key, q.prefix, q.delim) then PrefixEntry(Item(v.key, q.prefix, q.delim)) else RowEntry(v)
  }

  function EntryKey(e: Entry): string {
    if e.RowEntry? then e.v.key else e.cp
  }

  predicate EntryBefore(e: Entry, f: Entry) {
    Less(EntryKey(e), EntryKey(f)) || (e.RowEntry? && f.RowEntry? && e.v.key == f.v.key && e.v.vseq > f.v.vseq)
  }

  ghost predicate InOrder(es: seq<Entry>) {
    forall i, j :: 0 <= i < j < |es| ==> EntryBefore(es[i], es[j])
  }

  /** An entry belongs to the listing past a marker. */
  ghost predicate Belongs(st: Stacks, q: Query, m: Marker, e: Entry) {
    match e
    case RowEntry(v) =>
      && Holds(st, v) && q.prefix <= v.key && !RollsUp(v.key, q.prefix, q.delim)
      && AtMost(m.key, v.key) && PastMarker(m.key, m.version, MarkerVSeq(st, m.key, m.version), v)
    case PrefixEntry(cp) =>
      && Less(m.key, cp)
      && exists v :: Holds(st, v) && q.prefix <= v.key && EntryOf(q, v) == e
  }

  /** The entries of the rows in turn, skipping what the marker covers and repeated prefixes. */
  function Entries(q: Query, km: string, rows: seq<Object>): seq<Entry> {
    if rows == [] then []
    else
      var acc := Entries(q, km, rows[..|rows| - 1]);
      var e := EntryOf(q, rows[|rows| - 1]);
      if e.PrefixEntry? && (AtMost(e.cp, km) || (acc != [] && acc[|acc| - 1] == e)) then acc else acc + [e]
  }

  ghost function Listing(st: Stacks, q: Query, m: Marker): seq<Entry> {
    Entries(q, m.key, VersionListing(st, q.prefix, m.key, m.version))
  }

  lemma EntryBeforeAsymmetric(e: Entry, f: Entry)
    requires EntryBefore(e, f)
    ensures !EntryBefore(f, e) && e != f
  {
    Trichotomy(EntryKey(e), EntryKey(f));
  }

  lemma EntryMonotone(q: Query, a: Object, b: Object)
    requires q.prefix <= a.key && q.prefix <= b.key && RowBefore(a, b)
    ensures EntryBefore(EntryOf(q, a), EntryOf(q, b)) || (EntryOf(q, a) == EntryOf(q, b) && EntryOf(q, b).PrefixEntry?)
  {
    if Less(a.key, b.key) {
      ItemMonotone(a.key, b.key, q.prefix, q.delim);
      ItemIsOwnItem(a.key, q.prefix, q.delim);
      ItemIsOwnItem(b.key, q.prefix, q.delim);
    }
  }

  ghost predicate Rows(q: Query, rows: seq<Object>) {
    RowsInOrder(rows) && forall i :: 0 <= i < |rows| ==> q.prefix <= rows[i].key
  }

  lemma {:induction false} EntriesElements(q: Query, km: string, rows: seq<Object>, e: Entry)
    ensures e in Entries(q, km, rows) <==>
            (exists i :: 0 <= i < |rows| && e == EntryOf(q, rows[i])) && (e.PrefixEntry? ==> Less(km, e.cp))
  {
    hide EntryOf, Less;
    if rows != [] {
      var n := |rows| - 1;
      EntriesElements(q, km, rows[..n], e);
      var acc, last := Entries(q, km, rows[..n]), EntryOf(q, rows[n]);
      if last.PrefixEntry? {
        Trichotomy(last.cp, km);
      }
      if i :| 0 <= i < |rows| && e == EntryOf(q, rows[i]) {
        assert i < n ==> rows[..n][i] == rows[i];
      }
      if i :| 0 <= i < n && e == EntryOf(q, rows[..n][i]) {
        assert rows[..n][i] == rows[i];
      }
      assert acc != [] ==> acc[|acc| - 1] in acc;
    }
  }

  /** Every entry so far comes from an earlier row, so it is before the next entry or equals it. */
  lemma EntriesBefore(q: Query, km: string, rows: seq<Object>, n: nat, acc: seq<Entry>)
    requires Rows(q, rows) && n < |rows| && acc == Entries(q, km, rows[..n])
    ensures forall i :: 0 <= i < |acc| ==>
                          EntryBefore(acc[i], EntryOf(q, rows[n])) || (acc[i] == EntryOf(q, rows[n]) && acc[i].PrefixEntry?)
  {
    forall i | 0 <= i < |acc|
      ensures EntryBefore(acc[i], EntryOf(q, rows[n])) || (acc[i] == EntryOf(q, rows[n]) && acc[i].PrefixEntry?)
    {
      EntriesElements(q, km, rows[..n], acc[i]);
      var j :| 0 <= j < n && acc[i] == EntryOf(q, rows[..n][j]);
      assert rows[..n][j] == rows[j];
      EntryMonotone(q, rows[j], rows[n]);
    }
  }

  /** An ordered list that ends before `e`, or with it, contains `e` only at its end. */
  lemma OnlyAtEnd(acc: seq<Entry>, e: Entry)
    requires InOrder(acc) && acc != [] && acc[|acc| - 1] != e
    requires forall i :: 0 <= i < |acc| ==> EntryBefore(acc[i], e) || acc[i] == e
    ensures forall i :: 0 <= i < |acc| ==> EntryBefore(acc[i], e)
  {
    var last := acc[|acc| - 1];
    forall i | 0 <= i < |acc| && acc[i] == e
      ensures false
    {
      assert EntryBefore(e, last);
      EntryBeforeAsymmetric(e, last);
    }
  }

  lemma {:induction false} EntriesInOrder(q: Query, km: string, rows: seq<Object>)
    requires Rows(q, rows)
    ensures InOrder(Entries(q, km, rows))
  {
    if rows != [] {
      var n := |rows| - 1;
      EntriesInOrder(q, km, rows[..n]);
      var acc, e := Entries(q, km, rows[..n]), EntryOf(q, rows[n]);
      EntriesBefore(q, km, rows, n, acc);
      if acc != [] && acc[|acc| - 1] != e {
        OnlyAtEnd(acc, e);
      }
    }
  }

  lemma {:induction false} EntriesUnique(a: seq<Entry>, b: seq<Entry>)
    requires InOrder(a) && InOrder(b)
    requires forall e :: e in a <==> e in b
    ensures a == b
  {
    assert b != [] ==> b[0] in b;
    if a != [] {
      assert a[0] in a && a[0] in b && b[0] in a;
      if a[0] != b[0] {
        EntryBeforeAsymmetric(a[0], b[0]);
      }
      forall e
        ensures e in a[1..] <==> e in b[1..]
      {
        EntryTail(a, e);
        EntryTail(b, e);
      }
      EntriesUnique(a[1..], b[1..]);
    }
  }

  lemma EntryTail(a: seq<Entry>, e: Entry)
    requires a != [] && InOrder(a)
    ensures e in a[1..] <==> e in a && e != a[0]
  {
    if e in a[1..] {
      var i :| 1 <= i < |a| && a[i] == e;
      EntryBeforeAsymmetric(a[0], a[i]);
    }
  }

  lemma ListingRows(st: Stacks, q: Query, m: Marker)
    requires ValidStacks(st) && Strict(st)
    ensures Rows(q, VersionListing(st, q.prefix, m.key, m.version))
  {
    var rows := VersionListing(st, q.prefix, m.key, m.version);
    StoreRuns.VersionListingContents(st, q.prefix, m.key, m.version);
    forall i | 0 <= i < |rows|
      ensures q.prefix <= rows[i].key
    {
      assert rows[i] in rows;
    }
  }

  /** The listing past a marker: in order, with exactly the entries that belong. */
  lemma ListingMeaning(st: Stacks, q: Query, m: Marker)
    requires ValidStacks(st) && Strict(st)
    ensures InOrder(Listing(st, q, m))
    ensures forall e :: e in Listing(st, q, m) <==> Belongs(st, q, m, e)
  {
    ListingRows(st, q, m);
    EntriesInOrder(q, m.key, VersionListing(st, q.prefix, m.key, m.version));
    forall e
      ensures e in Listing(st, q, m) <==> Belongs(st, q, m, e)
    {
      ListedBelongs(st, q, m, e);
      BelongsListed(st, q, m, e);
    }
  }

  lemma ListedBelongs(st: Stacks, q: Query, m: Marker, e: Entry)
    requires ValidStacks(st) && Strict(st)
    ensures e in Listing(st, q, m) ==> Belongs(st, q, m, e)
  {
    var rows := VersionListing(st, q.prefix, m.key, m.version);
    StoreRuns.VersionListingContents(st, q.prefix, m.key, m.version);
    EntriesElements(q, m.key, rows, e);
    if e in Listing(st, q, m) {
      var i :| 0 <= i < |rows| && e == EntryOf(q, rows[i]);
      assert rows[i] in rows;
    }
  }

  lemma BelongsListed(st: Stacks, q: Query, m: Marker, e: Entry)
    requires ValidStacks(st) && Strict(st)
    ensures Belongs(st, q, m, e) ==> e in Listing(st, q, m)
  {
    var rows := VersionListing(st, q.prefix, m.key, m.version);
    StoreRuns.VersionListingContents(st, q.prefix, m.key, m.version);
    EntriesElements(q, m.key, rows, e);
    if Belongs(st, q, m, e) {
      var v :| Holds(st, v) && q.prefix <= v.key && EntryOf(q, v) == e
               && (e.RowEntry? ==> v == e.v);
      if e.PrefixEntry? {
        PrefixAtMost(e.cp, v.key);
        LessThenAtMost(m.key, e.cp, v.key);
        LessIrreflexive(m.key);
      }
      assert v in rows;
      var i :| 0 <= i < |rows| && rows[i] == v;
    }
  }

  // ---------------------------------------------------------------------------------------------
  // Resuming at the position after an entry
  // ---------------------------------------------------------------------------------------------

  function PositionOf(e: Entry): Marker {
    match e
    case RowEntry(v) => Marker(v.key, v.versionId)
    case PrefixEntry(cp) => Marker(cp, "")
  }

  lemma MarkerNames(st: Stacks, v: Object)
    requires Pageable(st) && Holds(st, v)
    ensures MarkerVSeq(st, v.key, v.versionId) == v.vseq
  {
    var i :| 0 <= i < |st[v.key]| && st[v.key][i] == v;
    MemoryStore.CutOut(st[v.key], i, v.versionId);
  }

  /** What belongs past an entry of the listing is what belongs past the marker and comes later. */
  lemma BelongsAfter(st: Stacks, q: Query, m: Marker, e: Entry, f: Entry)
    requires Pageable(st) && Belongs(st, q, m, e)
    ensures Belongs(st, q, PositionOf(e), f) <==> Belongs(st, q, m, f) && EntryBefore(e, f)
  {
    Trichotomy(EntryKey(e), EntryKey(f));
    Trichotomy(m.key, EntryKey(e));
    Trichotomy(m.key, EntryKey(f));
    if Less(EntryKey(e), EntryKey(f)) {
      AtMostThenLess(m.key, EntryKey(e), EntryKey(f));
    }
    match e
    case RowEntry(v) =>
      MarkerNames(st, v);
      if f.PrefixEntry? && f.cp == v.key {
        PrefixIsNoRow(st, q, v, f.cp);
      }
    case PrefixEntry(cp) =>
      if f.RowEntry? && f.v.key == cp {
        PrefixIsNoRow(st, q, f.v, cp);
      }
  }

  /** A key that is listed as a row is not also a common prefix. */
  lemma PrefixIsNoRow(st: Stacks, q: Query, v: Object, cp: string)
    requires v.key == cp
    ensures !(!RollsUp(v.key, q.prefix, q.delim)
              && exists w :: Holds(st, w) && q.prefix <= w.key && EntryOf(q, w) == PrefixEntry(cp))
  {
    if w :| Holds(st, w) && q.prefix <= w.key && EntryOf(q, w) == PrefixEntry(cp) {
      ItemIsOwnItem(w.key, q.prefix, q.delim);
    }
  }

  /** Following the marker of the n-th entry lists exactly the rest. */
  lemma ListingRest(st: Stacks, q: Query, m: Marker, n: nat)
    requires Pageable(st) && 0 < n <= |Listing(st, q, m)|
    ensures Listing(st, q, PositionOf(Listing(st, q, m)[n - 1])) == Listing(st, q, m)[n..]
  {
    var es := Listing(st, q, m);
    var e := es[n - 1];
    ListingMeaning(st, q, m);
    assert e in es;
    ListingMeaning(st, q, PositionOf(e));
    forall f
      ensures f in es[n..] <==> f in Listing(st, q, PositionOf(e))
    {
      BelongsAfter(st, q, m, e, f);
      AfterIsTail(es, n, f);
    }
    EntriesUnique(es[n..], Listing(st, q, PositionOf(e)));
  }

  lemma AfterIsTail(es: seq<Entry>, n: nat, f: Entry)
    requires InOrder(es) && 0 < n <= |es|
    ensures f in es[n..] <==> f in es && EntryBefore(es[n - 1], f)
  {
    if f in es[n..] {
      var i :| n <= i < |es| && es[i] == f;
    }
    if f in es && EntryBefore(es[n - 1], f) {
      var i :| 0 <= i < |es| && es[i] == f;
      EntryBeforeAsymmetric(es[n - 1], f);
      assert es[n..][i - n] == f;
    }
  }

  // ---------------------------------------------------------------------------------------------
  // The response as a view of the entries
  // ---------------------------------------------------------------------------------------------

  function VersionsIn(es: seq<Entry>): seq<Object> {
    if es == [] then []
    else
      var e := es[|es| - 1];
      VersionsIn(es[..|es| - 1]) + (if e.RowEntry? && !e.v.deleteMarker then [e.v] else [])
  }

  function MarkersIn(es: seq<Entry>): seq<Object> {
    if es == [] then []
    else
      var e := es[|es| - 1];
      MarkersIn(es[..|es| - 1]) + (if e.RowEntry? && e.v.deleteMarker then [e.v] else [])
  }

  function PrefixesIn(q: Query, es: seq<Entry>): seq<string> {
    if es == [] then []
    else
      var e := es[|es| - 1];
      PrefixesIn(q, es[..|es| - 1]) + (if e.PrefixEntry? then [Enc(q, e.cp)] else [])
  }

  function LastPosition(es: seq<Entry>): Marker {
    if es == [] then Marker("", "") else PositionOf(es[|es| - 1])
  }

  /** The response shows the first `m` entries and says whether there are more. */
  ghost predicate Shows(q: Query, m: nat, es: seq<Entry>, r: Response) {
    && r.versions == VersionsIn(Take(es, m)) && r.markers == MarkersIn(Take(es, m))
    && r.prefixes == PrefixesIn(q, Take(es, m))
    && r.truncated == (|es| > m)
    && r.last == LastPosition(Take(es, m))
  }

  /** The loop body for one row. */
  function Visit(q: Query, km: string, m: nat, r: Response, v: Object): Response {
    var count := |r.versions| + |r.markers| + |r.prefixes|;
    if RollsUp(v.key, q.prefix, q.delim) then
      var cp := Item(v.key, q.prefix, q.delim);
      if AtMost(cp, km) then r
      else if r.prefixes != [] && r.prefixes[|r.prefixes| - 1] == Enc(q, cp) then r
      else if count == m then r.(truncated := true)
      else r.(prefixes := r.prefixes + [Enc(q, cp)], last := Marker(cp, ""))
    else if count == m then r.(truncated := true)
    else if v.deleteMarker then r.(markers := r.markers + [v], last := Marker(v.key, v.versionId))
    else r.(versions := r.versions + [v], last := Marker(v.key, v.versionId))
  }

  function Visitor(q: Query, km: string, m: nat): (Response, Object) -> Response {
    (acc: Response, v: Object) => Visit(q, km, m, acc, v)
  }

  predicate Full(acc: Response) {
    acc.truncated
  }

  function ScanAll(q: Query, km: string, m: nat, rows: seq<Object>): Response {
    Scanning.All(Visitor(q, km, m), Full, Nothing, rows)
  }

  lemma {:induction false} ViewCounts(q: Query, es: seq<Entry>)
    ensures |VersionsIn(es)| + |MarkersIn(es)| + |PrefixesIn(q, es)| == |es|
  {
    if es != [] {
      ViewCounts(q, es[..|es| - 1]);
    }
  }

  lemma ViewMore(q: Query, es: seq<Entry>, e: Entry)
    ensures VersionsIn(es + [e]) == VersionsIn(es) + (if e.RowEntry? && !e.v.deleteMarker then [e.v] else [])
    ensures MarkersIn(es + [e]) == MarkersIn(es) + (if e.RowEntry? && e.v.deleteMarker then [e.v] else [])
    ensures PrefixesIn(q, es + [e]) == PrefixesIn(q, es) + (if e.PrefixEntry? then [Enc(q, e.cp)] else [])
    ensures LastPosition(es + [e]) == PositionOf(e)
  {
    assert (es + [e])[..|es|] == es;
  }

  /** The last common prefix shown is this one exactly when it is the last entry shown. */
  lemma {:induction false} LastPrefix(q: Query, es: seq<Entry>, e: Entry)
    requires InOrder(es) && e.PrefixEntry?
    requires forall i :: 0 <= i < |es| ==> EntryBefore(es[i], e) || es[i] == e
    ensures (es != [] && es[|es| - 1] == e) <==>
            (PrefixesIn(q, es) != [] && PrefixesIn(q, es)[|PrefixesIn(q, es)| - 1] == Enc(q, e.cp))
  {
    if es != [] {
      var n := |es| - 1;
      if es[n].PrefixEntry? {
        EncInjective(q, es[n].cp, e.cp);
      } else {
        OnlyAtEnd(es, e);
        LastPrefix(q, es[..n], e);
        if n > 0 {
          EntryBeforeAsymmetric(es[n - 1], e);
        }
      }
    }
  }

  lemma {:induction false} ScanShows(q: Query, km: string, m: nat, rows: seq<Object>)
    requires Rows(q, rows) && m > 0
    ensures Shows(q, m, Entries(q, km, rows), ScanAll(q, km, m, rows))
  {
    if rows != [] {
      var n := |rows| - 1;
      ScanShows(q, km, m, rows[..n]);
      EntriesInOrder(q, km, rows[..n]);
      var acc, es := ScanAll(q, km, m, rows[..n]), Entries(q, km, rows[..n]);
      EntriesBefore(q, km, rows, n, es);
      if |es| > m {
        var e := EntryOf(q, rows[n]);
        assert Take(es + [e], m) == Take(es, m);
      } else {
        VisitShows(q, km, m, es, acc, rows[n]);
      }
    }
  }

  lemma VisitShows(q: Query, km: string, m: nat, es: seq<Entry>, acc: Response, v: Object)
    requires m > 0 && InOrder(es) && |es| <= m && Shows(q, m, es, acc)
    requires forall i :: 0 <= i < |es| ==> EntryBefore(es[i], EntryOf(q, v)) || (es[i] == EntryOf(q, v) && es[i].PrefixEntry?)
    ensures var e := EntryOf(q, v);
            var es' := if e.PrefixEntry? && (AtMost(e.cp, km) || (es != [] && es[|es| - 1] == e)) then es else es + [e];
            Shows(q, m, es', Visit(q, km, m, acc, v))
  {
    var e := EntryOf(q, v);
    ViewCounts(q, es);
    ViewMore(q, es, e);
    assert Take(es, m) == es;
    assert |es| == m ==> Take(es + [e], m) == es;
    if e.PrefixEntry? {
      LastPrefix(q, es, e);
    }
  }

  // ---------------------------------------------------------------------------------------------
  // What is shown, in terms of versions and delimiters
  // ---------------------------------------------------------------------------------------------

  /** The versions that show as themselves: under the prefix, with no delimiter behind it. */
  ghost predicate ShowsAsRow(st: Stacks, q: Query, v: Object) {
    Holds(st, v) && q.prefix <= v.key && !Delimited(v.key, q.prefix, q.delim)
  }

  /** `p` is the key of a version under the prefix, cut after the first delimiter behind it. */
  ghost predicate ShowsAsPrefix(st: Stacks, q: Query, p: string) {
    && q.delim != ""
    && exists v, i :: Holds(st, v) && q.prefix <= v.key && FirstAt(v.key, q.prefix, q.delim, i) && p == v.key[..i + |q.delim|]
  }

  /** Later keys, and the versions of the marker's key that are older than the version it names. */
  ghost predicate AfterMarker(st: Stacks, m: Marker, v: Object) {
    || Less(m.key, v.key)
    || (v.key == m.key && exists w :: Holds(st, w) && w.key == m.key && w.versionId == m.version && v.vseq < w.vseq)
  }

  lemma EntryIsRow(q: Query, v: Object)
    requires q.prefix <= v.key
    ensures EntryOf(q, v) == RowEntry(v) <==> !Delimited(v.key, q.prefix, q.delim)
    ensures EntryOf(q, v).RowEntry? <==> !Delimited(v.key, q.prefix, q.delim)
  {
    hide RollsUp, Item, Delimited;
    ItemMeaning(v.key, q.prefix, q.delim);
  }

  /** The row that gives a prefix entry is cut where its delimiter first occurs. */
  lemma PrefixEntryCut(q: Query, v: Object, p: string, i: int)
    requires q.prefix <= v.key && q.delim != "" && FirstAt(v.key, q.prefix, q.delim, i) && p == v.key[..i + |q.delim|]
    ensures EntryOf(q, v) == PrefixEntry(p)
  {
    hide RollsUp, Item;
    ItemMeaning(v.key, q.prefix, q.delim);
    FirstDelimits(v.key, q.prefix, q.delim, i);
  }

  lemma PrefixEntryFirst(q: Query, v: Object, p: string) returns (i: int)
    requires q.prefix <= v.key && EntryOf(q, v) == PrefixEntry(p)
    ensures q.delim != "" && FirstAt(v.key, q.prefix, q.delim, i) && p == v.key[..i + |q.delim|]
  {
    hide RollsUp, Item;
    ItemMeaning(v.key, q.prefix, q.delim);
    i :| FirstAt(v.key, q.prefix, q.delim, i) && Item(v.key, q.prefix, q.delim) == v.key[..i + |q.delim|];
  }

  lemma EntryIsPrefix(st: Stacks, q: Query, p: string)
    ensures ShowsAsPrefix(st, q, p) <==> exists v :: Holds(st, v) && q.prefix <= v.key && EntryOf(q, v) == PrefixEntry(p)
  {
    hide EntryOf, Holds;
    if v :| Holds(st, v) && q.prefix <= v.key && EntryOf(q, v) == PrefixEntry(p) {
      var i := PrefixEntryFirst(q, v, p);
    }
    if ShowsAsPrefix(st, q, p) {
      var v, i :| Holds(st, v) && q.prefix <= v.key && FirstAt(v.key, q.prefix, q.delim, i) && p == v.key[..i + |q.delim|];
      PrefixEntryCut(q, v, p, i);
    }
  }

  lemma AfterMarkerIff(st: Stacks, m: Marker, v: Object)
    requires Pageable(st) && Holds(st, v)
    ensures AtMost(m.key, v.key) && PastMarker(m.key, m.version, MarkerVSeq(st, m.key, m.version), v) <==> AfterMarker(st, m, v)
  {
    Trichotomy(m.key, v.key);
    if v.key == m.key {
      FindMeaning(st[m.key], m.version);
      if w :| Holds(st, w) && w.key == m.key && w.versionId == m.version && v.vseq < w.vseq {
        MarkerNames(st, w);
      }
    }
  }

  /** What belongs past a marker, row by row and prefix by prefix. */
  lemma ListingShows(st: Stacks, q: Query, m: Marker)
    requires Pageable(st)
    ensures forall v :: RowEntry(v) in Listing(st, q, m) <==> ShowsAsRow(st, q, v) && AfterMarker(st, m, v)
    ensures forall p :: PrefixEntry(p) in Listing(st, q, m) <==> ShowsAsPrefix(st, q, p) && Less(m.key, p)
  {
    hide Listing, RollsUp, Item, Delimited, AfterMarker, ShowsAsPrefix, Less, PastMarker, MarkerVSeq;
    ListingMeaning(st, q, m);
    forall v
      ensures RowEntry(v) in Listing(st, q, m) <==> ShowsAsRow(st, q, v) && AfterMarker(st, m, v)
    {
      if Holds(st, v) && q.prefix <= v.key {
        EntryIsRow(q, v);
        AfterMarkerIff(st, m, v);
      }
    }
    forall p
      ensures PrefixEntry(p) in Listing(st, q, m) <==> ShowsAsPrefix(st, q, p) && Less(m.key, p)
    {
      EntryIsPrefix(st, q, p);
    }
  }

  lemma {:induction false} ViewElements(q: Query, es: seq<Entry>)
    ensures forall v :: v in VersionsIn(es) <==> RowEntry(v) in es && !v.deleteMarker
    ensures forall v :: v in MarkersIn(es) <==> RowEntry(v) in es && v.deleteMarker
    ensures forall p :: Enc(q, p) in PrefixesIn(q, es) <==> PrefixEntry(p) in es
  {
    if es != [] {
      var n := |es| - 1;
      ViewElements(q, es[..n]);
      assert es == es[..n] + [es[n]];
      forall p
        ensures Enc(q, p) in PrefixesIn(q, es) <==> PrefixEntry(p) in es
      {
        if es[n].PrefixEntry? {
          EncInjective(q, es[n].cp, p);
        }
      }
    }
  }

  lemma {:induction false} VersionsInOrder(q: Query, es: seq<Entry>)
    requires InOrder(es)
    ensures RowsInOrder(VersionsIn(es))
  {
    if es != [] {
      var n := |es| - 1;
      VersionsInOrder(q, es[..n]);
      ViewElements(q, es[..n]);
      var vs := VersionsIn(es[..n]);
      forall i | 0 <= i < |vs| && es[n].RowEntry?
        ensures RowBefore(vs[i], es[n].v)
      {
        assert RowEntry(vs[i]) in es[..n];
      }
    }
  }

  lemma {:induction false} MarkersInOrder(q: Query, es: seq<Entry>)
    requires InOrder(es)
    ensures RowsInOrder(MarkersIn(es))
  {
    if es != [] {
      var n := |es| - 1;
      MarkersInOrder(q, es[..n]);
      ViewElements(q, es[..n]);
      var ms := MarkersIn(es[..n]);
      forall i | 0 <= i < |ms| && es[n].RowEntry?
        ensures RowBefore(ms[i], es[n].v)
      {
        assert RowEntry(ms[i]) in es[..n];
      }
    }
  }

  /** The rows of a view come in listing order, versions and delete markers each by themselves. */
  lemma ViewInOrder(q: Query, es: seq<Entry>)
    requires InOrder(es)
    ensures RowsInOrder(VersionsIn(es)) && RowsInOrder(MarkersIn(es))
  {
    VersionsInOrder(q, es);
    MarkersInOrder(q, es);
  }

  /** The prefixes are those of an ascending list, written the way the request asks. */
  ghost predicate AscendingPrefixes(q: Query, prefixes: seq<string>) {
    exists ps :: Ascending(ps) && |ps| == |prefixes| && forall i :: 0 <= i < |ps| ==> prefixes[i] == Enc(q, ps[i])
  }

  function RawPrefixes(es: seq<Entry>): seq<string> {
    if es == [] then []
    else RawPrefixes(es[..|es| - 1]) + (if es[|es| - 1].PrefixEntry? then [es[|es| - 1].cp] else [])
  }

  lemma {:induction false} RawElements(es: seq<Entry>, p: string)
    ensures p in RawPrefixes(es) <==> PrefixEntry(p) in es
  {
    if es != [] {
      RawElements(es[..|es| - 1], p);
      assert es == es[..|es| - 1] + [es[|es| - 1]];
    }
  }

  lemma {:induction false} RawEncoded(q: Query, es: seq<Entry>)
    ensures |RawPrefixes(es)| == |PrefixesIn(q, es)|
    ensures forall i :: 0 <= i < |RawPrefixes(es)| ==> PrefixesIn(q, es)[i] == Enc(q, RawPrefixes(es)[i])
  {
    hide Enc;
    if es != [] {
      RawEncoded(q, es[..|es| - 1]);
    }
  }

  lemma {:induction false} RawAscending(es: seq<Entry>)
    requires InOrder(es)
    ensures Ascending(RawPrefixes(es))
  {
    if es != [] {
      var n := |es| - 1;
      RawAscending(es[..n]);
      var init := RawPrefixes(es[..n]);
      forall i | 0 <= i < |init| && es[n].PrefixEntry?
        ensures Less(init[i], es[n].cp)
      {
        RawElements(es[..n], init[i]);
        assert PrefixEntry(init[i]) in es[..n];
      }
    }
  }

  lemma PrefixesInOrder(q: Query, es: seq<Entry>)
    requires InOrder(es)
    ensures AscendingPrefixes(q, PrefixesIn(q, es))
  {
    RawAscending(es);
    RawEncoded(q, es);
  }

  /** What one response shows: what belongs past the marker, up to its last entry when there are more. */
  ghost predicate ShowsPast(st: Stacks, q: Query, m: Marker, r: Response) {
    && (forall v :: v in r.versions <==>
                      ShowsAsRow(st, q, v) && !v.deleteMarker && AfterMarker(st, m, v) && (r.truncated ==> !AfterMarker(st, r.last, v)))
    && (forall v :: v in r.markers <==>
                      ShowsAsRow(st, q, v) && v.deleteMarker && AfterMarker(st, m, v) && (r.truncated ==> !AfterMarker(st, r.last, v)))
    && (forall p :: Enc(q, p) in r.prefixes <==>
                      ShowsAsPrefix(st, q, p) && Less(m.key, p) && (r.truncated ==> !Less(r.last.key, p)))
    && RowsInOrder(r.versions) && RowsInOrder(r.markers) && AscendingPrefixes(q, r.prefixes)
  }

  lemma FirstEntries(es: seq<Entry>, n: nat, e: Entry)
    requires InOrder(es) && n <= |es|
    ensures e in es[..n] <==> e in es && e !in es[n..]
  {
    if e in es[..n] && e in es[n..] {
      var i :| 0 <= i < n && es[..n][i] == e;
      var j :| n <= j < |es| && es[j] == e;
      EntryBeforeAsymmetric(es[i], es[j]);
    }
    if e in es && e !in es[n..] {
      var i :| 0 <= i < |es| && es[i] == e;
      assert i < n;
      assert es[..n][i] == e;
    }
  }

  /** The entries of a page are those past the marker that are not past the page's own position. */
  lemma PageEntries(st: Stacks, q: Query, m: Marker, n: nat, r: Response, e: Entry)
    requires Pageable(st) && n > 0 && Shows(q, n, Listing(st, q, m), r)
    ensures e in Take(Listing(st, q, m), n) <==>
            e in Listing(st, q, m) && (r.truncated ==> e !in Listing(st, q, r.last))
  {
    hide Listing;
    if r.truncated {
      ListingRest(st, q, m, n);
      ListingMeaning(st, q, m);
      FirstEntries(Listing(st, q, m), n, e);
    }
  }

  lemma PageRows(st: Stacks, q: Query, m: Marker, n: nat, r: Response, v: Object)
    requires Pageable(st) && n > 0 && Shows(q, n, Listing(st, q, m), r)
    ensures v in r.versions <==>
            ShowsAsRow(st, q, v) && !v.deleteMarker && AfterMarker(st, m, v) && (r.truncated ==> !AfterMarker(st, r.last, v))
    ensures v in r.markers <==>
            ShowsAsRow(st, q, v) && v.deleteMarker && AfterMarker(st, m, v) && (r.truncated ==> !AfterMarker(st, r.last, v))
  {
    hide Listing, ShowsAsRow, ShowsAsPrefix, AfterMarker, Less, Enc, Take;
    ListingShows(st, q, m);
    ListingShows(st, q, r.last);
    ViewElements(q, Take(Listing(st, q, m), n));
    PageEntries(st, q, m, n, r, RowEntry(v));
  }

  lemma PagePrefixes(st: Stacks, q: Query, m: Marker, n: nat, r: Response, p: string)
    requires Pageable(st) && n > 0 && Shows(q, n, Listing(st, q, m), r)
    ensures Enc(q, p) in r.prefixes <==>
            ShowsAsPrefix(st, q, p) && Less(m.key, p) && (r.truncated ==> !Less(r.last.key, p))
  {
    hide Listing, ShowsAsRow, ShowsAsPrefix, AfterMarker, Less, Enc, Take;
    ListingShows(st, q, m);
    ListingShows(st, q, r.last);
    ViewElements(q, Take(Listing(st, q, m), n));
    PageEntries(st, q, m, n, r, PrefixEntry(p));
  }

  lemma PageShowsPast(st: Stacks, q: Query, m: Marker, n: nat, r: Response)
    requires Pageable(st) && n > 0 && Shows(q, n, Listing(st, q, m), r)
    ensures ShowsPast(st, q, m, r)
  {
    hide Listing, ShowsAsRow, ShowsAsPrefix, AfterMarker, Less, Enc, Take;
    var es := Take(Listing(st, q, m), n);
    ListingMeaning(st, q, m);
    TakeInOrder(Listing(st, q, m), n);
    ViewInOrder(q, es);
    PrefixesInOrder(q, es);
    forall v
      ensures v in r.versions <==>
              ShowsAsRow(st, q, v) && !v.deleteMarker && AfterMarker(st, m, v) && (r.truncated ==> !AfterMarker(st, r.last, v))
      ensures v in r.markers <==>
              ShowsAsRow(st, q, v) && v.deleteMarker && AfterMarker(st, m, v) && (r.truncated ==> !AfterMarker(st, r.last, v))
    {
      PageRows(st, q, m, n, r, v);
    }
    forall p
      ensures Enc(q, p) in r.prefixes <==>
              ShowsAsPrefix(st, q, p) && Less(m.key, p) && (r.truncated ==> !Less(r.last.key, p))
    {
      PagePrefixes(st, q, m, n, r, p);
    }
  }

  lemma TakeInOrder(es: seq<Entry>, n: nat)
    requires InOrder(es)
    ensures InOrder(Take(es, n))
  {
  }

  /** The whole listing: every version under the prefix, by itself or cut off at the delimiter. */
  lemma WholeListing(st: Stacks, q: Query)
    requires Pageable(st)
    ensures forall v :: v in VersionsIn(Listing(st, q, Marker("", ""))) <==> ShowsAsRow(st, q, v) && !v.deleteMarker
    ensures forall v :: v in MarkersIn(Listing(st, q, Marker("", ""))) <==> ShowsAsRow(st, q, v) && v.deleteMarker
    ensures forall p :: Enc(q, p) in PrefixesIn(q, Listing(st, q, Marker("", ""))) <==> ShowsAsPrefix(st, q, p)
    ensures RowsInOrder(VersionsIn(Listing(st, q, Marker("", "")))) && RowsInOrder(MarkersIn(Listing(st, q, Marker("", ""))))
    ensures AscendingPrefixes(q, PrefixesIn(q, Listing(st, q, Marker("", ""))))
  {
    hide Listing, Enc;
    var es := Listing(st, q, Marker("", ""));
    ListingMeaning(st, q, Marker("", ""));
    ListingShows(st, q, Marker("", ""));
    ViewElements(q, es);
    ViewInOrder(q, es);
    PrefixesInOrder(q, es);
    forall v | ShowsAsRow(st, q, v)
      ensures AfterMarker(st, Marker("", ""), v)
    {
      assert v.key != "";
    }
  }

  // ---------------------------------------------------------------------------------------------
  // The scan loop
  // ---------------------------------------------------------------------------------------------

  function ScanFrom(q: Query, km: string, m: nat, acc: Response, rest: seq<Object>): Response {
    Scanning.From(Visitor(q, km, m), Full, acc, rest)
  }

  /** Continuing after the i-th row lists exactly the rows behind it. */
  lemma RowsRest(st: Stacks, prefix: string, m: Marker, rows: seq<Object>, i: nat)
    requires Pageable(st) && rows == VersionListing(st, prefix, m.key, m.version) && 0 < i <= |rows|
    ensures VersionListing(st, prefix, rows[i - 1].key, rows[i - 1].versionId) == rows[i..]
  {
    var c := rows[i - 1];
    StoreRuns.VersionListingContents(st, prefix, m.key, m.version);
    StoreRuns.VersionListingContents(st, prefix, c.key, c.versionId);
    assert c in rows;
    forall v
      ensures v in rows[i..] <==> v in VersionListing(st, prefix, c.key, c.versionId)
    {
      RowPast(st, m, c, v);
      RowTail(rows, i, v);
    }
    RowsUnique(rows[i..], VersionListing(st, prefix, c.key, c.versionId));
  }

  lemma RowPast(st: Stacks, m: Marker, c: Object, v: Object)
    requires Pageable(st) && Holds(st, c)
    requires AtMost(m.key, c.key) && PastMarker(m.key, m.version, MarkerVSeq(st, m.key, m.version), c)
    ensures AtMost(c.key, v.key) && PastMarker(c.key, c.versionId, MarkerVSeq(st, c.key, c.versionId), v) <==> RowBefore(c, v)
    ensures RowBefore(c, v) ==> AtMost(m.key, v.key) && PastMarker(m.key, m.version, MarkerVSeq(st, m.key, m.version), v)
  {
    MarkerNames(st, c);
    Trichotomy(c.key, v.key);
    if Less(c.key, v.key) {
      AtMostThenLess(m.key, c.key, v.key);
      LessIrreflexive(v.key);
    }
  }

  lemma RowTail(rows: seq<Object>, n: nat, v: Object)
    requires RowsInOrder(rows) && 0 < n <= |rows|
    ensures v in rows[n..] <==> v in rows && RowBefore(rows[n - 1], v)
  {
    if v in rows[n..] {
      var i :| n <= i < |rows| && rows[i] == v;
    }
    if v in rows && RowBefore(rows[n - 1], v) {
      var i :| 0 <= i < |rows| && rows[i] == v;
      RowBeforeAsymmetric(rows[n - 1], v);
      assert rows[n..][i - n] == v;
    }
  }

  lemma NextPage(st: Stacks, prefix: string, m: Marker, scanPage: nat, page: seq<Object>)
    requires Pageable(st) && scanPage > 0 && page == ListVersions(st, prefix, m.key, m.version, scanPage)
    ensures |page| < scanPage ==> page == VersionListing(st, prefix, m.key, m.version)
    ensures |page| >= scanPage ==>
              VersionListing(st, prefix, m.key, m.version) ==
              page + VersionListing(st, prefix, page[|page| - 1].key, page[|page| - 1].versionId)
  {
    hide VersionListing;
    var rest := VersionListing(st, prefix, m.key, m.version);
    if |rest| >= scanPage {
      RowsRest(st, prefix, m, rest, scanPage);
    }
  }

  method ScanRows(store: MemoryStore.Memory, q: Query, marker: Marker, maxKeys: nat, scanPage: nat) returns (r: Response)
    requires Pageable(store.objects) && scanPage > 0
    ensures r == ScanFrom(q, marker.key, maxKeys, Nothing, VersionListing(store.objects, q.prefix, marker.key, marker.version))
  {
    r := Nothing;
    var cur := marker;
    ghost var rest := VersionListing(store.objects, q.prefix, cur.key, cur.version);
    while true
      invariant rest == VersionListing(store.objects, q.prefix, cur.key, cur.version) && !r.truncated
      invariant ScanFrom(q, marker.key, maxKeys, r, rest) ==
                ScanFrom(q, marker.key, maxKeys, Nothing, VersionListing(store.objects, q.prefix, marker.key, marker.version))
      decreases |rest|
    {
      var page := store.ListVersionRows(q.prefix, cur.key, cur.version, scanPage);
      NextPage(store.objects, q.prefix, cur, scanPage, page);
      ghost var before := r;
      r := Scanning.ScanBatch(Visitor(q, marker.key, maxKeys), Full, r, page);
      if |page| < scanPage {
        return;
      }
      cur := Marker(page[|page| - 1].key, page[|page| - 1].versionId);
      rest := VersionListing(store.objects, q.prefix, cur.key, cur.version);
      Scanning.FromSplits(Visitor(q, marker.key, maxKeys), Full, before, page, rest);
      if r.truncated {
        return;
      }
    }
  }

  /** One response: the first `maxKeys` entries past the marker, whatever the index page size. */
  method ListObjectVersions(store: MemoryStore.Memory, q: Query, marker: Marker, maxKeys: nat, scanPage: nat) returns (r: Response)
    requires Pageable(store.objects) && scanPage > 0
    ensures maxKeys == 0 ==> r == Nothing
    ensures maxKeys > 0 ==> Shows(q, maxKeys, Listing(store.objects, q, marker), r)
    ensures maxKeys > 0 ==> ShowsPast(store.objects, q, marker, r)
    ensures r.truncated ==> |r.versions| + |r.markers| + |r.prefixes| == maxKeys
  {
    if maxKeys == 0 {
      return Nothing;
    }
    r := ScanRows(store, q, marker, maxKeys, scanPage);
    ghost var rows := VersionListing(store.objects, q.prefix, marker.key, marker.version);
    Scanning.WholeScan(Visitor(q, marker.key, maxKeys), Full, Nothing, rows);
    ListingRows(store.objects, q, marker);
    ScanShows(q, marker.key, maxKeys, rows);
    PageShowsPast(store.objects, q, marker, maxKeys, r);
    ViewCounts(q, Take(Listing(store.objects, q, marker), maxKeys));
  }

  // ---------------------------------------------------------------------------------------------
  // Following the markers to the end
  // ---------------------------------------------------------------------------------------------

  lemma {:induction false} ViewConcat(q: Query, a: seq<Entry>, b: seq<Entry>)
    ensures VersionsIn(a + b) == VersionsIn(a) + VersionsIn(b)
    ensures MarkersIn(a + b) == MarkersIn(a) + MarkersIn(b)
    ensures PrefixesIn(q, a + b) == PrefixesIn(q, a) + PrefixesIn(q, b)
  {
    if b == [] {
      assert a + b == a;
    } else {
      var n := |b| - 1;
      assert (a + b)[..|a + b| - 1] == a + b[..n];
      ViewConcat(q, a, b[..n]);
    }
  }

  lemma PageThenRest(st: Stacks, q: Query, marker: Marker, m: nat, r: Response)
    requires Pageable(st) && m > 0 && Shows(q, m, Listing(st, q, marker), r)
    ensures var es := Listing(st, q, marker);
            !r.truncated ==> r.versions == VersionsIn(es) && r.markers == MarkersIn(es) && r.prefixes == PrefixesIn(q, es)
    ensures var es, rest := Listing(st, q, marker), Listing(st, q, r.last);
            r.truncated ==>
              && |rest| < |es|
              && VersionsIn(es) == r.versions + VersionsIn(rest)
              && MarkersIn(es) == r.markers + MarkersIn(rest)
              && PrefixesIn(q, es) == r.prefixes + PrefixesIn(q, rest)
  {
    if r.truncated {
      ListingRest(st, q, marker, m);
      ViewSplits(q, m, Listing(st, q, marker));
    }
  }

  lemma ViewSplits(q: Query, m: nat, es: seq<Entry>)
    requires m <= |es|
    ensures VersionsIn(es) == VersionsIn(Take(es, m)) + VersionsIn(es[m..])
    ensures MarkersIn(es) == MarkersIn(Take(es, m)) + MarkersIn(es[m..])
    ensures PrefixesIn(q, es) == PrefixesIn(q, Take(es, m)) + PrefixesIn(q, es[m..])
  {
    assert es == es[..m] + es[m..];
    ViewConcat(q, es[..m], es[m..]);
  }

  /** What has been read so far and what lies past the marker make up the listing. */
  ghost predicate ReadUpTo(st: Stacks, q: Query, versions: seq<Object>, markers: seq<Object>, prefixes: seq<string>, cur: Marker) {
    var all, rest := Listing(st, q, Marker("", "")), Listing(st, q, cur);
    && VersionsIn(all) == versions + VersionsIn(rest)
    && MarkersIn(all) == markers + MarkersIn(rest)
    && PrefixesIn(q, all) == prefixes + PrefixesIn(q, rest)
  }

  lemma PageAdds(st: Stacks, q: Query, versions: seq<Object>, markers: seq<Object>, prefixes: seq<string>, cur: Marker, m: nat, r: Response)
    requires Pageable(st) && m > 0 && Shows(q, m, Listing(st, q, cur), r)
    requires ReadUpTo(st, q, versions, markers, prefixes, cur)
    ensures !r.truncated ==>
              && versions + r.versions == VersionsIn(Listing(st, q, Marker("", "")))
              && markers + r.markers == MarkersIn(Listing(st, q, Marker("", "")))
              && prefixes + r.prefixes == PrefixesIn(q, Listing(st, q, Marker("", "")))
    ensures r.truncated ==>
              && |Listing(st, q, r.last)| < |Listing(st, q, cur)|
              && ReadUpTo(st, q, versions + r.versions, markers + r.markers, prefixes + r.prefixes, r.last)
  {
    PageThenRest(st, q, cur, m, r);
    if r.truncated {
      var rest := Listing(st, q, r.last);
      Associative(versions, r.versions, VersionsIn(rest));
      Associative(markers, r.markers, MarkersIn(rest));
      Associative(prefixes, r.prefixes, PrefixesIn(q, rest));
    }
  }

  /**
   * Paging by markers from the start to exhaustion returns every version row, every delete marker
   * and every common prefix of the listing exactly once, in order.
   */
  method ListEverything(store: MemoryStore.Memory, q: Query, m: nat, scanPage: nat)
    returns (versions: seq<Object>, markers: seq<Object>, prefixes: seq<string>)
    requires Pageable(store.objects) && scanPage > 0 && m > 0
    ensures versions == VersionsIn(Listing(store.objects, q, Marker("", "")))
    ensures markers == MarkersIn(Listing(store.objects, q, Marker("", "")))
    ensures prefixes == PrefixesIn(q, Listing(store.objects, q, Marker("", "")))
    ensures RowsInOrder(versions) && forall v :: v in versions <==> ShowsAsRow(store.objects, q, v) && !v.deleteMarker
    ensures RowsInOrder(markers) && forall v :: v in markers <==> ShowsAsRow(store.objects, q, v) && v.deleteMarker
    ensures AscendingPrefixes(q, prefixes) && forall p :: Enc(q, p) in prefixes <==> ShowsAsPrefix(store.objects, q, p)
  {
    ghost var st := store.objects;
    WholeListing(st, q);
    versions, markers, prefixes := [], [], [];
    var cur := Marker("", "");
    while true
      invariant ReadUpTo(st, q, versions, markers, prefixes, cur)
      decreases |Listing(st, q, cur)|
    {
      var r := ListObjectVersions(store, q, cur, m, scanPage);
      PageAdds(st, q, versions, markers, prefixes, cur, m, r);
      versions, markers, prefixes := versions + r.versions, markers + r.markers, prefixes + r.prefixes;
      if !r.truncated {
        return;
      }
      cur := r.last;
    }
  }

  /** From the start, every stored row under the prefix is in the listing, itself or rolled up. */
  lemma NothingMissed(st: Stacks, q: Query, e: Entry)
    requires Pageable(st)
    ensures e in Listing(st, q, Marker("", "")) <==> exists v :: Holds(st, v) && q.prefix <= v.key && EntryOf(q, v) == e
  {
    ListingMeaning(st, q, Marker("", ""));
    if v :| Holds(st, v) && q.prefix <= v.key && EntryOf(q, v) == e {
      assert v.key != "" && Less("", v.key);
      if e.PrefixEntry? {
        assert e.cp != "";
      }
    }
  }
}
