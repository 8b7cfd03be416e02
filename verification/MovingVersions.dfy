/**
 * Version listing while the index changes: every index read of every response may see a different
 * index. A resume position names a version, and the store looks its stamp up again, so what a
 * response returns depends on what has become of that version. Here is exactly when a resumed
 * listing is the right one, what goes wrong otherwise, and what a client following the markers is
 * shown as long as it is right.
 */
module MovingVersions {
  import opened ByteStrings
  import opened Objects
  import opened Rollup
  import opened StoreRefinement
  import opened VersionPaging
  import Mem = MemoryStore
  import TiedVersions
  import Versioning

  // ---------------------------------------------------------------------------------------------
  // Resuming at a marker
  // ---------------------------------------------------------------------------------------------

  /** A marker with the stamp its version had when it was returned; no version after a common prefix. */
  datatype Position = Position(key: string, version: string, vseq: int)

  const Start := Position("", "", 0)

  /** The row comes after the position. */
  predicate RowPast(p: Position, v: Object) {
    Less(p.key, v.key) || (p.version != "" && v.key == p.key && v.vseq < p.vseq)
  }

  /** The stamp the marker stands for now separates the versions of its key as its old stamp does. */
  ghost predicate ResumesRight(st: Stacks, prefix: string, p: Position) {
    p.version != "" ==>
      forall v :: Holds(st, v) && v.key == p.key && prefix <= v.key ==>
                    (v.vseq < p.vseq <==> v.vseq < MarkerVSeq(st, p.key, p.version))
  }

  /** Over any later index, the resumed listing holds exactly the rows after the position iff the marker separates as before. */
  lemma ResumesRightIff(st: Stacks, prefix: string, p: Position)
    requires TiedVersions.Stamped(st)
    ensures (forall v :: v in VersionListing(st, prefix, p.key, p.version) <==> Holds(st, v) && prefix <= v.key && RowPast(p, v))
            <==> ResumesRight(st, prefix, p)
  {
    forall v
      ensures v in VersionListing(st, prefix, p.key, p.version) <==> ResumedRow(st, prefix, p, v)
    {
      ResumedRows(st, prefix, p, v);
    }
    if !ResumesRight(st, prefix, p) {
      var v :| Holds(st, v) && v.key == p.key && prefix <= v.key && (v.vseq < p.vseq <==> v.vseq >= MarkerVSeq(st, p.key, p.version));
      Trichotomy(p.key, v.key);
      assert ResumedRow(st, prefix, p, v) != RowPast(p, v);
    }
    forall v | ResumesRight(st, prefix, p) && Holds(st, v) && prefix <= v.key
      ensures ResumedRow(st, prefix, p, v) <==> RowPast(p, v)
    {
      Trichotomy(p.key, v.key);
    }
  }

  /** A row the store returns when asked for what follows the marker. */
  predicate ResumedRow(st: Stacks, prefix: string, p: Position, v: Object) {
    && Holds(st, v) && prefix <= v.key
    && (Less(p.key, v.key) || (p.version != "" && v.key == p.key && v.vseq < MarkerVSeq(st, p.key, p.version)))
  }

  lemma ResumedRows(st: Stacks, prefix: string, p: Position, v: Object)
    requires TiedVersions.Stamped(st)
    ensures v in VersionListing(st, prefix, p.key, p.version) <==> ResumedRow(st, prefix, p, v)
  {
    TiedVersions.ListingMembers(st, prefix, p.key, p.version, v);
    Trichotomy(p.key, v.key);
  }

  /** A marker whose version is still there with its stamp resumes right. */
  lemma StandingMarker(st: Stacks, prefix: string, p: Position)
    requires MarkerVSeq(st, p.key, p.version) == p.vseq
    ensures ResumesRight(st, prefix, p)
  {
  }

  /** When the version a marker names is gone, resuming there skips every remaining version of that key. */
  lemma GoneMarkerSkipsKey(st: Stacks, prefix: string, km: string, vm: string, v: Object)
    requires ValidStacks(st) && Find(VersionsOf(st, km), vm).None?
    ensures v in VersionListing(st, prefix, km, vm) <==> Holds(st, v) && prefix <= v.key && Less(km, v.key)
  {
    TiedVersions.ListingMembers(st, prefix, km, vm, v);
    Trichotomy(km, v.key);
  }

  lemma {:induction false} SortElements(s: seq<Object>, v: Object)
    requires v in Mem.SortVersions(s)
    ensures exists u :: u in s && u.(isLatest := false) == v.(isLatest := false)
  {
    Mem.StableSortMeaning(s);
    var i :| 0 <= i < |Mem.SortVersions(s)| && Mem.SortVersions(s)[i] == v;
    assert Mem.StableSort(s)[i] in Mem.StableSort(s);
  }

  /** First failing input: the marker's version deleted between two pages; every older version is still there and missed. */
  lemma DeletedMarkerMisses(st: Stacks, prefix: string, c: Object, v: Object, st': Stacks)
    requires Pageable(st) && Holds(st, c) && Holds(st, v) && prefix <= c.key && v.key == c.key && v.vseq < c.vseq
    requires st' == Mem.DeleteVersion(st, c.key, c.versionId)
    ensures v in VersionListing(st, prefix, c.key, c.versionId)
    ensures Versioning.Keeps(st', v)
    ensures forall w :: w in VersionListing(st', prefix, c.key, c.versionId) ==> w.key != v.key
  {
    TiedVersions.ResumedMembers(st, prefix, c, v);
    assert c.versionId != v.versionId by {
      MarkerNames(st, c);
      MarkerNames(st, v);
    }
    Versioning.DeleteVersionKeeps(st, c.key, c.versionId, v);
    Mem.DeleteVersionKeepsValid(st, c.key, c.versionId);
    NoLongerFound(st, c, st');
    forall w | w in VersionListing(st', prefix, c.key, c.versionId)
      ensures w.key != v.key
    {
      GoneMarkerSkipsKey(st', prefix, c.key, c.versionId, w);
      LessIrreflexive(c.key);
    }
  }

  lemma NoLongerFound(st: Stacks, c: Object, st': Stacks)
    requires Holds(st, c) && st' == Mem.DeleteVersion(st, c.key, c.versionId)
    ensures Find(VersionsOf(st', c.key), c.versionId).None?
  {
    var now, rest := VersionsOf(st', c.key), Mem.Others(st[c.key], c.versionId);
    FindMeaning(now, c.versionId);
    FindMeaning(st[c.key], c.versionId);
    Mem.OthersElements(st[c.key], c.versionId);
    forall i | 0 <= i < |now|
      ensures now[i].versionId != c.versionId
    {
      SortElements(rest, now[i]);
    }
  }

  /**
   * Second failing input: the marker is a version that is overwritten under its own id between two
   * pages, as the null version is; its stamp rises, and every version stamped in between, returned
   * before, is returned again.
   */
  lemma RestampedMarkerRepeats(st: Stacks, prefix: string, c: Object, v: Object, o: Object, st': Stacks)
    requires Pageable(st) && Holds(st, c) && Holds(st, v) && prefix <= c.key && v.key == c.key && c.vseq < v.vseq < o.vseq
    requires o.key == c.key && o.versionId == c.versionId && st' == Mem.Put(st, o)
    ensures v !in VersionListing(st, prefix, c.key, c.versionId)
    ensures exists w :: w in VersionListing(st', prefix, c.key, c.versionId) && w.(isLatest := false) == v.(isLatest := false)
  {
    TiedVersions.ResumedMembers(st, prefix, c, v);
    LessIrreflexive(c.key);
    assert c.versionId != v.versionId by {
      MarkerNames(st, c);
      MarkerNames(st, v);
    }
    Versioning.PutKeeps(st, o, v);
    var w :| w in VersionsOf(st', v.key) && w.(isLatest := false) == v.(isLatest := false);
    Mem.PutKeepsValid(st, o);
    PutStamps(st, o, st');
    RestampedFound(st, o, st');
    ResumedRows(st', prefix, Position(c.key, c.versionId, c.vseq), w);
  }

  lemma PutStamps(st: Stacks, o: Object, st': Stacks)
    requires Pageable(st) && o.versionId != "" && o.vseq >= 0 && o.key in st && ValidStacks(st') && st' == Mem.Put(st, o)
    ensures TiedVersions.Stamped(st')
  {
    forall v | Holds(st', v)
      ensures v.versionId != "" && v.vseq >= 0
    {
      if v.key == o.key {
        SortElements([o] + Mem.Others(st[o.key], o.versionId), v);
        Mem.OthersElements(st[o.key], o.versionId);
        var u :| u in [o] + Mem.Others(st[o.key], o.versionId) && u.(isLatest := false) == v.(isLatest := false);
        assert u != o ==> Holds(st, u);
      } else {
        assert Holds(st, v);
      }
    }
  }

  lemma RestampedFound(st: Stacks, o: Object, st': Stacks)
    requires o.key in st && ValidStacks(st) && ValidStacks(st') && TiedVersions.Stamped(st') && st' == Mem.Put(st, o)
    ensures MarkerVSeq(st', o.key, o.versionId) == o.vseq
  {
    var s := [o] + Mem.Others(st[o.key], o.versionId);
    Versioning.SortKeeps(s, o, o);
    var w :| w in Mem.SortVersions(s) && w.(isLatest := false) == o.(isLatest := false);
    assert Holds(st', w) by {
      assert st'[o.key] == Mem.SortVersions(s);
    }
    TiedVersions.MarkerStands(st', w);
  }

  // ---------------------------------------------------------------------------------------------
  // One response
  // ---------------------------------------------------------------------------------------------

  /** One read of the index within a response, and the rows it returned. */
  datatype Batch = Batch(st: Stacks, rows: seq<Object>)

  function PositionAt(v: Object): Position {
    Position(v.key, v.versionId, v.vseq)
  }

  /** The read happens over a well-formed index in which the marker it resumes at still separates as it did. */
  ghost predicate Reads(q: Query, p: Position, scanPage: nat, r: Batch) {
    && Pageable(r.st) && ResumesRight(r.st, q.prefix, p)
    && r.rows == ListVersions(r.st, q.prefix, p.key, p.version, scanPage)
  }

  /** Successive reads of one response: each resumes at the last row of the one before, and a short read is the last. */
  ghost predicate Reading(q: Query, p: Position, scanPage: nat, batches: seq<Batch>)
    decreases |batches|
  {
    batches != [] ==>
      && Reads(q, p, scanPage, batches[0])
      && if |batches[0].rows| < scanPage || batches[0].rows == [] then |batches| == 1
         else Reading(q, PositionAt(batches[0].rows[|batches[0].rows| - 1]), scanPage, batches[1..])
  }

  function RowsOf(batches: seq<Batch>): seq<Object> {
    if batches == [] then [] else batches[0].rows + RowsOf(batches[1..])
  }

  /** The last read came back short: there is nothing left to read. */
  predicate Finished(scanPage: nat, batches: seq<Batch>) {
    batches != [] && |batches[|batches| - 1].rows| < scanPage
  }

  /** Rows in listing order, under the prefix and past the position. */
  ghost predicate Listed(q: Query, p: Position, rows: seq<Object>) {
    Rows(q, rows) && forall i :: 0 <= i < |rows| ==> RowPast(p, rows[i])
  }

  /** The version is among the rows, whatever its latest flag. */
  predicate HasVersion(rows: seq<Object>, v: Object) {
    exists i :: 0 <= i < |rows| && rows[i].(isLatest := false) == v.(isLatest := false)
  }

  lemma ReadListed(q: Query, p: Position, scanPage: nat, r: Batch)
    requires Reads(q, p, scanPage, r)
    ensures Listed(q, p, r.rows)
  {
    var all := VersionListing(r.st, q.prefix, p.key, p.version);
    ListingRows(r.st, q, Marker(p.key, p.version));
    ResumesRightIff(r.st, q.prefix, p);
    forall i | 0 <= i < |r.rows|
      ensures RowPast(p, r.rows[i])
    {
      assert all[i] == r.rows[i] && all[i] in all;
    }
  }

  /** A read returns every version past the position up to its last row, and all of them when it is short. */
  lemma ReadCovers(q: Query, p: Position, scanPage: nat, r: Batch, v: Object)
    requires Reads(q, p, scanPage, r) && scanPage > 0 && Versioning.Keeps(r.st, v) && q.prefix <= v.key && RowPast(p, v)
    ensures HasVersion(r.rows, v) || (|r.rows| >= scanPage && RowBefore(r.rows[|r.rows| - 1], v))
  {
    var u :| u in VersionsOf(r.st, v.key) && u.(isLatest := false) == v.(isLatest := false);
    var all := VersionListing(r.st, q.prefix, p.key, p.version);
    ResumesRightIff(r.st, q.prefix, p);
    assert Holds(r.st, u);
    ListingRows(r.st, q, Marker(p.key, p.version));
    var i :| 0 <= i < |all| && all[i] == u;
    if i < |r.rows| {
      assert r.rows[i] == u;
    } else {
      assert RowBefore(all[|r.rows| - 1], all[i]);
    }
  }

  lemma RowBeforeTransitive(a: Object, b: Object, c: Object)
    requires RowBefore(a, b) && RowBefore(b, c)
    ensures RowBefore(a, c)
  {
    if Less(a.key, b.key) && Less(b.key, c.key) {
      LessTransitive(a.key, b.key, c.key);
    }
  }

  lemma PastThenBefore(p: Position, a: Object, b: Object)
    requires RowPast(p, a) && RowBefore(a, b)
    ensures RowPast(p, b)
  {
    if Less(p.key, a.key) && Less(a.key, b.key) {
      LessTransitive(p.key, a.key, b.key);
    }
  }

  /** A batch and what is read after its last row are in order together. */
  lemma ListedConcat(q: Query, p: Position, rows: seq<Object>, rest: seq<Object>)
    requires Listed(q, p, rows) && rows != [] && rows[|rows| - 1].versionId != "" && Listed(q, PositionAt(rows[|rows| - 1]), rest)
    ensures Listed(q, p, rows + rest)
  {
    var last := rows[|rows| - 1];
    forall j | 0 <= j < |rest|
      ensures RowBefore(last, rest[j]) && RowPast(p, rest[j])
    {
      PastThenBefore(p, last, rest[j]);
    }
    forall i, j | 0 <= i < |rows| && 0 <= j < |rest|
      ensures RowBefore(rows[i], rest[j])
    {
      if i < |rows| - 1 {
        RowBeforeTransitive(rows[i], last, rest[j]);
      }
    }
  }

  lemma ReadIds(q: Query, p: Position, scanPage: nat, r: Batch, v: Object)
    requires Reads(q, p, scanPage, r) && v in r.rows
    ensures Holds(r.st, v) && v.versionId != ""
  {
    assert v in VersionListing(r.st, q.prefix, p.key, p.version);
    ResumesRightIff(r.st, q.prefix, p);
  }

  lemma {:induction false} ReadingListed(q: Query, p: Position, scanPage: nat, batches: seq<Batch>)
    requires Reading(q, p, scanPage, batches)
    ensures Listed(q, p, RowsOf(batches))
    decreases |batches|
  {
    if batches != [] {
      var rows := batches[0].rows;
      ReadListed(q, p, scanPage, batches[0]);
      if |rows| < scanPage || rows == [] {
        assert RowsOf(batches[1..]) == [] && rows + [] == rows;
      } else {
        var last := rows[|rows| - 1];
        ReadIds(q, p, scanPage, batches[0], last);
        ReadingListed(q, PositionAt(last), scanPage, batches[1..]);
        ListedConcat(q, p, rows, RowsOf(batches[1..]));
      }
    }
  }

  /** The version was read, or the reads have not come to it yet. */
  ghost predicate Reached(scanPage: nat, batches: seq<Batch>, rows: seq<Object>, v: Object) {
    HasVersion(rows, v) || (!Finished(scanPage, batches) && (rows != [] ==> RowBefore(rows[|rows| - 1], v)))
  }

  /** The index holds the version, under the prefix, at every read. */
  ghost predicate KeptThroughout(q: Query, v: Object, batches: seq<Batch>) {
    q.prefix <= v.key && forall i :: 0 <= i < |batches| ==> Versioning.Keeps(batches[i].st, v)
  }

  lemma HasMore(rows: seq<Object>, rest: seq<Object>, v: Object)
    ensures HasVersion(rows + rest, v) <==> HasVersion(rows, v) || HasVersion(rest, v)
  {
    var all := rows + rest;
    if i :| 0 <= i < |rows| && rows[i].(isLatest := false) == v.(isLatest := false) {
      assert all[i] == rows[i];
    }
    if i :| 0 <= i < |rest| && rest[i].(isLatest := false) == v.(isLatest := false) {
      assert all[|rows| + i] == rest[i];
    }
  }

  /** A full first read that ends before the version leaves it to the reads that follow. */
  lemma ReachedLater(scanPage: nat, batches: seq<Batch>, rest: seq<Object>, v: Object)
    requires batches != [] && batches[0].rows != [] && |batches[0].rows| >= scanPage
    requires RowBefore(batches[0].rows[|batches[0].rows| - 1], v) && Reached(scanPage, batches[1..], rest, v)
    ensures Reached(scanPage, batches, batches[0].rows + rest, v)
  {
    HasMore(batches[0].rows, rest, v);
    assert Finished(scanPage, batches) ==> Finished(scanPage, batches[1..]);
  }

  lemma KeptTail(q: Query, v: Object, batches: seq<Batch>)
    requires KeptThroughout(q, v, batches) && batches != []
    ensures Versioning.Keeps(batches[0].st, v) && KeptThroughout(q, v, batches[1..])
  {
  }

  lemma {:induction false} ReadingCovers(q: Query, p: Position, scanPage: nat, batches: seq<Batch>, v: Object)
    requires Reading(q, p, scanPage, batches) && scanPage > 0 && KeptThroughout(q, v, batches) && RowPast(p, v)
    ensures Reached(scanPage, batches, RowsOf(batches), v)
    decreases |batches|
  {
    if batches != [] {
      var rows, rest := batches[0].rows, RowsOf(batches[1..]);
      KeptTail(q, v, batches);
      ReadCovers(q, p, scanPage, batches[0], v);
      if HasVersion(rows, v) {
        HasMore(rows, rest, v);
      } else {
        var last := rows[|rows| - 1];
        ReadIds(q, p, scanPage, batches[0], last);
        ReadingCovers(q, PositionAt(last), scanPage, batches[1..], v);
        ReachedLater(scanPage, batches, rest, v);
      }
    }
  }

  /** A response: the scan over what its reads returned, ended by a full page or a short read. */
  ghost predicate Answers(q: Query, p: Position, m: nat, scanPage: nat, batches: seq<Batch>, r: Response) {
    && Reading(q, p, scanPage, batches) && r == ScanAll(q, p.key, m, RowsOf(batches))
    && (r.truncated || Finished(scanPage, batches))
  }

  /** The entries of a response: the first `m` entries of what it read. */
  function PageEntries(q: Query, p: Position, m: nat, batches: seq<Batch>): seq<Entry> {
    Take(Entries(q, p.key, RowsOf(batches)), m)
  }

  predicate EntryPast(p: Position, e: Entry) {
    if e.RowEntry? then RowPast(p, e.v) else Less(p.key, e.cp)
  }

  function EndOf(e: Entry): Position {
    match e
    case RowEntry(v) => PositionAt(v)
    case PrefixEntry(cp) => Position(cp, "", 0)
  }

  /** Where the next page resumes. */
  function NextPosition(es: seq<Entry>): Position {
    if es == [] then Start else EndOf(es[|es| - 1])
  }

  /** A response shows exactly its entries, in order and past the position. */
  lemma ResponseShows(q: Query, p: Position, m: nat, scanPage: nat, batches: seq<Batch>, r: Response)
    requires m > 0 && Answers(q, p, m, scanPage, batches, r)
    ensures Shows(q, m, Entries(q, p.key, RowsOf(batches)), r)
    ensures InOrder(PageEntries(q, p, m, batches))
    ensures forall i :: 0 <= i < |PageEntries(q, p, m, batches)| ==> EntryPast(p, PageEntries(q, p, m, batches)[i])
  {
    var rows := RowsOf(batches);
    ReadingListed(q, p, scanPage, batches);
    ScanShows(q, p.key, m, rows);
    EntriesInOrder(q, p.key, rows);
    var es := Entries(q, p.key, rows);
    forall i | 0 <= i < |es|
      ensures EntryPast(p, es[i])
    {
      EntriesElements(q, p.key, rows, es[i]);
    }
  }

  /** The marker a truncated response returns is the position after its last entry. */
  lemma TokenIsNextPosition(q: Query, p: Position, m: nat, scanPage: nat, batches: seq<Batch>, r: Response)
    requires m > 0 && Answers(q, p, m, scanPage, batches, r) && r.truncated
    ensures r.last == Marker(NextPosition(PageEntries(q, p, m, batches)).key, NextPosition(PageEntries(q, p, m, batches)).version)
    ensures PageEntries(q, p, m, batches) != []
  {
    ResponseShows(q, p, m, scanPage, batches, r);
  }

  /** What comes after the last entry of a page is past the position the next one resumes at, and conversely. */
  lemma PastEnd(e: Entry, f: Entry)
    requires e.RowEntry? ==> e.v.versionId != ""
    ensures EntryPast(EndOf(e), f) <==> EntryBefore(e, f)
  {
  }

  /** The entry a stored version gives rise to, whatever its latest flag. */
  predicate ShowsVersion(q: Query, e: Entry, v: Object) {
    if RollsUp(v.key, q.prefix, q.delim) then e == PrefixEntry(Item(v.key, q.prefix, q.delim))
    else e.RowEntry? && e.v.(isLatest := false) == v.(isLatest := false)
  }

  predicate SomeShows(q: Query, es: seq<Entry>, v: Object) {
    exists i :: 0 <= i < |es| && ShowsVersion(q, es[i], v)
  }

  lemma EntryBeforeTransitive(e: Entry, f: Entry, g: Entry)
    requires EntryBefore(e, f) && EntryBefore(f, g)
    ensures EntryBefore(e, g)
  {
    if Less(EntryKey(e), EntryKey(f)) && Less(EntryKey(f), EntryKey(g)) {
      LessTransitive(EntryKey(e), EntryKey(f), EntryKey(g));
    }
  }

  /**
   * A version kept throughout whose entry lies past the position is shown by the response, unless the
   * response is full and the entry lies past its last one.
   */
  lemma ResponseCovers(q: Query, p: Position, m: nat, scanPage: nat, batches: seq<Batch>, r: Response, v: Object)
    requires m > 0 && scanPage > 0 && Answers(q, p, m, scanPage, batches, r)
    requires KeptThroughout(q, v, batches) && EntryPast(p, EntryOf(q, v))
    ensures var page := PageEntries(q, p, m, batches);
            SomeShows(q, page, v) || (r.truncated && page != [] && EntryBefore(page[|page| - 1], EntryOf(q, v)))
  {
    assert Entries(q, p.key, []) == [];
    hide RowsOf, Entries, ScanAll, Reading, VersionsIn, MarkersIn, PrefixesIn;
    var rows := RowsOf(batches);
    ReadingListed(q, p, scanPage, batches);
    ResponseShows(q, p, m, scanPage, batches, r);
    EntryPastRow(q, p, v);
    ReadingCovers(q, p, scanPage, batches, v);
    if HasVersion(rows, v) {
      ReadEntry(q, p, m, rows, v);
    } else {
      UnreadEntry(q, p, m, rows, v);
    }
  }

  lemma EntryPastRow(q: Query, p: Position, v: Object)
    requires EntryPast(p, EntryOf(q, v)) && q.prefix <= v.key
    ensures RowPast(p, v)
  {
    if RollsUp(v.key, q.prefix, q.delim) {
      var cp := Item(v.key, q.prefix, q.delim);
      PrefixAtMost(cp, v.key);
      LessThenAtMost(p.key, cp, v.key);
    }
  }

  lemma ReadEntry(q: Query, p: Position, m: nat, rows: seq<Object>, v: Object)
    requires Rows(q, rows) && HasVersion(rows, v) && EntryPast(p, EntryOf(q, v)) && m > 0
    ensures var es := Entries(q, p.key, rows);
            SomeShows(q, Take(es, m), v) || (|es| > m && EntryBefore(es[m - 1], EntryOf(q, v)))
  {
    var es := Entries(q, p.key, rows);
    var i :| 0 <= i < |rows| && rows[i].(isLatest := false) == v.(isLatest := false);
    var e := EntryOf(q, rows[i]);
    EntriesElements(q, p.key, rows, e);
    EntriesInOrder(q, p.key, rows);
    var j :| 0 <= j < |es| && es[j] == e;
    if j < m {
      assert Take(es, m)[j] == e && ShowsVersion(q, e, v);
    } else {
      assert EntryBefore(es[m - 1], es[j]);
    }
  }

  lemma UnreadEntry(q: Query, p: Position, m: nat, rows: seq<Object>, v: Object)
    requires Rows(q, rows) && rows != [] && RowBefore(rows[|rows| - 1], v) && q.prefix <= v.key && m > 0
    requires |Entries(q, p.key, rows)| > m
    ensures EntryBefore(Entries(q, p.key, rows)[m - 1], EntryOf(q, v))
  {
    var es := Entries(q, p.key, rows);
    EntriesInOrder(q, p.key, rows);
    EntriesElements(q, p.key, rows, es[m]);
    var j :| 0 <= j < |rows| && es[m] == EntryOf(q, rows[j]);
    if j < |rows| - 1 {
      RowBeforeTransitive(rows[j], rows[|rows| - 1], v);
    }
    EntryMonotone(q, rows[j], v);
    if EntryBefore(es[m], EntryOf(q, v)) {
      EntryBeforeTransitive(es[m - 1], es[m], EntryOf(q, v));
    }
  }

  // ---------------------------------------------------------------------------------------------
  // Following the markers
  // ---------------------------------------------------------------------------------------------

  /** One request: what its reads returned, and its response. */
  datatype Page = Page(batches: seq<Batch>, r: Response)

  /** A client following markers from `p` until a response is not truncated. */
  ghost predicate Session(q: Query, p: Position, m: nat, scanPage: nat, pages: seq<Page>)
    decreases |pages|
  {
    && pages != [] && Answers(q, p, m, scanPage, pages[0].batches, pages[0].r)
    && if pages[0].r.truncated then Session(q, NextPosition(PageEntries(q, p, m, pages[0].batches)), m, scanPage, pages[1..])
       else |pages| == 1
  }

  /** All entries the client is shown. */
  function Shown(q: Query, p: Position, m: nat, pages: seq<Page>): seq<Entry>
    decreases |pages|
  {
    if pages == [] then []
    else
      var es := PageEntries(q, p, m, pages[0].batches);
      es + Shown(q, NextPosition(es), m, pages[1..])
  }

  function ShownVersions(pages: seq<Page>): seq<Object> {
    if pages == [] then [] else pages[0].r.versions + ShownVersions(pages[1..])
  }

  function ShownMarkers(pages: seq<Page>): seq<Object> {
    if pages == [] then [] else pages[0].r.markers + ShownMarkers(pages[1..])
  }

  function ShownPrefixes(pages: seq<Page>): seq<string> {
    if pages == [] then [] else pages[0].r.prefixes + ShownPrefixes(pages[1..])
  }

  /** What a page shows comes from versions with ids. */
  lemma PageIds(q: Query, p: Position, m: nat, scanPage: nat, batches: seq<Batch>, e: Entry)
    requires Reading(q, p, scanPage, batches) && e in PageEntries(q, p, m, batches) && e.RowEntry?
    ensures e.v.versionId != ""
  {
    var rows := RowsOf(batches);
    assert e in Entries(q, p.key, rows);
    EntriesElements(q, p.key, rows, e);
    var i :| 0 <= i < |rows| && e == EntryOf(q, rows[i]);
    var j := ReadFrom(q, p, scanPage, batches, rows[i]);
  }

  /** Every row comes from one of the reads. */
  lemma {:induction false} ReadFrom(q: Query, p: Position, scanPage: nat, batches: seq<Batch>, v: Object) returns (j: nat)
    requires Reading(q, p, scanPage, batches) && v in RowsOf(batches)
    ensures j < |batches| && Holds(batches[j].st, v) && v.versionId != ""
    decreases |batches|
  {
    if v in batches[0].rows {
      ReadIds(q, p, scanPage, batches[0], v);
      j := 0;
    } else {
      var rows := batches[0].rows;
      var k := ReadFrom(q, PositionAt(rows[|rows| - 1]), scanPage, batches[1..], v);
      j := k + 1;
    }
  }

  lemma InOrderConcat(p: Position, a: seq<Entry>, b: seq<Entry>)
    requires InOrder(a) && InOrder(b) && a != [] && (a[|a| - 1].RowEntry? ==> a[|a| - 1].v.versionId != "")
    requires forall i :: 0 <= i < |a| ==> EntryPast(p, a[i])
    requires forall i :: 0 <= i < |b| ==> EntryPast(EndOf(a[|a| - 1]), b[i])
    ensures InOrder(a + b) && forall i :: 0 <= i < |a + b| ==> EntryPast(p, (a + b)[i])
  {
    var last := a[|a| - 1];
    forall j | 0 <= j < |b|
      ensures EntryBefore(last, b[j]) && EntryPast(p, b[j])
    {
      PastEnd(last, b[j]);
      StillPast(p, last, b[j]);
    }
    forall i, j | 0 <= i < |a| && 0 <= j < |b|
      ensures EntryBefore(a[i], b[j])
    {
      if i < |a| - 1 {
        EntryBeforeTransitive(a[i], last, b[j]);
      }
    }
  }

  lemma StillPast(p: Position, e: Entry, f: Entry)
    requires EntryPast(p, e) && EntryBefore(e, f)
    ensures EntryPast(p, f)
  {
    if Less(p.key, EntryKey(e)) && Less(EntryKey(e), EntryKey(f)) {
      LessTransitive(p.key, EntryKey(e), EntryKey(f));
    }
  }

  /**
   * As long as every marker separates as before, the versions, delete markers and common prefixes a
   * client is shown are entries in strict listing order: none is returned twice.
   */
  lemma {:induction false} NothingTwice(q: Query, p: Position, m: nat, scanPage: nat, pages: seq<Page>)
    requires m > 0 && Session(q, p, m, scanPage, pages)
    ensures InOrder(Shown(q, p, m, pages)) && forall i :: 0 <= i < |Shown(q, p, m, pages)| ==> EntryPast(p, Shown(q, p, m, pages)[i])
    decreases |pages|
  {
    var first := PageEntries(q, p, m, pages[0].batches);
    var rest := Shown(q, NextPosition(first), m, pages[1..]);
    ResponseShows(q, p, m, scanPage, pages[0].batches, pages[0].r);
    if pages[0].r.truncated {
      TokenIsNextPosition(q, p, m, scanPage, pages[0].batches, pages[0].r);
      var last := first[|first| - 1];
      if last.RowEntry? {
        PageIds(q, p, m, scanPage, pages[0].batches, last);
      }
      NothingTwice(q, NextPosition(first), m, scanPage, pages[1..]);
      InOrderConcat(p, first, rest);
    } else {
      assert pages[1..] == [] && first + [] == first;
    }
  }

  /** The three lists of the responses, put together, are the views of those entries. */
  lemma {:induction false} ResponsesShow(q: Query, p: Position, m: nat, scanPage: nat, pages: seq<Page>)
    requires m > 0 && Session(q, p, m, scanPage, pages)
    ensures ShownVersions(pages) == VersionsIn(Shown(q, p, m, pages))
    ensures ShownMarkers(pages) == MarkersIn(Shown(q, p, m, pages))
    ensures ShownPrefixes(pages) == PrefixesIn(q, Shown(q, p, m, pages))
    decreases |pages|
  {
    var first := PageEntries(q, p, m, pages[0].batches);
    ResponseShows(q, p, m, scanPage, pages[0].batches, pages[0].r);
    ViewConcat(q, first, Shown(q, NextPosition(first), m, pages[1..]));
    if pages[0].r.truncated {
      ResponsesShow(q, NextPosition(first), m, scanPage, pages[1..]);
    } else {
      assert pages[1..] == [];
    }
  }

  /** The index holds the version, under the prefix, at every read of the session. */
  ghost predicate StaysKept(q: Query, v: Object, pages: seq<Page>) {
    forall i :: 0 <= i < |pages| ==> KeptThroughout(q, v, pages[i].batches)
  }

  lemma SomeMore(q: Query, a: seq<Entry>, b: seq<Entry>, v: Object)
    ensures SomeShows(q, a, v) || SomeShows(q, b, v) ==> SomeShows(q, a + b, v)
  {
    if i :| 0 <= i < |a| && ShowsVersion(q, a[i], v) {
      assert (a + b)[i] == a[i];
    }
    if i :| 0 <= i < |b| && ShowsVersion(q, b[i], v) {
      assert (a + b)[|a| + i] == b[i];
    }
  }

  /** Every version that is kept throughout is shown, by itself or by its rolled-up prefix. */
  lemma {:induction false} StableVersionsShown(q: Query, p: Position, m: nat, scanPage: nat, pages: seq<Page>, v: Object)
    requires m > 0 && scanPage > 0 && Session(q, p, m, scanPage, pages) && StaysKept(q, v, pages)
    requires EntryPast(p, EntryOf(q, v))
    ensures SomeShows(q, Shown(q, p, m, pages), v)
    decreases |pages|
  {
    var first := PageEntries(q, p, m, pages[0].batches);
    SomeMore(q, first, Shown(q, NextPosition(first), m, pages[1..]), v);
    ResponseCovers(q, p, m, scanPage, pages[0].batches, pages[0].r, v);
    if !SomeShows(q, first, v) {
      var last := first[|first| - 1];
      if last.RowEntry? {
        PageIds(q, p, m, scanPage, pages[0].batches, last);
      }
      PastEnd(last, EntryOf(q, v));
      assert forall i :: 0 <= i < |pages[1..]| ==> pages[1..][i] == pages[i + 1];
      StableVersionsShown(q, NextPosition(first), m, scanPage, pages[1..], v);
    }
  }

  predicate ShownOnce(q: Query, es: seq<Entry>, v: Object) {
    exists i :: 0 <= i < |es| && ShowsVersion(q, es[i], v) && forall j :: 0 <= j < |es| && ShowsVersion(q, es[j], v) ==> j == i
  }

  lemma OrderedShowsOnce(q: Query, es: seq<Entry>, v: Object)
    requires InOrder(es) && SomeShows(q, es, v)
    ensures ShownOnce(q, es, v)
  {
    var i :| 0 <= i < |es| && ShowsVersion(q, es[i], v);
    forall j | 0 <= j < |es| && ShowsVersion(q, es[j], v)
      ensures j == i
    {
      OnlyOnce(q, es, i, j, v);
    }
  }

  /** From the start no premise on the position is left: every version that stays is shown exactly once. */
  lemma EveryStableVersionOnce(q: Query, m: nat, scanPage: nat, pages: seq<Page>, v: Object)
    requires m > 0 && scanPage > 0 && Session(q, Start, m, scanPage, pages) && StaysKept(q, v, pages) && v.key != ""
    ensures ShownOnce(q, Shown(q, Start, m, pages), v)
  {
    assert Less("", v.key);
    if RollsUp(v.key, q.prefix, q.delim) {
      assert Item(v.key, q.prefix, q.delim) != "" && Less("", Item(v.key, q.prefix, q.delim));
    }
    StableVersionsShown(q, Start, m, scanPage, pages, v);
    NothingTwice(q, Start, m, scanPage, pages);
    OrderedShowsOnce(q, Shown(q, Start, m, pages), v);
  }

  lemma OnlyOnce(q: Query, es: seq<Entry>, i: nat, j: nat, v: Object)
    requires InOrder(es) && i < |es| && j < |es| && ShowsVersion(q, es[i], v) && ShowsVersion(q, es[j], v)
    ensures i == j
  {
    LessIrreflexive(EntryKey(es[i]));
  }

  /** And nothing is made up: every entry shown comes from a version some read found in the index. */
  lemma {:induction false} ShownWasHeld(q: Query, p: Position, m: nat, scanPage: nat, pages: seq<Page>, e: Entry)
    returns (k: nat, i: nat, v: Object)
    requires m > 0 && Session(q, p, m, scanPage, pages) && e in Shown(q, p, m, pages)
    ensures k < |pages| && i < |pages[k].batches| && Holds(pages[k].batches[i].st, v) && EntryOf(q, v) == e
    decreases |pages|
  {
    var first := PageEntries(q, p, m, pages[0].batches);
    if e in first {
      var rows := RowsOf(pages[0].batches);
      assert e in Entries(q, p.key, rows);
      EntriesElements(q, p.key, rows, e);
      var n :| 0 <= n < |rows| && e == EntryOf(q, rows[n]);
      k, v := 0, rows[n];
      i := ReadFrom(q, p, scanPage, pages[0].batches, rows[n]);
    } else {
      var k';
      k', i, v := ShownWasHeld(q, NextPosition(first), m, scanPage, pages[1..], e);
      k := k' + 1;
    }
  }
}
