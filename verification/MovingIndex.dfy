/**
 * Object listing while the index changes: every index read of every response may see a different
 * index, with any writes, deletes and restores in between.
 */
module MovingIndex {
  import opened ByteStrings
  import opened Objects
  import opened Rollup
  import opened ObjectListing

  // ---------------------------------------------------------------------------------------------
  // One response
  // ---------------------------------------------------------------------------------------------

  /** The objects one response visits when its successive index reads see `sts`. */
  ghost function Visited(q: Query, cursor: string, scanPage: nat, sts: seq<Stacks>): seq<Object>
    decreases |sts|
  {
    if sts == [] then []
    else
      var batch := ListObjects(sts[0], q.prefix, cursor, scanPage);
      if |batch| < scanPage || batch == [] then batch
      else batch + Visited(q, batch[|batch| - 1].key, scanPage, sts[1..])
  }

  /** The reads go on until one comes back short. */
  ghost predicate Exhausted(q: Query, cursor: string, scanPage: nat, sts: seq<Stacks>)
    decreases |sts|
  {
    sts != [] &&
    var batch := ListObjects(sts[0], q.prefix, cursor, scanPage);
    |batch| < scanPage || batch == [] || Exhausted(q, batch[|batch| - 1].key, scanPage, sts[1..])
  }

  /** A response: the scan over what its reads returned, ended by a full page or a short read. */
  ghost predicate Answers(q: Query, after: string, m: nat, scanPage: nat, sts: seq<Stacks>, res: ScanResult) {
    && res == ScanAll(q, after, m, Visited(q, after, scanPage, sts))
    && (res.truncated || Exhausted(q, after, scanPage, sts))
  }

  ghost predicate AllValid(sts: seq<Stacks>) {
    forall i :: 0 <= i < |sts| ==> ValidStacks(sts[i])
  }

  lemma BatchListed(st: Stacks, q: Query, cursor: string, scanPage: nat)
    requires ValidStacks(st)
    ensures Listed(q, cursor, ListObjects(st, q.prefix, cursor, scanPage))
  {
    ListingIsListed(st, q, cursor);
  }

  /** A batch and what is visited after its last key are in order together. */
  lemma ListedConcat(q: Query, cursor: string, batch: seq<Object>, rest: seq<Object>)
    requires Listed(q, cursor, batch) && batch != [] && Listed(q, batch[|batch| - 1].key, rest)
    ensures Listed(q, cursor, batch + rest)
  {
    var last := batch[|batch| - 1].key;
    forall j | 0 <= j < |rest|
      ensures Less(cursor, rest[j].key)
    {
      LessTransitive(cursor, last, rest[j].key);
    }
    forall i, j | 0 <= i < |batch| && 0 <= j < |rest|
      ensures Less(batch[i].key, rest[j].key)
    {
      if i < |batch| - 1 {
        LessTransitive(batch[i].key, last, rest[j].key);
      }
    }
  }

  lemma {:induction false} VisitedListed(q: Query, cursor: string, scanPage: nat, sts: seq<Stacks>)
    requires AllValid(sts)
    ensures Listed(q, cursor, Visited(q, cursor, scanPage, sts))
    decreases |sts|
  {
    if sts != [] {
      var batch := ListObjects(sts[0], q.prefix, cursor, scanPage);
      BatchListed(sts[0], q, cursor, scanPage);
      if |batch| >= scanPage && batch != [] {
        VisitedListed(q, batch[|batch| - 1].key, scanPage, sts[1..]);
        ListedConcat(q, cursor, batch, Visited(q, batch[|batch| - 1].key, scanPage, sts[1..]));
      }
    }
  }

  /** What the first read contributes. */
  lemma FirstRead(q: Query, cursor: string, scanPage: nat, sts: seq<Stacks>, batch: seq<Object>)
    requires sts != [] && batch == ListObjects(sts[0], q.prefix, cursor, scanPage) && scanPage > 0
    ensures |batch| < scanPage ==> Visited(q, cursor, scanPage, sts) == batch && Exhausted(q, cursor, scanPage, sts)
    ensures |batch| >= scanPage ==>
              var last := batch[|batch| - 1].key;
              && Visited(q, cursor, scanPage, sts) == batch + Visited(q, last, scanPage, sts[1..])
              && Exhausted(q, cursor, scanPage, sts) == Exhausted(q, last, scanPage, sts[1..])
  {
    hide ListObjects;
  }

  predicate HasKey(objects: seq<Object>, k: string) {
    exists i :: 0 <= i < |objects| && objects[i].key == k
  }

  /** The key is live, under the prefix, in every index that is read. */
  ghost predicate LiveThroughout(q: Query, k: string, sts: seq<Stacks>) {
    q.prefix <= k && forall i :: 0 <= i < |sts| ==> k in LiveKeys(sts[i])
  }

  /** A batch holds every live key up to its last one, and all of them when it is short. */
  lemma BatchCovers(st: Stacks, q: Query, cursor: string, scanPage: nat, k: string, batch: seq<Object>)
    requires ValidStacks(st) && batch == ListObjects(st, q.prefix, cursor, scanPage) && scanPage > 0
    requires q.prefix <= k && k in LiveKeys(st) && Less(cursor, k)
    ensures HasKey(batch, k) || (|batch| >= scanPage && Less(batch[|batch| - 1].key, k))
  {
    hide LiveListing;
    var all := LiveListing(st, q.prefix, cursor);
    LiveListingContents(st, q.prefix, cursor);
    assert ValidStack(k, st[k]) && st[k][0].key == k;
    assert st[k][0] in all;
    var i :| 0 <= i < |all| && all[i] == st[k][0];
    if i < |batch| {
      assert batch[i].key == k;
    } else {
      assert RowBefore(all[|batch| - 1], all[i]);
      ListingIsListed(st, q, cursor);
    }
  }

  /** The key was visited, or the reads have not reached it yet. */
  ghost predicate Reached(q: Query, cursor: string, scanPage: nat, sts: seq<Stacks>, v: seq<Object>, k: string) {
    HasKey(v, k) || (!Exhausted(q, cursor, scanPage, sts) && (v != [] ==> Less(v[|v| - 1].key, k)))
  }

  lemma LiveTail(q: Query, k: string, sts: seq<Stacks>)
    requires AllValid(sts) && LiveThroughout(q, k, sts) && sts != []
    ensures ValidStacks(sts[0]) && k in LiveKeys(sts[0]) && AllValid(sts[1..]) && LiveThroughout(q, k, sts[1..])
  {
  }

  lemma {:induction false} VisitedCovers(q: Query, cursor: string, scanPage: nat, sts: seq<Stacks>, k: string)
    requires AllValid(sts) && scanPage > 0 && LiveThroughout(q, k, sts) && Less(cursor, k)
    ensures Reached(q, cursor, scanPage, sts, Visited(q, cursor, scanPage, sts), k)
    decreases |sts|
  {
    if sts != [] {
      hide ListObjects, Visited, Exhausted, AllValid, LiveThroughout, Less, HasKey;
      var batch := ListObjects(sts[0], q.prefix, cursor, scanPage);
      LiveTail(q, k, sts);
      BatchCovers(sts[0], q, cursor, scanPage, k, batch);
      FirstRead(q, cursor, scanPage, sts, batch);
      if |batch| >= scanPage {
        var last := batch[|batch| - 1].key;
        var rest := Visited(q, last, scanPage, sts[1..]);
        CoveredByFirst(batch, rest, k);
        if !HasKey(batch, k) {
          VisitedCovers(q, last, scanPage, sts[1..], k);
          CoveredByRest(batch, rest, k);
        }
      }
    }
  }

  lemma CoveredByFirst(batch: seq<Object>, rest: seq<Object>, k: string)
    ensures HasKey(batch, k) ==> HasKey(batch + rest, k)
  {
    if i :| 0 <= i < |batch| && batch[i].key == k {
      assert (batch + rest)[i].key == k;
    }
  }

  lemma CoveredByRest(batch: seq<Object>, rest: seq<Object>, k: string)
    ensures HasKey(rest, k) ==> HasKey(batch + rest, k)
    ensures rest == [] ==> batch + rest == batch
    ensures rest != [] ==> (batch + rest)[|batch + rest| - 1] == rest[|rest| - 1]
  {
    if i :| 0 <= i < |rest| && rest[i].key == k {
      assert (batch + rest)[|batch| + i].key == k;
    }
  }

  /** The items of a response: the first `m` distinct items of what it visited. */
  ghost function PageItems(q: Query, after: string, m: nat, scanPage: nat, sts: seq<Stacks>): seq<string> {
    Take(Distinct(q, after, Visited(q, after, scanPage, sts)), m)
  }

  /** A response shows exactly its items, ascending and past the position; its token is the last of them. */
  lemma ResponseShows(q: Query, after: string, m: nat, scanPage: nat, sts: seq<Stacks>, res: ScanResult)
    requires AllValid(sts) && m > 0 && Answers(q, after, m, scanPage, sts, res)
    ensures var items := PageItems(q, after, m, scanPage, sts);
            && KeysOf(res.contents) == Plain(q, items) && res.prefixes == Rolled(q, items)
            && Ascending(items) && res.resumeAfter == Last(items)
            && (forall i :: 0 <= i < |items| ==> Less(after, items[i]))
            && (res.truncated ==> |items| == m)
  {
    var v := Visited(q, after, scanPage, sts);
    VisitedListed(q, after, scanPage, sts);
    ScanTracks(q, after, m, v);
    DistinctAscending(q, after, v);
    DistinctPast(q, after, v);
  }

  lemma DistinctPast(q: Query, after: string, v: seq<Object>)
    requires Listed(q, after, v)
    ensures forall i :: 0 <= i < |Distinct(q, after, v)| ==> Less(after, Distinct(q, after, v)[i])
  {
    forall i | 0 <= i < |Distinct(q, after, v)|
      ensures Less(after, Distinct(q, after, v)[i])
    {
      DistinctElements(q, after, v, Distinct(q, after, v)[i]);
    }
  }

  lemma UnderPrefix(q: Query, k: string, sts: seq<Stacks>)
    requires LiveThroughout(q, k, sts)
    ensures q.prefix <= k
  {
  }

  lemma ItemIsPrefix(k: string, q: Query)
    requires q.prefix <= k
    ensures Item(k, q.prefix, q.delim) <= k
  {
  }

  /**
   * A key live throughout whose item lies past the position is covered by the response, unless the
   * response is full and the item lies past its token.
   */
  lemma ResponseCovers(q: Query, after: string, m: nat, scanPage: nat, sts: seq<Stacks>, res: ScanResult, k: string)
    requires AllValid(sts) && m > 0 && scanPage > 0 && Answers(q, after, m, scanPage, sts, res)
    requires LiveThroughout(q, k, sts) && Less(after, Item(k, q.prefix, q.delim))
    ensures Item(k, q.prefix, q.delim) in PageItems(q, after, m, scanPage, sts)
            || (res.truncated && Less(res.resumeAfter, Item(k, q.prefix, q.delim)))
  {
    hide Visited, Exhausted, Distinct, ScanAll, Item, Less, ListObjects, Listed, AllValid, LiveThroughout, HasKey, Tracks;
    var v := Visited(q, after, scanPage, sts);
    var it := Item(k, q.prefix, q.delim);
    UnderPrefix(q, k, sts);
    ItemIsPrefix(k, q);
    PrefixAtMost(it, k);
    LessThenAtMost(after, it, k);
    VisitedListed(q, after, scanPage, sts);
    ScanTracks(q, after, m, v);
    VisitedCovers(q, after, scanPage, sts, k);
    ItemCovered(q, after, m, v, res, k);
  }

  /** Once the key was visited, or the scan stopped full before it, its item is on the page or past the token. */
  lemma ItemCovered(q: Query, after: string, m: nat, v: seq<Object>, res: ScanResult, k: string)
    requires Listed(q, after, v) && Tracks(q, m, Distinct(q, after, v), res) && m > 0
    requires q.prefix <= k && Less(after, Item(k, q.prefix, q.delim))
    requires HasKey(v, k) || (res.truncated && (v != [] ==> Less(v[|v| - 1].key, k)))
    ensures Item(k, q.prefix, q.delim) in Take(Distinct(q, after, v), m)
            || (res.truncated && Less(res.resumeAfter, Item(k, q.prefix, q.delim)))
  {
    assert Distinct(q, after, []) == [];
    hide Distinct, Item, Less, Plain, Rolled, KeysOf, Listed;
    if HasKey(v, k) {
      SeenItem(q, after, m, v, k);
    } else {
      UnseenItem(q, after, m, v, k);
    }
  }

  lemma SeenItem(q: Query, after: string, m: nat, v: seq<Object>, k: string)
    requires Listed(q, after, v) && HasKey(v, k) && Less(after, Item(k, q.prefix, q.delim)) && m > 0
    ensures var d, it := Distinct(q, after, v), Item(k, q.prefix, q.delim);
            it in Take(d, m) || (|d| > m && Less(Last(Take(d, m)), it))
  {
    var d, it := Distinct(q, after, v), Item(k, q.prefix, q.delim);
    var i :| 0 <= i < |v| && v[i].key == k;
    DistinctElements(q, after, v, it);
    DistinctAscending(q, after, v);
    var p :| 0 <= p < |d| && d[p] == it;
    if p < m {
      assert Take(d, m)[p] == it;
    }
  }

  lemma UnseenItem(q: Query, after: string, m: nat, v: seq<Object>, k: string)
    requires Listed(q, after, v) && v != [] && q.prefix <= k && Less(v[|v| - 1].key, k) && m > 0
    requires |Distinct(q, after, v)| > m
    ensures Less(Last(Take(Distinct(q, after, v), m)), Item(k, q.prefix, q.delim))
  {
    var d := Distinct(q, after, v);
    var last, it := Item(v[|v| - 1].key, q.prefix, q.delim), Item(k, q.prefix, q.delim);
    DistinctAscending(q, after, v);
    ItemMonotone(v[|v| - 1].key, k, q.prefix, q.delim);
    assert Less(d[m - 1], d[m]) && AtMost(d[m], last);
    LessThenAtMost(d[m - 1], d[m], last);
    LessThenAtMost(d[m - 1], last, it);
  }

  // ---------------------------------------------------------------------------------------------
  // Following the tokens
  // ---------------------------------------------------------------------------------------------

  /** One request: the indexes its reads saw, and its response. */
  datatype Page = Page(sts: seq<Stacks>, res: ScanResult)

  /** A client following tokens from `after` until a response is not truncated. */
  ghost predicate Session(q: Query, after: string, m: nat, scanPage: nat, pages: seq<Page>)
    decreases |pages|
  {
    && pages != [] && AllValid(pages[0].sts) && Answers(q, after, m, scanPage, pages[0].sts, pages[0].res)
    && if pages[0].res.truncated then Session(q, pages[0].res.resumeAfter, m, scanPage, pages[1..]) else |pages| == 1
  }

  /** All items the client is shown. */
  ghost function Shown(q: Query, after: string, m: nat, scanPage: nat, pages: seq<Page>): seq<string>
    decreases |pages|
  {
    if pages == [] then []
    else PageItems(q, after, m, scanPage, pages[0].sts) + Shown(q, pages[0].res.resumeAfter, m, scanPage, pages[1..])
  }

  function ShownKeys(pages: seq<Page>): seq<string> {
    if pages == [] then [] else KeysOf(pages[0].res.contents) + ShownKeys(pages[1..])
  }

  function ShownPrefixes(pages: seq<Page>): seq<string> {
    if pages == [] then [] else pages[0].res.prefixes + ShownPrefixes(pages[1..])
  }

  lemma AscendingConcat(after: string, a: seq<string>, b: seq<string>)
    requires Ascending(a) && Ascending(b) && a != [] && Less(after, Last(a))
    requires forall i :: 0 <= i < |a| ==> Less(after, a[i])
    requires forall i :: 0 <= i < |b| ==> Less(Last(a), b[i])
    ensures Ascending(a + b) && forall i :: 0 <= i < |a + b| ==> Less(after, (a + b)[i])
  {
    forall i, j | 0 <= i < |a| && 0 <= j < |b|
      ensures Less(a[i], b[j]) && Less(after, b[j])
    {
      LessTransitive(after, Last(a), b[j]);
      if i < |a| - 1 {
        LessTransitive(a[i], Last(a), b[j]);
      }
    }
  }

  /**
   * However the index changes between and within responses, the keys and prefixes a client is shown
   * are strictly ascending items: none is returned twice.
   */
  lemma {:induction false} NothingTwice(q: Query, after: string, m: nat, scanPage: nat, pages: seq<Page>)
    requires m > 0 && Session(q, after, m, scanPage, pages)
    ensures var shown := Shown(q, after, m, scanPage, pages);
            && Ascending(shown) && (forall i :: 0 <= i < |shown| ==> Less(after, shown[i]))
            && ShownKeys(pages) == Plain(q, shown) && ShownPrefixes(pages) == Rolled(q, shown)
    decreases |pages|
  {
    var first := PageItems(q, after, m, scanPage, pages[0].sts);
    var rest := Shown(q, pages[0].res.resumeAfter, m, scanPage, pages[1..]);
    ResponseShows(q, after, m, scanPage, pages[0].sts, pages[0].res);
    SplitConcat(q, first, rest);
    if pages[0].res.truncated {
      NothingTwice(q, pages[0].res.resumeAfter, m, scanPage, pages[1..]);
      AscendingConcat(after, first, rest);
    } else {
      assert pages[1..] == [] && first + [] == first;
    }
  }

  /** The key is live, under the prefix, at every read of the session. */
  ghost predicate StaysLive(q: Query, k: string, pages: seq<Page>) {
    forall i :: 0 <= i < |pages| ==> LiveThroughout(q, k, pages[i].sts)
  }

  /** Every key that is live throughout is covered, by itself or its rolled-up prefix. */
  lemma {:induction false} StableKeysShown(q: Query, after: string, m: nat, scanPage: nat, pages: seq<Page>, k: string)
    requires m > 0 && scanPage > 0 && Session(q, after, m, scanPage, pages) && StaysLive(q, k, pages)
    requires Less(after, Item(k, q.prefix, q.delim))
    ensures Item(k, q.prefix, q.delim) in Shown(q, after, m, scanPage, pages)
    decreases |pages|
  {
    var it := Item(k, q.prefix, q.delim);
    ResponseCovers(q, after, m, scanPage, pages[0].sts, pages[0].res, k);
    if it !in PageItems(q, after, m, scanPage, pages[0].sts) {
      StableKeysShown(q, pages[0].res.resumeAfter, m, scanPage, pages[1..], k);
    }
  }

  lemma BatchWasLive(st: Stacks, q: Query, cursor: string, scanPage: nat, o: Object)
    requires ValidStacks(st) && o in ListObjects(st, q.prefix, cursor, scanPage)
    ensures o.key in LiveKeys(st)
  {
    LiveListingContents(st, q.prefix, cursor);
    assert o in LiveListing(st, q.prefix, cursor);
  }

  lemma {:induction false} VisitedWasLive(q: Query, cursor: string, scanPage: nat, sts: seq<Stacks>, o: Object) returns (i: nat)
    requires AllValid(sts) && scanPage > 0 && o in Visited(q, cursor, scanPage, sts)
    ensures i < |sts| && o.key in LiveKeys(sts[i])
    decreases |sts|
  {
    hide ListObjects, LiveKeys, ValidStacks;
    var batch := ListObjects(sts[0], q.prefix, cursor, scanPage);
    FirstRead(q, cursor, scanPage, sts, batch);
    if o in batch {
      BatchWasLive(sts[0], q, cursor, scanPage, o);
      i := 0;
    } else {
      var j := VisitedWasLive(q, batch[|batch| - 1].key, scanPage, sts[1..], o);
      i := j + 1;
    }
  }

  /** And nothing is made up: every item shown is the item of a key that was live at some read. */
  lemma {:induction false} ShownWasLive(q: Query, after: string, m: nat, scanPage: nat, pages: seq<Page>, it: string)
    returns (p: nat, i: nat, k: string)
    requires m > 0 && scanPage > 0 && Session(q, after, m, scanPage, pages) && it in Shown(q, after, m, scanPage, pages)
    ensures p < |pages| && i < |pages[p].sts| && k in LiveKeys(pages[p].sts[i])
    ensures q.prefix <= k && Item(k, q.prefix, q.delim) == it
    decreases |pages|
  {
    var v := Visited(q, after, scanPage, pages[0].sts);
    if it in PageItems(q, after, m, scanPage, pages[0].sts) {
      VisitedListed(q, after, scanPage, pages[0].sts);
      DistinctElements(q, after, v, it);
      var j :| 0 <= j < |v| && it == Item(v[j].key, q.prefix, q.delim) && Less(after, it);
      assert v[j] in v;
      p, k := 0, v[j].key;
      i := VisitedWasLive(q, after, scanPage, pages[0].sts, v[j]);
    } else {
      var p';
      p', i, k := ShownWasLive(q, pages[0].res.resumeAfter, m, scanPage, pages[1..], it);
      p := p' + 1;
    }
  }

  /** From the start no premise on the position is left. */
  lemma EveryStableKeyOnce(q: Query, m: nat, scanPage: nat, pages: seq<Page>, k: string)
    requires m > 0 && scanPage > 0 && Session(q, "", m, scanPage, pages) && StaysLive(q, k, pages) && k != ""
    ensures var shown, it := Shown(q, "", m, scanPage, pages), Item(k, q.prefix, q.delim);
            exists i :: 0 <= i < |shown| && shown[i] == it && forall j :: 0 <= j < |shown| && shown[j] == it ==> j == i
  {
    var shown, it := Shown(q, "", m, scanPage, pages), Item(k, q.prefix, q.delim);
    assert it != "" && Less("", it);
    StableKeysShown(q, "", m, scanPage, pages, k);
    NothingTwice(q, "", m, scanPage, pages);
    var i :| 0 <= i < |shown| && shown[i] == it;
    forall j | 0 <= j < |shown| && shown[j] == it
      ensures j == i
    {
      OnlyOnce(shown, i, j);
    }
  }

  lemma OnlyOnce(items: seq<string>, i: nat, j: nat)
    requires Ascending(items) && i < |items| && j < |items| && items[i] == items[j]
    ensures i == j
  {
    LessIrreflexive(items[i]);
  }
}
