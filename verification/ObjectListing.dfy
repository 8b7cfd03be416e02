/**
 * Delimiter-aware object listing: one response assembled from index pages of any size, and the
 * whole listing read page by page through stateless resume tokens.
 */
module ObjectListing {
  import opened ByteStrings
  import opened Objects
  import opened Wrappers
  import opened Rollup
  import MemoryStore
  import Scanning

  /** What a listing request asks for. */
  datatype Query = Query(prefix: string, delim: string)

  datatype ScanResult = ScanResult(contents: seq<Object>, prefixes: seq<string>, truncated: bool, resumeAfter: string)

  const Nothing := ScanResult([], [], false, "")

  // ---------------------------------------------------------------------------------------------
  // Meaning: the distinct items past a position, in order
  // ---------------------------------------------------------------------------------------------

  ghost function ItemSet(st: Stacks, q: Query, after: string): set<string> {
    set k | k in LiveKeys(st) && q.prefix <= k && Less(after, Item(k, q.prefix, q.delim)) :: Item(k, q.prefix, q.delim)
  }

  /** Every item of the listing that sorts strictly after `after`, each once. */
  ghost function Items(st: Stacks, q: Query, after: string): seq<string> {
    Ordered(ItemSet(st, q, after))
  }

  predicate IsPrefixItem(q: Query, it: string) {
    RollsUp(it, q.prefix, q.delim)
  }

  /** The items that are keys, and the items that are common prefixes. */
  function Plain(q: Query, items: seq<string>): seq<string> {
    if items == [] then []
    else Plain(q, items[..|items| - 1]) + (if IsPrefixItem(q, items[|items| - 1]) then [] else [items[|items| - 1]])
  }

  function Rolled(q: Query, items: seq<string>): seq<string> {
    if items == [] then []
    else Rolled(q, items[..|items| - 1]) + (if IsPrefixItem(q, items[|items| - 1]) then [items[|items| - 1]] else [])
  }

  function KeysOf(objects: seq<Object>): (keys: seq<string>)
    ensures |keys| == |objects|
  {
    seq(|objects|, i requires 0 <= i < |objects| => objects[i].key)
  }

  function Last(s: seq<string>): string {
    if s == [] then "" else s[|s| - 1]
  }

  /** One response: the first `m` items past `after`, and whether more remain. */
  ghost predicate IsPage(st: Stacks, q: Query, after: string, m: nat, res: ScanResult) {
    var items := Items(st, q, after);
    && KeysOf(res.contents) == Plain(q, Take(items, m))
    && res.prefixes == Rolled(q, Take(items, m))
    && (forall o :: o in res.contents ==> Current(VersionsOf(st, o.key)) == Some(o))
    && res.truncated == (|items| > m)
    && res.resumeAfter == Last(Take(items, m))
  }

  // ---------------------------------------------------------------------------------------------
  // The scan as a fold over the live objects past `after`
  // ---------------------------------------------------------------------------------------------

  /** The loop body for one object of a batch. */
  function Visit(q: Query, after: string, m: nat, acc: ScanResult, o: Object): ScanResult {
    var count := |acc.contents| + |acc.prefixes|;
    if RollsUp(o.key, q.prefix, q.delim) then
      var cp := Item(o.key, q.prefix, q.delim);
      if AtMost(cp, after) then acc // rolled up on a previous page
      else if acc.prefixes != [] && acc.prefixes[|acc.prefixes| - 1] == cp then acc // already in this response
      else if count == m then acc.(truncated := true)
      else acc.(prefixes := acc.prefixes + [cp], resumeAfter := cp)
    else if count == m then acc.(truncated := true)
    else acc.(contents := acc.contents + [o], resumeAfter := o.key)
  }

  ghost predicate Listed(q: Query, after: string, live: seq<Object>) {
    && (forall i :: 0 <= i < |live| ==> q.prefix <= live[i].key && Less(after, live[i].key))
    && forall i, j :: 0 <= i < j < |live| ==> Less(live[i].key, live[j].key)
  }

  function Visitor(q: Query, after: string, m: nat): (ScanResult, Object) -> ScanResult {
    (acc: ScanResult, o: Object) => Visit(q, after, m, acc, o)
  }

  predicate Full(acc: ScanResult) {
    acc.truncated
  }

  function ScanAll(q: Query, after: string, m: nat, live: seq<Object>): ScanResult {
    Scanning.All(Visitor(q, after, m), Full, Nothing, live)
  }

  /** The distinct items past `after`, as the keys come by. */
  function Distinct(q: Query, after: string, live: seq<Object>): seq<string> {
    if live == [] then []
    else
      var acc := Distinct(q, after, live[..|live| - 1]);
      var it := Item(live[|live| - 1].key, q.prefix, q.delim);
      if AtMost(it, after) || (acc != [] && acc[|acc| - 1] == it) then acc else acc + [it]
  }

  /** They come out ascending, end at or before the last key's item, and miss nothing. */
  lemma {:induction false} DistinctAscending(q: Query, after: string, live: seq<Object>)
    requires Listed(q, after, live)
    ensures Ascending(Distinct(q, after, live))
    ensures live == [] ==> Distinct(q, after, live) == []
    ensures live != [] ==>
              forall i :: 0 <= i < |Distinct(q, after, live)| ==>
                            AtMost(Distinct(q, after, live)[i], Item(live[|live| - 1].key, q.prefix, q.delim))
  {
    if live != [] {
      var n := |live| - 1;
      var acc := Distinct(q, after, live[..n]);
      var it := Item(live[n].key, q.prefix, q.delim);
      DistinctAscending(q, after, live[..n]);
      if n > 0 {
        ItemMonotone(live[n - 1].key, live[n].key, q.prefix, q.delim);
      }
      forall i | 0 <= i < |acc|
        ensures AtMost(acc[i], it)
        ensures acc[|acc| - 1] != it ==> Less(acc[i], it)
      {
        var prev := Item(live[n - 1].key, q.prefix, q.delim);
        AtMostTransitive(acc[i], prev, it);
        if acc[|acc| - 1] != it && i < |acc| - 1 {
          AtMostTransitive(acc[|acc| - 1], prev, it);
          LessTransitive(acc[i], acc[|acc| - 1], it);
        }
      }
    }
  }

  lemma AtMostTransitive(a: string, b: string, c: string)
    requires AtMost(a, b) && AtMost(b, c)
    ensures AtMost(a, c)
  {
    if a != b && b != c {
      LessTransitive(a, b, c);
    }
  }

  lemma {:induction false} DistinctElements(q: Query, after: string, live: seq<Object>, it: string)
    requires Listed(q, after, live)
    ensures it in Distinct(q, after, live) <==>
            exists i :: 0 <= i < |live| && it == Item(live[i].key, q.prefix, q.delim) && Less(after, it)
  {
    hide Item, Less;
    if live != [] {
      var n := |live| - 1;
      var acc := Distinct(q, after, live[..n]);
      var last := Item(live[n].key, q.prefix, q.delim);
      DistinctElements(q, after, live[..n], it);
      Trichotomy(last, after);
      if i :| 0 <= i < |live| && it == Item(live[i].key, q.prefix, q.delim) && Less(after, it) {
        assert i < n ==> live[..n][i] == live[i];
      }
      if i :| 0 <= i < n && it == Item(live[..n][i].key, q.prefix, q.delim) && Less(after, it) {
        assert live[..n][i] == live[i];
      }
      assert acc != [] ==> acc[|acc| - 1] in acc;
      if acc != [] && acc[|acc| - 1] == last && it == last {
        assert it in acc;
      }
    }
  }

  lemma ListingIsListed(st: Stacks, q: Query, after: string)
    requires ValidStacks(st)
    ensures Listed(q, after, LiveListing(st, q.prefix, after))
  {
    var live := LiveListing(st, q.prefix, after);
    LiveListingContents(st, q.prefix, after);
    forall i | 0 <= i < |live|
      ensures q.prefix <= live[i].key && Less(after, live[i].key)
    {
      assert live[i] in live;
    }
    forall i, j | 0 <= i < j < |live|
      ensures Less(live[i].key, live[j].key)
    {
      assert live[i] in live && live[j] in live;
      RowBeforeAsymmetric(live[i], live[j]);
    }
  }

  /** An item past `after` comes from a key past `after`, so the index query misses nothing. */
  lemma DistinctIsItems(st: Stacks, q: Query, after: string)
    requires ValidStacks(st)
    ensures Listed(q, after, LiveListing(st, q.prefix, after))
    ensures Distinct(q, after, LiveListing(st, q.prefix, after)) == Items(st, q, after)
  {
    var live := LiveListing(st, q.prefix, after);
    ListingIsListed(st, q, after);
    LiveListingContents(st, q.prefix, after);
    var d := Distinct(q, after, live);
    forall it
      ensures it in d <==> it in ItemSet(st, q, after)
    {
      DistinctElements(q, after, live, it);
      if i :| 0 <= i < |live| && it == Item(live[i].key, q.prefix, q.delim) && Less(after, it) {
        assert live[i] in live;
        assert live[i].key in LiveKeys(st);
      }
      if it in ItemSet(st, q, after) {
        var k :| k in LiveKeys(st) && q.prefix <= k && Less(after, Item(k, q.prefix, q.delim)) && it == Item(k, q.prefix, q.delim);
        PrefixAtMost(it, k);
        LessThenAtMost(after, it, k);
        assert st[k][0].key == k;
        assert st[k][0] in live;
        var i :| 0 <= i < |live| && live[i] == st[k][0];
      }
    }
    DistinctAscending(q, after, live);
    OrderedIsTheOne(d, ItemSet(st, q, after));
  }

  // ---------------------------------------------------------------------------------------------
  // The fold computes the page
  // ---------------------------------------------------------------------------------------------

  lemma {:induction false} SplitCounts(q: Query, items: seq<string>)
    ensures |Plain(q, items)| + |Rolled(q, items)| == |items|
  {
    if items != [] {
      SplitCounts(q, items[..|items| - 1]);
    }
  }

  lemma {:induction false} LastRolled(q: Query, items: seq<string>, it: string)
    requires Ascending(items) && IsPrefixItem(q, it)
    requires forall i :: 0 <= i < |items| ==> AtMost(items[i], it)
    ensures (items != [] && items[|items| - 1] == it) <==>
            (Rolled(q, items) != [] && Rolled(q, items)[|Rolled(q, items)| - 1] == it)
  {
    if items != [] && !IsPrefixItem(q, items[|items| - 1]) {
      LastRolled(q, items[..|items| - 1], it);
      LessIrreflexive(it);
      if |items| > 1 {
        assert items[|items| - 2] != it by {
          if items[|items| - 2] == it {
            Trichotomy(it, items[|items| - 1]);
          }
        }
      }
    }
  }

  /** What the accumulator holds after any number of objects. */
  ghost predicate Tracks(q: Query, m: nat, items: seq<string>, acc: ScanResult) {
    && KeysOf(acc.contents) == Plain(q, Take(items, m))
    && acc.prefixes == Rolled(q, Take(items, m))
    && acc.truncated == (|items| > m)
    && acc.resumeAfter == Last(Take(items, m))
  }

  lemma TrackMore(q: Query, items: seq<string>, it: string)
    ensures Plain(q, items + [it]) == Plain(q, items) + (if IsPrefixItem(q, it) then [] else [it])
    ensures Rolled(q, items + [it]) == Rolled(q, items) + (if IsPrefixItem(q, it) then [it] else [])
    ensures Last(items + [it]) == it
  {
    assert (items + [it])[..|items|] == items;
  }

  lemma {:induction false} ScanTracks(q: Query, after: string, m: nat, live: seq<Object>)
    requires Listed(q, after, live) && m > 0
    ensures Tracks(q, m, Distinct(q, after, live), ScanAll(q, after, m, live))
  {
    if live != [] {
      var n := |live| - 1;
      ScanTracks(q, after, m, live[..n]);
      DistinctAscending(q, after, live[..n]);
      var acc, items := ScanAll(q, after, m, live[..n]), Distinct(q, after, live[..n]);
      var o := live[n];
      if n > 0 {
        BeforeNext(q, after, live, n, items);
      } else {
        assert live[..n] == [];
      }
      if |items| > m {
        var it := Item(o.key, q.prefix, q.delim);
        assert Take(items + [it], m) == Take(items, m);
      } else if RollsUp(o.key, q.prefix, q.delim) {
        VisitRolled(q, after, m, items, acc, o);
      } else {
        VisitPlain(q, after, m, items, acc, o);
      }
    }
  }

  /** Everything emitted so far is at or before the next key's item, and before the next key. */
  lemma BeforeNext(q: Query, after: string, live: seq<Object>, n: nat, items: seq<string>)
    requires Listed(q, after, live) && 0 < n < |live| && items == Distinct(q, after, live[..n])
    ensures forall i :: 0 <= i < |items| ==> AtMost(items[i], Item(live[n].key, q.prefix, q.delim))
    ensures forall i :: 0 <= i < |items| ==> Less(items[i], live[n].key)
  {
    var prev, next := live[n - 1].key, live[n].key;
    DistinctAscending(q, after, live[..n]);
    ItemMonotone(prev, next, q.prefix, q.delim);
    PrefixAtMost(Item(prev, q.prefix, q.delim), prev);
    forall i | 0 <= i < |items|
      ensures AtMost(items[i], Item(next, q.prefix, q.delim)) && Less(items[i], next)
    {
      AtMostTransitive(items[i], Item(prev, q.prefix, q.delim), Item(next, q.prefix, q.delim));
      AtMostTransitive(items[i], Item(prev, q.prefix, q.delim), prev);
      AtMostThenLess(items[i], prev, next);
    }
  }

  /** A key under a delimiter: skipped, a new common prefix, or the end of the page. */
  lemma VisitRolled(q: Query, after: string, m: nat, items: seq<string>, acc: ScanResult, o: Object)
    requires m > 0 && RollsUp(o.key, q.prefix, q.delim)
    requires Ascending(items) && |items| <= m && Tracks(q, m, items, acc)
    requires forall i :: 0 <= i < |items| ==> AtMost(items[i], Item(o.key, q.prefix, q.delim))
    ensures var it := Item(o.key, q.prefix, q.delim);
            var items' := if AtMost(it, after) || (items != [] && items[|items| - 1] == it) then items else items + [it];
            Tracks(q, m, items', Visit(q, after, m, acc, o))
  {
    var it := Item(o.key, q.prefix, q.delim);
    ItemIsOwnItem(o.key, q.prefix, q.delim);
    LastRolled(q, items, it);
    SplitCounts(q, items);
    TrackMore(q, items, it);
    assert |items| == m ==> Take(items + [it], m) == items;
  }

  /** A key without a delimiter: always a new item, or the end of the page. */
  lemma VisitPlain(q: Query, after: string, m: nat, items: seq<string>, acc: ScanResult, o: Object)
    requires m > 0 && !RollsUp(o.key, q.prefix, q.delim) && Less(after, o.key)
    requires |items| <= m && Tracks(q, m, items, acc)
    requires forall i :: 0 <= i < |items| ==> Less(items[i], o.key)
    ensures var it := Item(o.key, q.prefix, q.delim);
            var items' := if AtMost(it, after) || (items != [] && items[|items| - 1] == it) then items else items + [it];
            Tracks(q, m, items', Visit(q, after, m, acc, o))
  {
    Trichotomy(after, o.key);
    LessIrreflexive(o.key);
    SplitCounts(q, items);
    TrackMore(q, items, o.key);
    assert |items| == m ==> Take(items + [o.key], m) == items;
    assert KeysOf(acc.contents + [o]) == KeysOf(acc.contents) + [o.key];
  }

  lemma {:induction false} ScanKeepsObjects(q: Query, after: string, m: nat, live: seq<Object>)
    ensures forall o :: o in ScanAll(q, after, m, live).contents ==> o in live
  {
    if live != [] {
      ScanKeepsObjects(q, after, m, live[..|live| - 1]);
    }
  }

  // ---------------------------------------------------------------------------------------------
  // What is shown, in terms of keys and delimiters
  // ---------------------------------------------------------------------------------------------

  /** The keys that show as themselves: live, under the prefix, with no delimiter behind it. */
  ghost predicate ShowsAsKey(st: Stacks, q: Query, k: string) {
    k in LiveKeys(st) && q.prefix <= k && !Delimited(k, q.prefix, q.delim)
  }

  /** `p` is a live key under the prefix, cut after the first delimiter behind it. */
  ghost predicate ShowsAsPrefix(st: Stacks, q: Query, p: string) {
    && q.delim != ""
    && exists k, i :: k in LiveKeys(st) && q.prefix <= k && FirstAt(k, q.prefix, q.delim, i) && p == k[..i + |q.delim|]
  }

  lemma {:induction false} PlainElements(q: Query, items: seq<string>, it: string)
    ensures it in Plain(q, items) <==> it in items && !IsPrefixItem(q, it)
    ensures it in Rolled(q, items) <==> it in items && IsPrefixItem(q, it)
  {
    if items != [] {
      PlainElements(q, items[..|items| - 1], it);
      assert items == items[..|items| - 1] + [items[|items| - 1]];
    }
  }

  lemma {:induction false} PlainAscending(q: Query, items: seq<string>)
    requires Ascending(items)
    ensures Ascending(Plain(q, items)) && Ascending(Rolled(q, items))
  {
    if items != [] {
      var n := |items| - 1;
      PlainAscending(q, items[..n]);
      var keys, prefixes := Plain(q, items[..n]), Rolled(q, items[..n]);
      forall i | 0 <= i < |keys|
        ensures Less(keys[i], items[n])
      {
        PlainElements(q, items[..n], keys[i]);
      }
      forall i | 0 <= i < |prefixes|
        ensures Less(prefixes[i], items[n])
      {
        PlainElements(q, items[..n], prefixes[i]);
      }
    }
  }

  /** The item of a live key shows as itself or as a prefix, whichever the delimiter makes of it. */
  lemma ItemShows(st: Stacks, q: Query, k: string)
    requires k in LiveKeys(st) && q.prefix <= k
    ensures if IsPrefixItem(q, Item(k, q.prefix, q.delim)) then ShowsAsPrefix(st, q, Item(k, q.prefix, q.delim))
            else ShowsAsKey(st, q, Item(k, q.prefix, q.delim))
  {
    hide FirstAt, RollsUp, Item;
    ItemMeaning(k, q.prefix, q.delim);
    ItemIsOwnItem(k, q.prefix, q.delim);
  }

  lemma KeyIsItem(st: Stacks, q: Query, k: string)
    requires ShowsAsKey(st, q, k)
    ensures Item(k, q.prefix, q.delim) == k && !IsPrefixItem(q, k)
  {
    hide FirstAt, RollsUp, Item;
    ItemMeaning(k, q.prefix, q.delim);
  }

  lemma PrefixIsItem(st: Stacks, q: Query, p: string)
    requires ShowsAsPrefix(st, q, p)
    ensures IsPrefixItem(q, p) && exists k :: k in LiveKeys(st) && q.prefix <= k && p == Item(k, q.prefix, q.delim)
  {
    hide RollsUp, Item;
    var k, i :| k in LiveKeys(st) && q.prefix <= k && FirstAt(k, q.prefix, q.delim, i) && p == k[..i + |q.delim|];
    ItemMeaning(k, q.prefix, q.delim);
    FirstDelimits(k, q.prefix, q.delim, i);
    ItemIsOwnItem(k, q.prefix, q.delim);
  }

  /** Past `after`, the keys without a delimiter show as themselves and the others cut off at it. */
  lemma ShownPast(st: Stacks, q: Query, after: string, it: string)
    ensures it in Plain(q, Items(st, q, after)) <==> ShowsAsKey(st, q, it) && Less(after, it)
    ensures it in Rolled(q, Items(st, q, after)) <==> ShowsAsPrefix(st, q, it) && Less(after, it)
  {
    hide FirstAt, RollsUp, Item, Delimited, ShowsAsKey, ShowsAsPrefix, Less, IsPrefixItem;
    PlainElements(q, Items(st, q, after), it);
    if it in ItemSet(st, q, after) {
      var k :| k in LiveKeys(st) && q.prefix <= k && it == Item(k, q.prefix, q.delim);
      ItemShows(st, q, k);
    }
    if ShowsAsKey(st, q, it) {
      KeyIsItem(st, q, it);
      KeyIsLive(st, q, it);
    }
    if ShowsAsPrefix(st, q, it) {
      PrefixIsItem(st, q, it);
    }
  }

  lemma KeyIsLive(st: Stacks, q: Query, k: string)
    requires ShowsAsKey(st, q, k)
    ensures k in LiveKeys(st) && q.prefix <= k
  {
  }

  /** The items of a page are those past `after`, up to the last one when there are more. */
  lemma TakenItems(items: seq<string>, m: nat, it: string)
    requires Ascending(items)
    ensures it in Take(items, m) <==> it in items && (|items| > m ==> m > 0 && AtMost(it, Last(Take(items, m))))
  {
    if |items| > m && it in items && m > 0 && AtMost(it, items[m - 1]) {
      var i :| 0 <= i < |items| && items[i] == it;
      Trichotomy(items[m - 1], it);
      assert i < m;
      assert items[..m][i] == it;
    }
    if |items| > m && it in items[..m] {
      var i :| 0 <= i < m && items[..m][i] == it;
      assert i < m - 1 ==> Less(items[i], items[m - 1]);
    }
  }

  /** What one response shows: everything that shows past `after`, as far as the page goes. */
  lemma PageShows(st: Stacks, q: Query, after: string, m: nat, res: ScanResult, it: string)
    requires m > 0 && IsPage(st, q, after, m, res)
    ensures it in KeysOf(res.contents) <==>
            ShowsAsKey(st, q, it) && Less(after, it) && (res.truncated ==> AtMost(it, res.resumeAfter))
    ensures it in res.prefixes <==>
            ShowsAsPrefix(st, q, it) && Less(after, it) && (res.truncated ==> AtMost(it, res.resumeAfter))
  {
    hide Items, ShowsAsKey, ShowsAsPrefix, IsPrefixItem, Less, Last, Take;
    var items := Items(st, q, after);
    ItemsAscend(st, q, after);
    ShownPast(st, q, after, it);
    TakenItems(items, m, it);
    PlainElements(q, items, it);
    PlainElements(q, Take(items, m), it);
  }

  lemma ItemsAscend(st: Stacks, q: Query, after: string)
    ensures Ascending(Items(st, q, after))
  {
  }

  /** The same for the whole listing: nothing lies at or before the empty position. */
  lemma WholeListing(st: Stacks, q: Query)
    requires ValidStacks(st)
    ensures Ascending(Plain(q, Items(st, q, ""))) && Ascending(Rolled(q, Items(st, q, "")))
    ensures forall k :: k in Plain(q, Items(st, q, "")) <==> ShowsAsKey(st, q, k)
    ensures forall p :: p in Rolled(q, Items(st, q, "")) <==> ShowsAsPrefix(st, q, p)
  {
    PlainAscending(q, Items(st, q, ""));
    forall it
      ensures it in Plain(q, Items(st, q, "")) <==> ShowsAsKey(st, q, it)
      ensures it in Rolled(q, Items(st, q, "")) <==> ShowsAsPrefix(st, q, it)
    {
      ShownPast(st, q, "", it);
    }
  }

  // ---------------------------------------------------------------------------------------------
  // scanObjects
  // ---------------------------------------------------------------------------------------------

  /** Visiting the remaining objects from an accumulator, stopping when the page is full. */
  function ScanFrom(q: Query, after: string, m: nat, acc: ScanResult, rest: seq<Object>): ScanResult {
    Scanning.From(Visitor(q, after, m), Full, acc, rest)
  }

  /** Continuing after the i-th object lists exactly the rest. */
  lemma ListingRest(st: Stacks, prefix: string, after: string, i: nat)
    requires ValidStacks(st) && 0 < i <= |LiveListing(st, prefix, after)|
    ensures LiveListing(st, prefix, LiveListing(st, prefix, after)[i - 1].key) == LiveListing(st, prefix, after)[i..]
  {
    var found := set k | k in LiveKeys(st) && prefix <= k && Less(after, k);
    var keys := Ordered(found);
    var cursor := keys[i - 1];
    assert cursor in keys && st[cursor][0].key == cursor;
    var rest := set k | k in LiveKeys(st) && prefix <= k && Less(cursor, k);
    forall k
      ensures k in rest <==> k in found && Less(cursor, k)
    {
      if k in rest {
        LessTransitive(after, cursor, k);
      }
    }
    OrderedAfter(found, i, rest);
    HeadsRest(st, keys, i);
  }

  lemma HeadsRest(st: Stacks, keys: seq<string>, i: nat)
    requires i <= |keys| && forall k :: k in keys ==> k in st && st[k] != []
    ensures Heads(st, keys[i..]) == Heads(st, keys)[i..]
  {
  }

  lemma TakeSplits(rest: seq<Object>, n: nat, batch: seq<Object>)
    requires 0 < n <= |rest| && batch == Take(rest, n)
    ensures |batch| == n && batch[n - 1] == rest[n - 1] && rest == batch + rest[n..]
  {
  }

  /** One index page is the next stretch of the listing; a short one is the last. */
  lemma NextPage(st: Stacks, prefix: string, cursor: string, scanPage: nat, batch: seq<Object>)
    requires ValidStacks(st) && scanPage > 0 && batch == ListObjects(st, prefix, cursor, scanPage)
    ensures |batch| < scanPage ==> batch == LiveListing(st, prefix, cursor)
    ensures |batch| >= scanPage ==> LiveListing(st, prefix, cursor) == batch + LiveListing(st, prefix, batch[|batch| - 1].key)
  {
    hide LiveListing;
    var rest := LiveListing(st, prefix, cursor);
    if |rest| >= scanPage {
      ListingRest(st, prefix, cursor, scanPage);
      TakeSplits(rest, scanPage, batch);
    }
  }

  /** Reading one page moves a stretch of the listing from the unread part to the read part. */
  lemma ReadOne(st: Stacks, acc: seq<Object>, after: string, limit: nat, page: seq<Object>)
    requires ValidStacks(st) && limit > 0 && page == ListObjects(st, "", after, limit)
    ensures |page| < limit ==> acc + LiveListing(st, "", after) == acc + page
    ensures |page| >= limit ==> acc + LiveListing(st, "", after) == (acc + page) + LiveListing(st, "", page[|page| - 1].key)
  {
    NextPage(st, "", after, limit, page);
    if |page| >= limit {
      Associative(acc, page, LiveListing(st, "", page[|page| - 1].key));
    }
  }

  /** The outer loop: reads index pages of any size until one is short or the response is full. */
  method ScanPages(store: MemoryStore.Memory, q: Query, after: string, maxKeys: nat, scanPage: nat) returns (res: ScanResult)
    requires store.Valid() && scanPage > 0
    ensures res == ScanFrom(q, after, maxKeys, Nothing, LiveListing(store.objects, q.prefix, after))
  {
    res := Nothing;
    var cursor := after;
    ghost var rest := LiveListing(store.objects, q.prefix, cursor);
    while true
      invariant rest == LiveListing(store.objects, q.prefix, cursor) && !res.truncated
      invariant ScanFrom(q, after, maxKeys, res, rest) ==
                ScanFrom(q, after, maxKeys, Nothing, LiveListing(store.objects, q.prefix, after))
      decreases |rest|
    {
      var batch := store.List(q.prefix, cursor, scanPage);
      NextPage(store.objects, q.prefix, cursor, scanPage, batch);
      ghost var before := res;
      res := Scanning.ScanBatch(Visitor(q, after, maxKeys), Full, res, batch);
      if |batch| < scanPage {
        return;
      }
      cursor := batch[|batch| - 1].key;
      rest := LiveListing(store.objects, q.prefix, cursor);
      Scanning.FromSplits(Visitor(q, after, maxKeys), Full, before, batch, rest);
      if res.truncated {
        return;
      }
    }
  }

  /**
   * One response of up to `maxKeys` items strictly after `after`, whatever the index page size:
   * it is the first `maxKeys` items past `after`, and `truncated` says exactly whether more remain.
   */
  method ScanObjects(store: MemoryStore.Memory, q: Query, after: string, maxKeys: nat, scanPage: nat) returns (res: ScanResult)
    requires store.Valid() && scanPage > 0
    ensures maxKeys == 0 ==> res == Nothing
    ensures maxKeys > 0 ==> IsPage(store.objects, q, after, maxKeys, res)
    ensures maxKeys > 0 ==>
              forall k :: k in KeysOf(res.contents) <==>
                            ShowsAsKey(store.objects, q, k) && Less(after, k) && (res.truncated ==> AtMost(k, res.resumeAfter))
    ensures maxKeys > 0 ==>
              forall p :: p in res.prefixes <==>
                            ShowsAsPrefix(store.objects, q, p) && Less(after, p) && (res.truncated ==> AtMost(p, res.resumeAfter))
    ensures res.truncated ==> |res.contents| + |res.prefixes| == maxKeys
  {
    if maxKeys == 0 {
      return Nothing;
    }
    res := ScanPages(store, q, after, maxKeys, scanPage);
    PageFromScan(store.objects, q, after, maxKeys);
    forall it
      ensures it in KeysOf(res.contents) <==>
              ShowsAsKey(store.objects, q, it) && Less(after, it) && (res.truncated ==> AtMost(it, res.resumeAfter))
      ensures it in res.prefixes <==>
              ShowsAsPrefix(store.objects, q, it) && Less(after, it) && (res.truncated ==> AtMost(it, res.resumeAfter))
    {
      PageShows(store.objects, q, after, maxKeys, res, it);
    }
    SplitCounts(q, Take(Items(store.objects, q, after), maxKeys));
  }

  lemma PageFromScan(st: Stacks, q: Query, after: string, m: nat)
    requires ValidStacks(st) && m > 0
    ensures IsPage(st, q, after, m, ScanFrom(q, after, m, Nothing, LiveListing(st, q.prefix, after)))
  {
    var live := LiveListing(st, q.prefix, after);
    Scanning.WholeScan(Visitor(q, after, m), Full, Nothing, live);
    ListingIsListed(st, q, after);
    LiveListingContents(st, q.prefix, after);
    DistinctIsItems(st, q, after);
    ScanTracks(q, after, m, live);
    ScanKeepsObjects(q, after, m, live);
  }

  // ---------------------------------------------------------------------------------------------
  // Following resume tokens to the end
  // ---------------------------------------------------------------------------------------------

  /** The token of a full page picks up exactly where the page ended. */
  lemma ItemsRest(st: Stacks, q: Query, after: string, m: nat)
    requires 0 < m <= |Items(st, q, after)|
    ensures Items(st, q, Items(st, q, after)[m - 1]) == Items(st, q, after)[m..]
  {
    var items := Items(st, q, after);
    var resume := items[m - 1];
    assert resume in items && resume in ItemSet(st, q, after);
    forall it
      ensures it in ItemSet(st, q, resume) <==> it in ItemSet(st, q, after) && Less(resume, it)
    {
      if it in ItemSet(st, q, resume) {
        LessTransitive(after, resume, it);
      }
    }
    OrderedAfter(ItemSet(st, q, after), m, ItemSet(st, q, resume));
  }

  lemma {:induction false} SplitConcat(q: Query, a: seq<string>, b: seq<string>)
    ensures Plain(q, a + b) == Plain(q, a) + Plain(q, b)
    ensures Rolled(q, a + b) == Rolled(q, a) + Rolled(q, b)
  {
    if b == [] {
      assert a + b == a;
    } else {
      var n := |b| - 1;
      assert (a + b)[..|a + b| - 1] == a + b[..n];
      SplitConcat(q, a, b[..n]);
    }
  }

  /** What one page contributes to the whole, and what is left after it. */
  lemma PageThenRest(st: Stacks, q: Query, after: string, m: nat, res: ScanResult)
    requires m > 0 && IsPage(st, q, after, m, res)
    ensures !res.truncated ==> KeysOf(res.contents) == Plain(q, Items(st, q, after)) && res.prefixes == Rolled(q, Items(st, q, after))
    ensures res.truncated ==>
              && |Items(st, q, res.resumeAfter)| < |Items(st, q, after)|
              && Plain(q, Items(st, q, after)) == KeysOf(res.contents) + Plain(q, Items(st, q, res.resumeAfter))
              && Rolled(q, Items(st, q, after)) == res.prefixes + Rolled(q, Items(st, q, res.resumeAfter))
  {
    hide Items;
    var items := Items(st, q, after);
    if res.truncated {
      ItemsRest(st, q, after, m);
      assert items == items[..m] + items[m..];
      SplitConcat(q, items[..m], items[m..]);
    }
  }

  /** What has been read so far and what lies past `after` make up the listing. */
  ghost predicate ReadUpTo(st: Stacks, q: Query, keys: seq<string>, prefixes: seq<string>, after: string) {
    && Plain(q, Items(st, q, "")) == keys + Plain(q, Items(st, q, after))
    && Rolled(q, Items(st, q, "")) == prefixes + Rolled(q, Items(st, q, after))
  }

  lemma PageAdds(st: Stacks, q: Query, keys: seq<string>, prefixes: seq<string>, after: string, m: nat, page: ScanResult)
    requires ValidStacks(st) && m > 0 && IsPage(st, q, after, m, page) && ReadUpTo(st, q, keys, prefixes, after)
    ensures !page.truncated ==>
              keys + KeysOf(page.contents) == Plain(q, Items(st, q, "")) && prefixes + page.prefixes == Rolled(q, Items(st, q, ""))
    ensures page.truncated ==>
              && |Items(st, q, page.resumeAfter)| < |Items(st, q, after)|
              && ReadUpTo(st, q, keys + KeysOf(page.contents), prefixes + page.prefixes, page.resumeAfter)
  {
    PageThenRest(st, q, after, m, page);
    if page.truncated {
      Associative(keys, KeysOf(page.contents), Plain(q, Items(st, q, page.resumeAfter)));
      Associative(prefixes, page.prefixes, Rolled(q, Items(st, q, page.resumeAfter)));
    }
  }

  /**
   * A client that follows resume tokens from the start until a page is not truncated stops, and
   * has then seen every item of the listing exactly once, in order.
   */
  method ListEverything(store: MemoryStore.Memory, q: Query, m: nat, scanPage: nat) returns (keys: seq<string>, prefixes: seq<string>)
    requires store.Valid() && scanPage > 0 && m > 0
    ensures keys == Plain(q, Items(store.objects, q, ""))
    ensures prefixes == Rolled(q, Items(store.objects, q, ""))
    ensures Ascending(keys) && forall k :: k in keys <==> ShowsAsKey(store.objects, q, k)
    ensures Ascending(prefixes) && forall p :: p in prefixes <==> ShowsAsPrefix(store.objects, q, p)
  {
    ghost var st := store.objects;
    WholeListing(st, q);
    keys, prefixes := [], [];
    var after := "";
    while true
      invariant ReadUpTo(st, q, keys, prefixes, after)
      decreases |Items(st, q, after)|
    {
      var page := ScanObjects(store, q, after, m, scanPage);
      PageAdds(st, q, keys, prefixes, after, m, page);
      keys, prefixes := keys + KeysOf(page.contents), prefixes + page.prefixes;
      if !page.truncated {
        return;
      }
      after := page.resumeAfter;
    }
  }

  /** Starting from the empty position leaves nothing out: every live key under the prefix shows. */
  lemma NothingMissed(st: Stacks, q: Query, it: string)
    requires ValidStacks(st)
    ensures it in Items(st, q, "") <==> exists k :: k in LiveKeys(st) && q.prefix <= k && it == Item(k, q.prefix, q.delim)
  {
    if k :| k in LiveKeys(st) && q.prefix <= k && it == Item(k, q.prefix, q.delim) {
      assert it != "";
    }
  }
}
