/**
 * Version paging beyond its premises: a page that ends between versions of one key with equal
 * stamps.
 */
module TiedVersions {
  import opened ByteStrings
  import opened Objects
  import opened StoreRefinement
  import MemoryStore

  /** Listing order with ties: key ascending, then no newer version after an older one. */
  predicate NotAfter(a: Object, b: Object) {
    Less(a.key, b.key) || (a.key == b.key && a.vseq >= b.vseq)
  }

  ghost predicate WeaklyOrdered(rows: seq<Object>) {
    forall i, j :: 0 <= i < j < |rows| ==> NotAfter(rows[i], rows[j])
  }

  /** Rows as the gateway stores them: ids and stamps, possibly equal ones. */
  ghost predicate Stamped(st: Stacks) {
    ValidStacks(st) && forall v :: Holds(st, v) ==> v.versionId != "" && v.vseq >= 0
  }

  predicate Tied(a: Object, b: Object) {
    a.key == b.key && a.vseq == b.vseq
  }

  lemma {:induction false} PastMembers(versions: seq<Object>, km: string, vm: string, ms: int, v: Object)
    ensures v in Past(versions, km, vm, ms) <==> v in versions && PastMarker(km, vm, ms, v)
  {
    if versions != [] {
      PastMembers(versions[1..], km, vm, ms, v);
      assert v in versions <==> v == versions[0] || v in versions[1..];
    }
  }

  lemma {:induction false} PastOrdered(versions: seq<Object>, key: string, km: string, vm: string, ms: int)
    requires NewestFirst(versions) && forall i :: 0 <= i < |versions| ==> versions[i].key == key
    ensures WeaklyOrdered(Past(versions, km, vm, ms))
  {
    if versions != [] {
      PastOrdered(versions[1..], key, km, vm, ms);
      var tail := Past(versions[1..], km, vm, ms);
      forall j | 0 <= j < |tail|
        ensures NotAfter(versions[0], tail[j])
      {
        PastMembers(versions[1..], km, vm, ms, tail[j]);
        assert tail[j] in tail;
      }
    }
  }

  ghost predicate OwnStacks(st: Stacks, keys: seq<string>) {
    Ascending(keys) && forall k :: k in keys ==> k in st && ValidStack(k, st[k])
  }

  lemma {:induction false} PastAllMembers(st: Stacks, keys: seq<string>, km: string, vm: string, ms: int, v: Object)
    requires OwnStacks(st, keys)
    ensures v in PastAll(st, keys, km, vm, ms) <==> v.key in keys && v in st[v.key] && PastMarker(km, vm, ms, v)
  {
    if keys != [] {
      var k := keys[0];
      PastMembers(st[k], km, vm, ms, v);
      PastAllMembers(st, keys[1..], km, vm, ms, v);
      assert v.key in keys <==> v.key == k || v.key in keys[1..];
      assert v in st[k] ==> v.key == k;
    }
  }

  lemma {:induction false} PastAllOrdered(st: Stacks, keys: seq<string>, km: string, vm: string, ms: int)
    requires OwnStacks(st, keys)
    ensures WeaklyOrdered(PastAll(st, keys, km, vm, ms))
  {
    if keys != [] {
      var k := keys[0];
      PastOrdered(st[k], k, km, vm, ms);
      PastAllOrdered(st, keys[1..], km, vm, ms);
      var head, tail := Past(st[k], km, vm, ms), PastAll(st, keys[1..], km, vm, ms);
      forall i, j | 0 <= i < |head| && 0 <= j < |tail|
        ensures NotAfter(head[i], tail[j])
      {
        PastMembers(st[k], km, vm, ms, head[i]);
        PastAllMembers(st, keys[1..], km, vm, ms, tail[j]);
        assert head[i] in head && tail[j] in tail;
      }
    }
  }

  lemma ListingMembers(st: Stacks, prefix: string, km: string, vm: string, v: Object)
    requires ValidStacks(st)
    ensures v in VersionListing(st, prefix, km, vm) <==>
            Holds(st, v) && prefix <= v.key && AtMost(km, v.key) && PastMarker(km, vm, MarkerVSeq(st, km, vm), v)
  {
    PastAllMembers(st, Ordered(set k | k in st && prefix <= k && AtMost(km, k)), km, vm, MarkerVSeq(st, km, vm), v);
  }

  lemma ListingOrdered(st: Stacks, prefix: string, km: string, vm: string)
    requires ValidStacks(st)
    ensures WeaklyOrdered(VersionListing(st, prefix, km, vm))
  {
    PastAllOrdered(st, Ordered(set k | k in st && prefix <= k && AtMost(km, k)), km, vm, MarkerVSeq(st, km, vm));
  }

  lemma MarkerStands(st: Stacks, c: Object)
    requires Stamped(st) && Holds(st, c)
    ensures MarkerVSeq(st, c.key, c.versionId) == c.vseq
  {
    var i :| 0 <= i < |st[c.key]| && st[c.key][i] == c;
    MemoryStore.CutOut(st[c.key], i, c.versionId);
  }

  /** What the listing resumed at a row contains. */
  lemma ResumedMembers(st: Stacks, prefix: string, c: Object, v: Object)
    requires Stamped(st) && Holds(st, c)
    ensures v in VersionListing(st, prefix, c.key, c.versionId) <==>
            Holds(st, v) && prefix <= v.key && (Less(c.key, v.key) || (v.key == c.key && v.vseq < c.vseq))
  {
    ListingMembers(st, prefix, c.key, c.versionId, v);
    MarkerStands(st, c);
    Trichotomy(c.key, v.key);
  }

  /**
   * Resuming at the i-th row of a listing returns the rows after it except those of the same key
   * with the same stamp: exactly the tied rows are lost.
   */
  lemma ResumeLosesTies(st: Stacks, prefix: string, km: string, vm: string, rows: seq<Object>, i: nat, v: Object)
    requires Stamped(st) && rows == VersionListing(st, prefix, km, vm) && 0 < i <= |rows|
    ensures v in VersionListing(st, prefix, rows[i - 1].key, rows[i - 1].versionId) <==> v in rows[i..] && !Tied(rows[i - 1], v)
  {
    var c := rows[i - 1];
    assert c in rows;
    ListingOrdered(st, prefix, km, vm);
    ListingMembers(st, prefix, km, vm, c);
    ListingMembers(st, prefix, km, vm, v);
    ResumedMembers(st, prefix, c, v);
    if v in rows[i..] {
      assert v in rows;
    }
    if Holds(st, v) && prefix <= v.key && (Less(c.key, v.key) || (v.key == c.key && v.vseq < c.vseq)) {
      StillPast(st, km, vm, c, v);
      NotEarlier(rows, i, v);
    }
    Trichotomy(c.key, v.key);
  }

  lemma NotEarlier(rows: seq<Object>, i: nat, v: Object)
    requires WeaklyOrdered(rows) && 0 < i <= |rows| && v in rows
    requires var c := rows[i - 1]; Less(c.key, v.key) || (v.key == c.key && v.vseq < c.vseq)
    ensures v in rows[i..]
  {
    var j :| 0 <= j < |rows| && rows[j] == v;
    Trichotomy(rows[i - 1].key, v.key);
    assert j < i - 1 ==> NotAfter(v, rows[i - 1]);
    assert rows[i..][j - i] == v;
  }

  /** What lies past a row past the marker lies past the marker. */
  lemma StillPast(st: Stacks, km: string, vm: string, c: Object, v: Object)
    requires AtMost(km, c.key) && PastMarker(km, vm, MarkerVSeq(st, km, vm), c)
    requires Less(c.key, v.key) || (v.key == c.key && v.vseq < c.vseq)
    ensures AtMost(km, v.key) && PastMarker(km, vm, MarkerVSeq(st, km, vm), v)
  {
    if Less(c.key, v.key) {
      AtMostThenLess(km, c.key, v.key);
      Trichotomy(km, v.key);
    }
  }

  /** So a page boundary loses nothing exactly when the next row is not tied with the last one returned. */
  lemma ResumeLosesNothingIff(st: Stacks, prefix: string, km: string, vm: string, rows: seq<Object>, i: nat)
    requires Stamped(st) && rows == VersionListing(st, prefix, km, vm) && 0 < i <= |rows|
    ensures (forall v :: v in rows[i..] ==> v in VersionListing(st, prefix, rows[i - 1].key, rows[i - 1].versionId)) <==>
            (i == |rows| || !Tied(rows[i - 1], rows[i]))
  {
    ListingOrdered(st, prefix, km, vm);
    if i < |rows| {
      ResumeLosesTies(st, prefix, km, vm, rows, i, rows[i]);
      assert rows[i..][0] == rows[i];
    }
    forall v | v in rows[i..] && !(i < |rows| && Tied(rows[i - 1], rows[i]))
      ensures v in VersionListing(st, prefix, rows[i - 1].key, rows[i - 1].versionId)
    {
      ResumeLosesTies(st, prefix, km, vm, rows, i, v);
      TiesAdjoin(rows, i, v);
    }
  }

  lemma TiesAdjoin(rows: seq<Object>, i: nat, v: Object)
    requires WeaklyOrdered(rows) && 0 < i <= |rows| && v in rows[i..]
    ensures i < |rows| && (Tied(rows[i - 1], v) ==> Tied(rows[i - 1], rows[i]))
  {
    var j :| i <= j < |rows| && rows[j] == v;
    if i < j {
      assert NotAfter(rows[i - 1], rows[i]) && NotAfter(rows[i], v);
      Trichotomy(rows[i - 1].key, rows[i].key);
    }
  }
}
