/**
 * The index's data: object versions, parts, conditional writes, and the meaning of the store's
 * read operations on per-key version stacks.
 *
 * A stack holds the versions of one key, newest first, the first one flagged latest. The object
 * listing takes the first version of every stack unless it is a delete marker; the version listing
 * takes all of them. Both are cut to a page by the caller, so here they are whole.
 */
module Objects {
  import opened ByteStrings
  import opened Wrappers

  /** Fields no modelled decision depends on, carried along unchanged. */
  datatype Attrs = Attrs(batch: string, contentType: string, storageClass: string, userMetadata: map<string, string>,
                         tags: string, checksum: string, modified: int)

  datatype Part = Part(number: int, ref: string, size: int, etag: string, modified: int, actAt: int, actHistory: string)

  /** Where an object's bytes are and how they were written. */
  datatype Body = Body(bucket: string, ref: string, size: int, encrypted: bool,
                       actAt: int, actHistory: string, parts: seq<Part>, attrs: Attrs)

  datatype Object = Object(key: string, versionId: string, vseq: int, isLatest: bool, deleteMarker: bool,
                           etag: string, body: Body)

  /** A key's versions, newest first, for every key of one bucket. */
  type Stacks = map<string, seq<Object>>

  const NullVersion := "null"

  /** `nil` is `NoCondition`; an empty field means the header was absent. */
  datatype PutCondition = NoCondition | PutCondition(ifMatch: string, ifNoneMatch: string) {
    predicate Ok(exists_: bool, etag: string) {
      match this
      case NoCondition => true
      case PutCondition(im, inm) =>
        && (im != "" ==> exists_ && (im == "*" || im == etag))
        && (inm != "" ==> !(exists_ && (inm == "*" || inm == etag)))
    }
  }

  /** The latest version of a key, when it is not a delete marker. */
  function Current(versions: seq<Object>): Option<Object> {
    if versions != [] && !versions[0].deleteMarker then Some(versions[0]) else None
  }

  predicate Admits(cond: PutCondition, versions: seq<Object>) {
    cond.Ok(Current(versions).Some?, if Current(versions).Some? then versions[0].etag else "")
  }

  function VersionsOf(st: Stacks, key: string): seq<Object> {
    if key in st then st[key] else []
  }

  function Take<T>(s: seq<T>, limit: int): seq<T> {
    if 0 <= limit < |s| then s[..limit] else s
  }

  // ---------------------------------------------------------------------------------------------
  // Well-formed stacks
  // ---------------------------------------------------------------------------------------------

  ghost predicate NewestFirst(versions: seq<Object>) {
    forall i, j :: 0 <= i < j < |versions| ==> versions[i].vseq >= versions[j].vseq
  }

  ghost predicate StrictlyNewestFirst(versions: seq<Object>) {
    forall i, j :: 0 <= i < j < |versions| ==> versions[i].vseq > versions[j].vseq
  }

  ghost predicate DistinctIds(versions: seq<Object>) {
    forall i, j :: 0 <= i < j < |versions| ==> versions[i].versionId != versions[j].versionId
  }

  /** Exactly the first version carries the latest flag. */
  ghost predicate FlagsFirst(versions: seq<Object>) {
    forall i :: 0 <= i < |versions| ==> (versions[i].isLatest <==> i == 0)
  }

  ghost predicate ValidStack(key: string, versions: seq<Object>) {
    && versions != []
    && NewestFirst(versions)
    && DistinctIds(versions)
    && FlagsFirst(versions)
    && forall i :: 0 <= i < |versions| ==> versions[i].key == key
  }

  ghost predicate ValidStacks(st: Stacks) {
    && "" !in st
    && forall k :: k in st ==> IsBytes(k) && ValidStack(k, st[k])
  }

  // ---------------------------------------------------------------------------------------------
  // Read operations
  // ---------------------------------------------------------------------------------------------

  /** The version with the given id, if any. */
  function Find(versions: seq<Object>, id: string): Option<Object> {
    if versions == [] then None
    else if versions[0].versionId == id then Some(versions[0])
    else Find(versions[1..], id)
  }

  lemma {:induction false} FindMeaning(versions: seq<Object>, id: string)
    ensures Find(versions, id).Some? ==> Find(versions, id).value in versions && Find(versions, id).value.versionId == id
    ensures Find(versions, id).None? <==> forall i :: 0 <= i < |versions| ==> versions[i].versionId != id
  {
    if versions != [] && versions[0].versionId != id {
      FindMeaning(versions[1..], id);
      assert forall i :: 0 <= i < |versions[1..]| ==> versions[1..][i] == versions[i + 1];
    }
  }

  /** Keys whose latest version is a real object. */
  ghost function LiveKeys(st: Stacks): set<string> {
    set k | k in st && Current(st[k]).Some?
  }

  /** The objects `ListObjects` ranges over, in key order, before the limit. */
  ghost function LiveListing(st: Stacks, prefix: string, after: string): seq<Object> {
    Heads(st, Ordered(set k | k in LiveKeys(st) && prefix <= k && Less(after, k)))
  }

  ghost function Heads(st: Stacks, keys: seq<string>): (s: seq<Object>)
    requires forall k :: k in keys ==> k in st && st[k] != []
    ensures |s| == |keys| && forall i :: 0 <= i < |keys| ==> s[i] == st[keys[i]][0]
  {
    if keys == [] then [] else [st[keys[0]][0]] + Heads(st, keys[1..])
  }

  ghost function ListObjects(st: Stacks, prefix: string, after: string, limit: int): seq<Object> {
    Take(LiveListing(st, prefix, after), limit)
  }

  /** Whether a row lies strictly after the (key marker, version marker) position. */
  predicate PastMarker(keyMarker: string, versionMarker: string, markerVSeq: int, v: Object) {
    v.key != keyMarker || (versionMarker != "" && markerVSeq >= 0 && v.vseq < markerVSeq)
  }

  /** The sequence number a version marker stands for; -1 when it names nothing. */
  function MarkerVSeq(st: Stacks, keyMarker: string, versionMarker: string): int {
    if keyMarker != "" && versionMarker != "" && keyMarker in st && Find(st[keyMarker], versionMarker).Some?
    then Find(st[keyMarker], versionMarker).value.vseq
    else -1
  }

  function Past(versions: seq<Object>, keyMarker: string, versionMarker: string, markerVSeq: int): seq<Object> {
    if versions == [] then []
    else (if PastMarker(keyMarker, versionMarker, markerVSeq, versions[0]) then [versions[0]] else [])
         + Past(versions[1..], keyMarker, versionMarker, markerVSeq)
  }

  ghost function PastAll(st: Stacks, keys: seq<string>, keyMarker: string, versionMarker: string, markerVSeq: int): seq<Object>
    requires forall k :: k in keys ==> k in st
  {
    if keys == [] then []
    else Past(st[keys[0]], keyMarker, versionMarker, markerVSeq)
         + PastAll(st, keys[1..], keyMarker, versionMarker, markerVSeq)
  }

  /** The rows `ListVersions` ranges over: by key ascending, then newest first, before the limit. */
  ghost function VersionListing(st: Stacks, prefix: string, keyMarker: string, versionMarker: string): seq<Object> {
    PastAll(st, Ordered(set k | k in st && prefix <= k && AtMost(keyMarker, k)),
            keyMarker, versionMarker, MarkerVSeq(st, keyMarker, versionMarker))
  }

  ghost function ListVersions(st: Stacks, prefix: string, keyMarker: string, versionMarker: string, limit: int): seq<Object> {
    Take(VersionListing(st, prefix, keyMarker, versionMarker), limit)
  }

  // ---------------------------------------------------------------------------------------------
  // What the version listing contains, and its order
  // ---------------------------------------------------------------------------------------------

  /** Listing order: key ascending, then newest first. */
  predicate RowBefore(a: Object, b: Object) {
    Less(a.key, b.key) || (a.key == b.key && a.vseq > b.vseq)
  }

  ghost predicate RowsInOrder(rows: seq<Object>) {
    forall i, j :: 0 <= i < j < |rows| ==> RowBefore(rows[i], rows[j])
  }

  lemma RowBeforeAsymmetric(a: Object, b: Object)
    requires RowBefore(a, b)
    ensures !RowBefore(b, a) && a != b
  {
    Trichotomy(a.key, b.key);
  }

  lemma {:induction false} RowsUnique(s: seq<Object>, t: seq<Object>)
    requires RowsInOrder(s) && RowsInOrder(t)
    requires forall x :: x in s <==> x in t
    ensures s == t
  {
    assert t != [] ==> t[0] in t;
    if s == [] {
    } else {
      assert s[0] in s && s[0] in t && t[0] in s;
      if s[0] != t[0] {
        RowBeforeAsymmetric(s[0], t[0]);
      }
      forall x
        ensures x in s[1..] <==> x in t[1..]
      {
        RowsTail(s, x);
        RowsTail(t, x);
      }
      RowsUnique(s[1..], t[1..]);
    }
  }

  lemma RowsTail(s: seq<Object>, x: Object)
    requires s != [] && RowsInOrder(s)
    ensures x in s[1..] <==> x in s && x != s[0]
  {
    LessIrreflexive(s[0].key);
  }

  lemma {:induction false} PastContents(key: string, versions: seq<Object>, km: string, vm: string, ms: int)
    requires StrictlyNewestFirst(versions)
    requires forall i :: 0 <= i < |versions| ==> versions[i].key == key
    ensures RowsInOrder(Past(versions, km, vm, ms))
    ensures forall v :: v in Past(versions, km, vm, ms) <==> v in versions && PastMarker(km, vm, ms, v)
  {
    if versions != [] {
      PastContents(key, versions[1..], km, vm, ms);
      var tail := Past(versions[1..], km, vm, ms);
      forall j | 0 <= j < |tail|
        ensures RowBefore(versions[0], tail[j])
      {
        assert tail[j] in tail && tail[j] in versions[1..];
      }
    }
  }

  lemma {:induction false} PastAllContents(st: Stacks, keys: seq<string>, km: string, vm: string, ms: int)
    requires Ascending(keys)
    requires forall k :: k in keys ==> k in st && ValidStack(k, st[k]) && StrictlyNewestFirst(st[k])
    ensures RowsInOrder(PastAll(st, keys, km, vm, ms))
    ensures forall v :: v in PastAll(st, keys, km, vm, ms) <==> v.key in keys && v in st[v.key] && PastMarker(km, vm, ms, v)
  {
    if keys != [] {
      var k := keys[0];
      PastContents(k, st[k], km, vm, ms);
      PastAllContents(st, keys[1..], km, vm, ms);
      var head := Past(st[k], km, vm, ms);
      var tail := PastAll(st, keys[1..], km, vm, ms);
      forall v: Object
        ensures v in head + tail <==> v.key in keys && v in st[v.key] && PastMarker(km, vm, ms, v)
      {
        assert v.key in keys <==> v.key == k || v.key in keys[1..];
        assert v in head ==> v.key == k;
        if v.key in keys[1..] {
          LessIrreflexive(k);
          assert v.key != k;
        }
      }
      forall i, j | 0 <= i < |head| && 0 <= j < |tail|
        ensures RowBefore(head[i], tail[j])
      {
        assert head[i] in head && tail[j] in tail;
      }
    }
  }

  /** The object listing: one entry per live key in range, in key order. */
  lemma LiveListingContents(st: Stacks, prefix: string, after: string)
    requires ValidStacks(st)
    ensures RowsInOrder(LiveListing(st, prefix, after))
    ensures forall v :: v in LiveListing(st, prefix, after) <==>
                          v.key in st && v == st[v.key][0] && !v.deleteMarker && prefix <= v.key && Less(after, v.key)
  {
    var keys := Ordered(set k | k in LiveKeys(st) && prefix <= k && Less(after, k));
    var out := Heads(st, keys);
    assert out == LiveListing(st, prefix, after);
    forall i | 0 <= i < |out|
      ensures out[i].key == keys[i]
    {
      assert keys[i] in keys && ValidStack(keys[i], st[keys[i]]);
    }
    forall v
      ensures v in out <==> v.key in st && v == st[v.key][0] && !v.deleteMarker && prefix <= v.key && Less(after, v.key)
    {
      if v in out {
        var i :| 0 <= i < |out| && out[i] == v;
        assert keys[i] in keys;
      } else if v.key in keys {
        var i :| 0 <= i < |keys| && keys[i] == v.key;
        assert out[i] in out;
      }
    }
  }

  lemma Associative<T>(a: seq<T>, b: seq<T>, c: seq<T>)
    ensures a + (b + c) == (a + b) + c
  {
  }

  // ---------------------------------------------------------------------------------------------
  // What a condition asks for
  // ---------------------------------------------------------------------------------------------

  /** The key has a latest version that is an object, with this ETag. */
  predicate ShowsTag(versions: seq<Object>, tag: string) {
    versions != [] && !versions[0].deleteMarker && versions[0].etag == tag
  }

  /**
   * "*" stands for any object: If-Match asks for one to be there, If-None-Match for none. A tag asks
   * for, or against, the object that carries it. A delete marker counts as absent, and a write under
   * both headers must meet both.
   */
  lemma ConditionMeaning(versions: seq<Object>, tag: string, other: string)
    requires tag != "" && tag != "*" && other != ""
    ensures Admits(NoCondition, versions)
    ensures Admits(PutCondition("*", ""), versions) <==> versions != [] && !versions[0].deleteMarker
    ensures Admits(PutCondition("", "*"), versions) <==> versions == [] || versions[0].deleteMarker
    ensures Admits(PutCondition(tag, ""), versions) <==> ShowsTag(versions, tag)
    ensures Admits(PutCondition("", tag), versions) <==> !ShowsTag(versions, tag)
    ensures Admits(PutCondition(tag, other), versions) <==>
            Admits(PutCondition(tag, ""), versions) && Admits(PutCondition("", other), versions)
    ensures Admits(PutCondition("*", other), versions) <==>
            Admits(PutCondition("*", ""), versions) && Admits(PutCondition("", other), versions)
  {
  }
}
