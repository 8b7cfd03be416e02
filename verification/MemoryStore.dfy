/**
 * The in-memory store: each key of a bucket holds its versions newest first, changed in place and
 * re-sorted after every change. One existing bucket is modelled.
 */
module MemoryStore {
  import opened ByteStrings
  import opened Objects
  import opened Wrappers

  // ---------------------------------------------------------------------------------------------
  // sortVersions: stable sort by descending sequence number, then recompute the latest flag
  // ---------------------------------------------------------------------------------------------

  function InsertVersion(x: Object, s: seq<Object>): seq<Object> {
    if s == [] || x.vseq >= s[0].vseq then [x] + s else [s[0]] + InsertVersion(x, s[1..])
  }

  function StableSort(s: seq<Object>): seq<Object> {
    if s == [] then [] else InsertVersion(s[0], StableSort(s[1..]))
  }

  function Flagged(s: seq<Object>): (r: seq<Object>)
    ensures |r| == |s| && forall i :: 0 <= i < |s| ==> r[i] == s[i].(isLatest := i == 0)
  {
    seq(|s|, i requires 0 <= i < |s| => s[i].(isLatest := i == 0))
  }

  function SortVersions(s: seq<Object>): seq<Object> {
    Flagged(StableSort(s))
  }

  /** The versions of one sequence number, in order of appearance. */
  function WithVSeq(s: seq<Object>, q: int): seq<Object> {
    if s == [] then [] else (if s[0].vseq == q then [s[0]] else []) + WithVSeq(s[1..], q)
  }

  lemma {:induction false} InsertVersionElements(x: Object, s: seq<Object>)
    ensures multiset(InsertVersion(x, s)) == multiset([x]) + multiset(s)
    ensures |InsertVersion(x, s)| == |s| + 1
    ensures forall v :: v in InsertVersion(x, s) <==> v == x || v in s
  {
    if s == [] || x.vseq >= s[0].vseq {
    } else {
      InsertVersionElements(x, s[1..]);
      assert s == [s[0]] + s[1..];
    }
  }

  lemma {:induction false} InsertVersionOrdered(x: Object, s: seq<Object>)
    requires NewestFirst(s)
    ensures NewestFirst(InsertVersion(x, s))
  {
    if s == [] || x.vseq >= s[0].vseq {
    } else {
      var t := InsertVersion(x, s[1..]);
      InsertVersionOrdered(x, s[1..]);
      InsertVersionElements(x, s[1..]);
      assert forall j :: 0 <= j < |t| ==> t[j] in t;
    }
  }

  lemma {:induction false} InsertVersionStable(x: Object, s: seq<Object>, q: int)
    requires NewestFirst(s)
    ensures WithVSeq(InsertVersion(x, s), q) == (if x.vseq == q then [x] else []) + WithVSeq(s, q)
  {
    if s == [] || x.vseq >= s[0].vseq {
      WithVSeqCons(x, s, q);
    } else {
      InsertVersionStable(x, s[1..], q);
      WithVSeqCons(s[0], InsertVersion(x, s[1..]), q);
    }
  }

  lemma WithVSeqCons(x: Object, s: seq<Object>, q: int)
    ensures WithVSeq([x] + s, q) == (if x.vseq == q then [x] else []) + WithVSeq(s, q)
  {
    assert ([x] + s)[1..] == s;
  }

  /** `StableSort` is the stable sort: ordered, a permutation, equal stamps keep their order. */
  lemma {:induction false} StableSortMeaning(s: seq<Object>)
    ensures NewestFirst(StableSort(s))
    ensures multiset(StableSort(s)) == multiset(s) && |StableSort(s)| == |s|
    ensures forall v :: v in StableSort(s) <==> v in s
    ensures forall q :: WithVSeq(StableSort(s), q) == WithVSeq(s, q)
  {
    if s != [] {
      var t := StableSort(s[1..]);
      StableSortMeaning(s[1..]);
      InsertVersionOrdered(s[0], t);
      InsertVersionElements(s[0], t);
      forall q
        ensures WithVSeq(StableSort(s), q) == WithVSeq(s, q)
      {
        InsertVersionStable(s[0], t, q);
      }
      assert s == [s[0]] + s[1..];
    }
  }

  lemma {:induction false} SortedIsFixed(s: seq<Object>)
    requires NewestFirst(s)
    ensures StableSort(s) == s
  {
    if s != [] {
      SortedIsFixed(s[1..]);
    }
  }

  lemma FlaggedIsFixed(s: seq<Object>)
    requires FlagsFirst(s)
    ensures Flagged(s) == s
  {
    forall i | 0 <= i < |s|
      ensures Flagged(s)[i] == s[i]
    {
    }
  }

  /** Two version lists that differ only in their latest flags. */
  ghost predicate SameButFlags(s: seq<Object>, t: seq<Object>) {
    |s| == |t| && forall i :: 0 <= i < |s| ==> s[i].(isLatest := false) == t[i].(isLatest := false)
  }

  lemma {:induction false} InsertIgnoresFlags(x: Object, y: Object, s: seq<Object>, t: seq<Object>)
    requires SameButFlags(s, t) && x.(isLatest := false) == y.(isLatest := false)
    ensures SameButFlags(InsertVersion(x, s), InsertVersion(y, t))
  {
    if s != [] && x.vseq < s[0].vseq {
      InsertIgnoresFlags(x, y, s[1..], t[1..]);
    }
  }

  lemma {:induction false} SortIgnoresFlags(s: seq<Object>, t: seq<Object>)
    requires SameButFlags(s, t)
    ensures SameButFlags(StableSort(s), StableSort(t))
    ensures SortVersions(s) == SortVersions(t)
  {
    if s != [] {
      SortIgnoresFlags(s[1..], t[1..]);
      InsertIgnoresFlags(s[0], t[0], StableSort(s[1..]), StableSort(t[1..]));
    }
    var a, b := SortVersions(s), SortVersions(t);
    forall i | 0 <= i < |a|
      ensures a[i] == b[i]
    {
    }
  }

  /** Sorting keeps version ids distinct, whatever the stamps. */
  lemma {:induction false} SortKeepsIds(s: seq<Object>)
    requires DistinctIds(s)
    ensures DistinctIds(StableSort(s))
  {
    if s != [] {
      SortKeepsIds(s[1..]);
      StableSortMeaning(s[1..]);
      InsertKeepsIds(s[0], StableSort(s[1..]));
    }
  }

  lemma {:induction false} InsertKeepsIds(x: Object, s: seq<Object>)
    requires DistinctIds(s) && forall v :: v in s ==> v.versionId != x.versionId
    ensures DistinctIds(InsertVersion(x, s))
  {
    if s == [] || x.vseq >= s[0].vseq {
    } else {
      InsertKeepsIds(x, s[1..]);
      InsertVersionElements(x, s[1..]);
      var t := InsertVersion(x, s[1..]);
      assert forall j :: 0 <= j < |t| ==> t[j] in t;
    }
  }

  lemma ValidAfterSort(key: string, s: seq<Object>)
    requires s != [] && DistinctIds(s)
    requires forall i :: 0 <= i < |s| ==> s[i].key == key
    ensures ValidStack(key, SortVersions(s))
  {
    StableSortMeaning(s);
    SortKeepsIds(s);
    var t := StableSort(s);
    forall i | 0 <= i < |t|
      ensures t[i].key == key
    {
      assert t[i] in s;
    }
  }

  // ---------------------------------------------------------------------------------------------
  // The operations as functions of the stacks
  // ---------------------------------------------------------------------------------------------

  /** The versions an id does not name, in order. */
  function Others(versions: seq<Object>, id: string): seq<Object> {
    if versions == [] then []
    else (if versions[0].versionId != id then [versions[0]] else []) + Others(versions[1..], id)
  }

  /** The latest flags are recomputed by the sort, so only the order of the versions matters. */
  function PutStack(versions: seq<Object>, o: Object): seq<Object> {
    SortVersions([o] + Others(versions, o.versionId))
  }

  function Put(st: Stacks, o: Object): Stacks {
    st[o.key := PutStack(VersionsOf(st, o.key), o)]
  }

  function DeleteVersion(st: Stacks, key: string, id: string): Stacks {
    if Find(VersionsOf(st, key), id).None? then st
    else
      var rest := Others(VersionsOf(st, key), id);
      if rest == [] then st - {key} else st[key := SortVersions(rest)]
  }

  function DeleteObject(st: Stacks, key: string): Stacks {
    st - {key}
  }

  function Restored(o: Object, bucket: string): Object {
    o.(body := o.body.(bucket := bucket), isLatest := true, versionId := if o.versionId == "" then NullVersion else o.versionId)
  }

  function Gathered(objects: seq<Object>, bucket: string): Stacks {
    if objects == [] then map[]
    else
      var st := Gathered(objects[..|objects| - 1], bucket);
      var o := Restored(objects[|objects| - 1], bucket);
      st[o.key := VersionsOf(st, o.key) + [o]]
  }

  function Restore(objects: seq<Object>, bucket: string): Stacks {
    var st := Gathered(objects, bucket);
    map k | k in st :: SortVersions(st[k])
  }

  /** Unlike `ListObjects`, a limit of zero never stops the loop that appends. */
  ghost function ListAllVersions(st: Stacks, prefix: string, km: string, vm: string, limit: int): seq<Object> {
    if limit == 0 then VersionListing(st, prefix, km, vm) else ListVersions(st, prefix, km, vm, limit)
  }

  // ---------------------------------------------------------------------------------------------
  // Every operation keeps the stacks well formed
  // ---------------------------------------------------------------------------------------------

  lemma {:induction false} OthersElements(versions: seq<Object>, id: string)
    ensures forall v :: v in Others(versions, id) <==> v in versions && v.versionId != id
  {
    if versions != [] {
      OthersElements(versions[1..], id);
      assert forall v :: v in versions <==> v == versions[0] || v in versions[1..];
    }
  }

  lemma {:induction false} OthersDistinct(versions: seq<Object>, id: string)
    requires DistinctIds(versions)
    ensures DistinctIds(Others(versions, id))
  {
    if versions != [] {
      var t := Others(versions[1..], id);
      OthersDistinct(versions[1..], id);
      OthersElements(versions[1..], id);
      forall j | 0 <= j < |t|
        ensures t[j].versionId != versions[0].versionId
      {
        assert t[j] in versions[1..];
      }
    }
  }

  lemma {:induction false} OthersOrdered(versions: seq<Object>, id: string)
    requires NewestFirst(versions)
    ensures NewestFirst(Others(versions, id))
  {
    if versions != [] {
      var t := Others(versions[1..], id);
      OthersOrdered(versions[1..], id);
      OthersElements(versions[1..], id);
      forall j | 0 <= j < |t|
        ensures versions[0].vseq >= t[j].vseq
      {
        assert t[j] in versions[1..];
      }
    }
  }

  lemma {:induction false} OthersStrict(versions: seq<Object>, id: string)
    requires StrictlyNewestFirst(versions)
    ensures StrictlyNewestFirst(Others(versions, id))
  {
    if versions != [] {
      var t := Others(versions[1..], id);
      OthersStrict(versions[1..], id);
      OthersElements(versions[1..], id);
      forall j | 0 <= j < |t|
        ensures versions[0].vseq > t[j].vseq
      {
        assert t[j] in versions[1..];
      }
    }
  }

  lemma PutKeepsValid(st: Stacks, o: Object)
    requires ValidStacks(st) && o.key != "" && IsBytes(o.key)
    ensures ValidStacks(Put(st, o))
  {
    var versions := VersionsOf(st, o.key);
    OthersElements(versions, o.versionId);
    OthersDistinct(versions, o.versionId);
    var s := [o] + Others(versions, o.versionId);
    forall i | 0 <= i < |s|
      ensures s[i].key == o.key && (i > 0 ==> s[i].versionId != o.versionId)
    {
      assert i > 0 ==> s[i] in Others(versions, o.versionId);
    }
    ValidAfterSort(o.key, s);
  }

  lemma DeleteVersionKeepsValid(st: Stacks, key: string, id: string)
    requires ValidStacks(st)
    ensures ValidStacks(DeleteVersion(st, key, id))
  {
    var versions := VersionsOf(st, key);
    OthersElements(versions, id);
    OthersDistinct(versions, id);
    var rest := Others(versions, id);
    if rest != [] {
      forall i | 0 <= i < |rest|
        ensures rest[i].key == key
      {
        assert rest[i] in rest;
      }
      ValidAfterSort(key, rest);
    }
  }

  /** What a commit's object list always satisfies: real objects, one per key, in a known bucket. */
  ghost predicate Restorable(objects: seq<Object>) {
    && (forall i, j :: 0 <= i < j < |objects| ==> objects[i].key != objects[j].key)
    && forall i :: 0 <= i < |objects| ==> objects[i].key != "" && IsBytes(objects[i].key) && !objects[i].deleteMarker
  }

  /** The restored objects of one key, in list order. */
  function OfKey(objects: seq<Object>, bucket: string, k: string): seq<Object> {
    if objects == [] then []
    else
      var n := |objects| - 1;
      OfKey(objects[..n], bucket, k) + (if objects[n].key == k then [Restored(objects[n], bucket)] else [])
  }

  lemma {:induction false} GatheredIs(objects: seq<Object>, bucket: string, k: string)
    ensures k in Gathered(objects, bucket) <==> OfKey(objects, bucket, k) != []
    ensures VersionsOf(Gathered(objects, bucket), k) == OfKey(objects, bucket, k)
  {
    if objects != [] {
      GatheredIs(objects[..|objects| - 1], bucket, k);
    }
  }

  /** For any list: a restore leaves, under each key, all its objects sorted newest first, and nothing else. */
  lemma RestoreMeaning(objects: seq<Object>, bucket: string, k: string)
    ensures k in Restore(objects, bucket) <==> OfKey(objects, bucket, k) != []
    ensures k in Restore(objects, bucket) ==> Restore(objects, bucket)[k] == SortVersions(OfKey(objects, bucket, k))
  {
    GatheredIs(objects, bucket, k);
  }

  lemma {:induction false} GatheredKeys(objects: seq<Object>, bucket: string, k: string)
    ensures k in Gathered(objects, bucket) <==> exists i :: 0 <= i < |objects| && objects[i].key == k
  {
    if objects != [] {
      var n := |objects| - 1;
      GatheredKeys(objects[..n], bucket, k);
      assert objects == objects[..n] + [objects[n]];
    }
  }

  lemma {:induction false} GatheredStack(objects: seq<Object>, bucket: string, i: nat)
    requires Restorable(objects) && i < |objects|
    ensures objects[i].key in Gathered(objects, bucket)
    ensures Gathered(objects, bucket)[objects[i].key] == [Restored(objects[i], bucket)]
  {
    var n := |objects| - 1;
    if i < n {
      GatheredStack(objects[..n], bucket, i);
    } else {
      GatheredKeys(objects[..n], bucket, objects[n].key);
    }
  }

  lemma RestoreOnePerKey(objects: seq<Object>, bucket: string)
    requires Restorable(objects)
    ensures ValidStacks(Restore(objects, bucket))
    ensures forall k :: k in Restore(objects, bucket) <==> exists i :: 0 <= i < |objects| && objects[i].key == k
    ensures forall i :: 0 <= i < |objects| ==>
                          objects[i].key in Restore(objects, bucket)
                          && Restore(objects, bucket)[objects[i].key] == [Restored(objects[i], bucket)]
  {
    var st := Gathered(objects, bucket);
    forall k
      ensures k in st <==> exists i :: 0 <= i < |objects| && objects[i].key == k
    {
      GatheredKeys(objects, bucket, k);
    }
    forall i | 0 <= i < |objects|
      ensures objects[i].key in st && SortVersions(st[objects[i].key]) == [Restored(objects[i], bucket)]
    {
      GatheredStack(objects, bucket, i);
      SortedIsFixed([Restored(objects[i], bucket)]);
      FlaggedIsFixed([Restored(objects[i], bucket)]);
    }
    forall k | k in Restore(objects, bucket)
      ensures IsBytes(k) && k != "" && ValidStack(k, Restore(objects, bucket)[k])
    {
      var i :| 0 <= i < |objects| && objects[i].key == k;
    }
  }

  // ---------------------------------------------------------------------------------------------
  // The store object
  // ---------------------------------------------------------------------------------------------

  lemma {:induction false} OthersSnoc(s: seq<Object>, v: Object, id: string)
    ensures Others(s + [v], id) == Others(s, id) + (if v.versionId != id then [v] else [])
  {
    if s == [] {
      assert [v][1..] == [] && s + [v] == [v];
    } else {
      assert (s + [v])[1..] == s[1..] + [v];
      OthersSnoc(s[1..], v, id);
    }
  }

  lemma {:induction false} PastSnoc(s: seq<Object>, v: Object, km: string, vm: string, ms: int)
    ensures Past(s + [v], km, vm, ms) == Past(s, km, vm, ms) + (if PastMarker(km, vm, ms, v) then [v] else [])
  {
    if s == [] {
      assert [v][1..] == [] && s + [v] == [v];
    } else {
      assert (s + [v])[1..] == s[1..] + [v] && (s + [v])[0] == s[0];
      PastSnoc(s[1..], v, km, vm, ms);
      Associative(if PastMarker(km, vm, ms, s[0]) then [s[0]] else [], Past(s[1..], km, vm, ms), if PastMarker(km, vm, ms, v) then [v] else []);
    }
  }

  /** With distinct ids, cutting out the first match leaves exactly the other versions. */
  lemma {:induction false} CutOut(s: seq<Object>, i: nat, id: string)
    requires DistinctIds(s) && i < |s| && s[i].versionId == id
    ensures Others(s, id) == s[..i] + s[i + 1..]
    ensures Find(s, id) == Some(s[i])
  {
    if i > 0 {
      CutOut(s[1..], i - 1, id);
      assert s[..i] == [s[0]] + s[1..][..i - 1];
    } else {
      NothingCut(s[1..], id);
      assert s[..0] == [];
    }
  }

  lemma {:induction false} NothingCut(s: seq<Object>, id: string)
    requires forall i :: 0 <= i < |s| ==> s[i].versionId != id
    ensures Others(s, id) == s
  {
    if s != [] {
      NothingCut(s[1..], id);
    }
  }

  class Memory {
    const bucket: string
    var objects: Stacks
    var headRoot: string
    var commitSeq: int

    ghost predicate Valid()
      reads this
    {
      ValidStacks(objects)
    }

    constructor (name: string)
      ensures Valid() && bucket == name && objects == map[] && headRoot == "" && commitSeq == 0
    {
      bucket := name;
      objects := map[];
      headRoot := "";
      commitSeq := 0;
    }

    /** The filter loop keeps the other versions, demoted, in order. */
    static method Filter(versions: seq<Object>, id: string) returns (kept: seq<Object>)
      ensures SameButFlags(kept, Others(versions, id))
    {
      kept := [];
      for i := 0 to |versions|
        invariant SameButFlags(kept, Others(versions[..i], id))
      {
        OthersSnoc(versions[..i], versions[i], id);
        assert versions[..i + 1] == versions[..i] + [versions[i]];
        if versions[i].versionId != id {
          kept := kept + [versions[i].(isLatest := false)];
        }
      }
      assert versions[..|versions|] == versions;
    }

    method PutObject(o: Object, cond: PutCondition) returns (ok: bool)
      requires Valid() && o.key != "" && IsBytes(o.key)
      modifies this`objects
      ensures Valid()
      ensures ok == Admits(cond, old(VersionsOf(objects, o.key)))
      ensures objects == if ok then Put(old(objects), o) else old(objects)
    {
      var versions := VersionsOf(objects, o.key);
      var present := |versions| > 0 && !versions[0].deleteMarker;
      var etag := "";
      if present {
        etag := versions[0].etag;
      }
      if !cond.Ok(present, etag) {
        return false;
      }
      var kept := Filter(versions, o.versionId);
      PutKeepsValid(objects, o);
      SortIgnoresFlags([o.(isLatest := true)] + kept, [o] + Others(versions, o.versionId));
      objects := objects[o.key := SortVersions([o.(isLatest := true)] + kept)];
      return true;
    }

    method DeleteOneVersion(key: string, id: string) returns (removed: Option<Object>)
      requires Valid()
      modifies this`objects
      ensures Valid()
      ensures removed == Find(old(VersionsOf(objects, key)), id)
      ensures objects == DeleteVersion(old(objects), key, id)
    {
      var versions := VersionsOf(objects, key);
      DeleteVersionKeepsValid(objects, key, id);
      for i := 0 to |versions|
        invariant objects == old(objects)
        invariant forall j :: 0 <= j < i ==> versions[j].versionId != id
      {
        if versions[i].versionId == id {
          CutOut(versions, i, id);
          var rest := versions[..i] + versions[i + 1..];
          if |rest| == 0 {
            objects := objects - {key};
          } else {
            objects := objects[key := SortVersions(rest)];
          }
          return Some(versions[i]);
        }
      }
      FindMeaning(versions, id);
      return None;
    }

    method DeleteAllVersions(key: string)
      requires Valid()
      modifies this`objects
      ensures Valid() && objects == DeleteObject(old(objects), key)
    {
      objects := objects - {key};
    }

    method RestoreBucket(restored: seq<Object>, root: string, seq_: int)
      modifies this
      ensures Restorable(restored) ==> Valid()
      ensures objects == Restore(restored, bucket) && headRoot == root && commitSeq == seq_
    {
      var st := Gather(restored, bucket);
      if Restorable(restored) {
        RestoreOnePerKey(restored, bucket);
      }
      objects := map k | k in st :: SortVersions(st[k]);
      headRoot, commitSeq := root, seq_;
    }

    /** The loop that appends each object to its key's versions. */
    static method Gather(restored: seq<Object>, bucket: string) returns (st: Stacks)
      ensures st == Gathered(restored, bucket)
    {
      st := map[];
      for i := 0 to |restored|
        invariant st == Gathered(restored[..i], bucket)
      {
        assert restored[..i + 1][..i] == restored[..i];
        var o := Restored(restored[i], bucket);
        st := st[o.key := VersionsOf(st, o.key) + [o]];
      }
      assert restored[..|restored|] == restored;
    }

    /** The loop that reads each listed key's newest version. */
    static method ReadHeads(st: Stacks, keys: seq<string>) returns (out: seq<Object>)
      requires forall k :: k in keys ==> k in st && st[k] != []
      ensures out == Heads(st, keys)
    {
      out := [];
      for i := 0 to |keys|
        invariant |out| == i && forall j :: 0 <= j < i ==> out[j] == st[keys[j]][0]
      {
        assert keys[i] in keys;
        out := out + [st[keys[i]][0]];
      }
    }

    method List(prefix: string, after: string, limit: int) returns (out: seq<Object>)
      requires Valid()
      ensures out == ListObjects(objects, prefix, after, limit)
    {
      var found := set k | k in objects && prefix <= k && Less(after, k) && Current(objects[k]).Some?;
      var keys := SortStrings(found);
      FoundKeys(objects, prefix, after, found);
      if limit >= 0 && |keys| > limit {
        HeadsPrefix(objects, keys, limit);
        keys := keys[..limit];
      }
      out := ReadHeads(objects, keys);
    }

    /** Appends the rows of one key that lie past the marker, stopping when the limit is reached. */
    static method AppendRows(versions: seq<Object>, km: string, vm: string, ms: int, before: seq<Object>, limit: int)
      returns (out: seq<Object>, full: bool)
      requires limit > 0 ==> |before| < limit
      ensures full ==> 0 < |out| == limit && out <= before + Past(versions, km, vm, ms)
      ensures !full ==> out == before + Past(versions, km, vm, ms) && (limit > 0 ==> |out| < limit)
    {
      out := before;
      for j := 0 to |versions|
        invariant out == before + Past(versions[..j], km, vm, ms)
        invariant limit > 0 ==> |out| < limit
      {
        var v := versions[j];
        PastSnoc(versions[..j], v, km, vm, ms);
        assert versions[..j + 1] == versions[..j] + [v];
        if v.key == km {
          if vm == "" || ms < 0 || v.vseq >= ms {
            continue;
          }
        }
        out := out + [v];
        if limit >= 0 && |out| == limit {
          PastOfPrefix(versions, j + 1, km, vm, ms);
          return out, true;
        }
      }
      assert versions[..|versions|] == versions;
      return out, false;
    }

    static method CollectRows(st: Stacks, keys: seq<string>, km: string, vm: string, ms: int, limit: int)
      returns (out: seq<Object>)
      requires forall k :: k in keys ==> k in st
      ensures limit == 0 ==> out == PastAll(st, keys, km, vm, ms)
      ensures limit != 0 ==> out == Take(PastAll(st, keys, km, vm, ms), limit)
    {
      ghost var all := PastAll(st, keys, km, vm, ms);
      out := [];
      for i := 0 to |keys|
        invariant forall k :: k in keys[i..] ==> k in st
        invariant all == out + PastAll(st, keys[i..], km, vm, ms)
        invariant limit > 0 ==> |out| < limit
      {
        assert keys[i] in keys[i..] && keys[i..][1..] == keys[i + 1..];
        ghost var done := out + Past(st[keys[i]], km, vm, ms);
        assert all == done + PastAll(st, keys[i + 1..], km, vm, ms);
        var full;
        out, full := AppendRows(st[keys[i]], km, vm, ms, out, limit);
        if full {
          assert out <= done <= all;
          return;
        }
      }
    }

    method ListVersionRows(prefix: string, km: string, vm: string, limit: int) returns (out: seq<Object>)
      requires Valid()
      ensures out == ListAllVersions(objects, prefix, km, vm, limit)
    {
      var found := set k | k in objects && prefix <= k && AtMost(km, k);
      var keys := SortStrings(found);
      assert forall k :: k in keys ==> k in objects;
      out := CollectRows(objects, keys, km, vm, MarkerVSeq(objects, km, vm), limit);
    }
  }

  lemma FoundKeys(st: Stacks, prefix: string, after: string, found: set<string>)
    requires found == set k | k in st && prefix <= k && Less(after, k) && Current(st[k]).Some?
    ensures forall k :: k in Ordered(found) ==> k in st && st[k] != []
    ensures LiveListing(st, prefix, after) == Heads(st, Ordered(found))
  {
    assert found == set k | k in LiveKeys(st) && prefix <= k && Less(after, k);
  }

  lemma HeadsPrefix(st: Stacks, keys: seq<string>, n: nat)
    requires n <= |keys| && forall k :: k in keys ==> k in st && st[k] != []
    ensures Heads(st, keys[..n]) == Heads(st, keys)[..n]
  {
  }

  lemma {:induction false} PastOfPrefix(s: seq<Object>, j: nat, km: string, vm: string, ms: int)
    requires j <= |s|
    ensures Past(s[..j], km, vm, ms) <= Past(s, km, vm, ms)
  {
    if j > 0 {
      assert s[..j][1..] == s[1..][..j - 1];
      PastOfPrefix(s[1..], j - 1, km, vm, ms);
    }
  }
}
