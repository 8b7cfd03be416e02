/**
 * Bucket versioning: how writes and deletes are stamped in each mode, and what no later request
 * can undo once versioning has been enabled. Handlers are atomic here.
 */
module Versioning {
  import opened ByteStrings
  import opened Objects
  import Mem = MemoryStore

  /** A bucket starts unversioned; only "Enabled" and "Suspended" can be set. */
  datatype Mode = Unversioned | Enabled | Suspended

  datatype Bucket = Bucket(mode: Mode, st: Stacks)

  /** The write time and the id `newVersionID` would mint. */
  datatype Stamp = Stamp(vseq: int, freshId: string)

  function StampVersion(o: Object, mode: Mode, s: Stamp): Object {
    o.(vseq := s.vseq, isLatest := true, versionId := if mode == Enabled then s.freshId else NullVersion)
  }

  function DeleteMarkerFor(key: string): Object {
    Object(key, "", 0, false, true, "", Body("", "", 0, false, 0, "", [], Attrs("", "", "", map[], "", "", 0)))
  }

  /** `deleteOne`: a named version is removed for good; otherwise the mode decides. */
  function DeleteOne(b: Bucket, key: string, versionId: string, s: Stamp): Bucket {
    if versionId != "" then b.(st := Mem.DeleteVersion(b.st, key, versionId))
    else if b.mode == Unversioned then b.(st := Mem.DeleteObject(b.st, key))
    else b.(st := Mem.Put(b.st, StampVersion(DeleteMarkerFor(key), b.mode, s)))
  }

  datatype Request =
    | SetVersioning(on: bool)
    | Write(o: Object, cond: PutCondition, s: Stamp) // PUT, copy and multipart completion
    | Delete(key: string, versionId: string, s: Stamp)
    | Restore(objects: seq<Object>, bucket: string)

  function Serve(b: Bucket, r: Request): Bucket {
    match r
    case SetVersioning(on) => b.(mode := if on then Enabled else Suspended)
    case Write(o, cond, s) =>
      if Admits(cond, VersionsOf(b.st, o.key)) then b.(st := Mem.Put(b.st, StampVersion(o, b.mode, s))) else b
    case Delete(key, versionId, s) => DeleteOne(b, key, versionId, s)
    case Restore(objects, bucket) => b.(st := Mem.Restore(objects, bucket))
  }

  /** Keys are non-empty byte strings and minted ids are new. */
  ghost predicate Acceptable(b: Bucket, r: Request) {
    match r
    case Write(o, _, s) => o.key != "" && IsBytes(o.key) && Fresh(b, o.key, s)
    case Delete(key, _, s) => key != "" && IsBytes(key) && Fresh(b, key, s)
    case Restore(objects, _) => Mem.Restorable(objects)
    case SetVersioning(_) => true
  }

  ghost predicate Fresh(b: Bucket, key: string, s: Stamp) {
    s.freshId != "" && s.freshId != NullVersion && Find(VersionsOf(b.st, key), s.freshId).None?
  }

  function Run(b: Bucket, rs: seq<Request>): Bucket
    decreases |rs|
  {
    if rs == [] then b else Run(Serve(b, rs[0]), rs[1..])
  }

  ghost predicate AcceptableRun(b: Bucket, rs: seq<Request>)
    decreases |rs|
  {
    rs != [] ==> Acceptable(b, rs[0]) && AcceptableRun(Serve(b, rs[0]), rs[1..])
  }

  // ---------------------------------------------------------------------------------------------
  // Retention
  // ---------------------------------------------------------------------------------------------

  /** The stack holds this version; only its latest flag may differ. */
  ghost predicate Keeps(st: Stacks, v: Object) {
    exists u :: u in VersionsOf(st, v.key) && u.(isLatest := false) == v.(isLatest := false)
  }

  /** A request that may lawfully remove the version: it names it, or replaces the bucket. */
  predicate Releases(r: Request, v: Object) {
    match r
    case Delete(key, versionId, _) => key == v.key && versionId == v.versionId
    case Restore(_, _) => true
    case _ => false
  }

  lemma SortKeeps(s: seq<Object>, v: Object, u: Object)
    requires u in s && u.(isLatest := false) == v.(isLatest := false)
    ensures exists w :: w in Mem.SortVersions(s) && w.(isLatest := false) == v.(isLatest := false)
  {
    Mem.StableSortMeaning(s);
    var t := Mem.StableSort(s);
    var i :| 0 <= i < |t| && t[i] == u;
    var w := Mem.SortVersions(s)[i];
    assert w in Mem.SortVersions(s);
  }

  lemma PutKeeps(st: Stacks, o: Object, v: Object)
    requires Keeps(st, v) && (o.key == v.key ==> o.versionId != v.versionId)
    ensures Keeps(Mem.Put(st, o), v)
  {
    var u :| u in VersionsOf(st, v.key) && u.(isLatest := false) == v.(isLatest := false);
    if o.key == v.key {
      var versions := VersionsOf(st, o.key);
      Mem.OthersElements(versions, o.versionId);
      assert u.versionId == v.versionId;
      SortKeeps([o] + Mem.Others(versions, o.versionId), v, u);
    } else {
      assert u in VersionsOf(Mem.Put(st, o), v.key);
    }
  }

  lemma DeleteVersionKeeps(st: Stacks, key: string, id: string, v: Object)
    requires Keeps(st, v) && (key == v.key ==> id != v.versionId)
    ensures Keeps(Mem.DeleteVersion(st, key, id), v)
  {
    var u :| u in VersionsOf(st, v.key) && u.(isLatest := false) == v.(isLatest := false);
    if key == v.key && Find(VersionsOf(st, key), id).Some? {
      var versions := VersionsOf(st, key);
      Mem.OthersElements(versions, id);
      assert u.versionId == v.versionId;
      SortKeeps(Mem.Others(versions, id), v, u);
    } else {
      assert u in VersionsOf(Mem.DeleteVersion(st, key, id), v.key);
    }
  }

  lemma FreshDiffers(b: Bucket, v: Object, s: Stamp)
    requires Keeps(b.st, v) && Fresh(b, v.key, s)
    ensures s.freshId != v.versionId
  {
    var u :| u in VersionsOf(b.st, v.key) && u.(isLatest := false) == v.(isLatest := false);
    assert u.versionId == v.versionId;
    FindMeaning(VersionsOf(b.st, v.key), s.freshId);
  }

  lemma ServeKeeps(b: Bucket, r: Request, v: Object)
    requires b.mode != Unversioned && Keeps(b.st, v) && v.versionId != NullVersion
    requires Acceptable(b, r) && !Releases(r, v)
    ensures Serve(b, r).mode != Unversioned && Keeps(Serve(b, r).st, v)
  {
    match r
    case SetVersioning(_) =>
    case Write(o, cond, s) =>
      if o.key == v.key {
        FreshDiffers(b, v, s);
      }
      PutKeeps(b.st, StampVersion(o, b.mode, s), v);
    case Delete(key, versionId, s) =>
      if versionId != "" {
        DeleteVersionKeeps(b.st, key, versionId, v);
      } else {
        if key == v.key {
          FreshDiffers(b, v, s);
        }
        PutKeeps(b.st, StampVersion(DeleteMarkerFor(key), b.mode, s), v);
      }
    case Restore(_, _) =>
  }

  /**
   * Once versioning has been set, a version with its own id survives every later run, byte
   * reference and all, until a delete names it or a restore replaces the bucket.
   */
  lemma {:induction false} RunKeeps(b: Bucket, rs: seq<Request>, v: Object)
    requires b.mode != Unversioned && Keeps(b.st, v) && v.versionId != NullVersion
    requires AcceptableRun(b, rs) && forall i :: 0 <= i < |rs| ==> !Releases(rs[i], v)
    ensures Run(b, rs).mode != Unversioned && Keeps(Run(b, rs).st, v)
    decreases |rs|
  {
    if rs != [] {
      ServeKeeps(b, rs[0], v);
      RunKeeps(Serve(b, rs[0]), rs[1..], v);
    }
  }

  // ---------------------------------------------------------------------------------------------
  // What each request leaves behind, version by version
  // ---------------------------------------------------------------------------------------------

  lemma SortAddsNothing(s: seq<Object>, u: Object)
    requires u in Mem.SortVersions(s)
    ensures exists w :: w in s && w.(isLatest := false) == u.(isLatest := false)
  {
    Mem.StableSortMeaning(s);
    var t := Mem.StableSort(s);
    var i :| 0 <= i < |t| && Mem.SortVersions(s)[i] == u;
    assert t[i] in s;
  }

  /** A stored version replaces the one of its id and leaves all others. */
  lemma PutHolds(st: Stacks, o: Object, v: Object)
    ensures Keeps(Mem.Put(st, o), v) <==>
            o.(isLatest := false) == v.(isLatest := false) || (Keeps(st, v) && (v.key == o.key ==> v.versionId != o.versionId))
  {
    hide Mem.Others, Mem.SortVersions;
    var rest := Mem.Others(VersionsOf(st, o.key), o.versionId);
    Mem.OthersElements(VersionsOf(st, o.key), o.versionId);
    if Keeps(Mem.Put(st, o), v) {
      var u :| u in VersionsOf(Mem.Put(st, o), v.key) && u.(isLatest := false) == v.(isLatest := false);
      if v.key == o.key {
        SortAddsNothing([o] + rest, u);
        var w :| w in [o] + rest && w.(isLatest := false) == u.(isLatest := false);
        assert w == o || w in VersionsOf(st, v.key);
        assert w.versionId == u.versionId == v.versionId && w.(isLatest := false) == v.(isLatest := false);
      }
    }
    if o.(isLatest := false) == v.(isLatest := false) {
      SortKeeps([o] + rest, v, o);
    } else if Keeps(st, v) && (v.key == o.key ==> v.versionId != o.versionId) {
      PutKeeps(st, o, v);
    }
  }

  /** Deleting a version by id takes away that version and no other. */
  lemma DeleteVersionHolds(st: Stacks, key: string, id: string, v: Object)
    ensures Keeps(Mem.DeleteVersion(st, key, id), v) <==> Keeps(st, v) && !(v.key == key && v.versionId == id)
  {
    hide Mem.Others, Mem.SortVersions;
    var versions := VersionsOf(st, key);
    Mem.OthersElements(versions, id);
    FindMeaning(versions, id);
    if Keeps(Mem.DeleteVersion(st, key, id), v) && v.key == key {
      var u :| u in VersionsOf(Mem.DeleteVersion(st, key, id), key) && u.(isLatest := false) == v.(isLatest := false);
      if Find(versions, id).Some? {
        SortAddsNothing(Mem.Others(versions, id), u);
        var w :| w in Mem.Others(versions, id) && w.(isLatest := false) == u.(isLatest := false);
        assert w in VersionsOf(st, v.key);
        assert w.versionId == u.versionId == v.versionId && w.(isLatest := false) == v.(isLatest := false);
      } else {
        assert u in versions && u.versionId == v.versionId;
      }
    }
    if Keeps(st, v) && !(v.key == key && v.versionId == id) {
      DeleteVersionKeeps(st, key, id, v);
    }
  }

  lemma DeleteObjectHolds(st: Stacks, key: string, v: Object)
    ensures Keeps(Mem.DeleteObject(st, key), v) <==> Keeps(st, v) && v.key != key
  {
  }

  /** The version of this key and id that is there, if it is. */
  lemma FoundVersion(st: Stacks, key: string, id: string, v: Object)
    requires ValidStacks(st) && Keeps(st, v) && v.key == key && v.versionId == id
    ensures Find(VersionsOf(st, key), id).Some? && Find(VersionsOf(st, key), id).value.(isLatest := false) == v.(isLatest := false)
  {
    var u :| u in VersionsOf(st, key) && u.(isLatest := false) == v.(isLatest := false);
    assert ValidStack(key, st[key]) && u.versionId == v.versionId;
    var i :| 0 <= i < |st[key]| && st[key][i] == u;
    Mem.CutOut(st[key], i, id);
  }

  /** What a PUT, copy or completion writes: the object's content under the time and the id given. */
  predicate WritesAs(o: Object, vseq: int, id: string, v: Object) {
    v.key == o.key && v.versionId == id && v.vseq == vseq && v.deleteMarker == o.deleteMarker && v.etag == o.etag && v.body == o.body
  }

  /**
   * An accepted write in enabled mode adds a version under its fresh id and keeps every version that
   * was there; in the other modes it takes the place of the version "null" and keeps all others. A
   * refused write changes nothing.
   */
  lemma WriteMeaning(b: Bucket, o: Object, cond: PutCondition, s: Stamp, v: Object)
    requires Fresh(b, o.key, s)
    ensures Serve(b, Write(o, cond, s)).mode == b.mode
    ensures !Admits(cond, VersionsOf(b.st, o.key)) ==> Serve(b, Write(o, cond, s)) == b
    ensures Admits(cond, VersionsOf(b.st, o.key)) && b.mode == Enabled ==>
              (Keeps(Serve(b, Write(o, cond, s)).st, v) <==> WritesAs(o, s.vseq, s.freshId, v) || Keeps(b.st, v))
    ensures Admits(cond, VersionsOf(b.st, o.key)) && b.mode != Enabled ==>
              (Keeps(Serve(b, Write(o, cond, s)).st, v) <==>
               WritesAs(o, s.vseq, "null", v) || (Keeps(b.st, v) && !(v.key == o.key && v.versionId == "null")))
  {
    hide Mem.Put;
    PutHolds(b.st, StampVersion(o, b.mode, s), v);
    if v.key == o.key && Keeps(b.st, v) {
      FreshDiffers(b, v, s);
    }
  }

  /** The written version is what its id names afterwards. */
  lemma WrittenIsFound(b: Bucket, o: Object, cond: PutCondition, s: Stamp)
    requires ValidStacks(b.st) && o.key != "" && IsBytes(o.key) && Fresh(b, o.key, s)
    requires Admits(cond, VersionsOf(b.st, o.key))
    ensures var id := if b.mode == Enabled then s.freshId else "null";
            var found := Find(VersionsOf(Serve(b, Write(o, cond, s)).st, o.key), id);
            found.Some? && WritesAs(o, s.vseq, id, found.value)
  {
    hide Mem.Put;
    var id := if b.mode == Enabled then s.freshId else "null";
    var v := o.(vseq := s.vseq, versionId := id);
    WriteMeaning(b, o, cond, s, v);
    Mem.PutKeepsValid(b.st, StampVersion(o, b.mode, s));
    FoundVersion(Serve(b, Write(o, cond, s)).st, o.key, id, v);
  }

  /**
   * A DELETE of a named version takes exactly that version. A plain one takes the whole key in a
   * bucket never versioned, hides it under a delete marker of a fresh id in enabled mode, and puts the
   * marker in place of the version "null" in suspended mode.
   */
  lemma DeleteMeaning(b: Bucket, key: string, versionId: string, s: Stamp, v: Object)
    requires Fresh(b, key, s)
    ensures Serve(b, Delete(key, versionId, s)).mode == b.mode
    ensures versionId != "" ==>
              (Keeps(Serve(b, Delete(key, versionId, s)).st, v) <==> Keeps(b.st, v) && !(v.key == key && v.versionId == versionId))
    ensures versionId == "" && b.mode == Unversioned ==>
              (Keeps(Serve(b, Delete(key, versionId, s)).st, v) <==> Keeps(b.st, v) && v.key != key)
    ensures versionId == "" && b.mode == Enabled && !(v.key == key && v.versionId == s.freshId) ==>
              (Keeps(Serve(b, Delete(key, versionId, s)).st, v) <==> Keeps(b.st, v))
    ensures versionId == "" && b.mode == Suspended && !(v.key == key && v.versionId == "null") ==>
              (Keeps(Serve(b, Delete(key, versionId, s)).st, v) <==> Keeps(b.st, v))
  {
    hide Mem.Put, Mem.DeleteVersion;
    DeleteVersionHolds(b.st, key, versionId, v);
    DeleteObjectHolds(b.st, key, v);
    PutHolds(b.st, StampVersion(DeleteMarkerFor(key), b.mode, s), v);
  }

  lemma MarkerIsFound(b: Bucket, key: string, s: Stamp)
    requires ValidStacks(b.st) && key != "" && IsBytes(key) && b.mode != Unversioned
    ensures var id := if b.mode == Enabled then s.freshId else "null";
            var found := Find(VersionsOf(Serve(b, Delete(key, "", s)).st, key), id);
            found.Some? && found.value.deleteMarker && found.value.vseq == s.vseq && found.value.key == key
  {
    hide Mem.Put;
    var dm := StampVersion(DeleteMarkerFor(key), b.mode, s);
    Mem.PutKeepsValid(b.st, dm);
    PutHolds(b.st, dm, dm);
    FoundVersion(Mem.Put(b.st, dm), key, dm.versionId, dm);
  }

  /** The mode after a run is the one last set. */
  function LastSet(mode: Mode, rs: seq<Request>): Mode {
    if rs == [] then mode
    else if rs[|rs| - 1].SetVersioning? then (if rs[|rs| - 1].on then Enabled else Suspended)
    else LastSet(mode, rs[..|rs| - 1])
  }

  lemma {:induction false} RunMode(b: Bucket, rs: seq<Request>)
    ensures Run(b, rs).mode == LastSet(b.mode, rs)
  {
    if rs != [] {
      var n := |rs| - 1;
      RunMode(b, rs[..n]);
      RunLast(b, rs[..n], rs[n]);
      assert rs[..n] + [rs[n]] == rs;
    }
  }

  lemma {:induction false} RunLast(b: Bucket, rs: seq<Request>, r: Request)
    ensures Run(b, rs + [r]) == Serve(Run(b, rs), r)
    decreases |rs|
  {
    if rs == [] {
      assert (rs + [r])[1..] == [];
    } else {
      assert (rs + [r])[1..] == rs[1..] + [r];
      RunLast(Serve(b, rs[0]), rs[1..], r);
    }
  }

  /** Setting the mode leaves every version; a restore leaves one live version for each of its objects. */
  lemma OtherRequests(b: Bucket, on: bool, objects: seq<Object>, bucket: string)
    requires Mem.Restorable(objects)
    ensures Serve(b, SetVersioning(on)) == Bucket(if on then Enabled else Suspended, b.st)
    ensures Serve(b, Restore(objects, bucket)).mode == b.mode
    ensures forall k :: k in Serve(b, Restore(objects, bucket)).st <==> exists i :: 0 <= i < |objects| && objects[i].key == k
    ensures forall i :: 0 <= i < |objects| ==>
              var st := Serve(b, Restore(objects, bucket)).st;
              && objects[i].key in st && |st[objects[i].key]| == 1
              && var v := st[objects[i].key][0];
                 && v.etag == objects[i].etag && v.vseq == objects[i].vseq && !v.deleteMarker && v.isLatest
                 && v.body.(bucket := objects[i].body.bucket) == objects[i].body && v.body.bucket == bucket
                 && v.versionId == if objects[i].versionId == "" then "null" else objects[i].versionId
  {
    hide Mem.Restore;
    Mem.RestoreOnePerKey(objects, bucket);
  }

  /** The id "null" is different: in suspended mode a plain write replaces that version. */
  lemma NullIsReplaced(st: Stacks, o: Object, v: Object, s: Stamp)
    requires v.key == o.key && v.versionId == NullVersion && v.body != o.body
    ensures !Keeps(Serve(Bucket(Suspended, st), Write(o, NoCondition, s)).st, v)
  {
    hide Mem.Others, Mem.StableSort;
    var n := StampVersion(o, Suspended, s);
    var versions := VersionsOf(st, o.key);
    Mem.OthersElements(versions, NullVersion);
    var t := [n] + Mem.Others(versions, NullVersion);
    Mem.StableSortMeaning(t);
    var sorted := Mem.SortVersions(t);
    forall u | u in sorted
      ensures u.(isLatest := false) != v.(isLatest := false)
    {
      var i :| 0 <= i < |sorted| && sorted[i] == u;
      assert Mem.StableSort(t)[i] in t;
    }
  }

  // ---------------------------------------------------------------------------------------------
  // A delete marker is an undoable delete
  // ---------------------------------------------------------------------------------------------

  lemma {:induction false} InsertThenCut(x: Object, s: seq<Object>)
    requires forall i :: 0 <= i < |s| ==> s[i].versionId != x.versionId
    ensures Mem.Others(Mem.InsertVersion(x, s), x.versionId) == s
  {
    if s == [] || x.vseq >= s[0].vseq {
      Mem.NothingCut(s, x.versionId);
      assert ([x] + s)[1..] == s;
    } else {
      InsertThenCut(x, s[1..]);
      var t := Mem.InsertVersion(x, s[1..]);
      assert ([s[0]] + t)[1..] == t;
    }
  }

  lemma {:induction false} CutIgnoresFlags(s: seq<Object>, t: seq<Object>, id: string)
    requires Mem.SameButFlags(s, t)
    ensures Mem.SameButFlags(Mem.Others(s, id), Mem.Others(t, id))
  {
    if s != [] {
      CutIgnoresFlags(s[1..], t[1..], id);
    }
  }

  /** Adding a version under a new id and removing that id gives the stack back, whatever the stamp. */
  lemma PutThenDelete(versions: seq<Object>, o: Object)
    requires NewestFirst(versions) && FlagsFirst(versions)
    requires forall i :: 0 <= i < |versions| ==> versions[i].versionId != o.versionId
    ensures Mem.SortVersions(Mem.Others(Mem.PutStack(versions, o), o.versionId)) == versions
    ensures Mem.Others(Mem.PutStack(versions, o), o.versionId) == [] <==> versions == []
  {
    Mem.NothingCut(versions, o.versionId);
    Mem.SortedIsFixed(versions);
    assert ([o] + versions)[1..] == versions;
    var placed := Mem.InsertVersion(o, versions);
    assert Mem.PutStack(versions, o) == Mem.Flagged(placed);
    InsertThenCut(o, versions);
    CutIgnoresFlags(Mem.Flagged(placed), placed, o.versionId);
    Mem.SortIgnoresFlags(Mem.Others(Mem.Flagged(placed), o.versionId), versions);
    Mem.FlaggedIsFixed(versions);
  }

  /** A plain delete in enabled mode followed by deleting its marker gives back the bucket. */
  lemma UndoDelete(b: Bucket, key: string, s: Stamp, s2: Stamp)
    requires b.mode == Enabled && ValidStacks(b.st) && Acceptable(b, Delete(key, "", s))
    ensures Serve(Serve(b, Delete(key, "", s)), Delete(key, s.freshId, s2)) == b
  {
    hide Mem.SortVersions, Mem.Others;
    var dm := StampVersion(DeleteMarkerFor(key), Enabled, s);
    var versions := VersionsOf(b.st, key);
    FindMeaning(versions, s.freshId);
    PutThenDelete(versions, dm);
    var gone := Mem.Put(b.st, dm);
    var stack := Mem.PutStack(versions, dm);
    SortKeeps([dm] + Mem.Others(versions, dm.versionId), dm, dm);
    var w :| w in stack && w.(isLatest := false) == dm.(isLatest := false);
    assert w.versionId == s.freshId;
    FindMeaning(stack, s.freshId);
    assert VersionsOf(gone, key) == stack;
  }

  /** The key reads as absent after a plain delete exactly when the marker is stamped no earlier. */
  lemma DeleteHides(b: Bucket, key: string, s: Stamp)
    requires b.mode == Enabled && ValidStacks(b.st) && Acceptable(b, Delete(key, "", s))
    ensures Current(VersionsOf(Serve(b, Delete(key, "", s)).st, key)).None? <==>
            var versions := VersionsOf(b.st, key);
            versions == [] || versions[0].deleteMarker || s.vseq >= versions[0].vseq
  {
    var dm := StampVersion(DeleteMarkerFor(key), Enabled, s);
    var versions := VersionsOf(b.st, key);
    FindMeaning(versions, s.freshId);
    Mem.NothingCut(versions, dm.versionId);
    Mem.SortedIsFixed(versions);
    assert ([dm] + versions)[1..] == versions;
    assert Mem.PutStack(versions, dm) == Mem.Flagged(Mem.InsertVersion(dm, versions));
  }
}
