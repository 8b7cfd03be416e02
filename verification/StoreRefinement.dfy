/**
 * The flagged-row table refines the version stacks: both hold the same rows after every operation,
 * so every query gives the same answer, provided each write is stamped later than the versions it
 * leaves in place.
 */
module StoreRefinement {
  import opened ByteStrings
  import opened Objects
  import opened Wrappers
  import Mem = MemoryStore
  import Sql = SqlTable

  predicate Holds(st: Stacks, v: Object) {
    v.key in st && v in st[v.key]
  }

  ghost predicate Strict(st: Stacks) {
    forall k :: k in st ==> StrictlyNewestFirst(st[k])
  }

  /** The table holds exactly the versions of the stacks, flags included. */
  ghost predicate Represents(st: Stacks, rows: Sql.Table) {
    && ValidStacks(st) && Strict(st)
    && Sql.Keyed(rows)
    && forall v :: Holds(st, v) <==> Sql.InTable(rows, v)
  }

  /** The write is stamped later than every version it does not replace. */
  ghost predicate Exceeds(versions: seq<Object>, o: Object) {
    forall i :: 0 <= i < |versions| && versions[i].versionId != o.versionId ==> versions[i].vseq < o.vseq
  }

  // ---------------------------------------------------------------------------------------------
  // What a well-formed stack looks like through the table
  // ---------------------------------------------------------------------------------------------

  /** Exactly one latest row per present key, the one with the greatest stamp. */
  lemma OneLatestRow(st: Stacks, rows: Sql.Table, key: string, v: Object)
    requires Represents(st, rows)
    ensures Sql.InTable(rows, v) && v.key == key && v.isLatest <==> key in st && v == st[key][0]
    ensures key in st ==> (key, st[key][0].versionId) in rows && Sql.HasMaxVSeq(rows, (key, st[key][0].versionId))
  {
    if key in st {
      var top := st[key][0];
      assert Holds(st, top) && Sql.InTable(rows, top);
      forall other | other in rows && other.0 == key
        ensures rows[other].vseq <= top.vseq
      {
        assert Sql.InTable(rows, rows[other]) && Holds(st, rows[other]);
      }
    }
    assert Holds(st, v) <==> Sql.InTable(rows, v);
  }

  lemma GetObjectAgrees(st: Stacks, rows: Sql.Table, key: string, answer: Option<Object>)
    requires Represents(st, rows)
    ensures Sql.IsLatestRow(rows, key, answer) <==>
            answer == if key in st then Some(st[key][0]) else None
  {
    match answer
    case Some(v) =>
      OneLatestRow(st, rows, key, v);
    case None =>
      if key in st {
        var top := st[key][0];
        OneLatestRow(st, rows, key, top);
        assert rows[(key, top.versionId)].isLatest;
      } else {
        forall id | (key, id) in rows
          ensures !rows[(key, id)].isLatest
        {
          OneLatestRow(st, rows, key, rows[(key, id)]);
        }
      }
  }

  lemma GetVersionAgrees(st: Stacks, rows: Sql.Table, key: string, id: string)
    requires Represents(st, rows)
    ensures Find(VersionsOf(st, key), id) == if (key, id) in rows then Some(rows[(key, id)]) else None
  {
    var versions := VersionsOf(st, key);
    FindMeaning(versions, id);
    if (key, id) in rows {
      var v := rows[(key, id)];
      assert Sql.InTable(rows, v) && Holds(st, v);
      var i :| 0 <= i < |versions| && versions[i] == v;
      Mem.CutOut(versions, i, id);
    } else {
      forall i | 0 <= i < |versions|
        ensures versions[i].versionId != id
      {
        assert Holds(st, versions[i]) && Sql.InTable(rows, versions[i]);
      }
    }
  }

  // ---------------------------------------------------------------------------------------------
  // PutObject
  // ---------------------------------------------------------------------------------------------

  /** A later stamp goes on top: nothing below moves. */
  lemma PutOnTop(versions: seq<Object>, o: Object)
    requires StrictlyNewestFirst(versions) && Exceeds(versions, o)
    ensures StrictlyNewestFirst([o] + Mem.Others(versions, o.versionId))
    ensures Mem.PutStack(versions, o) == Mem.Flagged([o] + Mem.Others(versions, o.versionId))
  {
    var t := Mem.Others(versions, o.versionId);
    Mem.OthersElements(versions, o.versionId);
    Mem.OthersStrict(versions, o.versionId);
    forall j | 0 <= j < |t|
      ensures t[j].vseq < o.vseq
    {
      assert t[j] in versions;
    }
    Mem.SortedIsFixed([o] + t);
  }

  /** The versions after such a write: the new one flagged, the survivors demoted. */
  lemma PutElements(versions: seq<Object>, o: Object, v: Object)
    requires StrictlyNewestFirst(versions) && Exceeds(versions, o)
    ensures v in Mem.PutStack(versions, o) <==>
            v == o.(isLatest := true) || (!v.isLatest && v.versionId != o.versionId && exists b :: v.(isLatest := b) in versions)
  {
    var t := Mem.Others(versions, o.versionId);
    PutOnTop(versions, o);
    FlaggedElements(o, t, v);
    Mem.OthersElements(versions, o.versionId);
    if !v.isLatest && exists b :: v.(isLatest := b) in t {
      var b :| v.(isLatest := b) in t;
      assert v.(isLatest := b) in versions;
    }
    if !v.isLatest && v.versionId != o.versionId && exists b :: v.(isLatest := b) in versions {
      var b :| v.(isLatest := b) in versions;
      assert v.(isLatest := b) in t;
    }
  }

  lemma FlaggedElements(o: Object, t: seq<Object>, v: Object)
    ensures v in Mem.Flagged([o] + t) <==> v == o.(isLatest := true) || (!v.isLatest && exists b :: v.(isLatest := b) in t)
  {
    var s := Mem.Flagged([o] + t);
    assert s[0] == o.(isLatest := true);
    if v in s && v != s[0] {
      var i :| 0 <= i < |s| && s[i] == v;
      assert v.(isLatest := t[i - 1].isLatest) == t[i - 1];
    }
    if !v.isLatest && exists b :: v.(isLatest := b) in t {
      var b :| v.(isLatest := b) in t;
      var i :| 0 <= i < |t| && t[i] == v.(isLatest := b);
      assert s[i + 1] == t[i].(isLatest := false) == v;
    }
  }

  /** One row of the table after the three statements of a write. */
  lemma PutRow(rows: Sql.Table, o: Object, rk: (string, string))
    requires o.versionId != ""
    requires forall other :: other in rows && other.0 == o.key && other.1 != o.versionId ==> rows[other].vseq < o.vseq
    ensures rk in Sql.Put(rows, o) <==> rk in rows || rk == (o.key, o.versionId)
    ensures rk == (o.key, o.versionId) ==> Sql.Put(rows, o)[rk] == o.(isLatest := true)
    ensures rk in rows && rk.0 != o.key ==> Sql.Put(rows, o)[rk] == rows[rk]
    ensures rk in rows && rk.0 == o.key && rk.1 != o.versionId ==> Sql.Put(rows, o)[rk] == rows[rk].(isLatest := false)
  {
    var mid := Sql.Demote(rows, o.key)[(o.key, o.versionId) := Sql.Row(o)];
    assert mid[(o.key, o.versionId)].vseq == o.vseq;
    if rk in rows && rk.0 == o.key && rk.1 != o.versionId {
      assert !Sql.HasMaxVSeq(mid, rk);
    }
  }

  lemma PutRefines(st: Stacks, rows: Sql.Table, o: Object)
    requires Represents(st, rows)
    requires o.key != "" && IsBytes(o.key) && o.versionId != ""
    requires Exceeds(VersionsOf(st, o.key), o)
    ensures Represents(Mem.Put(st, o), Sql.Put(rows, o))
  {
    var st', rows' := Mem.Put(st, o), Sql.Put(rows, o);
    var versions := VersionsOf(st, o.key);
    Mem.PutKeepsValid(st, o);
    PutOnTop(versions, o);
    forall rk | rk in rows && rk.0 == o.key && rk.1 != o.versionId
      ensures rows[rk].vseq < o.vseq
    {
      assert Sql.InTable(rows, rows[rk]) && Holds(st, rows[rk]);
    }
    forall rk | rk in rows'
      ensures rows'[rk].key == rk.0 && rows'[rk].versionId == rk.1
    {
      PutRow(rows, o, rk);
    }
    forall v
      ensures Holds(st', v) <==> Sql.InTable(rows', v)
    {
      PutRow(rows, o, (v.key, v.versionId));
      assert Holds(st, v) <==> Sql.InTable(rows, v);
      if v.key == o.key {
        PutElements(versions, o, v);
        if v.versionId != o.versionId {
          PutSurvivor(st, rows, o, v);
        }
      }
    }
  }

  lemma PutSurvivor(st: Stacks, rows: Sql.Table, o: Object, v: Object)
    requires Represents(st, rows) && v.key == o.key
    ensures (!v.isLatest && exists b :: v.(isLatest := b) in VersionsOf(st, o.key)) <==>
            (v.key, v.versionId) in rows && v == rows[(v.key, v.versionId)].(isLatest := false)
  {
    if !v.isLatest && exists b :: v.(isLatest := b) in VersionsOf(st, o.key) {
      var b :| v.(isLatest := b) in VersionsOf(st, o.key);
      assert Holds(st, v.(isLatest := b)) && Sql.InTable(rows, v.(isLatest := b));
    }
    if (v.key, v.versionId) in rows && v == rows[(v.key, v.versionId)].(isLatest := false) {
      var r := rows[(v.key, v.versionId)];
      assert Sql.InTable(rows, r) && Holds(st, r);
      assert v.(isLatest := r.isLatest) == r;
    }
  }

  /**
   * The premise is exact. Without it two rows of the key end up flagged as latest, and no stack
   * represents such a table.
   */
  lemma PutRefinesOnlyIf(st: Stacks, rows: Sql.Table, o: Object)
    requires Represents(st, rows)
    requires o.key != "" && IsBytes(o.key) && o.versionId != ""
    ensures (exists st' :: Represents(st', Sql.Put(rows, o))) <==> Exceeds(VersionsOf(st, o.key), o)
  {
    if Exceeds(VersionsOf(st, o.key), o) {
      PutRefines(st, rows, o);
    } else {
      var newest, w := TwoFlags(st, rows, o);
      forall st' | Represents(st', Sql.Put(rows, o))
        ensures false
      {
        OneLatestRow(st', Sql.Put(rows, o), o.key, newest);
        OneLatestRow(st', Sql.Put(rows, o), o.key, w);
      }
    }
  }

  /** Two different rows of the key that both carry the flag after a write stamped too early. */
  lemma TwoFlags(st: Stacks, rows: Sql.Table, o: Object) returns (a: Object, b: Object)
    requires Represents(st, rows) && o.versionId != ""
    requires !Exceeds(VersionsOf(st, o.key), o)
    ensures a != b && a.key == b.key == o.key && a.isLatest && b.isLatest
    ensures Sql.InTable(Sql.Put(rows, o), a) && Sql.InTable(Sql.Put(rows, o), b)
  {
    var versions := VersionsOf(st, o.key);
    var t := Mem.Others(versions, o.versionId);
    Mem.OthersElements(versions, o.versionId);
    Mem.OthersOrdered(versions, o.versionId);
    var i :| 0 <= i < |versions| && versions[i].versionId != o.versionId && versions[i].vseq >= o.vseq;
    assert versions[i] in t;
    var top := t[0];
    assert top in versions && top.vseq >= versions[i].vseq;
    assert Holds(st, top) && Sql.InTable(rows, top);
    var mid := Sql.Demote(rows, o.key)[(o.key, o.versionId) := Sql.Row(o)];
    forall other | other in mid && other.0 == o.key
      ensures mid[other].vseq <= top.vseq
    {
      if other.1 != o.versionId {
        var r := rows[other];
        assert Sql.InTable(rows, r) && Holds(st, r);
        assert r in t;
      }
    }
    assert Sql.HasMaxVSeq(mid, (o.key, top.versionId));
    a, b := o.(isLatest := true), top.(isLatest := true);
  }

  // ---------------------------------------------------------------------------------------------
  // DeleteVersion, DeleteObject, RestoreBucket
  // ---------------------------------------------------------------------------------------------

  /** The versions left by a removal, the newest of them flagged. */
  lemma DeleteElements(versions: seq<Object>, id: string, v: Object)
    requires NewestFirst(versions) && DistinctIds(versions)
    ensures var t := Mem.Others(versions, id);
            v in Mem.SortVersions(t) <==> exists u :: u in t && v == u.(isLatest := u.versionId == t[0].versionId)
  {
    Mem.OthersOrdered(versions, id);
    Mem.OthersDistinct(versions, id);
    Mem.SortedIsFixed(Mem.Others(versions, id));
    FlaggedById(Mem.Others(versions, id), v);
  }

  lemma FlaggedById(t: seq<Object>, v: Object)
    requires DistinctIds(t)
    ensures v in Mem.Flagged(t) <==> exists u :: u in t && v == u.(isLatest := u.versionId == t[0].versionId)
  {
    var s := Mem.Flagged(t);
    if v in s {
      var i :| 0 <= i < |s| && s[i] == v;
      assert t[i] in t && v == t[i].(isLatest := t[i].versionId == t[0].versionId);
    }
    if u :| u in t && v == u.(isLatest := u.versionId == t[0].versionId) {
      var i :| 0 <= i < |t| && t[i] == u;
      assert s[i] == v;
    }
  }

  /** A row left by a removal carries the flag exactly when it is the newest one left. */
  lemma DeleteRow(st: Stacks, rows: Sql.Table, key: string, id: string, other: string)
    requires Represents(st, rows)
    requires (key, id) in rows && (key, other) in rows && other != id
    ensures key in st && Mem.Others(st[key], id) != []
    ensures (key, other) in Sql.DeleteVersion(rows, key, id)
    ensures Sql.DeleteVersion(rows, key, id)[(key, other)] ==
            rows[(key, other)].(isLatest := other == Mem.Others(st[key], id)[0].versionId)
  {
    var gone, r := rows[(key, id)], rows[(key, other)];
    assert Sql.InTable(rows, gone) && Holds(st, gone);
    assert Sql.InTable(rows, r) && Holds(st, r);
    var versions := st[key];
    var t := Mem.Others(versions, id);
    Mem.OthersElements(versions, id);
    assert r in t;
    OneLatestRow(st, rows, key, r);
    OneLatestRow(st, rows, key, gone);
    if gone.isLatest {
      Mem.CutOut(versions, 0, id);
      assert t == versions[1..];
      RestMax(st, rows, key, id);
    } else {
      assert t[0] == versions[0];
    }
  }

  /** After the newest row of a key is gone, the next one has the greatest stamp, and only it. */
  lemma RestMax(st: Stacks, rows: Sql.Table, key: string, id: string)
    requires Represents(st, rows) && key in st && |st[key]| > 1 && st[key][0].versionId == id
    ensures forall rk :: rk in rows - {(key, id)} && rk.0 == key ==>
                           (Sql.HasMaxVSeq(rows - {(key, id)}, rk) <==> rk.1 == st[key][1].versionId)
  {
    var next := st[key][1];
    var rest := rows - {(key, id)};
    assert Holds(st, next) && Sql.InTable(rows, next);
    forall rk | rk in rest && rk.0 == key
      ensures rows[rk].vseq <= next.vseq && (rk.1 != next.versionId ==> rows[rk].vseq < next.vseq)
    {
      assert Sql.InTable(rows, rows[rk]) && Holds(st, rows[rk]);
      var i :| 0 <= i < |st[key]| && st[key][i] == rows[rk];
    }
    assert rest[(key, next.versionId)].vseq == next.vseq;
  }

  lemma DeleteKeepsStrict(st: Stacks, key: string, id: string)
    requires ValidStacks(st) && Strict(st)
    ensures Strict(Mem.DeleteVersion(st, key, id))
  {
    var versions := VersionsOf(st, key);
    var t := Mem.Others(versions, id);
    Mem.OthersStrict(versions, id);
    Mem.SortedIsFixed(t);
  }

  /** Both forms hold the same rows of the key after a removal. */
  lemma DeleteAgrees(st: Stacks, rows: Sql.Table, key: string, id: string, v: Object)
    requires Represents(st, rows) && (key, id) in rows && v.key == key
    ensures Holds(Mem.DeleteVersion(st, key, id), v) <==> Sql.InTable(Sql.DeleteVersion(rows, key, id), v)
  {
    GetVersionAgrees(st, rows, key, id);
    var versions := VersionsOf(st, key);
    var t := Mem.Others(versions, id);
    Mem.OthersElements(versions, id);
    DeleteElements(versions, id, v);
    if Holds(Mem.DeleteVersion(st, key, id), v) {
      var u :| u in t && v == u.(isLatest := u.versionId == t[0].versionId);
      assert Holds(st, u) && Sql.InTable(rows, u);
      DeleteRow(st, rows, key, id, u.versionId);
    }
    if Sql.InTable(Sql.DeleteVersion(rows, key, id), v) {
      assert (key, v.versionId) in rows && v.versionId != id;
      var u := rows[(key, v.versionId)];
      assert Sql.InTable(rows, u) && Holds(st, u) && u in t;
      DeleteRow(st, rows, key, id, v.versionId);
    }
  }

  lemma DeleteVersionRefines(st: Stacks, rows: Sql.Table, key: string, id: string)
    requires Represents(st, rows)
    ensures Represents(Mem.DeleteVersion(st, key, id), Sql.DeleteVersion(rows, key, id))
  {
    GetVersionAgrees(st, rows, key, id);
    if (key, id) in rows {
      Mem.DeleteVersionKeepsValid(st, key, id);
      DeleteKeepsStrict(st, key, id);
      forall v
        ensures Holds(Mem.DeleteVersion(st, key, id), v) <==> Sql.InTable(Sql.DeleteVersion(rows, key, id), v)
      {
        assert Holds(st, v) <==> Sql.InTable(rows, v);
        if v.key == key {
          DeleteAgrees(st, rows, key, id, v);
        }
      }
    }
  }

  lemma DeleteObjectRefines(st: Stacks, rows: Sql.Table, key: string)
    requires Represents(st, rows)
    ensures Represents(Mem.DeleteObject(st, key), Sql.DeleteObject(rows, key))
  {
    forall v
      ensures Holds(Mem.DeleteObject(st, key), v) <==> Sql.InTable(Sql.DeleteObject(rows, key), v)
    {
      assert Holds(st, v) <==> Sql.InTable(rows, v);
    }
  }

  // ---------------------------------------------------------------------------------------------
  // RestoreBucket
  // ---------------------------------------------------------------------------------------------

  /** With one object per key the inserts succeed. */
  lemma {:induction false} RestoreSucceeds(objects: seq<Object>, bucket: string)
    requires Mem.Restorable(objects)
    ensures Sql.Restore(objects, bucket).Some?
  {
    if objects != [] {
      var n := |objects| - 1;
      RestoreSucceeds(objects[..n], bucket);
      RestoredKeys(objects[..n], bucket, objects[n].key, Sql.StoredId(objects[n].versionId));
      assert forall i :: 0 <= i < n ==> objects[..n][i].key != objects[n].key;
    }
  }

  /** They leave exactly the restored objects. */
  lemma {:induction false} RestoreRows(objects: seq<Object>, bucket: string, v: Object)
    requires Mem.Restorable(objects) && Sql.Restore(objects, bucket).Some?
    ensures Sql.InTable(Sql.Restore(objects, bucket).value, v) <==>
            exists i :: 0 <= i < |objects| && v == Mem.Restored(objects[i], bucket)
  {
    if objects != [] {
      var n := |objects| - 1;
      RestoreRows(objects[..n], bucket, v);
      var o := Mem.Restored(objects[n], bucket);
      assert Sql.RestoredRow(objects[n], bucket) == o;
      if i :| 0 <= i < |objects| && v == Mem.Restored(objects[i], bucket) {
        assert i < n ==> objects[..n][i] == objects[i] && v.key != o.key;
      }
      if i :| 0 <= i < n && v == Mem.Restored(objects[..n][i], bucket) {
        assert objects[..n][i] == objects[i] && v.key != o.key;
      }
    }
  }

  /** Every restored row comes from an object of its key. */
  lemma {:induction false} RestoredKeys(objects: seq<Object>, bucket: string, key: string, id: string)
    ensures Sql.Restore(objects, bucket).Some? && (key, id) in Sql.Restore(objects, bucket).value ==>
              exists i :: 0 <= i < |objects| && objects[i].key == key
  {
    if objects != [] {
      var n := |objects| - 1;
      RestoredKeys(objects[..n], bucket, key, id);
      if i :| 0 <= i < n && objects[..n][i].key == key {
        assert objects[i].key == key;
      }
      assert objects[n].key == key ==> exists i :: 0 <= i < |objects| && objects[i].key == key;
    }
  }

  lemma {:induction false} RestoreKeyed(objects: seq<Object>, bucket: string)
    ensures Sql.Restore(objects, bucket).Some? ==> Sql.Keyed(Sql.Restore(objects, bucket).value)
  {
    if objects != [] {
      RestoreKeyed(objects[..|objects| - 1], bucket);
    }
  }

  lemma RestoreRefines(objects: seq<Object>, bucket: string)
    requires Mem.Restorable(objects)
    ensures Sql.Restore(objects, bucket).Some?
    ensures Represents(Mem.Restore(objects, bucket), Sql.Restore(objects, bucket).value)
  {
    var st := Mem.Restore(objects, bucket);
    Mem.RestoreOnePerKey(objects, bucket);
    RestoreKeyed(objects, bucket);
    RestoreSucceeds(objects, bucket);
    forall v: Object
      ensures Holds(st, v) <==> Sql.InTable(Sql.Restore(objects, bucket).value, v)
    {
      RestoreRows(objects, bucket, v);
      if Holds(st, v) {
        var i :| 0 <= i < |objects| && objects[i].key == v.key;
        assert v == Mem.Restored(objects[i], bucket);
      }
      if i :| 0 <= i < |objects| && v == Mem.Restored(objects[i], bucket) {
        assert st[objects[i].key] == [v];
      }
    }
    forall k | k in st
      ensures StrictlyNewestFirst(st[k])
    {
      var i :| 0 <= i < |objects| && objects[i].key == k;
    }
  }

  /** Keys as the gateway accepts them. */
  ghost predicate ProperKeys(objects: seq<Object>) {
    forall i :: 0 <= i < |objects| ==> objects[i].key != "" && IsBytes(objects[i].key)
  }

  lemma {:induction false} RestoredIn(objects: seq<Object>, bucket: string, i: nat)
    requires Sql.Restore(objects, bucket).Some? && i < |objects|
    ensures Sql.InTable(Sql.Restore(objects, bucket).value, Sql.RestoredRow(objects[i], bucket))
  {
    if i < |objects| - 1 {
      RestoredIn(objects[..|objects| - 1], bucket, i);
    }
  }

  lemma {:induction false} RestoredApart(objects: seq<Object>, bucket: string, i: nat, j: nat)
    requires Sql.Restore(objects, bucket).Some? && i < j < |objects| && objects[i].key == objects[j].key
    ensures Sql.RestoredRow(objects[i], bucket) != Sql.RestoredRow(objects[j], bucket)
  {
    var n := |objects| - 1;
    if j < n {
      RestoredApart(objects[..n], bucket, i, j);
    } else {
      RestoredIn(objects[..n], bucket, i);
    }
  }

  /**
   * A list with a repeated key or a delete marker shows: either the SQL store refuses it, or a plain
   * read of some key may answer differently from the in-memory store.
   */
  lemma RestoreShows(objects: seq<Object>, bucket: string) returns (v: Object)
    requires ProperKeys(objects) && !Mem.Restorable(objects) && Sql.Restore(objects, bucket).Some?
    ensures Sql.IsLatestRow(Sql.Restore(objects, bucket).value, v.key, Some(v))
    ensures v.key in Mem.Restore(objects, bucket) && Mem.Restore(objects, bucket)[v.key] != []
    ensures v != Mem.Restore(objects, bucket)[v.key][0]
  {
    if i, j :| 0 <= i < j < |objects| && objects[i].key == objects[j].key {
      StackThere(objects, bucket, i);
      RestoredIn(objects, bucket, i);
      RestoredIn(objects, bucket, j);
      RestoredApart(objects, bucket, i, j);
      var top := Mem.Restore(objects, bucket)[objects[i].key][0];
      v := if Sql.RestoredRow(objects[i], bucket) != top then Sql.RestoredRow(objects[i], bucket) else Sql.RestoredRow(objects[j], bucket);
    } else {
      var i :| 0 <= i < |objects| && objects[i].deleteMarker;
      MarkerOnTop(objects, bucket, i);
      RestoredIn(objects, bucket, i);
      v := Sql.RestoredRow(objects[i], bucket);
    }
  }

  lemma {:induction false} OfKeyHas(objects: seq<Object>, bucket: string, i: nat)
    requires i < |objects|
    ensures Mem.Restored(objects[i], bucket) in Mem.OfKey(objects, bucket, objects[i].key)
  {
    if i < |objects| - 1 {
      OfKeyHas(objects[..|objects| - 1], bucket, i);
    }
  }

  lemma {:induction false} OfKeyFrom(objects: seq<Object>, bucket: string, k: string, v: Object)
    requires v in Mem.OfKey(objects, bucket, k)
    ensures exists i :: 0 <= i < |objects| && objects[i].key == k && v == Mem.Restored(objects[i], bucket)
  {
    var n := |objects| - 1;
    if v in Mem.OfKey(objects[..n], bucket, k) {
      OfKeyFrom(objects[..n], bucket, k, v);
      var i :| 0 <= i < n && objects[..n][i].key == k && v == Mem.Restored(objects[..n][i], bucket);
      assert objects[i] == objects[..n][i];
    }
  }

  lemma StackThere(objects: seq<Object>, bucket: string, i: nat)
    requires i < |objects|
    ensures objects[i].key in Mem.Restore(objects, bucket) && Mem.Restore(objects, bucket)[objects[i].key] != []
  {
    OfKeyHas(objects, bucket, i);
    Mem.RestoreMeaning(objects, bucket, objects[i].key);
    Mem.StableSortMeaning(Mem.OfKey(objects, bucket, objects[i].key));
  }

  /** The only object of its key, when it is a delete marker, is what the in-memory store keeps on top. */
  lemma MarkerOnTop(objects: seq<Object>, bucket: string, i: nat)
    requires i < |objects| && objects[i].deleteMarker
    requires forall a, b :: 0 <= a < b < |objects| ==> objects[a].key != objects[b].key
    ensures objects[i].key in Mem.Restore(objects, bucket) && Mem.Restore(objects, bucket)[objects[i].key] != []
    ensures Mem.Restore(objects, bucket)[objects[i].key][0].deleteMarker
  {
    var k := objects[i].key;
    var all := Mem.OfKey(objects, bucket, k);
    StackThere(objects, bucket, i);
    Mem.RestoreMeaning(objects, bucket, k);
    Mem.StableSortMeaning(all);
    var top := Mem.StableSort(all)[0];
    assert top in Mem.StableSort(all);
    OfKeyFrom(objects, bucket, k, top);
    var j :| 0 <= j < |objects| && objects[j].key == k && top == Mem.Restored(objects[j], bucket);
    assert j == i;
  }

  /** The stores agree after a restore exactly when the list has one object per key and no delete marker. */
  lemma RestoreAgreesIff(objects: seq<Object>, bucket: string)
    requires ProperKeys(objects)
    ensures (Sql.Restore(objects, bucket).Some? && Represents(Mem.Restore(objects, bucket), Sql.Restore(objects, bucket).value))
            <==> Mem.Restorable(objects)
  {
    if Mem.Restorable(objects) {
      RestoreRefines(objects, bucket);
    } else if Sql.Restore(objects, bucket).Some? && Represents(Mem.Restore(objects, bucket), Sql.Restore(objects, bucket).value) {
      var v := RestoreShows(objects, bucket);
      GetObjectAgrees(Mem.Restore(objects, bucket), Sql.Restore(objects, bucket).value, v.key, Some(v));
      assert false;
    }
  }
}
