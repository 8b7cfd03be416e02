/**
 * The SQL store as an object: the statements in the order its transactions issue them. The ghost
 * index is the in-memory store's state after the same operations; `Valid` says the table stands for
 * it, so every query answers as the in-memory store would.
 */
module SqlStore {
  import opened ByteStrings
  import opened Objects
  import opened Wrappers
  import opened StoreRefinement
  import Mem = MemoryStore
  import Sql = SqlTable

  class Store {
    const bucket: string
    var rows: Sql.Table
    var headRoot: string
    var commitSeq: int
    ghost var index: Stacks

    ghost predicate Valid()
      reads this
    {
      Represents(index, rows)
    }

    constructor (name: string)
      ensures Valid() && bucket == name && index == map[] && headRoot == "" && commitSeq == 0
    {
      bucket, rows, headRoot, commitSeq, index := name, map[], "", 0, map[];
    }

    /**
     * `latest` is whatever the flagged-row query returned inside the transaction. The write is
     * accepted exactly when the in-memory store would accept it, and the table goes on standing for
     * the in-memory index exactly when an accepted write is stamped after the versions it leaves.
     */
    method PutObject(o: Object, cond: PutCondition, latest: Option<Object>) returns (ok: bool)
      requires Valid() && Sql.IsLatestRow(rows, o.key, latest) && o.key != "" && IsBytes(o.key)
      modifies this`rows, this`index
      ensures ok == Admits(cond, old(VersionsOf(index, o.key)))
      ensures index == if ok then Mem.Put(old(index), Stored(o)) else old(index)
      ensures Valid() <==> (ok ==> Exceeds(old(VersionsOf(index, o.key)), Stored(o)))
    {
      GetObjectAgrees(index, rows, o.key, latest);
      if !Sql.CondOk(cond, latest) {
        return false;
      }
      var row := Stored(o);
      PutStands(index, rows, row);
      index := Mem.Put(index, row);
      rows := Sql.Demote(rows, o.key);
      rows := rows[(o.key, row.versionId) := row.(isLatest := true)];
      rows := Sql.Promote(rows, o.key);
      return true;
    }

    method DeleteOneVersion(key: string, id: string) returns (removed: Option<Object>)
      requires Valid()
      modifies this`rows, this`index
      ensures Valid() && index == Mem.DeleteVersion(old(index), key, id)
      ensures removed == Find(old(VersionsOf(index, key)), id)
    {
      GetVersionAgrees(index, rows, key, id);
      DeleteVersionRefines(index, rows, key, id);
      index := Mem.DeleteVersion(index, key, id);
      if (key, id) !in rows {
        return None;
      }
      var o := rows[(key, id)];
      rows := rows - {(key, id)};
      if o.isLatest {
        rows := Sql.Promote(rows, key);
      }
      return Some(o);
    }

    method DeleteAllVersions(key: string)
      requires Valid()
      modifies this`rows, this`index
      ensures Valid() && index == Mem.DeleteObject(old(index), key)
    {
      DeleteObjectRefines(index, rows, key);
      index := Mem.DeleteObject(index, key);
      rows := map rk | rk in rows && rk.0 != key :: rows[rk];
    }

    /** A refused restore rolls back; an accepted one leaves the in-memory state exactly for lists both stores agree on. */
    method RestoreBucket(objects: seq<Object>, root: string, seq_: int) returns (ok: bool)
      requires Valid() && ProperKeys(objects)
      modifies this
      ensures Mem.Restorable(objects) ==> ok
      ensures !ok ==> Valid() && index == old(index) && headRoot == old(headRoot) && commitSeq == old(commitSeq)
      ensures ok ==> index == Mem.Restore(objects, bucket) && headRoot == root && commitSeq == seq_
      ensures ok ==> (Valid() <==> Mem.Restorable(objects))
    {
      RestoreAgreesIff(objects, bucket);
      var inserted;
      inserted, ok := InsertAll(objects, bucket);
      if ok {
        rows, headRoot, commitSeq := inserted, root, seq_;
        index := Mem.Restore(objects, bucket);
      }
    }

    /** The INSERT loop; it stops at the first row whose primary key is taken. */
    static method InsertAll(objects: seq<Object>, bucket: string) returns (inserted: Sql.Table, ok: bool)
      ensures ok == Sql.Restore(objects, bucket).Some?
      ensures ok ==> inserted == Sql.Restore(objects, bucket).value
    {
      inserted, ok := map[], true;
      for i := 0 to |objects|
        invariant ok && Sql.Restore(objects[..i], bucket) == Some(inserted)
      {
        assert objects[..i + 1][..i] == objects[..i];
        var o := Sql.RestoredRow(objects[i], bucket);
        if (o.key, o.versionId) in inserted {
          RefusalStays(objects, bucket, i + 1);
          return inserted, false;
        }
        inserted := inserted[(o.key, o.versionId) := o];
      }
      assert objects[..|objects|] == objects;
    }
  }

  /** The object as its row names it: an empty version id is written as "null". */
  function Stored(o: Object): Object {
    o.(versionId := Sql.StoredId(o.versionId))
  }

  lemma PutStands(st: Stacks, rows: Sql.Table, row: Object)
    requires Represents(st, rows) && row.key != "" && IsBytes(row.key) && row.versionId != ""
    ensures Represents(Mem.Put(st, row), Sql.Put(rows, row)) <==> Exceeds(VersionsOf(st, row.key), row)
  {
    PutRefinesOnlyIf(st, rows, row);
    if Exceeds(VersionsOf(st, row.key), row) {
      PutRefines(st, rows, row);
    }
  }

  lemma {:induction false} RefusalStays(objects: seq<Object>, bucket: string, n: nat)
    requires n <= |objects| && Sql.Restore(objects[..n], bucket).None?
    ensures Sql.Restore(objects, bucket).None?
    decreases |objects| - n
  {
    if n < |objects| {
      assert objects[..n + 1][..n] == objects[..n];
      RefusalStays(objects, bucket, n + 1);
    } else {
      assert objects[..n] == objects;
    }
  }
}
