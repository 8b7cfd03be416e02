/**
 * The SQL stores: one flat table of version rows with an `is_latest` flag. Each write is a short
 * sequence of UPDATE, INSERT and DELETE statements inside one transaction; Postgres additionally
 * serialises the transactions of one key across gateways with an advisory lock.
 */
module SqlTable {
  import opened ByteStrings
  import opened Objects
  import opened Wrappers

  /** The objects table of one bucket; its primary key is (key, version_id). */
  type Table = map<(string, string), Object>

  ghost predicate Keyed(rows: Table) {
    forall rk :: rk in rows ==> rows[rk].key == rk.0 && rows[rk].versionId == rk.1
  }

  predicate InTable(rows: Table, v: Object) {
    (v.key, v.versionId) in rows && rows[(v.key, v.versionId)] == v
  }

  // ---------------------------------------------------------------------------------------------
  // Statements
  // ---------------------------------------------------------------------------------------------

  /** UPDATE ... SET is_latest = 0 WHERE key = ? AND is_latest = 1. */
  function Demote(rows: Table, key: string): Table {
    map rk | rk in rows :: if rk.0 == key && rows[rk].isLatest then rows[rk].(isLatest := false) else rows[rk]
  }

  /** vseq = (SELECT MAX(vseq) ... of the same key). */
  predicate HasMaxVSeq(rows: Table, rk: (string, string))
    requires rk in rows
  {
    forall other :: other in rows && other.0 == rk.0 ==> rows[other].vseq <= rows[rk].vseq
  }

  /** UPDATE ... SET is_latest = 1 WHERE key = ? AND vseq = MAX. */
  function Promote(rows: Table, key: string): Table {
    map rk | rk in rows :: if rk.0 == key && HasMaxVSeq(rows, rk) then rows[rk].(isLatest := true) else rows[rk]
  }

  /** The id a row is stored under: an empty one is written as "null". */
  function StoredId(id: string): string {
    if id == "" then NullVersion else id
  }

  function Row(o: Object): Object {
    o.(isLatest := true, versionId := StoredId(o.versionId))
  }

  function Put(rows: Table, o: Object): Table {
    Promote(Demote(rows, o.key)[(o.key, StoredId(o.versionId)) := Row(o)], o.key)
  }

  function DeleteVersion(rows: Table, key: string, id: string): Table {
    if (key, id) !in rows then rows
    else
      var rest := rows - {(key, id)};
      if rows[(key, id)].isLatest then Promote(rest, key) else rest
  }

  function DeleteObject(rows: Table, key: string): Table {
    map rk | rk in rows && rk.0 != key :: rows[rk]
  }

  /** The condition is checked on the flagged row; a delete marker counts as absent. */
  predicate CondOk(cond: PutCondition, latest: Option<Object>) {
    cond.Ok(latest.Some? && !latest.value.deleteMarker, if latest.Some? then latest.value.etag else "")
  }

  /** A result `SELECT ... WHERE key = ? AND is_latest = 1` may return. */
  ghost predicate IsLatestRow(rows: Table, key: string, answer: Option<Object>) {
    match answer
    case Some(v) => InTable(rows, v) && v.key == key && v.isLatest
    case None => forall id :: (key, id) in rows ==> !rows[(key, id)].isLatest
  }

  /** A result `SELECT ... ORDER BY key LIMIT ?` may return: see `ListObjects` for the WHERE clause. */
  ghost predicate ListsObjects(rows: Table, prefix: Str, after: string, limit: int, out: seq<Object>) {
    exists full :: SelectsLatest(rows, prefix, UpperBound(prefix), after, full) && out == Take(full, limit)
  }

  ghost predicate SelectsLatest(rows: Table, prefix: string, end: string, after: string, full: seq<Object>) {
    && (forall v :: v in full <==> InTable(rows, v) && v.isLatest && !v.deleteMarker && Less(after, v.key) && InRange(prefix, end, v.key))
    && (forall i, j :: 0 <= i < j < |full| ==> full[i] != full[j] && AtMost(full[i].key, full[j].key))
  }

  /** A result of the version query: ORDER BY key ASC, vseq DESC LIMIT ?. */
  ghost predicate ListsVersions(rows: Table, prefix: Str, km: string, vm: string, limit: int, out: seq<Object>) {
    exists full :: SelectsVersions(rows, prefix, UpperBound(prefix), km, vm, full) && out == Take(full, limit)
  }

  function SelectedVSeq(rows: Table, km: string, vm: string): int {
    if vm != "" && (km, vm) in rows then rows[(km, vm)].vseq else -1
  }

  predicate AfterMarker(rows: Table, km: string, vm: string, v: Object) {
    km == "" ||
    if vm != "" && SelectedVSeq(rows, km, vm) >= 0
    then Less(km, v.key) || (v.key == km && v.vseq < SelectedVSeq(rows, km, vm))
    else Less(km, v.key)
  }

  ghost predicate SelectsVersions(rows: Table, prefix: string, end: string, km: string, vm: string, full: seq<Object>) {
    && (forall v :: v in full <==> InTable(rows, v) && InRange(prefix, end, v.key) && AfterMarker(rows, km, vm, v))
    && (forall i, j :: 0 <= i < j < |full| ==>
                         full[i] != full[j] && (Less(full[i].key, full[j].key) || (full[i].key == full[j].key && full[i].vseq >= full[j].vseq)))
  }

  /** DELETE everything, then INSERT each object as a latest, non-marker row. */
  function RestoredRow(o: Object, bucket: string): Object {
    o.(body := o.body.(bucket := bucket), isLatest := true, deleteMarker := false, versionId := StoredId(o.versionId))
  }

  /** A plain INSERT: a repeated (key, version_id) violates the primary key and the transaction rolls back. */
  function Restore(objects: seq<Object>, bucket: string): Option<Table> {
    if objects == [] then Some(map[])
    else
      var o := RestoredRow(objects[|objects| - 1], bucket);
      match Restore(objects[..|objects| - 1], bucket)
      case None => None
      case Some(rows) => if (o.key, o.versionId) in rows then None else Some(rows[(o.key, o.versionId) := o])
  }
}
