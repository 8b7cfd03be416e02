/** Queries agree between the two store forms, and so do all answers over every run. */
module StoreRuns {
  import opened ByteStrings
  import opened Objects
  import opened Wrappers
  import opened StoreRefinement
  import Mem = MemoryStore
  import Sql = SqlTable

  // ---------------------------------------------------------------------------------------------
  // Listings
  // ---------------------------------------------------------------------------------------------

  /** A row with the prefix is a row in the key range, for every byte string. */
  lemma RangeOfRow(st: Stacks, rows: Sql.Table, prefix: Str, v: Object)
    requires Represents(st, rows) && v.key in st
    ensures InRange(prefix, UpperBound(prefix), v.key) <==> prefix <= v.key
  {
    RangeIsPrefixTest(prefix, v.key);
  }

  lemma SelectLatestAgrees(st: Stacks, rows: Sql.Table, prefix: Str, after: string, v: Object)
    requires Represents(st, rows)
    ensures v in LiveListing(st, prefix, after) <==>
            Sql.InTable(rows, v) && v.isLatest && !v.deleteMarker && Less(after, v.key) && InRange(prefix, UpperBound(prefix), v.key)
  {
    LiveListingContents(st, prefix, after);
    OneLatestRow(st, rows, v.key, v);
    if v.key in st {
      RangeOfRow(st, rows, prefix, v);
    }
  }

  lemma LiveIsSelected(st: Stacks, rows: Sql.Table, prefix: Str, after: string)
    requires Represents(st, rows)
    ensures Sql.SelectsLatest(rows, prefix, UpperBound(prefix), after, LiveListing(st, prefix, after))
  {
    var live := LiveListing(st, prefix, after);
    forall v
      ensures v in live <==>
              Sql.InTable(rows, v) && v.isLatest && !v.deleteMarker && Less(after, v.key) && InRange(prefix, UpperBound(prefix), v.key)
    {
      SelectLatestAgrees(st, rows, prefix, after, v);
    }
    forall i, j | 0 <= i < j < |live|
      ensures live[i] != live[j] && AtMost(live[i].key, live[j].key)
    {
      LiveListingContents(st, prefix, after);
      assert live[i] in live && live[j] in live;
      RowBeforeAsymmetric(live[i], live[j]);
    }
  }

  /** The object query has exactly one possible answer, the in-memory one. */
  lemma ListObjectsAgrees(st: Stacks, rows: Sql.Table, prefix: Str, after: string, limit: int, out: seq<Object>)
    requires Represents(st, rows)
    ensures Sql.ListsObjects(rows, prefix, after, limit, out) <==> out == ListObjects(st, prefix, after, limit)
  {
    var live := LiveListing(st, prefix, after);
    LiveIsSelected(st, rows, prefix, after);
    forall full | Sql.SelectsLatest(rows, prefix, UpperBound(prefix), after, full)
      ensures full == live
    {
      LiveListingContents(st, prefix, after);
      RowsUnique(full, live);
    }
  }

  lemma MarkerAgrees(st: Stacks, rows: Sql.Table, km: string, vm: string, v: Object)
    requires Represents(st, rows) && v.key in st
    ensures AtMost(km, v.key) && PastMarker(km, vm, MarkerVSeq(st, km, vm), v) <==> Sql.AfterMarker(rows, km, vm, v)
  {
    GetVersionAgrees(st, rows, km, vm);
    Trichotomy(km, v.key);
    if km == "" {
      assert AtMost(km, v.key) && v.key != "";
    } else if vm != "" {
      assert MarkerVSeq(st, km, vm) == Sql.SelectedVSeq(rows, km, vm);
    }
  }

  lemma VersionListingContents(st: Stacks, prefix: string, km: string, vm: string)
    requires ValidStacks(st) && Strict(st)
    ensures RowsInOrder(VersionListing(st, prefix, km, vm))
    ensures forall v :: v in VersionListing(st, prefix, km, vm) <==>
                          Holds(st, v) && prefix <= v.key && AtMost(km, v.key) && PastMarker(km, vm, MarkerVSeq(st, km, vm), v)
  {
    var keys := Ordered(set k | k in st && prefix <= k && AtMost(km, k));
    PastAllContents(st, keys, km, vm, MarkerVSeq(st, km, vm));
  }

  lemma SelectVersionsAgrees(st: Stacks, rows: Sql.Table, prefix: Str, km: string, vm: string, v: Object)
    requires Represents(st, rows)
    ensures v in VersionListing(st, prefix, km, vm) <==>
            Sql.InTable(rows, v) && InRange(prefix, UpperBound(prefix), v.key) && Sql.AfterMarker(rows, km, vm, v)
  {
    VersionListingContents(st, prefix, km, vm);
    assert Holds(st, v) <==> Sql.InTable(rows, v);
    if Holds(st, v) {
      RangeOfRow(st, rows, prefix, v);
      MarkerAgrees(st, rows, km, vm, v);
    }
  }

  lemma VersionsInOrder(st: Stacks, rows: Sql.Table, full: seq<Object>)
    requires Represents(st, rows)
    requires forall v :: v in full ==> Sql.InTable(rows, v)
    requires forall i, j :: 0 <= i < j < |full| ==>
                              full[i] != full[j] && (Less(full[i].key, full[j].key) || (full[i].key == full[j].key && full[i].vseq >= full[j].vseq))
    ensures RowsInOrder(full)
  {
    forall i, j | 0 <= i < j < |full|
      ensures RowBefore(full[i], full[j])
    {
      var a, b := full[i], full[j];
      assert a in full && b in full;
      assert Holds(st, a) && Holds(st, b);
      if a.key == b.key {
        var versions := st[a.key];
        var p :| 0 <= p < |versions| && versions[p] == a;
        var q :| 0 <= q < |versions| && versions[q] == b;
        assert p != q;
      }
    }
  }

  /** The version query, too, has exactly one possible answer. */
  lemma ListVersionsAgrees(st: Stacks, rows: Sql.Table, prefix: Str, km: string, vm: string, limit: int, out: seq<Object>)
    requires Represents(st, rows)
    ensures Sql.ListsVersions(rows, prefix, km, vm, limit, out) <==> out == ListVersions(st, prefix, km, vm, limit)
  {
    var all := VersionListing(st, prefix, km, vm);
    VersionListingContents(st, prefix, km, vm);
    forall v
      ensures v in all <==> Sql.InTable(rows, v) && InRange(prefix, UpperBound(prefix), v.key) && Sql.AfterMarker(rows, km, vm, v)
    {
      SelectVersionsAgrees(st, rows, prefix, km, vm, v);
    }
    forall i, j | 0 <= i < j < |all|
      ensures all[i] != all[j]
    {
      RowBeforeAsymmetric(all[i], all[j]);
    }
    assert Sql.SelectsVersions(rows, prefix, UpperBound(prefix), km, vm, all);
    forall full | Sql.SelectsVersions(rows, prefix, UpperBound(prefix), km, vm, full)
      ensures full == all
    {
      VersionsInOrder(st, rows, full);
      RowsUnique(full, all);
    }
  }

  /**
   * A limit of zero is where the two forms part: SQL returns nothing, the in-memory loop everything.
   * They agree there exactly when there is nothing to list.
   */
  lemma ZeroLimitDiffers(st: Stacks, rows: Sql.Table, prefix: Str, km: string, vm: string, out: seq<Object>)
    requires Represents(st, rows) && Sql.ListsVersions(rows, prefix, km, vm, 0, out)
    ensures out == Mem.ListAllVersions(st, prefix, km, vm, 0) <==> VersionListing(st, prefix, km, vm) == []
  {
    ListVersionsAgrees(st, rows, prefix, km, vm, 0, out);
  }

  // ---------------------------------------------------------------------------------------------
  // Runs
  // ---------------------------------------------------------------------------------------------

  datatype Op =
    | PutObject(o: Object, cond: PutCondition)
    | DeleteVersion(key: string, id: string)
    | DeleteObject(key: string)
    | RestoreBucket(objects: seq<Object>, bucket: string)
    | GetObject(key: string)
    | GetObjectVersion(key: string, id: string)
    | ListKeys(prefix: Str, after: string, limit: int)
    | ListRows(prefix: Str, keyMarker: string, versionMarker: string, limit: int)

  datatype Answer = Done | PreconditionFailed | DuplicateRow | One(found: Option<Object>) | Many(objects: seq<Object>)

  ghost function MemStep(st: Stacks, op: Op): (Stacks, Answer) {
    match op
    case PutObject(o, cond) => if Admits(cond, VersionsOf(st, o.key)) then (Mem.Put(st, o), Done) else (st, PreconditionFailed)
    case DeleteVersion(key, id) => (Mem.DeleteVersion(st, key, id), One(Find(VersionsOf(st, key), id)))
    case DeleteObject(key) => (Mem.DeleteObject(st, key), Done)
    case RestoreBucket(objects, bucket) => (Mem.Restore(objects, bucket), Done)
    case GetObject(key) => (st, One(if VersionsOf(st, key) != [] then Some(st[key][0]) else None))
    case GetObjectVersion(key, id) => (st, One(Find(VersionsOf(st, key), id)))
    case ListKeys(prefix, after, limit) => (st, Many(ListObjects(st, prefix, after, limit)))
    case ListRows(prefix, km, vm, limit) => (st, Many(Mem.ListAllVersions(st, prefix, km, vm, limit)))
  }

  /** A step the SQL store may take, given what its queries may return. */
  ghost predicate SqlStep(rows: Sql.Table, op: Op, rows': Sql.Table, ans: Answer) {
    match op
    case PutObject(o, cond) =>
      exists latest :: Sql.IsLatestRow(rows, o.key, latest) &&
                       if Sql.CondOk(cond, latest) then rows' == Sql.Put(rows, o) && ans == Done
                       else rows' == rows && ans == PreconditionFailed
    case DeleteVersion(key, id) =>
      rows' == Sql.DeleteVersion(rows, key, id) && ans == One(if (key, id) in rows then Some(rows[(key, id)]) else None)
    case DeleteObject(key) => rows' == Sql.DeleteObject(rows, key) && ans == Done
    case RestoreBucket(objects, bucket) =>
      if Sql.Restore(objects, bucket).None? then rows' == rows && ans == DuplicateRow
      else rows' == Sql.Restore(objects, bucket).value && ans == Done
    case GetObject(key) => rows' == rows && ans.One? && Sql.IsLatestRow(rows, key, ans.found)
    case GetObjectVersion(key, id) => rows' == rows && ans == One(if (key, id) in rows then Some(rows[(key, id)]) else None)
    case ListKeys(prefix, after, limit) => rows' == rows && ans.Many? && Sql.ListsObjects(rows, prefix, after, limit, ans.objects)
    case ListRows(prefix, km, vm, limit) => rows' == rows && ans.Many? && Sql.ListsVersions(rows, prefix, km, vm, limit, ans.objects)
  }

  /** What the gateway guarantees of the operations it issues. */
  ghost predicate Proper(st: Stacks, op: Op) {
    match op
    case PutObject(o, cond) =>
      o.key != "" && IsBytes(o.key) && o.versionId != ""
      && (Admits(cond, VersionsOf(st, o.key)) ==> Exceeds(VersionsOf(st, o.key), o))
    case RestoreBucket(objects, _) => Mem.Restorable(objects)
    case ListRows(_, _, _, limit) => limit != 0
    case _ => true
  }

  lemma StepRefines(st: Stacks, rows: Sql.Table, op: Op, rows': Sql.Table, ans: Answer)
    requires Represents(st, rows) && Proper(st, op) && SqlStep(rows, op, rows', ans)
    ensures ans == MemStep(st, op).1
    ensures Represents(MemStep(st, op).0, rows')
  {
    match op
    case PutObject(o, cond) => PutStepRefines(st, rows, o, cond, rows', ans);
    case DeleteVersion(key, id) => GetVersionAgrees(st, rows, key, id); DeleteVersionRefines(st, rows, key, id);
    case DeleteObject(key) => DeleteObjectRefines(st, rows, key);
    case RestoreBucket(objects, bucket) => RestoreRefines(objects, bucket);
    case GetObject(key) => GetObjectAgrees(st, rows, key, ans.found);
    case GetObjectVersion(key, id) => GetVersionAgrees(st, rows, key, id);
    case ListKeys(prefix, after, limit) => ListObjectsAgrees(st, rows, prefix, after, limit, ans.objects);
    case ListRows(prefix, km, vm, limit) => ListVersionsAgrees(st, rows, prefix, km, vm, limit, ans.objects);
  }

  lemma PutStepRefines(st: Stacks, rows: Sql.Table, o: Object, cond: PutCondition, rows': Sql.Table, ans: Answer)
    requires Represents(st, rows) && Proper(st, PutObject(o, cond)) && SqlStep(rows, PutObject(o, cond), rows', ans)
    ensures ans == MemStep(st, PutObject(o, cond)).1
    ensures Represents(MemStep(st, PutObject(o, cond)).0, rows')
  {
    var latest :| Sql.IsLatestRow(rows, o.key, latest) &&
                  if Sql.CondOk(cond, latest) then rows' == Sql.Put(rows, o) && ans == Done
                  else rows' == rows && ans == PreconditionFailed;
    GetObjectAgrees(st, rows, o.key, latest);
    assert Sql.CondOk(cond, latest) <==> Admits(cond, VersionsOf(st, o.key));
    if Admits(cond, VersionsOf(st, o.key)) {
      PutRefines(st, rows, o);
    }
  }

  /** A run of the SQL store from `rows`, with the answers it gave. */
  ghost predicate SqlRun(rows: Sql.Table, ops: seq<Op>, answers: seq<Answer>)
    decreases |ops|
  {
    |ops| == |answers| &&
    (ops != [] ==> exists rows' :: SqlStep(rows, ops[0], rows', answers[0]) && SqlRun(rows', ops[1..], answers[1..]))
  }

  ghost function MemRun(st: Stacks, ops: seq<Op>): seq<Answer>
    decreases |ops|
  {
    if ops == [] then [] else [MemStep(st, ops[0]).1] + MemRun(MemStep(st, ops[0]).0, ops[1..])
  }

  ghost predicate ProperRun(st: Stacks, ops: seq<Op>)
    decreases |ops|
  {
    ops != [] ==> Proper(st, ops[0]) && ProperRun(MemStep(st, ops[0]).0, ops[1..])
  }

  /** Over every run, the SQL store answers exactly as the in-memory store does. */
  lemma {:induction false} RunRefines(st: Stacks, rows: Sql.Table, ops: seq<Op>, answers: seq<Answer>)
    requires Represents(st, rows) && ProperRun(st, ops) && SqlRun(rows, ops, answers)
    ensures answers == MemRun(st, ops)
    decreases |ops|
  {
    if ops != [] {
      var rows' :| SqlStep(rows, ops[0], rows', answers[0]) && SqlRun(rows', ops[1..], answers[1..]);
      StepRefines(st, rows, ops[0], rows', answers[0]);
      RunRefines(MemStep(st, ops[0]).0, rows', ops[1..], answers[1..]);
      assert answers == [answers[0]] + answers[1..];
    }
  }

  /** From empty stores the run needs no premise on the starting state. */
  lemma FreshStoresAgree(ops: seq<Op>, answers: seq<Answer>)
    requires ProperRun(map[], ops) && SqlRun(map[], ops, answers)
    ensures answers == MemRun(map[], ops)
  {
    RunRefines(map[], map[], ops, answers);
  }
}
