/**
 * Conditional writes on the flagged-row table when stamps are out of order. A write may leave two
 * rows of its key flagged; the next conditional write checks whichever of them the row query
 * returns. Stated for every table, however many flags it already carries.
 */
module SqlConditions {
  import opened Objects
  import opened Wrappers
  import opened SqlTable

  /** Some answer of the flagged-row query admits the condition. */
  ghost predicate MayAdmit(rows: Table, key: string, cond: PutCondition) {
    exists latest :: IsLatestRow(rows, key, latest) && CondOk(cond, latest)
  }

  /** Every answer of the flagged-row query admits it. */
  ghost predicate MustAdmit(rows: Table, key: string, cond: PutCondition) {
    forall latest :: IsLatestRow(rows, key, latest) ==> CondOk(cond, latest)
  }

  /** The row carries the greatest stamp of its key. */
  predicate Newest(rows: Table, v: Object) {
    InTable(rows, v) && HasMaxVSeq(rows, (v.key, v.versionId))
  }

  /** The table between the INSERT and the last UPDATE of a write. */
  function Inserted(rows: Table, o: Object): Table {
    Demote(rows, o.key)[(o.key, StoredId(o.versionId)) := Row(o)]
  }

  /** Only the inserted row of the key carries the flag there. */
  lemma OneFlagInserted(rows: Table, o: Object, rk: (string, string))
    requires Keyed(rows) && rk in Inserted(rows, o)
    ensures Inserted(rows, o)[rk].key == rk.0 && Inserted(rows, o)[rk].versionId == rk.1
    ensures rk.0 == o.key ==> (Inserted(rows, o)[rk].isLatest <==> rk.1 == StoredId(o.versionId))
  {
  }

  /** The last UPDATE changes flags only. */
  lemma PromoteKeepsStamps(mid: Table, key: string, rk: (string, string))
    requires rk in mid
    ensures rk in Promote(mid, key) && Promote(mid, key)[rk] == mid[rk].(isLatest := Promote(mid, key)[rk].isLatest)
    ensures HasMaxVSeq(Promote(mid, key), rk) <==> HasMaxVSeq(mid, rk)
    ensures Promote(mid, key)[rk].isLatest <==> mid[rk].isLatest || (rk.0 == key && HasMaxVSeq(mid, rk))
  {
    var new_ := Promote(mid, key);
    assert new_.Keys == mid.Keys && forall other :: other in mid ==> new_[other].vseq == mid[other].vseq;
  }

  /** After a write, the flagged rows of its key are the written one and those with the greatest stamp. */
  lemma FlagsAfterPut(rows: Table, o: Object, v: Object)
    requires Keyed(rows)
    ensures InTable(Put(rows, o), Row(o))
    ensures InTable(Put(rows, o), v) && v.key == o.key ==> (v.isLatest <==> v == Row(o) || Newest(Put(rows, o), v))
  {
    hide Demote, Promote, HasMaxVSeq;
    var mid := Inserted(rows, o);
    assert Put(rows, o) == Promote(mid, o.key);
    var own := (o.key, StoredId(o.versionId));
    PromoteKeepsStamps(mid, o.key, own);
    if InTable(Put(rows, o), v) && v.key == o.key {
      var rk := (v.key, v.versionId);
      assert rk in mid by {
        SameKeys(mid, o.key, rk);
      }
      OneFlagInserted(rows, o, rk);
      PromoteKeepsStamps(mid, o.key, rk);
    }
  }

  lemma SameKeys(mid: Table, key: string, rk: (string, string))
    ensures rk in Promote(mid, key) <==> rk in mid
  {
  }

  /** So a condition may be admitted next exactly when the written row or a newest row of the key meets it. */
  lemma MayAdmitIff(rows: Table, o: Object, cond: PutCondition)
    requires Keyed(rows)
    ensures MayAdmit(Put(rows, o), o.key, cond) <==>
            CondOk(cond, Some(Row(o))) || exists v :: Newest(Put(rows, o), v) && v.key == o.key && CondOk(cond, Some(v))
  {
    var new_ := Put(rows, o);
    FlagsAfterPut(rows, o, Row(o));
    assert IsLatestRow(new_, o.key, Some(Row(o)));
    if latest :| IsLatestRow(new_, o.key, latest) && CondOk(cond, latest) {
      assert latest.Some? by {
        if latest == None {
          assert (o.key, Row(o).versionId) in new_;
        }
      }
      FlagsAfterPut(rows, o, latest.value);
    }
    if v :| Newest(new_, v) && v.key == o.key && CondOk(cond, Some(v)) {
      FlagsAfterPut(rows, o, v);
      assert IsLatestRow(new_, o.key, Some(v));
    }
  }

  const CreateOnly := PutCondition("", "*")

  /**
   * After a write of a real object a create-only write may be admitted next exactly when a delete
   * marker carries the key's greatest stamp, and it may always be refused.
   */
  lemma CreateMayFollowIff(rows: Table, o: Object)
    requires Keyed(rows) && !o.deleteMarker
    ensures MayAdmit(Put(rows, o), o.key, CreateOnly) <==>
            exists v :: Newest(Put(rows, o), v) && v.key == o.key && v.deleteMarker
    ensures !MustAdmit(Put(rows, o), o.key, CreateOnly)
  {
    MayAdmitIff(rows, o, CreateOnly);
    FlagsAfterPut(rows, o, Row(o));
    assert IsLatestRow(Put(rows, o), o.key, Some(Row(o)));
  }

  /**
   * After a write that changes the tag, a write against the old tag may be admitted next exactly
   * when a live version with that tag carries the key's greatest stamp. A write against the new tag
   * may always be admitted, and must be exactly when every newest version carries the new tag too.
   */
  lemma UpdateMayFollowIff(rows: Table, o: Object, tag: string)
    requires Keyed(rows) && !o.deleteMarker && tag != "" && tag != "*" && o.etag != tag && o.etag != "" && o.etag != "*"
    ensures MayAdmit(Put(rows, o), o.key, PutCondition(tag, "")) <==>
            exists v :: Newest(Put(rows, o), v) && v.key == o.key && !v.deleteMarker && v.etag == tag
    ensures MayAdmit(Put(rows, o), o.key, PutCondition(o.etag, ""))
    ensures MustAdmit(Put(rows, o), o.key, PutCondition(o.etag, "")) <==>
            forall v :: Newest(Put(rows, o), v) && v.key == o.key ==> !v.deleteMarker && v.etag == o.etag
  {
    MayAdmitIff(rows, o, PutCondition(tag, ""));
    MayAdmitIff(rows, o, PutCondition(o.etag, ""));
    MustAdmitNewTag(rows, o);
  }

  lemma MustAdmitNewTag(rows: Table, o: Object)
    requires Keyed(rows) && !o.deleteMarker && o.etag != "" && o.etag != "*"
    ensures MustAdmit(Put(rows, o), o.key, PutCondition(o.etag, "")) <==>
            forall v :: Newest(Put(rows, o), v) && v.key == o.key ==> !v.deleteMarker && v.etag == o.etag
  {
    var new_ := Put(rows, o);
    FlagsAfterPut(rows, o, Row(o));
    forall v | Newest(new_, v) && v.key == o.key
      ensures IsLatestRow(new_, o.key, Some(v))
    {
      FlagsAfterPut(rows, o, v);
    }
    forall latest | IsLatestRow(new_, o.key, latest)
      ensures latest.Some? && (latest.value == Row(o) || Newest(new_, latest.value))
    {
      assert latest == None ==> (o.key, Row(o).versionId) in new_;
      if latest.Some? {
        FlagsAfterPut(rows, o, latest.value);
      }
    }
  }
}
