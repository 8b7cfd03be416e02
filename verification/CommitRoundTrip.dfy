/**
 * What a build publishes, when it refuses, and that a committed bucket can be restored exactly.
 */
module CommitRoundTrip {
  import opened ByteStrings
  import opened Objects
  import opened Wrappers
  import opened Manifest
  import Hex
  import Mem = MemoryStore

  // ---------------------------------------------------------------------------------------------
  // Nothing key-bearing is published in the clear
  // ---------------------------------------------------------------------------------------------

  predicate ClearRef(w: WireRef) {
    !KeyBearing(w.clear)
  }

  ghost predicate SafeRow(w: WireObject) {
    && w.fields.body.ref == "" && w.fields.body.parts == [] && ClearRef(w.ref)
    && forall i :: 0 <= i < |w.parts| ==> w.parts[i].part.ref == "" && ClearRef(w.parts[i].ref)
  }

  /** A published document or manifest holds no key-bearing reference, as text or as 64 raw bytes. */
  ghost predicate Safe(b: Blob) {
    match b
    case CommitDoc(_, _, _, _, _, rows) => forall i :: 0 <= i < |rows| ==> SafeRow(rows[i])
    case SseDescriptor(_, parts) => forall i :: 0 <= i < |parts| ==> ClearRef(parts[i].ref)
    case CompositeDescriptor(parts) => forall i :: 0 <= i < |parts| ==> !KeyBearing(parts[i].ref)
    case Manifest(forks) => forall p :: p in forks ==> |forks[p]| != 64
  }

  /** Every blob on the node was there before or is safe. */
  ghost predicate OnlySafeAdded(before: Node, after: Node) {
    forall a :: a in after ==> (a in before && before[a] == after[a]) || Safe(after[a])
  }

  ghost predicate NarrowForks(t: Trie) {
    forall p :: p in t.forks ==> |t.forks[p]| != 64
  }

  lemma SealedRowIsSafe(c: Crypto, rec: Option<string>, o: Object, salt: nat)
    requires HasKeyBearing(o) ==> rec.Some?
    ensures SafeRow(Seal(c, rec, o, salt))
  {
    var w := Seal(c, rec, o, salt);
    assert !KeyBearing("");
    forall i | 0 <= i < |w.parts|
      ensures w.parts[i].part.ref == "" && ClearRef(w.parts[i].ref)
    {
      assert KeyBearing(o.body.parts[i].ref) ==> AnyPartKeyBearing(o.body.parts);
    }
  }

  lemma DescriptorIsSafe(c: Crypto, rec: string, o: Object, salt: nat)
    ensures Safe(SealDescriptor(c, rec, o, salt))
  {
    assert !KeyBearing("");
  }

  lemma AddForkKeeps(w: Work, path: string, entry: string)
    requires NarrowForks(w.trie) && |entry| != 64
    ensures NarrowForks(AddFork(w, path, entry).trie) && AddFork(w, path, entry).node == w.node
  {
  }

  lemma AddObjectIsSafe(env: Env, rec: Option<string>, w: Work, o: Object, salt: nat)
    requires ValidEnv(env) && NarrowForks(w.trie)
    ensures NarrowForks(AddObject(env, rec, w, o, salt).trie)
    ensures OnlySafeAdded(w.node, AddObject(env, rec, w, o, salt).node)
  {
    if HasKeyBearing(o) && rec.None? {
    } else if HasKeyBearing(o) {
      var d := SealDescriptor(env.crypto, rec.value, o, salt);
      DescriptorIsSafe(env.crypto, rec.value, o, salt);
      assert |env.hash(d)| == 32;
      AddForkKeeps(w.(node := Save(env, w.node, d)), o.key, env.hash(d));
    } else if o.body.parts != [] {
      var d := CompositeDescriptor(o.body.parts);
      assert |env.hash(d)| == 32;
      assert Safe(d);
      AddForkKeeps(w.(node := Save(env, w.node, d)), o.key, env.hash(d));
    } else if o.body.ref != "" {
      Hex.DecodeMeaning(o.body.ref);
    }
  }

  lemma {:induction false} AddAllIsSafe(env: Env, rec: Option<string>, node: Node, objects: seq<Object>)
    requires ValidEnv(env)
    ensures NarrowForks(AddAll(env, rec, node, objects).trie)
    ensures OnlySafeAdded(node, AddAll(env, rec, node, objects).node)
  {
    if objects != [] {
      var n := |objects| - 1;
      AddAllIsSafe(env, rec, node, objects[..n]);
      AddObjectIsSafe(env, rec, AddAll(env, rec, node, objects[..n]), objects[n], n);
    }
  }

  lemma DocIsSafe(env: Env, rec: Option<string>, c: Commit)
    requires forall i :: 0 <= i < |c.objects| && HasKeyBearing(c.objects[i]) ==> rec.Some?
    ensures Safe(DocOf(env, rec, c))
  {
    var rows := SealAll(env.crypto, rec, c.objects);
    forall i | 0 <= i < |rows|
      ensures SafeRow(rows[i])
    {
      SealedRowIsSafe(env.crypto, rec, c.objects[i], i);
    }
  }

  /** For every object list, and even when the build fails half way, only safe blobs are added. */
  lemma NothingLeaks(env: Env, rec: Option<string>, node: Node, c: Commit)
    requires ValidEnv(env)
    ensures OnlySafeAdded(node, BuildWork(env, rec, node, c).node)
  {
    var w := AddAll(env, rec, node, c.objects);
    AddAllIsSafe(env, rec, node, c.objects);
    if w.error.None? {
      SealableWhenAdded(env, rec, node, c.objects);
      var doc := DocOf(env, rec, c);
      DocIsSafe(env, rec, c);
      assert |env.hash(doc)| == 32;
      AddForkKeeps(w.(node := Save(env, w.node, doc)), CommitPath, env.hash(doc));
    }
  }

  // ---------------------------------------------------------------------------------------------
  // When a build succeeds, and when it refuses
  // ---------------------------------------------------------------------------------------------

  /** A reference as the node issues them: none, 64 or 128 hex digits. */
  predicate NodeRef(ref: string) {
    ref == "" || ((|ref| == 64 || |ref| == 128) && Hex.AllHex(ref))
  }

  ghost predicate NodeRefs(objects: seq<Object>) {
    forall i :: 0 <= i < |objects| ==> NodeRef(objects[i].body.ref)
  }

  predicate SomeKeyBearing(objects: seq<Object>) {
    exists i :: 0 <= i < |objects| && HasKeyBearing(objects[i])
  }

  ghost predicate Width32(t: Trie) {
    ((t.width == 0 && t.forks == map[]) || t.width == 32) && forall p :: p in t.forks ==> |t.forks[p]| == 32
  }

  lemma AddObjectWidth(env: Env, rec: Option<string>, w: Work, o: Object, salt: nat)
    requires ValidEnv(env) && Width32(w.trie) && w.error.None? && NodeRef(o.body.ref)
    ensures var w' := AddObject(env, rec, w, o, salt);
            Width32(w'.trie) && w'.error == if HasKeyBearing(o) && rec.None? then Some(NoRecoveryRecipient) else None
  {
    if HasKeyBearing(o) && rec.Some? {
      assert |env.hash(SealDescriptor(env.crypto, rec.value, o, salt))| == 32;
    } else if o.body.parts != [] {
      assert |env.hash(CompositeDescriptor(o.body.parts))| == 32;
    } else {
      Hex.DecodeMeaning(o.body.ref);
    }
  }

  lemma {:induction false} AddAllWidth(env: Env, rec: Option<string>, node: Node, objects: seq<Object>)
    requires ValidEnv(env) && NodeRefs(objects)
    ensures Width32(AddAll(env, rec, node, objects).trie)
    ensures AddAll(env, rec, node, objects).error ==
            if rec.None? && SomeKeyBearing(objects) then Some(NoRecoveryRecipient) else None
  {
    if objects != [] {
      var n := |objects| - 1;
      AddAllWidth(env, rec, node, objects[..n]);
      var w := AddAll(env, rec, node, objects[..n]);
      if w.error.None? {
        AddObjectWidth(env, rec, w, objects[n], n);
      }
      if SomeKeyBearing(objects) && !HasKeyBearing(objects[n]) {
        var i :| 0 <= i < |objects| && HasKeyBearing(objects[i]);
        assert HasKeyBearing(objects[..n][i]);
      }
      if SomeKeyBearing(objects[..n]) {
        var i :| 0 <= i < n && HasKeyBearing(objects[..n][i]);
        assert HasKeyBearing(objects[i]);
      }
    }
  }

  /**
   * With references as the node issues them, a build refuses for want of a recipient exactly when
   * there is none and something needs sealing, and otherwise succeeds; every fork entry is 32 bytes.
   */
  lemma BuildSucceedsIff(env: Env, rec: Option<string>, node: Node, c: Commit)
    requires ValidEnv(env) && NodeRefs(c.objects)
    ensures Width32(BuildWork(env, rec, node, c).trie)
    ensures BuildWork(env, rec, node, c).error ==
            if rec.None? && SomeKeyBearing(c.objects) then Some(NoRecoveryRecipient) else None
  {
    AddAllWidth(env, rec, node, c.objects);
    if AddAll(env, rec, node, c.objects).error.None? {
      SealableWhenAdded(env, rec, node, c.objects);
      assert |env.hash(DocOf(env, rec, c))| == 32;
    }
  }

  /** Whatever the references, the refusal is never given without cause. */
  lemma {:induction false} RefusalHasCause(env: Env, rec: Option<string>, node: Node, objects: seq<Object>)
    requires AddAll(env, rec, node, objects).error == Some(NoRecoveryRecipient)
    ensures rec.None? && SomeKeyBearing(objects)
  {
    var n := |objects| - 1;
    if AddAll(env, rec, node, objects[..n]).error.Some? {
      RefusalHasCause(env, rec, node, objects[..n]);
      var i :| 0 <= i < n && HasKeyBearing(objects[..n][i]);
      assert HasKeyBearing(objects[i]);
    } else {
      assert HasKeyBearing(objects[n]);
    }
  }

  // ---------------------------------------------------------------------------------------------
  // Loading what was built
  // ---------------------------------------------------------------------------------------------

  function CountKeyBearing(objects: seq<Object>): nat {
    if objects == [] then 0
    else CountKeyBearing(objects[..|objects| - 1]) + (if HasKeyBearing(objects[|objects| - 1]) then 1 else 0)
  }

  lemma {:induction false} CountMeaning(objects: seq<Object>)
    ensures CountKeyBearing(objects) > 0 <==> SomeKeyBearing(objects)
  {
    if objects != [] {
      var n := |objects| - 1;
      CountMeaning(objects[..n]);
      if SomeKeyBearing(objects) {
        var i :| 0 <= i < |objects| && HasKeyBearing(objects[i]);
        assert i < n ==> HasKeyBearing(objects[..n][i]);
      }
      if SomeKeyBearing(objects[..n]) {
        var i :| 0 <= i < n && HasKeyBearing(objects[..n][i]);
        assert HasKeyBearing(objects[i]);
      }
    }
  }

  function VisibleAll(id: Option<string>, objects: seq<Object>): (r: seq<Object>)
    ensures |r| == |objects|
  {
    seq(|objects|, i requires 0 <= i < |objects| => VisibleObject(id, objects[i]))
  }

  lemma OpenOneMore(c: Crypto, rec: Option<string>, id: Option<string>, objects: seq<Object>, n: nat)
    requires NonEmptyText(c) && n == |objects| - 1
    requires forall i :: 0 <= i < |objects| && HasKeyBearing(objects[i]) ==> rec.Some? && (id.Some? ==> Matches(c, id.value, rec.value))
    requires OpenAll(c, id, SealAll(c, rec, objects[..n])) ==
             Rows(VisibleAll(id, objects[..n]), if id.None? then CountKeyBearing(objects[..n]) else 0)
    ensures OpenAll(c, id, SealAll(c, rec, objects)) ==
            Rows(VisibleAll(id, objects), if id.None? then CountKeyBearing(objects) else 0)
  {
    OpenSealed(c, rec, id, objects[n], n);
    SealAllInit(c, rec, objects);
    VisibleInit(id, objects);
    OpenLast(c, id, SealAll(c, rec, objects));
    hide Seal, Open, VisibleObject, HasKeyBearing, SealAll, VisibleAll, OpenAll;
  }

  lemma {:induction false} OpenAllSealed(c: Crypto, rec: Option<string>, id: Option<string>, objects: seq<Object>)
    requires NonEmptyText(c)
    requires forall i :: 0 <= i < |objects| && HasKeyBearing(objects[i]) ==> rec.Some? && (id.Some? ==> Matches(c, id.value, rec.value))
    ensures OpenAll(c, id, SealAll(c, rec, objects)) ==
            Rows(VisibleAll(id, objects), if id.None? then CountKeyBearing(objects) else 0)
  {
    if objects != [] {
      hide HasKeyBearing, SealAll, VisibleAll, OpenAll, CountKeyBearing, Matches, NonEmptyText;
      OpenAllSealed(c, rec, id, objects[..|objects| - 1]);
      OpenOneMore(c, rec, id, objects, |objects| - 1);
    }
  }

  lemma OpenLast(c: Crypto, id: Option<string>, rows: seq<WireObject>)
    requires rows != [] && OpenAll(c, id, rows[..|rows| - 1]).Rows? && Open(c, id, rows[|rows| - 1]).Row?
    ensures var before, row := OpenAll(c, id, rows[..|rows| - 1]), Open(c, id, rows[|rows| - 1]);
            OpenAll(c, id, rows) == Rows(before.objects + [row.o], if row.stillSealed then before.sealed + 1 else before.sealed)
  {
  }

  lemma SealAllInit(c: Crypto, rec: Option<string>, objects: seq<Object>)
    requires objects != []
    requires forall i :: 0 <= i < |objects| && HasKeyBearing(objects[i]) ==> rec.Some?
    ensures SealAll(c, rec, objects)[..|objects| - 1] == SealAll(c, rec, objects[..|objects| - 1])
    ensures SealAll(c, rec, objects)[|objects| - 1] == Seal(c, rec, objects[|objects| - 1], |objects| - 1)
  {
  }

  lemma VisibleInit(id: Option<string>, objects: seq<Object>)
    requires objects != []
    ensures VisibleAll(id, objects) == VisibleAll(id, objects[..|objects| - 1]) + [VisibleObject(id, objects[|objects| - 1])]
  {
  }

  /** Later saves only add to a content-addressed node. */
  ghost predicate Extends(before: Node, after: Node) {
    forall a :: a in before ==> a in after && after[a] == before[a]
  }

  /** The document a successful build stored is the one its root leads to, whatever the object keys. */
  lemma RootLeadsToDoc(env: Env, rec: Option<string>, node: Node, c: Commit, later: Node)
    requires ValidEnv(env)
    requires var w := BuildWork(env, rec, node, c); w.error.None? && Extends(w.node, later)
    requires forall i :: 0 <= i < |c.objects| && HasKeyBearing(c.objects[i]) ==> rec.Some?
    requires env.hash(DocOf(env, rec, c)) != env.hash(Manifest(BuildWork(env, rec, node, c).trie.forks))
    ensures FindDoc(later, Hex.Encode(env.hash(Manifest(BuildWork(env, rec, node, c).trie.forks)))).1 == Some(DocOf(env, rec, c))
  {
    var w := BuildWork(env, rec, node, c);
    var doc, m := DocOf(env, rec, c), Manifest(w.trie.forks);
    Hex.DecodeEncode(env.hash(m));
    assert m.forks[CommitPath] == env.hash(doc);
    assert w.node[env.hash(m)] == m && w.node[env.hash(doc)] == doc;
  }

  /** What loading a built root yields, with the matching identity or with none. */
  lemma LoadBuilt(env: Env, rec: Option<string>, id: Option<string>, node: Node, c: Commit, later: Node)
    requires ValidEnv(env) && c.version == CommitVersion
    requires var w := BuildWork(env, rec, node, c); w.error.None? && Extends(w.node, later)
    requires forall i :: 0 <= i < |c.objects| && HasKeyBearing(c.objects[i]) ==>
                           rec.Some? && (id.Some? ==> Matches(env.crypto, id.value, rec.value))
    requires env.hash(DocOf(env, rec, c)) != env.hash(Manifest(BuildWork(env, rec, node, c).trie.forks))
    ensures Load(env.crypto, later, Hex.Encode(env.hash(Manifest(BuildWork(env, rec, node, c).trie.forks))), id) ==
            Loaded(c.(objects := VisibleAll(id, c.objects)), if id.None? then CountKeyBearing(c.objects) else 0)
  {
    RootLeadsToDoc(env, rec, node, c, later);
    OpenAllSealed(env.crypto, rec, id, c.objects);
  }

  lemma AllVisible(id: Option<string>, objects: seq<Object>)
    requires id.Some? || !SomeKeyBearing(objects)
    ensures VisibleAll(id, objects) == objects
  {
    forall i | 0 <= i < |objects|
      ensures VisibleObject(id, objects[i]) == objects[i]
    {
      var o := objects[i];
      assert id.Some? || !HasKeyBearing(o);
      assert VisibleParts(id, o.body.parts) == o.body.parts;
    }
  }

  // ---------------------------------------------------------------------------------------------
  // Restoring a bucket from a root
  // ---------------------------------------------------------------------------------------------

  datatype RestoreError = LoadFailed(why: LoadError) | OtherBucket | StillSealed(n: nat)

  datatype RestorePlan = Swap(objects: seq<Object>, seq_: int) | Refuse(why: RestoreError)

  function Plan(c: Crypto, node: Node, bucket: string, rootHex: string, id: Option<string>): RestorePlan {
    match Load(c, node, rootHex, id)
    case NotLoaded(e) => Refuse(LoadFailed(e))
    case Loaded(commit, sealed) =>
      if commit.bucket != bucket then Refuse(OtherBucket)
      else if sealed > 0 then Refuse(StillSealed(sealed))
      else Swap(commit.objects, commit.seq_)
  }

  /** The restore handler: the index swap happens only when the plan allows it. */
  method HandleRestore(store: Mem.Memory, c: Crypto, node: Node, rootHex: string, id: Option<string>) returns (plan: RestorePlan)
    modifies store
    ensures plan.Swap? && Mem.Restorable(plan.objects) ==> store.Valid()
    ensures plan == Plan(c, node, store.bucket, rootHex, id)
    ensures plan.Refuse? ==> store.objects == old(store.objects) && store.headRoot == old(store.headRoot) && store.commitSeq == old(store.commitSeq)
    ensures plan.Swap? ==> store.objects == Mem.Restore(plan.objects, store.bucket) && store.headRoot == rootHex && store.commitSeq == plan.seq_
  {
    var loaded := GetCommit(c, node, rootHex, id);
    match loaded {
      case NotLoaded(e) => return Refuse(LoadFailed(e));
      case Loaded(commit, sealed) =>
        if commit.bucket != store.bucket {
          return Refuse(OtherBucket);
        }
        if sealed > 0 {
          return Refuse(StillSealed(sealed));
        }
        store.RestoreBucket(commit.objects, rootHex, commit.seq_);
        return Swap(commit.objects, commit.seq_);
    }
  }

  /** A bucket's rows as the gateway writes them: owned by the bucket, never with an empty id. */
  ghost predicate Owned(st: Stacks, bucket: string) {
    forall k, i :: k in st && 0 <= i < |st[k]| ==> st[k][i].body.bucket == bucket && st[k][i].versionId != ""
  }

  /** An object list as commits hold them: real, latest, owned objects in key order. */
  ghost predicate Canonical(objects: seq<Object>, bucket: string) {
    && (forall i, j :: 0 <= i < j < |objects| ==> Less(objects[i].key, objects[j].key))
    && forall i :: 0 <= i < |objects| ==> CanonicalRow(objects[i], bucket)
  }

  predicate CanonicalRow(o: Object, bucket: string) {
    o.key != "" && IsBytes(o.key) && !o.deleteMarker && o.isLatest && o.versionId != "" && o.body.bucket == bucket
  }

  lemma ListingCanonical(st: Stacks, bucket: string, after: string)
    requires ValidStacks(st) && Owned(st, bucket)
    ensures Canonical(LiveListing(st, "", after), bucket)
  {
    var live := LiveListing(st, "", after);
    LiveListingContents(st, "", after);
    forall i | 0 <= i < |live|
      ensures CanonicalRow(live[i], bucket)
    {
      assert live[i] in live;
      assert st[live[i].key][0] == live[i];
    }
    forall i, j | 0 <= i < j < |live|
      ensures Less(live[i].key, live[j].key)
    {
      assert live[i] in live && live[j] in live;
      RowBeforeAsymmetric(live[i], live[j]);
    }
  }

  lemma CanonicalRestorable(objects: seq<Object>, bucket: string)
    requires Canonical(objects, bucket)
    ensures Mem.Restorable(objects)
    ensures forall i :: 0 <= i < |objects| ==> Mem.Restored(objects[i], bucket) == objects[i]
  {
    forall i, j | 0 <= i < j < |objects|
      ensures objects[i].key != objects[j].key
    {
      LessIrreflexive(objects[i].key);
    }
    forall i | 0 <= i < |objects|
      ensures Mem.Restored(objects[i], bucket) == objects[i]
    {
      assert CanonicalRow(objects[i], bucket);
    }
  }

  /** The stacks a restore leaves: one flagged version per object, nothing else. */
  lemma RestoredStacks(objects: seq<Object>, bucket: string)
    requires Canonical(objects, bucket)
    ensures Mem.Restorable(objects) && ValidStacks(Mem.Restore(objects, bucket))
    ensures forall k :: k in Mem.Restore(objects, bucket) ==> exists i :: 0 <= i < |objects| && objects[i].key == k
    ensures forall i :: 0 <= i < |objects| ==>
                          objects[i].key in Mem.Restore(objects, bucket) && Mem.Restore(objects, bucket)[objects[i].key] == [objects[i]]
  {
    CanonicalRestorable(objects, bucket);
    Mem.RestoreOnePerKey(objects, bucket);
  }

  lemma RestoredOwned(objects: seq<Object>, bucket: string)
    requires Canonical(objects, bucket)
    ensures Owned(Mem.Restore(objects, bucket), bucket)
  {
    RestoredStacks(objects, bucket);
    var st: Stacks := Mem.Restore(objects, bucket);
    forall k: string, i: int | k in st && 0 <= i < |st[k]|
      ensures st[k][i].body.bucket == bucket && st[k][i].versionId != ""
    {
      var j :| 0 <= j < |objects| && objects[j].key == k;
      assert CanonicalRow(objects[j], bucket);
    }
  }

  lemma RestoredElements(objects: seq<Object>, bucket: string, v: Object)
    requires Canonical(objects, bucket)
    ensures ValidStacks(Mem.Restore(objects, bucket))
    ensures v in LiveListing(Mem.Restore(objects, bucket), "", "") <==> v in objects
  {
    RestoredStacks(objects, bucket);
    var st: Stacks := Mem.Restore(objects, bucket);
    LiveListingContents(st, "", "");
    if v in LiveListing(st, "", "") {
      var i :| 0 <= i < |objects| && objects[i].key == v.key;
    }
    if v in objects {
      var i :| 0 <= i < |objects| && objects[i] == v;
      assert CanonicalRow(v, bucket) && Less("", v.key);
      assert st[objects[i].key] == [v];
    }
  }

  /** Restoring such a list makes it the bucket's listing. */
  lemma RestoreListing(objects: seq<Object>, bucket: string)
    requires Canonical(objects, bucket)
    ensures Mem.Restorable(objects)
    ensures ValidStacks(Mem.Restore(objects, bucket)) && Owned(Mem.Restore(objects, bucket), bucket)
    ensures LiveListing(Mem.Restore(objects, bucket), "", "") == objects
  {
    CanonicalRestorable(objects, bucket);
    RestoredOwned(objects, bucket);
    var st: Stacks := Mem.Restore(objects, bucket);
    forall v
      ensures ValidStacks(st) && (v in LiveListing(st, "", "") <==> v in objects)
    {
      RestoredElements(objects, bucket, v);
    }
    Mem.RestoreOnePerKey(objects, bucket);
    LiveListingContents(st, "", "");
    RowsUnique(LiveListing(st, "", ""), objects);
  }

  /**
   * Commit, then anything at all on the node and in the index, then restore that root: with the
   * matching identity, or with none when nothing is sealed, the listing is exactly the committed
   * one. With no identity the restore is refused, naming the number of sealed objects, exactly when
   * that number is positive.
   */
  lemma RestoreCommitted(env: Env, rec: Option<string>, id: Option<string>, node: Node, st: Stacks, c: Commit, later: Node)
    requires ValidEnv(env) && ValidStacks(st) && Owned(st, c.bucket)
    requires c.version == CommitVersion && c.objects == LiveListing(st, "", "")
    requires var w := BuildWork(env, rec, node, c); w.error.None? && Extends(w.node, later)
    requires forall i :: 0 <= i < |c.objects| && HasKeyBearing(c.objects[i]) ==>
                           rec.Some? && (id.Some? ==> Matches(env.crypto, id.value, rec.value))
    requires env.hash(DocOf(env, rec, c)) != env.hash(Manifest(BuildWork(env, rec, node, c).trie.forks))
    ensures var root := Hex.Encode(env.hash(Manifest(BuildWork(env, rec, node, c).trie.forks)));
            Plan(env.crypto, later, c.bucket, root, id) ==
            if id.None? && CountKeyBearing(c.objects) > 0 then Refuse(StillSealed(CountKeyBearing(c.objects)))
            else Swap(c.objects, c.seq_)
    ensures Mem.Restorable(c.objects)
    ensures LiveListing(Mem.Restore(c.objects, c.bucket), "", "") == c.objects
  {
    LoadBuilt(env, rec, id, node, c, later);
    CountMeaning(c.objects);
    if id.Some? || CountKeyBearing(c.objects) == 0 {
      AllVisible(id, c.objects);
    }
    ListingCanonical(st, c.bucket, "");
    RestoreListing(c.objects, c.bucket);
  }
}
