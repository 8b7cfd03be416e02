/**
 * What a built manifest leads to: every object's fork is its reference or a descriptor of it, and
 * there is no fork but those and the commit document's.
 */
module ManifestForks {
  import opened Objects
  import opened Wrappers
  import opened Manifest
  import Hex

  /** What is under an address hashes to it. */
  ghost predicate ContentAddressed(env: Env, node: Node) {
    forall a :: a in node ==> env.hash(node[a]) == a
  }

  /** The node holds the blob under its address, unless another with the same hash stands there. */
  ghost predicate Stored(env: Env, node: Node, b: Blob) {
    env.hash(b) in node && env.hash(node[env.hash(b)]) == env.hash(b)
  }

  /** Without hash collisions what is stored is the blob itself. */
  lemma StoredIs(env: Env, node: Node, b: Blob)
    requires Stored(env, node, b)
    requires forall x, y :: env.hash(x) == env.hash(y) ==> x == y
    ensures env.hash(b) in node && node[env.hash(b)] == b
  {
  }

  /** A key-bearing reference is sealed, and opens for the recipient's identity; any other is in the clear. */
  ghost predicate Publishes(c: Crypto, rec: string, w: WireRef, ref: string) {
    if KeyBearing(ref) then w.clear == "" && forall id :: Matches(c, id, rec) ==> c.dec(id, w.sealed) == Some(ref)
    else w == WireRef(ref, "")
  }

  /** The descriptor names the object's own reference and, in order, the number, size and reference of its parts. */
  ghost predicate Describes(c: Crypto, rec: string, d: Blob, o: Object) {
    && d.SseDescriptor?
    && (if KeyBearing(o.body.ref) then forall id :: Matches(c, id, rec) ==> c.dec(id, d.sealedRef) == Some(o.body.ref)
        else d.sealedRef == "")
    && |d.sealedParts| == |o.body.parts|
    && forall i :: 0 <= i < |o.body.parts| ==>
                     && d.sealedParts[i].number == o.body.parts[i].number && d.sealedParts[i].size == o.body.parts[i].size
                     && Publishes(c, rec, d.sealedParts[i].ref, o.body.parts[i].ref)
  }

  ghost predicate LeadsToDescriptor(env: Env, rec: string, node: Node, o: Object, entry: string) {
    exists d :: Describes(env.crypto, rec, d, o) && entry == env.hash(d) && Stored(env, node, d)
  }

  /** How an object shows in a manifest: by a descriptor, by its own reference, or, without bytes, not at all. */
  ghost predicate Shows(env: Env, rec: Option<string>, node: Node, o: Object, forks: map<string, string>) {
    if HasKeyBearing(o) then
      rec.Some? && o.key in forks && LeadsToDescriptor(env, rec.value, node, o, forks[o.key])
    else if o.body.parts != [] then
      && o.key in forks && forks[o.key] == env.hash(CompositeDescriptor(o.body.parts))
      && Stored(env, node, CompositeDescriptor(o.body.parts))
    else if o.body.ref != "" then
      o.key in forks && Hex.Decode(o.body.ref) == Hex.Bytes(forks[o.key])
    else o.key !in forks
  }

  ghost predicate DistinctKeys(objects: seq<Object>) {
    forall i, j :: 0 <= i < j < |objects| ==> objects[i].key != objects[j].key
  }

  /** Every object shows, and every fork is an object's. */
  ghost predicate AllShow(env: Env, rec: Option<string>, objects: seq<Object>, w: Work) {
    && (forall i :: 0 <= i < |objects| ==> Shows(env, rec, w.node, objects[i], w.trie.forks))
    && (forall p :: p in w.trie.forks ==> exists i :: 0 <= i < |objects| && objects[i].key == p)
  }

  /** Nothing is lost from the node, and what is there stays content-addressed. */
  ghost predicate Grows(env: Env, before: Node, after: Node) {
    ContentAddressed(env, after) && before.Keys <= after.Keys
  }

  lemma SaveGrows(env: Env, node: Node, b: Blob)
    requires ContentAddressed(env, node)
    ensures Grows(env, node, Save(env, node, b)) && Stored(env, Save(env, node, b), b)
  {
  }

  lemma StaysStored(env: Env, before: Node, after: Node, b: Blob)
    requires Stored(env, before, b) && Grows(env, before, after)
    ensures Stored(env, after, b)
  {
    assert env.hash(b) in before.Keys;
  }

  /** An object keeps showing while the node grows and its own fork is left alone. */
  lemma StillShows(env: Env, rec: Option<string>, before: Node, after: Node, o: Object, forks: map<string, string>, forks': map<string, string>)
    requires Shows(env, rec, before, o, forks) && Grows(env, before, after)
    requires o.key in forks' <==> o.key in forks
    requires o.key in forks ==> forks'[o.key] == forks[o.key]
    ensures Shows(env, rec, after, o, forks')
  {
    hide HasKeyBearing, Describes, Grows, Stored;
    if HasKeyBearing(o) {
      var d :| Describes(env.crypto, rec.value, d, o) && forks[o.key] == env.hash(d) && Stored(env, before, d);
      StaysStored(env, before, after, d);
    } else if o.body.parts != [] {
      StaysStored(env, before, after, CompositeDescriptor(o.body.parts));
    }
  }

  lemma SealDescribes(c: Crypto, rec: string, o: Object, salt: nat)
    ensures Describes(c, rec, SealDescriptor(c, rec, o, salt), o)
  {
    hide Hex.AllHex;
    var d := SealDescriptor(c, rec, o, salt);
    forall i | 0 <= i < |o.body.parts|
      ensures d.sealedParts[i].number == o.body.parts[i].number && d.sealedParts[i].size == o.body.parts[i].size
      ensures Publishes(c, rec, d.sealedParts[i].ref, o.body.parts[i].ref)
    {
      assert KeyBearing(o.body.parts[i].ref) ==> o.body.parts[i].ref != "";
    }
    assert KeyBearing(o.body.ref) ==> o.body.ref != "";
  }

  lemma ForkAdded(w: Work, path: string, entry: string)
    requires AddFork(w, path, entry).error.None?
    ensures AddFork(w, path, entry).node == w.node && AddFork(w, path, entry).trie.forks == w.trie.forks[path := entry]
  {
  }

  /** Adding an object under a new key makes it show and touches no other fork. */
  lemma AddedShows(env: Env, rec: Option<string>, w: Work, o: Object, salt: nat)
    requires ContentAddressed(env, w.node) && w.error.None? && AddObject(env, rec, w, o, salt).error.None?
    requires o.key !in w.trie.forks
    ensures Grows(env, w.node, AddObject(env, rec, w, o, salt).node)
    ensures Shows(env, rec, AddObject(env, rec, w, o, salt).node, o, AddObject(env, rec, w, o, salt).trie.forks)
    ensures forall p :: p != o.key ==> (p in AddObject(env, rec, w, o, salt).trie.forks <==> p in w.trie.forks)
    ensures forall p :: p != o.key && p in w.trie.forks ==> AddObject(env, rec, w, o, salt).trie.forks[p] == w.trie.forks[p]
  {
    hide HasKeyBearing, Describes, SealDescriptor, Stored, AddFork, Hex.Decode;
    if HasKeyBearing(o) {
      var d := SealDescriptor(env.crypto, rec.value, o, salt);
      SealDescribes(env.crypto, rec.value, o, salt);
      SaveGrows(env, w.node, d);
      ForkAdded(w.(node := Save(env, w.node, d)), o.key, env.hash(d));
      assert LeadsToDescriptor(env, rec.value, Save(env, w.node, d), o, env.hash(d));
    } else if o.body.parts != [] {
      var d := CompositeDescriptor(o.body.parts);
      SaveGrows(env, w.node, d);
      ForkAdded(w.(node := Save(env, w.node, d)), o.key, env.hash(d));
    } else if o.body.ref != "" {
      ForkAdded(w, o.key, Hex.Decode(o.body.ref).s);
    }
  }

  lemma {:induction false} AllAddedShow(env: Env, rec: Option<string>, node: Node, objects: seq<Object>)
    requires ContentAddressed(env, node) && DistinctKeys(objects) && AddAll(env, rec, node, objects).error.None?
    ensures ContentAddressed(env, AddAll(env, rec, node, objects).node)
    ensures AllShow(env, rec, objects, AddAll(env, rec, node, objects))
  {
    hide AddObject, Shows, ContentAddressed;
    if objects != [] {
      var n := |objects| - 1;
      AllAddedShow(env, rec, node, objects[..n]);
      OneMoreShows(env, rec, objects, AddAll(env, rec, node, objects[..n]), n);
    }
  }

  lemma OneMoreShows(env: Env, rec: Option<string>, objects: seq<Object>, w: Work, n: nat)
    requires n == |objects| - 1 && DistinctKeys(objects) && w.error.None? && ContentAddressed(env, w.node)
    requires AllShow(env, rec, objects[..n], w) && AddObject(env, rec, w, objects[n], n).error.None?
    ensures ContentAddressed(env, AddObject(env, rec, w, objects[n], n).node)
    ensures AllShow(env, rec, objects, AddObject(env, rec, w, objects[n], n))
  {
    hide AddObject, Shows, ContentAddressed;
    var o, w' := objects[n], AddObject(env, rec, w, objects[n], n);
    assert o.key !in w.trie.forks;
    AddedShows(env, rec, w, o, n);
    forall i | 0 <= i < |objects|
      ensures Shows(env, rec, w'.node, objects[i], w'.trie.forks)
    {
      if i < n {
        assert objects[..n][i] == objects[i] && objects[i].key != o.key;
        StillShows(env, rec, w.node, w'.node, objects[i], w.trie.forks, w'.trie.forks);
      }
    }
    forall p | p in w'.trie.forks
      ensures exists i :: 0 <= i < |objects| && objects[i].key == p
    {
      if p != o.key {
        var i :| 0 <= i < n && objects[..n][i].key == p;
        assert objects[i].key == p;
      }
    }
  }

  /**
   * A successful build of distinct keys. Every object but one under the reserved path shows in the
   * manifest: a plain one by its decoded reference, a composite or sealed one by a stored descriptor
   * of it, a zero-byte one by no fork. The only other fork is the commit document's.
   */
  lemma BuiltShows(env: Env, rec: Option<string>, node: Node, c: Commit)
    requires ContentAddressed(env, node) && DistinctKeys(c.objects) && BuildWork(env, rec, node, c).error.None?
    ensures forall i :: 0 <= i < |c.objects| && c.objects[i].key != CommitPath ==>
                          Shows(env, rec, BuildWork(env, rec, node, c).node, c.objects[i], BuildWork(env, rec, node, c).trie.forks)
    ensures forall p :: p in BuildWork(env, rec, node, c).trie.forks ==>
                          p == CommitPath || exists i :: 0 <= i < |c.objects| && c.objects[i].key == p
    ensures CommitPath in BuildWork(env, rec, node, c).trie.forks
    ensures forall i :: 0 <= i < |c.objects| && HasKeyBearing(c.objects[i]) ==> rec.Some?
    ensures BuildWork(env, rec, node, c).trie.forks[CommitPath] == env.hash(DocOf(env, rec, c))
    ensures Stored(env, BuildWork(env, rec, node, c).node, DocOf(env, rec, c))
    ensures Stored(env, BuildWork(env, rec, node, c).node, Manifest(BuildWork(env, rec, node, c).trie.forks))
    ensures Grows(env, node, BuildWork(env, rec, node, c).node)
  {
    hide AddAll, Shows, DocOf, HasKeyBearing;
    var w := AddAll(env, rec, node, c.objects);
    AllAddedShow(env, rec, node, c.objects);
    AddAllGrows(env, rec, node, c.objects);
    SealableWhenAdded(env, rec, node, c.objects);
    var doc := DocOf(env, rec, c);
    var added := w.(node := Save(env, w.node, doc));
    SaveGrows(env, w.node, doc);
    ForkAdded(added, CommitPath, env.hash(doc));
    var forks := w.trie.forks[CommitPath := env.hash(doc)];
    var final := Save(env, added.node, Manifest(forks));
    SaveGrows(env, added.node, Manifest(forks));
    StaysStored(env, added.node, final, doc);
    forall i | 0 <= i < |c.objects| && c.objects[i].key != CommitPath
      ensures Shows(env, rec, final, c.objects[i], forks)
    {
      StillShows(env, rec, w.node, final, c.objects[i], w.trie.forks, forks);
    }
  }

  lemma AddObjectGrows(env: Env, rec: Option<string>, w: Work, o: Object, salt: nat)
    requires ContentAddressed(env, w.node)
    ensures Grows(env, w.node, AddObject(env, rec, w, o, salt).node)
  {
    hide HasKeyBearing, SealDescriptor, Hex.Decode;
  }

  lemma {:induction false} AddAllGrows(env: Env, rec: Option<string>, node: Node, objects: seq<Object>)
    requires ContentAddressed(env, node)
    ensures Grows(env, node, AddAll(env, rec, node, objects).node)
  {
    hide AddObject, ContentAddressed;
    if objects != [] {
      var n := |objects| - 1;
      AddAllGrows(env, rec, node, objects[..n]);
      AddObjectGrows(env, rec, AddAll(env, rec, node, objects[..n]), objects[n], n);
    }
  }
}
