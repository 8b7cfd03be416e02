/**
 * Commit documents and bucket manifests: what a commit publishes on the node, how key-bearing
 * references are sealed, and how a commit is loaded back.
 */
module Manifest {
  import opened ByteStrings
  import opened Objects
  import opened Wrappers
  import Hex

  const CommitPath := ".s3warm/commit"
  const CommitVersion := 2

  /** Encryption to a recipient (randomised: the last argument is the randomness) and opening. */
  datatype Crypto = Crypto(enc: (string, string, nat) -> string, dec: (string, string) -> Option<string>)

  /** The identity opens what is sealed to the recipient. */
  ghost predicate Matches(c: Crypto, id: string, rec: string) {
    forall ref, salt :: ref != "" ==> c.dec(id, c.enc(rec, ref, salt)) == Some(ref)
  }

  /** A sealed reference is never the empty string. */
  ghost predicate NonEmptyText(c: Crypto) {
    forall rec, ref, salt :: ref != "" ==> c.enc(rec, ref, salt) != ""
  }

  // ---------------------------------------------------------------------------------------------
  // Key-bearing references
  // ---------------------------------------------------------------------------------------------

  /** 128 hex digits: an address with its decryption key. */
  predicate KeyBearing(ref: string) {
    |ref| == 128 && Hex.AllHex(ref)
  }

  /** It is the hexadecimal text of 64 bytes: a 32-byte address and a 32-byte key. */
  lemma KeyBearingMeaning(ref: string)
    ensures KeyBearing(ref) <==> Hex.Decode(ref).Bytes? && |Hex.Decode(ref).s| == 64
  {
    Hex.DecodeMeaning(ref);
  }

  predicate AnyPartKeyBearing(parts: seq<Part>) {
    exists i :: 0 <= i < |parts| && KeyBearing(parts[i].ref)
  }

  predicate HasKeyBearing(o: Object) {
    KeyBearing(o.body.ref) || AnyPartKeyBearing(o.body.parts)
  }

  /** The scan over an object's references. */
  method HasKeyBearingRefs(o: Object) returns (yes: bool)
    ensures yes == HasKeyBearing(o)
  {
    if KeyBearing(o.body.ref) {
      return true;
    }
    for i := 0 to |o.body.parts|
      invariant forall j :: 0 <= j < i ==> !KeyBearing(o.body.parts[j].ref)
    {
      if KeyBearing(o.body.parts[i].ref) {
        return true;
      }
    }
    return false;
  }

  // ---------------------------------------------------------------------------------------------
  // Wire form: seal and open
  // ---------------------------------------------------------------------------------------------

  /** A reference as published: in the clear, or blank with its sealed form beside it. */
  datatype WireRef = WireRef(clear: string, sealed: string)

  datatype WirePart = WirePart(part: Part, ref: WireRef)

  /** `fields` is the row with its references and parts left out. */
  datatype WireObject = WireObject(fields: Object, ref: WireRef, parts: seq<WirePart>)

  function SealRef(c: Crypto, rec: Option<string>, ref: string, salt: nat): WireRef
    requires KeyBearing(ref) ==> rec.Some?
  {
    if KeyBearing(ref) then WireRef("", c.enc(rec.value, ref, salt)) else WireRef(ref, "")
  }

  function SealParts(c: Crypto, rec: Option<string>, parts: seq<Part>, salt: nat): (w: seq<WirePart>)
    requires AnyPartKeyBearing(parts) ==> rec.Some?
    ensures |w| == |parts|
  {
    seq(|parts|, i requires 0 <= i < |parts| =>
        WirePart(parts[i].(ref := ""), SealRef(c, rec, parts[i].ref, salt + i)))
  }

  function Fields(o: Object): Object {
    o.(body := o.body.(ref := "", parts := []))
  }

  function Seal(c: Crypto, rec: Option<string>, o: Object, salt: nat): WireObject
    requires HasKeyBearing(o) ==> rec.Some?
  {
    WireObject(Fields(o), SealRef(c, rec, o.body.ref, salt), SealParts(c, rec, o.body.parts, salt + 1))
  }

  /** The append loop of `seal`. */
  method SealObject(c: Crypto, rec: Option<string>, o: Object, salt: nat) returns (w: WireObject)
    requires HasKeyBearing(o) ==> rec.Some?
    ensures w == Seal(c, rec, o, salt)
  {
    var parts: seq<WirePart> := [];
    for i := 0 to |o.body.parts|
      invariant |parts| == i
      invariant forall j :: 0 <= j < i ==> parts[j] == SealParts(c, rec, o.body.parts, salt + 1)[j]
    {
      var p := o.body.parts[i];
      parts := parts + [WirePart(p.(ref := ""), SealRef(c, rec, p.ref, salt + 1 + i))];
    }
    assert parts == SealParts(c, rec, o.body.parts, salt + 1);
    w := WireObject(Fields(o), SealRef(c, rec, o.body.ref, salt), parts);
  }

  /** A reference read back: its text, or still sealed for want of an identity, or unopenable. */
  datatype OpenedRef = Ref(text: string, stillSealed: bool) | CannotDecrypt

  function OpenRef(c: Crypto, id: Option<string>, w: WireRef): OpenedRef {
    if w.sealed == "" then Ref(w.clear, false)
    else if id.None? then Ref(w.clear, true)
    else match c.dec(id.value, w.sealed)
         case Some(ref) => Ref(ref, false)
         case None => CannotDecrypt
  }

  datatype OpenedParts = Parts(parts: seq<Part>, stillSealed: bool) | BadPart

  function OpenParts(c: Crypto, id: Option<string>, ws: seq<WirePart>): OpenedParts {
    if ws == [] then Parts([], false)
    else
      match OpenParts(c, id, ws[..|ws| - 1])
      case BadPart => BadPart
      case Parts(ps, sealed) =>
        var w := ws[|ws| - 1];
        match OpenRef(c, id, w.ref)
        case CannotDecrypt => BadPart
        case Ref(text, s) => Parts(ps + [w.part.(ref := text)], sealed || s)
  }

  datatype Opened = Row(o: Object, stillSealed: bool) | BadReference

  function Open(c: Crypto, id: Option<string>, w: WireObject): Opened {
    match OpenParts(c, id, w.parts)
    case BadPart => BadReference
    case Parts(ps, sealed) =>
      match OpenRef(c, id, w.ref)
      case CannotDecrypt => BadReference
      case Ref(text, s) => Row(w.fields.(body := w.fields.body.(ref := text, parts := ps)), sealed || s)
  }

  /** The append loop of `open`; it stops at the first reference that does not decrypt. */
  method OpenObject(c: Crypto, id: Option<string>, w: WireObject) returns (r: Opened)
    ensures r == Open(c, id, w)
  {
    var parts: seq<Part> := [];
    var sealed := false;
    for i := 0 to |w.parts|
      invariant OpenParts(c, id, w.parts[..i]) == Parts(parts, sealed)
    {
      assert w.parts[..i + 1][..i] == w.parts[..i];
      match OpenRef(c, id, w.parts[i].ref) {
        case CannotDecrypt =>
          BadPartStays(c, id, w.parts, i + 1);
          return BadReference;
        case Ref(text, s) =>
          parts, sealed := parts + [w.parts[i].part.(ref := text)], sealed || s;
      }
    }
    assert w.parts[..|w.parts|] == w.parts;
    match OpenRef(c, id, w.ref) {
      case CannotDecrypt => return BadReference;
      case Ref(text, s) => return Row(w.fields.(body := w.fields.body.(ref := text, parts := parts)), sealed || s);
    }
  }

  lemma {:induction false} BadPartStays(c: Crypto, id: Option<string>, ws: seq<WirePart>, n: nat)
    requires n <= |ws| && OpenParts(c, id, ws[..n]) == BadPart
    ensures OpenParts(c, id, ws) == BadPart
    decreases |ws| - n
  {
    if n < |ws| {
      assert ws[..n + 1][..n] == ws[..n];
      BadPartStays(c, id, ws, n + 1);
    } else {
      assert ws[..n] == ws;
    }
  }

  /** What the identity given can see of a row. */
  function Visible(id: Option<string>, ref: string): string {
    if id.None? && KeyBearing(ref) then "" else ref
  }

  lemma OpenSealedRef(c: Crypto, rec: Option<string>, id: Option<string>, ref: string, salt: nat)
    requires NonEmptyText(c) && (KeyBearing(ref) ==> rec.Some?)
    requires id.Some? && KeyBearing(ref) ==> Matches(c, id.value, rec.value)
    ensures OpenRef(c, id, SealRef(c, rec, ref, salt)) == Ref(Visible(id, ref), id.None? && KeyBearing(ref))
  {
    if KeyBearing(ref) {
      assert ref != "";
      assert c.enc(rec.value, ref, salt) != "";
    }
  }

  function VisibleParts(id: Option<string>, parts: seq<Part>): (r: seq<Part>)
    ensures |r| == |parts|
  {
    seq(|parts|, i requires 0 <= i < |parts| => parts[i].(ref := Visible(id, parts[i].ref)))
  }

  lemma {:induction false} OpenSealedParts(c: Crypto, rec: Option<string>, id: Option<string>, parts: seq<Part>, salt: nat)
    requires NonEmptyText(c) && (AnyPartKeyBearing(parts) ==> rec.Some?)
    requires id.Some? && AnyPartKeyBearing(parts) ==> Matches(c, id.value, rec.value)
    ensures OpenParts(c, id, SealParts(c, rec, parts, salt)) == Parts(VisibleParts(id, parts), id.None? && AnyPartKeyBearing(parts))
  {
    if parts != [] {
      var n := |parts| - 1;
      var init := parts[..n];
      assert AnyPartKeyBearing(parts) <==> AnyPartKeyBearing(init) || KeyBearing(parts[n].ref) by {
        if AnyPartKeyBearing(init) {
          var i :| 0 <= i < n && KeyBearing(init[i].ref);
          assert KeyBearing(parts[i].ref);
        }
        if AnyPartKeyBearing(parts) {
          var i :| 0 <= i < |parts| && KeyBearing(parts[i].ref);
          assert i < n ==> KeyBearing(init[i].ref);
        }
      }
      OpenSealedParts(c, rec, id, init, salt);
      assert SealParts(c, rec, parts, salt)[..n] == SealParts(c, rec, init, salt);
      OpenSealedRef(c, rec, id, parts[n].ref, salt + n);
      assert VisibleParts(id, parts) == VisibleParts(id, init) + [parts[n].(ref := Visible(id, parts[n].ref))];
    }
  }

  function VisibleObject(id: Option<string>, o: Object): Object {
    o.(body := o.body.(ref := Visible(id, o.body.ref), parts := VisibleParts(id, o.body.parts)))
  }

  /**
   * Opening undoes sealing for the matching identity. Without an identity everything but the
   * key-bearing references comes back, and the row is reported sealed exactly when it has one.
   */
  lemma OpenSealed(c: Crypto, rec: Option<string>, id: Option<string>, o: Object, salt: nat)
    requires NonEmptyText(c) && (HasKeyBearing(o) ==> rec.Some?)
    requires id.Some? && HasKeyBearing(o) ==> Matches(c, id.value, rec.value)
    ensures Open(c, id, Seal(c, rec, o, salt)) == Row(VisibleObject(id, o), id.None? && HasKeyBearing(o))
    ensures id.Some? || !HasKeyBearing(o) ==> VisibleObject(id, o) == o
  {
    OpenSealedRef(c, rec, id, o.body.ref, salt);
    OpenSealedParts(c, rec, id, o.body.parts, salt + 1);
    if id.Some? || !HasKeyBearing(o) {
      assert VisibleParts(id, o.body.parts) == o.body.parts;
    }
  }

  // ---------------------------------------------------------------------------------------------
  // The node and what is saved on it
  // ---------------------------------------------------------------------------------------------

  datatype Commit = Commit(version: int, bucket: string, seq_: int, parent: string, time: int, objects: seq<Object>)

  datatype SealedPart = SealedPart(number: int, size: int, ref: WireRef)

  /** What the node holds: JSON documents are the values they encode, a manifest is a map from path to entry. */
  datatype Blob =
    | CommitDoc(version: int, bucket: string, seq_: int, parent: string, time: int, rows: seq<WireObject>)
    | SseDescriptor(sealedRef: string, sealedParts: seq<SealedPart>)
    | CompositeDescriptor(plainParts: seq<Part>)
    | Manifest(forks: map<string, string>)

  /** Content-addressed. */
  type Node = map<string, Blob>

  /** Addresses are 32-byte hashes; encryption is shared by all commits. */
  datatype Env = Env(hash: Blob -> string, crypto: Crypto)

  ghost predicate ValidEnv(env: Env) {
    (forall b :: |env.hash(b)| == 32 && IsBytes(env.hash(b))) && NonEmptyText(env.crypto)
  }

  function Save(env: Env, node: Node, b: Blob): Node {
    node[env.hash(b) := b]
  }

  /** A manifest fixes its entry width with its first entry and refuses any other width. */
  datatype Trie = Trie(width: nat, forks: map<string, string>)

  datatype BuildError = NoRecoveryRecipient | MalformedReference(key: string) | EntryWidth(path: string)

  /** A build in progress; the first error stops it, but what was saved stays saved. */
  datatype Work = Work(node: Node, trie: Trie, error: Option<BuildError>)

  function AddFork(w: Work, path: string, entry: string): Work {
    if w.trie.width == 0 then w.(trie := Trie(|entry|, w.trie.forks[path := entry]))
    else if w.trie.width != |entry| then w.(error := Some(EntryWidth(path)))
    else w.(trie := w.trie.(forks := w.trie.forks[path := entry]))
  }

  function SealDescriptor(c: Crypto, rec: string, o: Object, salt: nat): Blob {
    SseDescriptor(
      if KeyBearing(o.body.ref) then c.enc(rec, o.body.ref, salt) else "",
      seq(|o.body.parts|, i requires 0 <= i < |o.body.parts| =>
          SealedPart(o.body.parts[i].number, o.body.parts[i].size, SealRef(c, Some(rec), o.body.parts[i].ref, salt + 1 + i))))
  }

  /** `entryFor` and the trie insertion for one object; zero-byte objects have no fork. */
  function AddObject(env: Env, rec: Option<string>, w: Work, o: Object, salt: nat): Work {
    if HasKeyBearing(o) && rec.None? then w.(error := Some(NoRecoveryRecipient))
    else if HasKeyBearing(o) then
      var d := SealDescriptor(env.crypto, rec.value, o, salt);
      AddFork(w.(node := Save(env, w.node, d)), o.key, env.hash(d))
    else if o.body.parts != [] then
      var d := CompositeDescriptor(o.body.parts);
      AddFork(w.(node := Save(env, w.node, d)), o.key, env.hash(d))
    else if o.body.ref == "" then w
    else match Hex.Decode(o.body.ref)
         case NotHex => w.(error := Some(MalformedReference(o.key)))
         case Bytes(entry) => AddFork(w, o.key, entry)
  }

  function AddAll(env: Env, rec: Option<string>, node: Node, objects: seq<Object>): Work {
    if objects == [] then Work(node, Trie(0, map[]), None)
    else
      var n := |objects| - 1;
      var w := AddAll(env, rec, node, objects[..n]);
      if w.error.Some? then w else AddObject(env, rec, w, objects[n], n)
  }

  function SealAll(c: Crypto, rec: Option<string>, objects: seq<Object>): (ws: seq<WireObject>)
    requires forall i :: 0 <= i < |objects| && HasKeyBearing(objects[i]) ==> rec.Some?
    ensures |ws| == |objects|
  {
    seq(|objects|, i requires 0 <= i < |objects| => Seal(c, rec, objects[i], i))
  }

  function DocOf(env: Env, rec: Option<string>, c: Commit): Blob
    requires forall i :: 0 <= i < |c.objects| && HasKeyBearing(c.objects[i]) ==> rec.Some?
  {
    CommitDoc(c.version, c.bucket, c.seq_, c.parent, c.time, SealAll(env.crypto, rec, c.objects))
  }

  /** The whole build: forks, then the commit document under its reserved path, then the manifest. */
  function BuildWork(env: Env, rec: Option<string>, node: Node, c: Commit): Work {
    var w := AddAll(env, rec, node, c.objects);
    if w.error.Some? then w
    else
      SealableWhenAdded(env, rec, node, c.objects);
      var doc := DocOf(env, rec, c);
      var w := AddFork(w.(node := Save(env, w.node, doc)), CommitPath, env.hash(doc));
      if w.error.Some? then w
      else w.(node := Save(env, w.node, Manifest(w.trie.forks)))
  }

  /** Past the fork loop every key-bearing object has a recipient to be sealed to. */
  lemma {:induction false} SealableWhenAdded(env: Env, rec: Option<string>, node: Node, objects: seq<Object>)
    requires AddAll(env, rec, node, objects).error.None?
    ensures forall i :: 0 <= i < |objects| && HasKeyBearing(objects[i]) ==> rec.Some?
  {
    if objects != [] {
      var n := |objects| - 1;
      SealableWhenAdded(env, rec, node, objects[..n]);
      assert forall i :: 0 <= i < n ==> objects[..n][i] == objects[i];
    }
  }

  datatype BuildResult = Built(root: string, node: Node) | NotBuilt(error: BuildError, node: Node)

  method SealRows(c: Crypto, rec: Option<string>, objects: seq<Object>) returns (rows: seq<WireObject>)
    requires forall i :: 0 <= i < |objects| && HasKeyBearing(objects[i]) ==> rec.Some?
    ensures rows == SealAll(c, rec, objects)
  {
    rows := [];
    for i := 0 to |objects|
      invariant |rows| == i && forall j :: 0 <= j < i ==> rows[j] == SealAll(c, rec, objects)[j]
    {
      var row := SealObject(c, rec, objects[i], i);
      rows := rows + [row];
    }
  }

  method Build(env: Env, rec: Option<string>, node: Node, c: Commit) returns (r: BuildResult)
    ensures var w := BuildWork(env, rec, node, c);
            r == if w.error.Some? then NotBuilt(w.error.value, w.node)
                 else Built(Hex.Encode(env.hash(Manifest(w.trie.forks))), w.node)
  {
    var w := Work(node, Trie(0, map[]), None);
    for i := 0 to |c.objects|
      invariant w == AddAll(env, rec, node, c.objects[..i]) && w.error.None?
    {
      assert c.objects[..i + 1][..i] == c.objects[..i];
      w := AddObject(env, rec, w, c.objects[i], i);
      if w.error.Some? {
        ErrorStays(env, rec, node, c.objects, i + 1);
        return NotBuilt(w.error.value, w.node);
      }
    }
    assert c.objects[..|c.objects|] == c.objects;
    SealableWhenAdded(env, rec, node, c.objects);
    var rows := SealRows(env.crypto, rec, c.objects);
    var doc := CommitDoc(c.version, c.bucket, c.seq_, c.parent, c.time, rows);
    w := AddFork(w.(node := Save(env, w.node, doc)), CommitPath, env.hash(doc));
    if w.error.Some? {
      return NotBuilt(w.error.value, w.node);
    }
    var m := Manifest(w.trie.forks);
    return Built(Hex.Encode(env.hash(m)), Save(env, w.node, m));
  }

  lemma {:induction false} ErrorStays(env: Env, rec: Option<string>, node: Node, objects: seq<Object>, n: nat)
    requires n <= |objects| && AddAll(env, rec, node, objects[..n]).error.Some?
    ensures AddAll(env, rec, node, objects) == AddAll(env, rec, node, objects[..n])
    decreases |objects| - n
  {
    if n < |objects| {
      assert objects[..n + 1][..n] == objects[..n];
      ErrorStays(env, rec, node, objects, n + 1);
    } else {
      assert objects[..n] == objects;
    }
  }

  // ---------------------------------------------------------------------------------------------
  // Loading a commit
  // ---------------------------------------------------------------------------------------------

  datatype LoadError = MalformedRoot | NotFound | NotACommit | UnsupportedVersion | DecryptFailed

  datatype LoadResult = Loaded(c: Commit, sealed: nat) | NotLoaded(error: LoadError)

  datatype OpenedRows = Rows(objects: seq<Object>, sealed: nat) | BadRow

  function OpenAll(c: Crypto, id: Option<string>, rows: seq<WireObject>): OpenedRows {
    if rows == [] then Rows([], 0)
    else
      match OpenAll(c, id, rows[..|rows| - 1])
      case BadRow => BadRow
      case Rows(os, n) =>
        match Open(c, id, rows[|rows| - 1])
        case BadReference => BadRow
        case Row(o, s) => Rows(os + [o], if s then n + 1 else n)
  }

  lemma OpenOneMore(c: Crypto, id: Option<string>, rows: seq<WireObject>, i: nat)
    requires i < |rows| && OpenAll(c, id, rows[..i]).Rows?
    ensures OpenAll(c, id, rows[..i + 1]) ==
            match Open(c, id, rows[i])
            case BadReference => BadRow
            case Row(o, s) => Rows(OpenAll(c, id, rows[..i]).objects + [o], OpenAll(c, id, rows[..i]).sealed + if s then 1 else 0)
  {
    assert rows[..i + 1][..i] == rows[..i];
  }

  lemma {:induction false} BadRowStays(c: Crypto, id: Option<string>, rows: seq<WireObject>, n: nat)
    requires n <= |rows| && OpenAll(c, id, rows[..n]) == BadRow
    ensures OpenAll(c, id, rows) == BadRow
    decreases |rows| - n
  {
    if n < |rows| {
      assert rows[..n + 1][..n] == rows[..n];
      BadRowStays(c, id, rows, n + 1);
    } else {
      assert rows[..n] == rows;
    }
  }

  function FindDoc(node: Node, rootHex: string): (r: (LoadError, Option<Blob>))
    ensures r.1.Some? ==> r.1.value.CommitDoc?
  {
    match Hex.Decode(rootHex)
    case NotHex => (MalformedRoot, None)
    case Bytes(root) =>
      if root !in node || !node[root].Manifest? || CommitPath !in node[root].forks then (NotFound, None)
      else
        var entry := node[root].forks[CommitPath];
        if entry !in node then (NotFound, None)
        else if !node[entry].CommitDoc? then (NotACommit, None)
        else (NotFound, Some(node[entry]))
  }

  function Load(c: Crypto, node: Node, rootHex: string, id: Option<string>): LoadResult {
    var (why, doc) := FindDoc(node, rootHex);
    if doc.None? then NotLoaded(why)
    else
      var d := doc.value;
      if d.version < 1 || d.version > CommitVersion then NotLoaded(UnsupportedVersion)
      else match OpenAll(c, id, d.rows)
           case BadRow => NotLoaded(DecryptFailed)
           case Rows(os, n) => Loaded(Commit(d.version, d.bucket, d.seq_, d.parent, d.time, os), n)
  }

  /** The document a root leads to, when there is a manifest under it with a commit fork. */
  ghost predicate LeadsTo(node: Node, rootHex: string, doc: Blob) {
    && Hex.Decode(rootHex).Bytes?
    && var root := Hex.Decode(rootHex).s;
       && root in node && node[root].Manifest? && ".s3warm/commit" in node[root].forks
       && node[root].forks[".s3warm/commit"] in node && doc == node[node[root].forks[".s3warm/commit"]]
  }

  /** A commit loads exactly from a root that leads to a document of version 1 or 2 whose rows all open. */
  lemma LoadsIff(c: Crypto, node: Node, rootHex: string, id: Option<string>)
    ensures Load(c, node, rootHex, id).Loaded? <==>
            exists doc :: LeadsTo(node, rootHex, doc) && doc.CommitDoc? && doc.version in {1, 2} && OpenAll(c, id, doc.rows).Rows?
    ensures Load(c, node, rootHex, id) == NotLoaded(MalformedRoot) <==> !(|rootHex| % 2 == 0 && Hex.AllHex(rootHex))
    ensures Load(c, node, rootHex, id) == NotLoaded(NotFound) <==>
            |rootHex| % 2 == 0 && Hex.AllHex(rootHex) && !exists doc :: LeadsTo(node, rootHex, doc)
    ensures Load(c, node, rootHex, id) == NotLoaded(NotACommit) <==>
            exists doc :: LeadsTo(node, rootHex, doc) && !doc.CommitDoc?
    ensures Load(c, node, rootHex, id) == NotLoaded(UnsupportedVersion) <==>
            exists doc :: LeadsTo(node, rootHex, doc) && doc.CommitDoc? && doc.version !in {1, 2}
    ensures Load(c, node, rootHex, id) == NotLoaded(DecryptFailed) <==>
            exists doc :: LeadsTo(node, rootHex, doc) && doc.CommitDoc? && doc.version in {1, 2} && OpenAll(c, id, doc.rows).BadRow?
  {
    hide OpenAll, Hex.Decode, Hex.AllHex;
    Hex.DecodeMeaning(rootHex);
    if Hex.Decode(rootHex).Bytes? {
      var root := Hex.Decode(rootHex).s;
      if root in node && node[root].Manifest? && CommitPath in node[root].forks && node[root].forks[CommitPath] in node {
        assert LeadsTo(node, rootHex, node[node[root].forks[CommitPath]]);
      }
    }
  }

  /** The loop of `GetCommit`, counting the rows whose references stayed sealed. */
  method GetCommit(c: Crypto, node: Node, rootHex: string, id: Option<string>) returns (r: LoadResult)
    ensures r == Load(c, node, rootHex, id)
  {
    var (why, doc) := FindDoc(node, rootHex);
    if doc.None? {
      return NotLoaded(why);
    }
    var d := doc.value;
    if d.version < 1 || d.version > CommitVersion {
      return NotLoaded(UnsupportedVersion);
    }
    var objects: seq<Object> := [];
    var sealed := 0;
    for i := 0 to |d.rows|
      invariant OpenAll(c, id, d.rows[..i]) == Rows(objects, sealed)
    {
      OpenOneMore(c, id, d.rows, i);
      var row := OpenObject(c, id, d.rows[i]);
      match row {
        case BadReference =>
          BadRowStays(c, id, d.rows, i + 1);
          return NotLoaded(DecryptFailed);
        case Row(o, s) =>
          objects := objects + [o];
          if s {
            sealed := sealed + 1;
          }
      }
    }
    assert d.rows[..|d.rows|] == d.rows;
    return Loaded(Commit(d.version, d.bucket, d.seq_, d.parent, d.time, objects), sealed);
  }
}
