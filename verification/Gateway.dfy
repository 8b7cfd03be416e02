/**
 * Gateway and storage node as one state machine. The node is epoch-strict for ACT content: bytes
 * uploaded under an access-control history are readable only under exactly that history, and every
 * grant or revoke moves the bucket to a new one. References to encrypted content embed their key and
 * are twice as long.
 *
 * Request handlers are not atomic: they read the bucket record, talk to the node, and write the
 * index in separate steps, with anything else happening in between.
 */
module Gateway {
  import opened Wrappers
  import Hex

  // ---------------------------------------------------------------------------------------------
  // The node
  // ---------------------------------------------------------------------------------------------

  datatype Node = Node(blobs: map<string, string>, actRefs: map<string, string>, histories: set<string>)

  /** POST /bytes without ACT: content-addressed, 64 hex digits, or 128 when encrypted. */
  predicate PlainUpload(n: Node, data: string, encrypt: bool, ref: string, n': Node) {
    && Hex.AllHex(ref) && |ref| == (if encrypt then 128 else 64)
    && (ref in n.blobs ==> n.blobs[ref] == data) && ref !in n.actRefs
    && n' == n.(blobs := n.blobs[ref := data])
  }

  /** POST /bytes with ACT: a fresh reference tied to the history; an unknown history is refused. */
  predicate ActUpload(n: Node, data: string, history: string, ref: string, n': Node) {
    && Hex.AllHex(ref) && |ref| == 128 && ref !in n.blobs && ref !in n.actRefs
    && history in n.histories
    && n' == n.(blobs := n.blobs[ref := data], actRefs := n.actRefs[ref := history])
  }

  /** GET /bytes/{ref} by the publisher. */
  function Get(n: Node, ref: string, history: string): Option<string> {
    if ref !in n.blobs then None
    else if ref in n.actRefs && n.actRefs[ref] != history then None
    else Some(n.blobs[ref])
  }

  // ---------------------------------------------------------------------------------------------
  // The gateway
  // ---------------------------------------------------------------------------------------------

  /** Stored bytes: the reference, the history recorded with it, and the bytes that were uploaded. */
  datatype Held = Held(ref: string, history: string, data: string)

  datatype Obj = Obj(encrypted: bool, own: Held, parts: seq<Held>)

  datatype Upload = Upload(bucket: string, encrypted: bool, parts: map<int, Held>)

  datatype Bucket = Bucket(act: bool, history: string)

  datatype Target = ToObject(slot: string) | ToPart(upload: string, number: int)

  /**
   * A request between its steps. Whatever a handler reads it reads in a step of its own:
   *  - Sending, Ready: a body about to be sent, or sent and about to be recorded; `body` is None while
   *    a client supplies the bytes, and the source's bytes in a streamed copy;
   *  - Copying: an object (a copy or a completed upload) about to be written;
   *  - CopyTo, CopyFrom: an object copy that has read its destination bucket, and then its source bucket;
   *  - PartFrom, PartOf: a part copy that has read its source bucket, and then the source object;
   *  - Granting: a change of grants, before and after the node answered with a new history;
   *  - Committing: a commit with the objects it has read so far.
   */
  datatype Flight =
    | Sending(bucket: string, seen: Bucket, encrypt: bool, body: Option<string>, target: Target)
    | Ready(bucket: string, encrypt: bool, held: Held, target: Target)
    | Copying(bucket: string, obj: Obj, slot: string)
    | CopyTo(bucket: string, seen: Bucket, slot: string)
    | CopyFrom(bucket: string, seen: Bucket, slot: string, source: string, from: Bucket)
    | PartFrom(bucket: string, encrypt: bool, target: Target, source: string, from: Bucket)
    | PartOf(bucket: string, encrypt: bool, target: Target, source: string, from: Bucket, obj: Obj)
    | Granting(bucket: string, answer: Option<string>)
    | Committing(bucket: string, read: map<string, Obj>)

  /** Objects are addressed by (bucket, slot); a slot stands for one version of one key. */
  datatype World = World(node: Node, buckets: map<string, Bucket>, objects: map<(string, string), Obj>,
                         uploads: map<string, Upload>, usedIds: set<string>, flights: map<nat, Flight>,
                         roots: map<string, (string, map<string, Obj>)>)

  const Empty := Held("", "", "")

  /** The history to read stored bytes with: the recorded one, else the bucket's current one. */
  function HistoryFor(recorded: string, b: Bucket): string {
    if recorded != "" then recorded else b.history
  }

  /** A read as the gateway issues it: non-ACT buckets send no history. */
  function Read(s: World, bucket: string, h: Held): Option<string>
    requires bucket in s.buckets
  {
    Get(s.node, h.ref, if s.buckets[bucket].act then HistoryFor(h.history, s.buckets[bucket]) else "")
  }

  /** Copies may stay under one bucket name or run between buckets that were both read as outside ACT. */
  predicate CopyAllowed(src: string, from: Bucket, dst: string, seen: Bucket) {
    src == dst || (!from.act && !seen.act)
  }

  /** One upload by the gateway: an empty body sends nothing; ACT bytes record their history. */
  ghost predicate Sends(n: Node, b: Bucket, encrypt: bool, data: string, h: Held, n': Node) {
    if data == "" && h == Empty then n' == n
    else
      && h.data == data
      && if b.act then ActUpload(n, data, b.history, h.ref, n') && h.history == b.history
         else PlainUpload(n, data, encrypt, h.ref, n') && h.history == ""
  }

  /** A copied row keeps its source's reference and pins the source's history when it had none. */
  function Pinned(o: Obj, srcB: Bucket, dstB: Bucket): Obj {
    if dstB.act && o.own.history == "" then o.(own := o.own.(history := srcB.history)) else o
  }

  datatype Step =
    | CreateBucket(b: string, act: bool, history: string)
    | DeleteBucket(b: string)
    | MintHistory(history: string)
    | BeginGrant(f: nat, b: string)
    | AnswerGrant(f: nat, history: string)
    | BeginPut(f: nat, b: string, encrypt: bool, slot: string)
    | BeginPart(f: nat, u: string, n: int)
    | SendBody(f: nat, h: Held, node: Node)
    | Store(f: nat)
    | BeginCopy(f: nat, b: string, slot: string)
    | BeginPartCopy(f: nat, u: string, n: int, source: string)
    | ReadSource(f: nat, source: string)
    | ReadObject(f: nat, slot: string)
    | ReusePart(f: nat)
    | BeginStream(f: nat, lo: nat, hi: nat)
    | CreateUpload(u: string, b: string, encrypt: bool)
    | AbortUpload(u: string)
    | Complete(f: nat, u: string, numbers: seq<int>, slot: string)
    | Delete(b: string, slot: string)
    | BeginCommit(f: nat, b: string)
    | ReadPage(f: nat, slots: set<string>)
    | Publish(f: nat, root: string)
    | Restore(b: string, root: string)

  /** What a commit reads of a bucket's objects in one page. */
  function Page(s: World, b: string, slots: set<string>): map<string, Obj> {
    map slot | slot in slots && (b, slot) in s.objects :: s.objects[(b, slot)]
  }

  function Replaced(s: World, b: string, objs: map<string, Obj>): map<(string, string), Obj> {
    (map id | id in s.objects && id.0 != b :: s.objects[id]) + (map slot | slot in objs :: (b, slot) := objs[slot])
  }

  /** Requests whose next step is the write that ends them. */
  predicate Writes(f: Flight) {
    f.Ready? || f.Copying? || (f.Granting? && f.answer.Some?)
  }

  /**
   * The write that ends a request; it is refused when its bucket, or a part's upload, is gone. Recording
   * a history also marks the bucket as ACT, whichever bucket of that name is there by then.
   */
  function Stored(s: World, f: Flight): World
    requires Writes(f)
  {
    match f
    case Copying(b, o, slot) => if b in s.buckets then s.(objects := s.objects[(b, slot) := o]) else s
    case Ready(b, encrypt, h, ToObject(slot)) =>
      if b in s.buckets then s.(objects := s.objects[(b, slot) := Obj(encrypt, h, [])]) else s
    case Ready(b, encrypt, h, ToPart(u, n)) =>
      if u in s.uploads then s.(uploads := s.uploads[u := s.uploads[u].(parts := s.uploads[u].parts[n := h])]) else s
    case Granting(b, answer) => if b in s.buckets then s.(buckets := s.buckets[b := Bucket(true, answer.value)]) else s
  }

  /** The request becomes the given flight and nothing else changes. */
  predicate Becomes(s: World, f: nat, fl: Flight, s': World) {
    s' == s.(flights := s.flights[f := fl])
  }

  /** A new request. */
  predicate Starts(s: World, f: nat, fl: Flight, s': World) {
    f !in s.flights && Becomes(s, f, fl, s')
  }

  ghost predicate SendBodyStep(s: World, f: nat, h: Held, node: Node, s': World) {
    && f in s.flights && s.flights[f].Sending?
    && var fl := s.flights[f];
       Sends(s.node, fl.seen, fl.encrypt, h.data, h, node)
       && (fl.body.Some? ==> h.data == fl.body.value && h.ref != "")
       && s' == s.(node := node, flights := s.flights[f := Ready(fl.bucket, fl.encrypt, h, fl.target)])
  }

  /** A part copied from a whole plain object: the reference is reused with its own history. */
  function Reused(o: Obj, srcB: Bucket): Held {
    o.own.(history := if srcB.act then HistoryFor(o.own.history, srcB) else "")
  }

  /** The reference may be reused when there is none, or when both sides agree on encryption. */
  predicate Reusable(o: Obj, encrypt: bool) {
    o.own.ref == "" || o.encrypted == encrypt
  }

  /** A part copy reads its upload's record, which never changes, and its source bucket. */
  predicate BeginPartCopyStep(s: World, f: nat, u: string, n: int, source: string, s': World) {
    && u in s.uploads && source in s.buckets
    && Starts(s, f, PartFrom(s.uploads[u].bucket, s.uploads[u].encrypted, ToPart(u, n), source, s.buckets[source]), s')
  }

  predicate ReadSourceStep(s: World, f: nat, source: string, s': World) {
    && f in s.flights && s.flights[f].CopyTo? && source in s.buckets
    && var fl := s.flights[f];
       CopyAllowed(source, s.buckets[source], fl.bucket, fl.seen)
       && Becomes(s, f, CopyFrom(fl.bucket, fl.seen, fl.slot, source, s.buckets[source]), s')
  }

  /** The source object, read after the source bucket; a part copy refuses composite sources. */
  predicate ReadObjectStep(s: World, f: nat, slot: string, s': World) {
    && f in s.flights && (s.flights[f].CopyFrom? || s.flights[f].PartFrom?)
    && (s.flights[f].source, slot) in s.objects
    && var fl, o := s.flights[f], s.objects[(s.flights[f].source, slot)];
       if fl.CopyFrom? then Becomes(s, f, Copying(fl.bucket, Pinned(o, fl.from, fl.seen), fl.slot), s')
       else o.parts == [] && Becomes(s, f, PartOf(fl.bucket, fl.encrypt, fl.target, fl.source, fl.from, o), s')
  }

  /** A part copy reads its destination bucket last. */
  predicate PartCopyAllowed(s: World, f: nat) {
    && f in s.flights && s.flights[f].PartOf? && s.flights[f].bucket in s.buckets
    && CopyAllowed(s.flights[f].source, s.flights[f].from, s.flights[f].bucket, s.buckets[s.flights[f].bucket])
  }

  predicate ReusePartStep(s: World, f: nat, s': World) {
    && PartCopyAllowed(s, f)
    && var fl := s.flights[f];
       Reusable(fl.obj, fl.encrypt) && Becomes(s, f, Ready(fl.bucket, fl.encrypt, Reused(fl.obj, fl.from), fl.target), s')
  }

  /** A ranged copy, or one that crosses the encryption boundary: the source's bytes are sent again. */
  predicate BeginStreamStep(s: World, f: nat, lo: nat, hi: nat, s': World) {
    && PartCopyAllowed(s, f)
    && var fl := s.flights[f];
       var body := Get(s.node, fl.obj.own.ref, if fl.from.act then HistoryFor(fl.obj.own.history, fl.from) else "");
       && fl.obj.own.ref != "" && body.Some? && lo <= hi <= |body.value|
       && Becomes(s, f, Sending(fl.bucket, s.buckets[fl.bucket], fl.encrypt, Some(body.value[lo..hi]), fl.target), s')
  }

  /** Completion reads the parts, writes the object in a later step, and drops the upload after that. */
  predicate CompleteStep(s: World, f: nat, u: string, numbers: seq<int>, slot: string, s': World) {
    && u in s.uploads && numbers != [] && (forall i :: 0 <= i < |numbers| ==> numbers[i] in s.uploads[u].parts)
    && var up := s.uploads[u];
       var parts := seq(|numbers|, i requires 0 <= i < |numbers| => up.parts[numbers[i]]);
       Starts(s, f, Copying(up.bucket, Obj(up.encrypted, Empty, parts), slot), s')
  }

  /** A commit checks that the bucket is outside ACT, reads page after page, and publishes what it read. */
  predicate ReadPageStep(s: World, f: nat, slots: set<string>, s': World) {
    && f in s.flights && s.flights[f].Committing? && s.flights[f].bucket in s.buckets
    && var fl := s.flights[f];
       Becomes(s, f, fl.(read := fl.read + Page(s, fl.bucket, slots)), s')
  }

  predicate PublishStep(s: World, f: nat, root: string, s': World) {
    && f in s.flights && s.flights[f].Committing?
    && s' == s.(roots := s.roots[root := (s.flights[f].bucket, s.flights[f].read)], flights := s.flights - {f})
  }

  ghost predicate Next(s: World, step: Step, s': World) {
    match step
    case CreateBucket(b, act, history) =>
      && b !in s.buckets && (act ==> history != "" && history in s.node.histories)
      && s' == s.(buckets := s.buckets[b := Bucket(act, if act then history else "")])
    case DeleteBucket(b) =>
      b in s.buckets && (forall id :: id in s.objects ==> id.0 != b) && s' == s.(buckets := s.buckets - {b})
    case MintHistory(history) => history != "" && s' == s.(node := s.node.(histories := s.node.histories + {history}))
    case BeginGrant(f, b) => b in s.buckets && s.buckets[b].act && Starts(s, f, Granting(b, None), s')
    case AnswerGrant(f, history) =>
      && f in s.flights && s.flights[f].Granting? && history != "" && history in s.node.histories
      && Becomes(s, f, Granting(s.flights[f].bucket, Some(history)), s')
    case BeginPut(f, b, encrypt, slot) =>
      b in s.buckets && Starts(s, f, Sending(b, s.buckets[b], encrypt, None, ToObject(slot)), s')
    case BeginPart(f, u, n) =>
      && u in s.uploads && s.uploads[u].bucket in s.buckets
      && Starts(s, f, Sending(s.uploads[u].bucket, s.buckets[s.uploads[u].bucket], s.uploads[u].encrypted, None, ToPart(u, n)), s')
    case SendBody(f, h, node) => SendBodyStep(s, f, h, node, s')
    case Store(f) =>
      f in s.flights && Writes(s.flights[f]) && s' == Stored(s, s.flights[f]).(flights := s.flights - {f})
    case BeginCopy(f, b, slot) => b in s.buckets && Starts(s, f, CopyTo(b, s.buckets[b], slot), s')
    case BeginPartCopy(f, u, n, source) => BeginPartCopyStep(s, f, u, n, source, s')
    case ReadSource(f, source) => ReadSourceStep(s, f, source, s')
    case ReadObject(f, slot) => ReadObjectStep(s, f, slot, s')
    case ReusePart(f) => ReusePartStep(s, f, s')
    case BeginStream(f, lo, hi) => BeginStreamStep(s, f, lo, hi, s')
    case CreateUpload(u, b, encrypt) =>
      b in s.buckets && u !in s.usedIds && s' == s.(uploads := s.uploads[u := Upload(b, encrypt, map[])], usedIds := s.usedIds + {u})
    case AbortUpload(u) => s' == s.(uploads := s.uploads - {u})
    case Complete(f, u, numbers, slot) => CompleteStep(s, f, u, numbers, slot, s')
    case Delete(b, slot) => s' == s.(objects := s.objects - {(b, slot)})
    case BeginCommit(f, b) => b in s.buckets && !s.buckets[b].act && Starts(s, f, Committing(b, map[]), s')
    case ReadPage(f, slots) => ReadPageStep(s, f, slots, s')
    case Publish(f, root) => PublishStep(s, f, root, s')
    case Restore(b, root) =>
      b in s.buckets && root in s.roots && s.roots[root].0 == b && s' == s.(objects := Replaced(s, b, s.roots[root].1))
  }

  const Init := World(Node(map[], map[], {}), map[], map[], map[], {}, map[], map[])

  /** Consecutive states joined by steps, from any state. */
  ghost predicate IsPath(states: seq<World>, steps: seq<Step>) {
    |states| == |steps| + 1 && forall i :: 0 <= i < |steps| ==> Next(states[i], steps[i], states[i + 1])
  }

  ghost predicate IsRun(states: seq<World>, steps: seq<Step>) {
    IsPath(states, steps) && states[0] == Init
  }
}
