/**
 * What is stored is what was sent: for each kind of request, in every run and however much happens
 * between its steps, what its last step writes, where, and that nothing else changes.
 */
module GatewayContents {
  import opened Wrappers
  import opened Gateway
  import opened GatewaySafety

  // ---------------------------------------------------------------------------------------------
  // A request between two of its steps
  // ---------------------------------------------------------------------------------------------

  /** No step strictly between the two advances the request. */
  ghost predicate Quiet(steps: seq<Step>, f: nat, i: nat, k: nat) {
    i < k < |steps| && forall j :: i < j < k ==> !Advances(steps[j], f)
  }

  /** What a step leaves in flight is what the request's next step finds. */
  lemma Resumes(states: seq<World>, steps: seq<Step>, f: nat, fl: Flight, i: nat, k: nat)
    requires IsRun(states, steps) && Quiet(steps, f, i, k) && Waits(states[i + 1], f, fl)
    ensures Waits(states[k], f, fl) && Next(states[k], steps[k], states[k + 1])
  {
    StillWaits(states, steps, f, fl, i + 1, k);
  }

  /** Only the objects at `id` differ. */
  ghost predicate SameElsewhere(s: World, s': World, id: (string, string)) {
    forall x :: x != id ==> (x in s'.objects <==> x in s.objects) && (x in s.objects ==> s'.objects[x] == s.objects[x])
  }

  /** The object is there, unless its bucket was gone, and no other object changed. */
  ghost predicate Lands(s: World, s': World, id: (string, string), o: Obj) {
    && (id.0 in s.buckets ==> id in s'.objects && s'.objects[id] == o && SameElsewhere(s, s', id))
    && (id.0 !in s.buckets ==> s'.objects == s.objects)
    && s'.uploads == s.uploads && s'.buckets == s.buckets && s'.node == s.node && s'.roots == s.roots
  }

  lemma CopyingLands(s: World, s': World, f: nat, b: string, o: Obj, slot: string)
    requires Waits(s, f, Copying(b, o, slot)) && Next(s, Store(f), s')
    ensures Lands(s, s', (b, slot), o)
  {
  }

  // ---------------------------------------------------------------------------------------------
  // Copies
  // ---------------------------------------------------------------------------------------------

  /** A copy begins at h, reads its source bucket at g and its source object at i, and stores at k. */
  ghost predicate CopiesObject(states: seq<World>, steps: seq<Step>, f: nat, h: nat, g: nat, i: nat, k: nat) {
    && IsRun(states, steps) && Quiet(steps, f, h, g) && Quiet(steps, f, g, i) && Quiet(steps, f, i, k)
    && steps[h].BeginCopy? && steps[h].f == f
    && steps[g].ReadSource? && steps[g].f == f
    && steps[i].ReadObject? && steps[i].f == f
    && steps[k] == Store(f)
  }

  /** The same flag, the same bytes and the same parts in order; only the history recorded may differ. */
  predicate SameContent(o: Obj, p: Obj) {
    o.encrypted == p.encrypted && o.own.ref == p.own.ref && o.own.data == p.own.data && o.parts == p.parts
  }

  /**
   * A copy writes, where it was asked to, the content of the object it read. A copy into an ACT bucket
   * records the history its source bucket had when the source itself recorded none.
   */
  lemma CopyStores(states: seq<World>, steps: seq<Step>, f: nat, h: nat, g: nat, i: nat, k: nat) returns (o: Obj)
    requires CopiesObject(states, steps, f, h, g, i, k)
    ensures (steps[g].source, steps[i].slot) in states[i].objects
    ensures SameContent(o, states[i].objects[(steps[g].source, steps[i].slot)])
    ensures steps[h].b in states[h].buckets && steps[g].source in states[g].buckets
    ensures o.own.history ==
            var recorded := states[i].objects[(steps[g].source, steps[i].slot)].own.history;
            if states[h].buckets[steps[h].b].act && recorded == "" then states[g].buckets[steps[g].source].history else recorded
    ensures Lands(states[k], states[k + 1], (steps[h].b, steps[h].slot), o)
  {
    var b, slot, source := steps[h].b, steps[h].slot, steps[g].source;
    assert Next(states[h], steps[h], states[h + 1]);
    var seen := states[h].buckets[b];
    Resumes(states, steps, f, CopyTo(b, seen, slot), h, g);
    var from := states[g].buckets[source];
    CopyToRead(states[g], f, b, seen, slot, source, states[g + 1]);
    Resumes(states, steps, f, CopyFrom(b, seen, slot, source, from), g, i);
    o := CopyFromRead(states[i], f, b, seen, slot, source, from, steps[i].slot, states[i + 1]);
    Resumes(states, steps, f, Copying(b, o, slot), i, k);
    CopyingLands(states[k], states[k + 1], f, b, o, slot);
  }

  lemma CopyToRead(s: World, f: nat, b: string, seen: Bucket, slot: string, source: string, s': World)
    requires Waits(s, f, CopyTo(b, seen, slot)) && Next(s, ReadSource(f, source), s')
    ensures source in s.buckets && Waits(s', f, CopyFrom(b, seen, slot, source, s.buckets[source]))
  {
    assert ReadSourceStep(s, f, source, s');
  }

  lemma CopyFromRead(s: World, f: nat, b: string, seen: Bucket, slot: string, source: string, from: Bucket, read: string, s': World)
    returns (o: Obj)
    requires Waits(s, f, CopyFrom(b, seen, slot, source, from)) && Next(s, ReadObject(f, read), s')
    ensures (source, read) in s.objects && SameContent(o, s.objects[(source, read)])
    ensures o.own.history == if seen.act && s.objects[(source, read)].own.history == "" then from.history else s.objects[(source, read)].own.history
    ensures Waits(s', f, Copying(b, o, slot))
  {
    assert ReadObjectStep(s, f, read, s');
    o := s'.flights[f].obj;
  }

  // ---------------------------------------------------------------------------------------------
  // Completed uploads
  // ---------------------------------------------------------------------------------------------

  /** A completed upload is written with the upload's flag and exactly the named parts, in their order. */
  lemma CompleteStores(states: seq<World>, steps: seq<Step>, f: nat, i: nat, k: nat) returns (o: Obj)
    requires IsRun(states, steps) && Quiet(steps, f, i, k)
    requires steps[i].Complete? && steps[i].f == f && steps[k] == Store(f)
    ensures steps[i].u in states[i].uploads
    ensures forall j :: 0 <= j < |steps[i].numbers| ==> steps[i].numbers[j] in states[i].uploads[steps[i].u].parts
    ensures o.encrypted == states[i].uploads[steps[i].u].encrypted && o.own == Empty
    ensures |o.parts| == |steps[i].numbers| > 0
    ensures forall j :: 0 <= j < |o.parts| ==> o.parts[j] == states[i].uploads[steps[i].u].parts[steps[i].numbers[j]]
    ensures Lands(states[k], states[k + 1], (states[i].uploads[steps[i].u].bucket, steps[i].slot), o)
  {
    assert Next(states[i], steps[i], states[i + 1]);
    assert CompleteStep(states[i], f, steps[i].u, steps[i].numbers, steps[i].slot, states[i + 1]);
    var b, slot := states[i].uploads[steps[i].u].bucket, steps[i].slot;
    o := states[i + 1].flights[f].obj;
    Resumes(states, steps, f, Copying(b, o, slot), i, k);
    CopyingLands(states[k], states[k + 1], f, b, o, slot);
  }

  // ---------------------------------------------------------------------------------------------
  // Bodies
  // ---------------------------------------------------------------------------------------------

  /** A body is sent at m and recorded at k. */
  ghost predicate SendsBody(states: seq<World>, steps: seq<Step>, f: nat, m: nat, k: nat) {
    IsRun(states, steps) && Quiet(steps, f, m, k) && steps[m].SendBody? && steps[m].f == f && steps[k] == Store(f)
  }

  lemma BodyRecorded(states: seq<World>, steps: seq<Step>, f: nat, m: nat, k: nat, b: string, seen: Bucket, encrypt: bool, body: Option<string>, t: Target)
    requires SendsBody(states, steps, f, m, k) && Waits(states[m], f, Sending(b, seen, encrypt, body, t))
    ensures Waits(states[k], f, Ready(b, encrypt, steps[m].h, t)) && Next(states[k], Store(f), states[k + 1])
    ensures body.Some? ==> steps[m].h.data == body.value && steps[m].h.ref != ""
    ensures steps[m].h.ref != "" ==> steps[m].h.ref in states[m + 1].node.blobs && states[m + 1].node.blobs[steps[m].h.ref] == steps[m].h.data
  {
    assert Next(states[m], steps[m], states[m + 1]);
    assert SendBodyStep(states[m], f, steps[m].h, steps[m].node, states[m + 1]);
    Resumes(states, steps, f, Ready(b, encrypt, steps[m].h, t), m, k);
  }

  /** A PUT writes, where it was asked to, the body that was sent, with the flag asked for and no parts. */
  lemma PutStores(states: seq<World>, steps: seq<Step>, f: nat, i: nat, m: nat, k: nat)
    requires SendsBody(states, steps, f, m, k) && Quiet(steps, f, i, m) && steps[i].BeginPut? && steps[i].f == f
    ensures Lands(states[k], states[k + 1], (steps[i].b, steps[i].slot), Obj(steps[i].encrypt, steps[m].h, []))
    ensures steps[m].h.ref != "" ==> steps[m].h.ref in states[k].node.blobs && states[k].node.blobs[steps[m].h.ref] == steps[m].h.data
  {
    var b, encrypt, t := steps[i].b, steps[i].encrypt, ToObject(steps[i].slot);
    assert Next(states[i], steps[i], states[i + 1]);
    var seen := states[i].buckets[b];
    Resumes(states, steps, f, Sending(b, seen, encrypt, None, t), i, m);
    BodyRecorded(states, steps, f, m, k, b, seen, encrypt, None, t);
    StillWaits(states, steps, f, states[m + 1].flights[f], m + 1, k);
  }

  /** The part is there, unless its upload was gone, and nothing else changed. */
  ghost predicate PartLands(s: World, s': World, u: string, n: int, h: Held) {
    && (u in s.uploads ==> s'.uploads == s.uploads[u := s.uploads[u].(parts := s.uploads[u].parts[n := h])])
    && (u !in s.uploads ==> s'.uploads == s.uploads)
    && s'.objects == s.objects && s'.buckets == s.buckets && s'.node == s.node && s'.roots == s.roots
  }

  lemma ReadyLands(s: World, s': World, f: nat, b: string, encrypt: bool, h: Held, u: string, n: int)
    requires Waits(s, f, Ready(b, encrypt, h, ToPart(u, n))) && Next(s, Store(f), s')
    ensures PartLands(s, s', u, n, h)
  {
  }

  /** A part upload records the body that was sent under its number. */
  lemma PartStores(states: seq<World>, steps: seq<Step>, f: nat, i: nat, m: nat, k: nat)
    requires SendsBody(states, steps, f, m, k) && Quiet(steps, f, i, m) && steps[i].BeginPart? && steps[i].f == f
    ensures PartLands(states[k], states[k + 1], steps[i].u, steps[i].n, steps[m].h)
  {
    assert Next(states[i], steps[i], states[i + 1]);
    var up := states[i].uploads[steps[i].u];
    var seen, t := states[i].buckets[up.bucket], ToPart(steps[i].u, steps[i].n);
    Resumes(states, steps, f, Sending(up.bucket, seen, up.encrypted, None, t), i, m);
    BodyRecorded(states, steps, f, m, k, up.bucket, seen, up.encrypted, None, t);
    ReadyLands(states[k], states[k + 1], f, up.bucket, up.encrypted, steps[m].h, steps[i].u, steps[i].n);
  }

  // ---------------------------------------------------------------------------------------------
  // Part copies
  // ---------------------------------------------------------------------------------------------

  /** A part copy begins at h and reads its source object at i. */
  ghost predicate CopiesPart(states: seq<World>, steps: seq<Step>, f: nat, h: nat, i: nat) {
    && IsRun(states, steps) && Quiet(steps, f, h, i)
    && steps[h].BeginPartCopy? && steps[h].f == f && steps[i].ReadObject? && steps[i].f == f
  }

  /** What a part copy knows once it has read its source: a whole plain object. */
  lemma PartSourceRead(states: seq<World>, steps: seq<Step>, f: nat, h: nat, i: nat)
    requires CopiesPart(states, steps, f, h, i)
    ensures steps[h].u in states[h].uploads && steps[h].source in states[h].buckets
    ensures (steps[h].source, steps[i].slot) in states[i].objects
    ensures states[i].objects[(steps[h].source, steps[i].slot)].parts == []
    ensures var up := states[h].uploads[steps[h].u];
            Waits(states[i + 1], f, PartOf(up.bucket, up.encrypted, ToPart(steps[h].u, steps[h].n), steps[h].source,
                                           states[h].buckets[steps[h].source], states[i].objects[(steps[h].source, steps[i].slot)]))
  {
    assert Next(states[h], steps[h], states[h + 1]);
    assert BeginPartCopyStep(states[h], f, steps[h].u, steps[h].n, steps[h].source, states[h + 1]);
    var up := states[h].uploads[steps[h].u];
    Resumes(states, steps, f, PartFrom(up.bucket, up.encrypted, ToPart(steps[h].u, steps[h].n), steps[h].source,
                                       states[h].buckets[steps[h].source]), h, i);
    assert ReadObjectStep(states[i], f, steps[i].slot, states[i + 1]);
  }

  /** A copied part that reuses its source's reference holds the source's bytes under that reference. */
  lemma ReusedPartStores(states: seq<World>, steps: seq<Step>, f: nat, h: nat, i: nat, m: nat, k: nat) returns (p: Held)
    requires CopiesPart(states, steps, f, h, i) && Quiet(steps, f, i, m) && Quiet(steps, f, m, k)
    requires steps[m] == ReusePart(f) && steps[k] == Store(f)
    ensures (steps[h].source, steps[i].slot) in states[i].objects && steps[h].source in states[h].buckets
    ensures var own := states[i].objects[(steps[h].source, steps[i].slot)].own;
            && p.ref == own.ref && p.data == own.data
            && p.history == if !states[h].buckets[steps[h].source].act then ""
                            else if own.history != "" then own.history
                            else states[h].buckets[steps[h].source].history
    ensures PartLands(states[k], states[k + 1], steps[h].u, steps[h].n, p)
  {
    PartSourceRead(states, steps, f, h, i);
    var fl := states[i + 1].flights[f];
    Resumes(states, steps, f, fl, i, m);
    assert ReusePartStep(states[m], f, states[m + 1]);
    p := Reused(fl.obj, fl.from);
    Resumes(states, steps, f, Ready(fl.bucket, fl.encrypt, p, fl.target), m, k);
    ReadyLands(states[k], states[k + 1], f, fl.bucket, fl.encrypt, p, steps[h].u, steps[h].n);
  }

  /** A streamed part holds the requested range of the bytes uploaded for the object that was read. */
  lemma StreamedPartStores(states: seq<World>, steps: seq<Step>, f: nat, h: nat, i: nat, m: nat, g: nat, k: nat)
    requires HarmlessUntil(states, steps, i) && CopiesPart(states, steps, f, h, i)
    requires Quiet(steps, f, i, m) && Quiet(steps, f, m, g) && SendsBody(states, steps, f, g, k)
    requires steps[m].BeginStream? && steps[m].f == f
    ensures (steps[h].source, steps[i].slot) in states[i].objects
    ensures var data := states[i].objects[(steps[h].source, steps[i].slot)].own.data;
            steps[m].lo <= steps[m].hi <= |data| && steps[g].h.data == data[steps[m].lo..steps[m].hi]
    ensures steps[g].h.ref in states[g + 1].node.blobs && states[g + 1].node.blobs[steps[g].h.ref] == steps[g].h.data
    ensures PartLands(states[k], states[k + 1], steps[h].u, steps[h].n, steps[g].h)
  {
    PartSourceRead(states, steps, f, h, i);
    var fl := states[i + 1].flights[f];
    Resumes(states, steps, f, fl, i, m);
    SourceWaits(states, steps, f, h, i);
    assert Streams(states, steps, f, i, m, g);
    StreamedBytes(states, steps, f, i, m, g);
    assert BeginStreamStep(states[m], f, steps[m].lo, steps[m].hi, states[m + 1]);
    var sending := states[m + 1].flights[f];
    Resumes(states, steps, f, sending, m, g);
    BodyRecorded(states, steps, f, g, k, sending.bucket, sending.seen, sending.encrypt, sending.body, sending.target);
    ReadyLands(states[k], states[k + 1], f, sending.bucket, sending.encrypt, steps[g].h, steps[h].u, steps[h].n);
  }

  lemma SourceWaits(states: seq<World>, steps: seq<Step>, f: nat, h: nat, i: nat)
    requires CopiesPart(states, steps, f, h, i)
    ensures f in states[i].flights && states[i].flights[f].PartFrom? && states[i].flights[f].source == steps[h].source
  {
    assert Next(states[h], steps[h], states[h + 1]);
    assert BeginPartCopyStep(states[h], f, steps[h].u, steps[h].n, steps[h].source, states[h + 1]);
    Resumes(states, steps, f, states[h + 1].flights[f], h, i);
  }

  // ---------------------------------------------------------------------------------------------
  // Commits and restores
  // ---------------------------------------------------------------------------------------------

  /** The step is a page read of this commit that finds the object. */
  predicate FindsOnPage(s: World, step: Step, f: nat, b: string, slot: string) {
    step.ReadPage? && step.f == f && slot in step.slots && (b, slot) in s.objects
  }

  /** What a commit holds: what its page reads between i and k found, each object as some read found it. */
  ghost predicate ReadBetween(states: seq<World>, steps: seq<Step>, f: nat, b: string, i: nat, k: nat, read: map<string, Obj>)
    requires k <= |steps| && k <= |states|
  {
    && (forall slot, j :: i < j < k && FindsOnPage(states[j], steps[j], f, b, slot) ==> slot in read)
    && (forall slot :: slot in read ==>
                         exists j :: i < j < k && FindsOnPage(states[j], steps[j], f, b, slot) && read[slot] == states[j].objects[(b, slot)])
  }

  /** A commit of the bucket begins at i and is not published before k. */
  ghost predicate Collects(states: seq<World>, steps: seq<Step>, f: nat, b: string, i: nat, k: nat) {
    && IsRun(states, steps) && i < k <= |steps| && steps[i] == BeginCommit(f, b)
    && forall j :: i < j < k ==> !(steps[j].Publish? && steps[j].f == f)
  }

  lemma {:induction false} Collected(states: seq<World>, steps: seq<Step>, f: nat, b: string, i: nat, k: nat)
    requires Collects(states, steps, f, b, i, k)
    ensures f in states[k].flights && states[k].flights[f].Committing? && states[k].flights[f].bucket == b
    ensures ReadBetween(states, steps, f, b, i, k, states[k].flights[f].read)
  {
    assert Next(states[k - 1], steps[k - 1], states[k - 1 + 1]);
    if k > i + 1 {
      Collected(states, steps, f, b, i, k - 1);
      var fl := states[k - 1].flights[f];
      if Advances(steps[k - 1], f) {
        CommitAdvances(states[k - 1], steps[k - 1], states[k], f, b, fl.read);
        PageAdds(states, steps, f, b, i, k - 1, fl.read);
      } else {
        StepCarries(states[k - 1], steps[k - 1], states[k], f, fl);
        NothingFound(states, steps, f, b, i, k - 1, fl.read);
      }
    }
  }

  /** A commit in flight goes on by reading a page. */
  lemma CommitAdvances(s: World, step: Step, s': World, f: nat, b: string, read: map<string, Obj>)
    requires Next(s, step, s') && Waits(s, f, Committing(b, read)) && Advances(step, f) && !step.Publish?
    ensures step.ReadPage? && step.f == f && Waits(s', f, Committing(b, read + Page(s, b, step.slots)))
  {
    if step.ReadPage? {
      assert ReadPageStep(s, f, step.slots, s');
    }
  }

  lemma PageAdds(states: seq<World>, steps: seq<Step>, f: nat, b: string, i: nat, k: nat, read: map<string, Obj>)
    requires i < k < |steps| && k < |states| && ReadBetween(states, steps, f, b, i, k, read)
    requires steps[k].ReadPage? && steps[k].f == f
    ensures ReadBetween(states, steps, f, b, i, k + 1, read + Page(states[k], b, steps[k].slots))
  {
    var page := Page(states[k], b, steps[k].slots);
    forall slot | slot in read + page
      ensures exists j :: i < j < k + 1 && FindsOnPage(states[j], steps[j], f, b, slot) && (read + page)[slot] == states[j].objects[(b, slot)]
    {
      if slot in page {
        assert FindsOnPage(states[k], steps[k], f, b, slot);
      } else {
        var j :| i < j < k && FindsOnPage(states[j], steps[j], f, b, slot) && read[slot] == states[j].objects[(b, slot)];
      }
    }
  }

  lemma NothingFound(states: seq<World>, steps: seq<Step>, f: nat, b: string, i: nat, k: nat, read: map<string, Obj>)
    requires i < k < |steps| && k < |states| && ReadBetween(states, steps, f, b, i, k, read)
    requires !(steps[k].ReadPage? && steps[k].f == f)
    ensures ReadBetween(states, steps, f, b, i, k + 1, read)
  {
    forall slot | slot in read
      ensures exists j :: i < j < k + 1 && FindsOnPage(states[j], steps[j], f, b, slot) && read[slot] == states[j].objects[(b, slot)]
    {
      var j :| i < j < k && FindsOnPage(states[j], steps[j], f, b, slot) && read[slot] == states[j].objects[(b, slot)];
    }
  }

  /** A published root holds exactly the objects the commit's page reads found, as they found them. */
  lemma PublishedIsRead(states: seq<World>, steps: seq<Step>, f: nat, b: string, i: nat, k: nat)
    requires Collects(states, steps, f, b, i, k) && k < |steps| && steps[k].Publish? && steps[k].f == f
    ensures steps[k].root in states[k + 1].roots && states[k + 1].roots[steps[k].root].0 == b
    ensures ReadBetween(states, steps, f, b, i, k, states[k + 1].roots[steps[k].root].1)
    ensures states[k + 1].objects == states[k].objects && states[k + 1].buckets == states[k].buckets && states[k + 1].uploads == states[k].uploads
  {
    Collected(states, steps, f, b, i, k);
    assert Next(states[k], steps[k], states[k + 1]);
    assert PublishStep(states[k], f, steps[k].root, states[k + 1]);
  }

  /** A restore makes the bucket's objects exactly those of the root and leaves other buckets alone. */
  lemma RestoreBrings(s: World, b: string, root: string, s': World)
    requires Next(s, Restore(b, root), s')
    ensures root in s.roots
    ensures forall slot :: (b, slot) in s'.objects <==> slot in s.roots[root].1
    ensures forall slot :: slot in s.roots[root].1 ==> s'.objects[(b, slot)] == s.roots[root].1[slot]
    ensures forall id: (string, string) :: id.0 != b ==> (id in s'.objects <==> id in s.objects)
    ensures forall id: (string, string) :: id.0 != b && id in s.objects ==> s'.objects[id] == s.objects[id]
    ensures s'.uploads == s.uploads && s'.buckets == s.buckets && s'.node == s.node && s'.roots == s.roots && s'.flights == s.flights
  {
    assert forall slot :: slot in s.roots[root].1 ==> (b, slot).0 == b && (b, slot).1 == slot;
  }

  // ---------------------------------------------------------------------------------------------
  // What no step touches
  // ---------------------------------------------------------------------------------------------

  /** The object a request is about to write. */
  predicate WritesTo(fl: Flight, id: (string, string)) {
    match fl
    case Copying(b, _, slot) => id == (b, slot)
    case Ready(b, _, _, ToObject(slot)) => id == (b, slot)
    case _ => false
  }

  /** The step may write or remove this object. */
  predicate WritesObject(s: World, step: Step, id: (string, string)) {
    match step
    case Store(f) => f in s.flights && WritesTo(s.flights[f], id)
    case Delete(b, slot) => id == (b, slot)
    case Restore(b, _) => id.0 == b
    case _ => false
  }

  ghost predicate SameObject(s: World, s': World, id: (string, string)) {
    (id in s'.objects <==> id in s.objects) && (id in s.objects ==> s'.objects[id] == s.objects[id])
  }

  lemma WritesElsewhere(s: World, f: nat, s': World, id: (string, string))
    requires Next(s, Store(f), s') && !WritesObject(s, Store(f), id)
    ensures SameObject(s, s', id)
  {
  }

  /** An object is changed by the write that names it, its deletion or a restore of its bucket, and by nothing else. */
  lemma OnlyWritersChange(s: World, step: Step, s': World, id: (string, string))
    requires Next(s, step, s') && !WritesObject(s, step, id)
    ensures SameObject(s, s', id)
  {
    if step.Store? {
      WritesElsewhere(s, step.f, s', id);
    } else if step.Restore? {
      RestoreBrings(s, step.b, step.root, s');
    } else if Copies(step) {
      CopyBecomes(s, step, s');
    } else if Begins(step) {
      BeginLeavesObjects(s, step, s');
    } else if step.SendBody? {
      assert SendBodyStep(s, step.f, step.h, step.node, s');
    }
  }

  lemma BeginLeavesObjects(s: World, step: Step, s': World)
    requires Next(s, step, s') && Begins(step)
    ensures s'.objects == s.objects
  {
  }

  /** An object stays as it was stored for as long as no step writes it. */
  lemma {:induction false} StaysStored(states: seq<World>, steps: seq<Step>, id: (string, string), i: nat, k: nat)
    requires IsRun(states, steps) && i <= k < |states| && id in states[i].objects
    requires forall j :: i <= j < k ==> !WritesObject(states[j], steps[j], id)
    ensures id in states[k].objects && states[k].objects[id] == states[i].objects[id]
  {
    hide WritesObject;
    if i < k {
      StaysStored(states, steps, id, i, k - 1);
      StepAt(states, steps, k - 1);
      assert !WritesObject(states[k - 1], steps[k - 1], id);
      hide IsRun, Next;
      OnlyWritersChange(states[k - 1], steps[k - 1], states[k], id);
    }
  }

  lemma StepAt(states: seq<World>, steps: seq<Step>, k: nat)
    requires IsRun(states, steps) && k < |steps|
    ensures Next(states[k], steps[k], states[k + 1])
  {
  }

  /** What is deleted or aborted is gone, and a new upload or bucket is as it was asked for. */
  lemma RecordsFollow(s: World, step: Step, s': World)
    requires Next(s, step, s')
    ensures step.Delete? ==> (step.b, step.slot) !in s'.objects && s'.uploads == s.uploads
    ensures step.AbortUpload? ==> step.u !in s'.uploads && s'.objects == s.objects
    ensures step.AbortUpload? ==> forall u :: u != step.u && u in s.uploads ==> u in s'.uploads && s'.uploads[u] == s.uploads[u]
    ensures step.CreateUpload? ==> s'.uploads == s.uploads[step.u := Upload(step.b, step.encrypt, map[])]
    ensures step.CreateBucket? ==> step.b !in s.buckets && step.b in s'.buckets && s'.buckets[step.b].act == step.act
    ensures step.CreateBucket? ==> s'.buckets[step.b].history == if step.act then step.history else ""
    ensures step.DeleteBucket? ==> step.b !in s'.buckets && forall id :: id in s.objects ==> id.0 != step.b
    ensures step.MintHistory? ==> step.history in s'.node.histories && s'.buckets == s.buckets
  {
  }

  /** A grant or revoke moves its bucket to the history the node answered with. */
  lemma GrantStores(states: seq<World>, steps: seq<Step>, f: nat, i: nat, m: nat, k: nat)
    requires IsRun(states, steps) && Quiet(steps, f, i, m) && Quiet(steps, f, m, k)
    requires steps[i].BeginGrant? && steps[i].f == f && steps[m].AnswerGrant? && steps[m].f == f && steps[k] == Store(f)
    ensures steps[i].b in states[i].buckets && states[i].buckets[steps[i].b].act
    ensures steps[i].b in states[k].buckets ==>
              states[k + 1].buckets == states[k].buckets[steps[i].b := Bucket(true, steps[m].history)]
    ensures states[k + 1].objects == states[k].objects && states[k + 1].uploads == states[k].uploads
  {
    assert Next(states[i], steps[i], states[i + 1]);
    Resumes(states, steps, f, Granting(steps[i].b, None), i, m);
    Resumes(states, steps, f, Granting(steps[i].b, Some(steps[m].history)), m, k);
  }

  // ---------------------------------------------------------------------------------------------
  // When a request may go on
  // ---------------------------------------------------------------------------------------------

  ghost predicate MayStep(s: World, step: Step) {
    exists s' :: Next(s, step, s')
  }

  /** An object copy goes on exactly under one bucket name, or between buckets both read as outside ACT. */
  lemma CopyGoesOnIff(s: World, f: nat, b: string, seen: Bucket, slot: string, source: string)
    requires Waits(s, f, CopyTo(b, seen, slot))
    ensures MayStep(s, ReadSource(f, source)) <==>
            source in s.buckets && (source == b || (!s.buckets[source].act && !seen.act))
  {
    if source in s.buckets && (source == b || (!s.buckets[source].act && !seen.act)) {
      var s' := s.(flights := s.flights[f := CopyFrom(b, seen, slot, source, s.buckets[source])]);
      assert Next(s, ReadSource(f, source), s');
    }
  }

  /** Any object may be copied whole; only one without parts may be copied into a part. */
  lemma SourceReadIff(s: World, f: nat, fl: Flight, slot: string)
    requires Waits(s, f, fl) && (fl.CopyFrom? || fl.PartFrom?)
    ensures MayStep(s, ReadObject(f, slot)) <==>
            (fl.source, slot) in s.objects && (fl.PartFrom? ==> s.objects[(fl.source, slot)].parts == [])
  {
    if (fl.source, slot) in s.objects && (fl.PartFrom? ==> s.objects[(fl.source, slot)].parts == []) {
      var o := s.objects[(fl.source, slot)];
      var fl' := if fl.CopyFrom? then Copying(fl.bucket, Pinned(o, fl.from, fl.seen), fl.slot)
                 else PartOf(fl.bucket, fl.encrypt, fl.target, fl.source, fl.from, o);
      assert Next(s, ReadObject(f, slot), s.(flights := s.flights[f := fl']));
    }
  }

  /** A part copy reuses the reference exactly when there is nothing to encrypt or decrypt on the way. */
  lemma ReuseIff(s: World, f: nat, fl: Flight)
    requires Waits(s, f, fl) && fl.PartOf?
    ensures MayStep(s, ReusePart(f)) <==>
            && fl.bucket in s.buckets && (fl.source == fl.bucket || (!fl.from.act && !s.buckets[fl.bucket].act))
            && (fl.obj.own.ref == "" || fl.obj.encrypted == fl.encrypt)
  {
    var s' := s.(flights := s.flights[f := Ready(fl.bucket, fl.encrypt, Reused(fl.obj, fl.from), fl.target)]);
    if PartCopyAllowed(s, f) && Reusable(fl.obj, fl.encrypt) {
      assert Next(s, ReusePart(f), s');
    }
  }

  /** An upload completes exactly when it is there and holds every one of the parts named. */
  lemma CompletesIff(s: World, f: nat, u: string, numbers: seq<int>, slot: string)
    requires f !in s.flights
    ensures MayStep(s, Complete(f, u, numbers, slot)) <==>
            u in s.uploads && numbers != [] && forall i :: 0 <= i < |numbers| ==> numbers[i] in s.uploads[u].parts
  {
    if u in s.uploads && numbers != [] && forall i :: 0 <= i < |numbers| ==> numbers[i] in s.uploads[u].parts {
      var up := s.uploads[u];
      var parts := seq(|numbers|, i requires 0 <= i < |numbers| => up.parts[numbers[i]]);
      assert Next(s, Complete(f, u, numbers, slot), s.(flights := s.flights[f := Copying(up.bucket, Obj(up.encrypted, Empty, parts), slot)]));
    }
  }

  /** A bucket is restored exactly from a root that was committed from a bucket of its name. */
  lemma RestoresIff(s: World, b: string, root: string)
    ensures MayStep(s, Restore(b, root)) <==> b in s.buckets && root in s.roots && s.roots[root].0 == b
  {
    if b in s.buckets && root in s.roots && s.roots[root].0 == b {
      assert Next(s, Restore(b, root), s.(objects := Replaced(s, b, s.roots[root].1)));
    }
  }

  /** Only buckets outside ACT are committed. */
  lemma CommitsIff(s: World, f: nat, b: string)
    requires f !in s.flights
    ensures MayStep(s, BeginCommit(f, b)) <==> b in s.buckets && !s.buckets[b].act
  {
    if b in s.buckets && !s.buckets[b].act {
      assert Next(s, BeginCommit(f, b), s.(flights := s.flights[f := Committing(b, map[])]));
    }
  }
}
