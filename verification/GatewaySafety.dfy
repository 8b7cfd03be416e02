/**
 * What every run of gateway and node keeps: stored bytes are readable where they are, and outside
 * ACT a reference is key-bearing exactly when its object is marked encrypted.
 */
module GatewaySafety {
  import opened Wrappers
  import opened Gateway
  import Manifest

  // ---------------------------------------------------------------------------------------------
  // The invariant
  // ---------------------------------------------------------------------------------------------

  /** Stored bytes are what the node holds; ACT ones carry the history the node holds for them. */
  predicate HeldOk(n: Node, encrypted: bool, h: Held) {
    if h.ref == "" then h.data == ""
    else
      && h.ref in n.blobs && n.blobs[h.ref] == h.data
      && if h.ref in n.actRefs then n.actRefs[h.ref] == h.history && h.history != ""
         else Manifest.KeyBearing(h.ref) <==> encrypted
  }

  predicate ObjOk(n: Node, o: Obj) {
    HeldOk(n, o.encrypted, o.own) && forall i :: 0 <= i < |o.parts| ==> HeldOk(n, o.encrypted, o.parts[i])
  }

  /** Bytes the node holds under a history belong in an ACT bucket, all others outside. */
  predicate Fits(n: Node, act: bool, h: Held) {
    h.ref != "" ==> (act <==> h.ref in n.actRefs)
  }

  predicate ObjFits(n: Node, act: bool, o: Obj) {
    Fits(n, act, o.own) && forall i :: 0 <= i < |o.parts| ==> Fits(n, act, o.parts[i])
  }

  predicate PartsFit(n: Node, act: bool, up: Upload) {
    forall k :: k in up.parts ==> Fits(n, act, up.parts[k])
  }

  predicate RootFits(n: Node, act: bool, objs: map<string, Obj>) {
    forall slot :: slot in objs ==> ObjFits(n, act, objs[slot])
  }

  /** A part whose upload is gone will be refused when it is written. */
  predicate Awaited(s: World, t: Target) {
    t.ToPart? ==> t.upload in s.uploads
  }

  /**
   * What a request knows agrees with the bucket of this name having this setting.
   *  - Bytes to be recorded fit it, and bytes yet to be sent will.
   *  - A grant will mark the bucket as ACT.
   *  - An object copy that took its destination for a plain bucket will bring plain bytes from elsewhere.
   *    Between different names both ends were plain when read; under one name the object is read from
   *    the bucket it ends up in.
   *  - A part copy drops the history of bytes whose bucket it took for a plain one.
   */
  predicate FlightFits(s: World, name: string, act: bool, f: Flight) {
    match f
    case Sending(b, seen, _, _, t) => name == b && Awaited(s, t) ==> seen.act == act
    case Ready(b, _, h, t) => name == b && Awaited(s, t) ==> Fits(s.node, act, h)
    case Copying(b, o, _) => name == b ==> ObjFits(s.node, act, o)
    case CopyTo(b, seen, _) => name == b && act ==> seen.act
    case CopyFrom(b, _, _, source, _) => b != source && (name == b || name == source) ==> !act
    case PartFrom(_, _, t, source, from) => name == source && act && Awaited(s, t) ==> from.act
    case PartOf(b, encrypt, t, source, from, o) =>
      name == b && b == source && Reusable(o, encrypt) && Awaited(s, t) ==> Fits(s.node, act, Reused(o, from))
    case Granting(b, _) => name == b ==> act
    case Committing(b, read) => name == b ==> RootFits(s.node, act, read)
  }

  /**
   * Nothing left over from an earlier bucket of this name was written, or read, under the other setting.
   * Deleting a bucket leaves its open uploads, requests in flight and commit roots behind; they come
   * back to life when a bucket of that name is created again. The results hold up to the first
   * creation for which this fails, and GatewayAnomalies shows that each such creation breaks them.
   */
  ghost predicate LeftoversFit(s: World, b: string, act: bool) {
    && (forall u :: u in s.uploads && s.uploads[u].bucket == b ==> PartsFit(s.node, act, s.uploads[u]))
    && (forall f :: f in s.flights ==> FlightFits(s, b, act, s.flights[f]))
    && (forall r :: r in s.roots && s.roots[r].0 == b ==> RootFits(s.node, act, s.roots[r].1))
  }

  ghost predicate BucketsOk(s: World) {
    forall b :: b in s.buckets && s.buckets[b].act ==> s.buckets[b].history != "" && s.buckets[b].history in s.node.histories
  }

  predicate StoredOk(s: World, b: string, o: Obj) {
    b in s.buckets && ObjOk(s.node, o) && ObjFits(s.node, s.buckets[b].act, o)
  }

  ghost predicate ObjectsOk(s: World) {
    forall id :: id in s.objects ==> StoredOk(s, id.0, s.objects[id])
  }

  ghost predicate UploadOk(s: World, u: string, up: Upload) {
    && u in s.usedIds
    && (forall n :: n in up.parts ==> HeldOk(s.node, up.encrypted, up.parts[n]))
    && (up.bucket in s.buckets ==> PartsFit(s.node, s.buckets[up.bucket].act, up))
  }

  ghost predicate UploadsOk(s: World) {
    forall u :: u in s.uploads ==> UploadOk(s, u, s.uploads[u])
  }

  /** A part in flight belongs to its upload's bucket and carries its encryption setting. */
  predicate TargetOk(s: World, bucket: string, encrypt: bool, t: Target) {
    t.ToPart? ==> t.upload in s.usedIds && (t.upload in s.uploads ==> s.uploads[t.upload].bucket == bucket && s.uploads[t.upload].encrypted == encrypt)
  }

  predicate ObjsOk(n: Node, objs: map<string, Obj>) {
    forall slot :: slot in objs ==> ObjOk(n, objs[slot])
  }

  /** What a part copy has read is sound, and so is the part it may become. */
  predicate PartOfOk(s: World, b: string, encrypt: bool, t: Target, source: string, from: Bucket, o: Obj) {
    && t.ToPart? && TargetOk(s, b, encrypt, t) && HeldOk(s.node, o.encrypted, o.own)
    && (Awaited(s, t) && Reusable(o, encrypt) ==> HeldOk(s.node, encrypt, Reused(o, from)))
    && (Awaited(s, t) && b != source && !from.act ==> Fits(s.node, false, o.own))
  }

  /** What a request has read and sent so far, whatever bucket is there now. */
  predicate FlightSound(s: World, f: Flight) {
    match f
    case Sending(b, seen, encrypt, _, t) =>
      TargetOk(s, b, encrypt, t) && (seen.act ==> seen.history != "" && seen.history in s.node.histories)
    case Ready(b, encrypt, h, t) => TargetOk(s, b, encrypt, t) && (Awaited(s, t) ==> HeldOk(s.node, encrypt, h))
    case Copying(_, o, _) => ObjOk(s.node, o)
    case CopyTo(_, _, _) => true
    case CopyFrom(b, seen, _, source, from) => CopyAllowed(source, from, b, seen)
    case PartFrom(b, encrypt, t, _, _) => t.ToPart? && TargetOk(s, b, encrypt, t)
    case PartOf(b, encrypt, t, source, from, o) => PartOfOk(s, b, encrypt, t, source, from, o)
    case Granting(_, answer) => answer.Some? ==> answer.value != "" && answer.value in s.node.histories
    case Committing(_, read) => ObjsOk(s.node, read)
  }

  ghost predicate FlightOk(s: World, f: Flight) {
    FlightSound(s, f) && forall name :: name in s.buckets ==> FlightFits(s, name, s.buckets[name].act, f)
  }

  ghost predicate FlightsOk(s: World) {
    forall f :: f in s.flights ==> FlightOk(s, s.flights[f])
  }

  predicate RootOk(s: World, b: string, objs: map<string, Obj>) {
    ObjsOk(s.node, objs) && (b in s.buckets ==> RootFits(s.node, s.buckets[b].act, objs))
  }

  ghost predicate RootsOk(s: World) {
    forall r :: r in s.roots ==> RootOk(s, s.roots[r].0, s.roots[r].1)
  }

  ghost predicate Inv(s: World) {
    BucketsOk(s) && ObjectsOk(s) && UploadsOk(s) && FlightsOk(s) && RootsOk(s)
  }

  // ---------------------------------------------------------------------------------------------
  // The node only grows
  // ---------------------------------------------------------------------------------------------

  /** Nothing the node holds changes, and no plain reference becomes an ACT one. */
  ghost predicate Grows(n: Node, n': Node) {
    && n.histories <= n'.histories
    && (forall r :: r in n.blobs ==> r in n'.blobs && n'.blobs[r] == n.blobs[r])
    && (forall r :: r in n.actRefs ==> r in n'.actRefs && n'.actRefs[r] == n.actRefs[r])
    && forall r :: r in n.blobs && r !in n.actRefs ==> r !in n'.actRefs
  }

  lemma HeldStays(n: Node, n': Node, encrypted: bool, h: Held)
    requires Grows(n, n') && HeldOk(n, encrypted, h)
    ensures HeldOk(n', encrypted, h) && forall act :: Fits(n, act, h) <==> Fits(n', act, h)
  {
  }

  lemma SendsGrows(n: Node, b: Bucket, encrypt: bool, data: string, h: Held, n': Node)
    requires Sends(n, b, encrypt, data, h, n') && (b.act ==> b.history != "")
    ensures Grows(n, n') && HeldOk(n', encrypt, h) && Fits(n', b.act, h)
  {
  }

  lemma ObjStays(n: Node, n': Node, o: Obj)
    requires Grows(n, n') && ObjOk(n, o)
    ensures ObjOk(n', o) && forall act :: ObjFits(n, act, o) <==> ObjFits(n', act, o)
  {
    HeldStays(n, n', o.encrypted, o.own);
    forall i | 0 <= i < |o.parts|
      ensures HeldOk(n', o.encrypted, o.parts[i]) && forall act :: Fits(n, act, o.parts[i]) <==> Fits(n', act, o.parts[i])
    {
      HeldStays(n, n', o.encrypted, o.parts[i]);
    }
  }

  lemma ObjsStay(n: Node, n': Node, objs: map<string, Obj>)
    requires Grows(n, n') && ObjsOk(n, objs)
    ensures ObjsOk(n', objs) && forall act :: RootFits(n, act, objs) <==> RootFits(n', act, objs)
  {
    forall slot | slot in objs
      ensures ObjOk(n', objs[slot]) && forall act :: ObjFits(n, act, objs[slot]) <==> ObjFits(n', act, objs[slot])
    {
      ObjStays(n, n', objs[slot]);
    }
  }

  // ---------------------------------------------------------------------------------------------
  // Carrying each part of the invariant over a step
  // ---------------------------------------------------------------------------------------------

  /** No bucket appears or changes its setting. */
  ghost predicate Continues(s: World, s': World) {
    && Grows(s.node, s'.node)
    && forall b :: b in s'.buckets ==> b in s.buckets && s'.buckets[b].act == s.buckets[b].act
  }

  lemma CarryBuckets(s: World, s': World)
    requires BucketsOk(s) && Continues(s, s')
    requires forall b :: b in s'.buckets ==>
                           s.buckets[b] == s'.buckets[b] || (s'.buckets[b].history != "" && s'.buckets[b].history in s'.node.histories)
    ensures BucketsOk(s')
  {
  }

  lemma CarryObjects(s: World, s': World)
    requires ObjectsOk(s) && Continues(s, s')
    requires forall id :: id in s'.objects ==>
                            (id in s.objects && s.objects[id] == s'.objects[id] && id.0 in s'.buckets) || StoredOk(s', id.0, s'.objects[id])
    ensures ObjectsOk(s')
  {
    forall id | id in s'.objects
      ensures StoredOk(s', id.0, s'.objects[id])
    {
      if id in s.objects && s.objects[id] == s'.objects[id] && id.0 in s'.buckets {
        assert StoredOk(s, id.0, s.objects[id]);
        ObjStays(s.node, s'.node, s.objects[id]);
      }
    }
  }

  lemma UploadStays(s: World, s': World, u: string, up: Upload)
    requires UploadOk(s, u, up) && Continues(s, s') && s.usedIds <= s'.usedIds
    ensures UploadOk(s', u, up)
  {
    forall n | n in up.parts
      ensures HeldOk(s'.node, up.encrypted, up.parts[n]) && forall act :: Fits(s.node, act, up.parts[n]) <==> Fits(s'.node, act, up.parts[n])
    {
      HeldStays(s.node, s'.node, up.encrypted, up.parts[n]);
    }
  }

  lemma CarryUploads(s: World, s': World)
    requires UploadsOk(s) && Continues(s, s') && s.usedIds <= s'.usedIds
    requires forall u :: u in s'.uploads ==> (u in s.uploads && s.uploads[u] == s'.uploads[u]) || UploadOk(s', u, s'.uploads[u])
    ensures UploadsOk(s')
  {
    forall u | u in s'.uploads
      ensures UploadOk(s', u, s'.uploads[u])
    {
      if u in s.uploads && s.uploads[u] == s'.uploads[u] {
        UploadStays(s, s', u, s.uploads[u]);
      }
    }
  }

  /** Uploads that are still there are unchanged in what flights rely on, and new ids are new. */
  ghost predicate SameUploads(s: World, s': World) {
    && s.usedIds <= s'.usedIds
    && forall u :: u in s'.uploads && u in s.usedIds ==>
                     u in s.uploads && s.uploads[u].bucket == s'.uploads[u].bucket && s.uploads[u].encrypted == s'.uploads[u].encrypted
  }

  /** Once nobody waits for a part, nobody ever will. */
  lemma TargetStays(s: World, s': World, bucket: string, encrypt: bool, t: Target)
    requires TargetOk(s, bucket, encrypt, t) && SameUploads(s, s')
    ensures TargetOk(s', bucket, encrypt, t) && (Awaited(s', t) ==> Awaited(s, t))
  {
  }

  lemma SoundStays(s: World, s': World, f: Flight)
    requires FlightSound(s, f) && Grows(s.node, s'.node) && SameUploads(s, s')
    ensures FlightSound(s', f)
  {
    match f
    case Sending(b, _, encrypt, _, t) => TargetStays(s, s', b, encrypt, t);
    case Ready(b, encrypt, h, t) =>
      TargetStays(s, s', b, encrypt, t);
      if Awaited(s', t) {
        HeldStays(s.node, s'.node, encrypt, h);
      }
    case Copying(_, o, _) => ObjStays(s.node, s'.node, o);
    case CopyTo(_, _, _) =>
    case CopyFrom(_, _, _, _, _) =>
    case PartFrom(b, encrypt, t, _, _) => TargetStays(s, s', b, encrypt, t);
    case PartOf(b, encrypt, t, source, from, o) => PartOfStays(s, s', b, encrypt, t, source, from, o);
    case Granting(_, _) =>
    case Committing(_, read) => ObjsStay(s.node, s'.node, read);
  }

  lemma PartOfStays(s: World, s': World, b: string, encrypt: bool, t: Target, source: string, from: Bucket, o: Obj)
    requires PartOfOk(s, b, encrypt, t, source, from, o) && Grows(s.node, s'.node) && SameUploads(s, s')
    ensures PartOfOk(s', b, encrypt, t, source, from, o)
  {
    TargetStays(s, s', b, encrypt, t);
    HeldStays(s.node, s'.node, o.encrypted, o.own);
    if Awaited(s', t) && Reusable(o, encrypt) {
      HeldStays(s.node, s'.node, encrypt, Reused(o, from));
    }
  }

  lemma FitsStays(s: World, s': World, name: string, act: bool, f: Flight)
    requires FlightSound(s, f) && FlightFits(s, name, act, f) && Grows(s.node, s'.node) && SameUploads(s, s')
    ensures FlightFits(s', name, act, f)
  {
    match f
    case Sending(b, _, encrypt, _, t) => TargetStays(s, s', b, encrypt, t);
    case Ready(b, encrypt, h, t) =>
      TargetStays(s, s', b, encrypt, t);
      if Awaited(s', t) {
        HeldStays(s.node, s'.node, encrypt, h);
      }
    case Copying(_, o, _) => ObjStays(s.node, s'.node, o);
    case CopyTo(_, _, _) =>
    case CopyFrom(_, _, _, _, _) =>
    case PartFrom(b, encrypt, t, _, _) => TargetStays(s, s', b, encrypt, t);
    case PartOf(b, encrypt, t, _, from, o) =>
      TargetStays(s, s', b, encrypt, t);
      if Awaited(s', t) && Reusable(o, encrypt) {
        HeldStays(s.node, s'.node, encrypt, Reused(o, from));
      }
    case Granting(_, _) =>
    case Committing(_, read) => ObjsStay(s.node, s'.node, read);
  }

  lemma FlightStays(s: World, s': World, f: Flight)
    requires FlightOk(s, f) && Continues(s, s') && SameUploads(s, s')
    ensures FlightOk(s', f)
  {
    SoundStays(s, s', f);
    forall name | name in s'.buckets
      ensures FlightFits(s', name, s'.buckets[name].act, f)
    {
      FitsStays(s, s', name, s.buckets[name].act, f);
    }
  }

  lemma CarryFlights(s: World, s': World)
    requires FlightsOk(s) && Continues(s, s') && SameUploads(s, s')
    requires forall f :: f in s'.flights ==> (f in s.flights && s.flights[f] == s'.flights[f]) || FlightOk(s', s'.flights[f])
    ensures FlightsOk(s')
  {
    forall f | f in s'.flights
      ensures FlightOk(s', s'.flights[f])
    {
      if f in s.flights && s.flights[f] == s'.flights[f] {
        FlightStays(s, s', s.flights[f]);
      }
    }
  }

  lemma RootStays(s: World, s': World, b: string, objs: map<string, Obj>)
    requires RootOk(s, b, objs) && Continues(s, s')
    ensures RootOk(s', b, objs)
  {
    ObjsStay(s.node, s'.node, objs);
  }

  lemma CarryRoots(s: World, s': World)
    requires RootsOk(s) && Continues(s, s')
    requires forall r :: r in s'.roots ==> (r in s.roots && s.roots[r] == s'.roots[r]) || RootOk(s', s'.roots[r].0, s'.roots[r].1)
    ensures RootsOk(s')
  {
    forall r | r in s'.roots
      ensures RootOk(s', s'.roots[r].0, s'.roots[r].1)
    {
      if r in s.roots && s.roots[r] == s'.roots[r] {
        RootStays(s, s', s.roots[r].0, s.roots[r].1);
      }
    }
  }

  // ---------------------------------------------------------------------------------------------
  // The steps
  // ---------------------------------------------------------------------------------------------

  lemma UploadsUsed(s: World)
    requires UploadsOk(s)
    ensures forall u :: u in s.uploads ==> u in s.usedIds
  {
    forall u | u in s.uploads
      ensures u in s.usedIds
    {
      assert UploadOk(s, u, s.uploads[u]);
    }
  }

  lemma ObjectsHoused(s: World)
    requires ObjectsOk(s)
    ensures forall id :: id in s.objects ==> id.0 in s.buckets
  {
    forall id | id in s.objects
      ensures id.0 in s.buckets
    {
      assert StoredOk(s, id.0, s.objects[id]);
    }
  }

  /** A step that changes at most the node and one flight. */
  lemma FlightStep(s: World, s': World, f: nat)
    requires Inv(s) && Grows(s.node, s'.node)
    requires s' == s.(node := s'.node, flights := s'.flights)
    requires f in s'.flights && s'.flights == s.flights[f := s'.flights[f]] && FlightOk(s', s'.flights[f])
    ensures Inv(s')
  {
    ObjectsHoused(s);
    CarryBuckets(s, s');
    CarryObjects(s, s');
    CarryUploads(s, s');
    CarryFlights(s, s');
    CarryRoots(s, s');
  }

  lemma SendBodyKeeps(s: World, f: nat, h: Held, node: Node, s': World)
    requires Inv(s) && SendBodyStep(s, f, h, node, s')
    ensures Inv(s')
  {
    var fl := s.flights[f];
    assert FlightOk(s, fl);
    SendsGrows(s.node, fl.seen, fl.encrypt, h.data, h, node);
    assert FlightOk(s', s'.flights[f]);
    FlightStep(s, s', f);
  }

  lemma ReadSourceKeeps(s: World, f: nat, source: string, s': World)
    requires Inv(s) && ReadSourceStep(s, f, source, s')
    ensures Inv(s')
  {
    assert FlightOk(s, s.flights[f]);
    assert FlightOk(s', s'.flights[f]);
    FlightStep(s, s', f);
  }

  lemma PinnedOk(n: Node, o: Obj, srcB: Bucket, dstB: Bucket)
    requires ObjOk(n, o)
    ensures ObjOk(n, Pinned(o, srcB, dstB)) && forall act :: ObjFits(n, act, o) ==> ObjFits(n, act, Pinned(o, srcB, dstB))
  {
  }

  lemma CopyReadKeeps(s: World, f: nat, slot: string, s': World)
    requires Inv(s) && ReadObjectStep(s, f, slot, s') && s.flights[f].CopyFrom?
    ensures Inv(s')
  {
    var fl := s.flights[f];
    assert FlightOk(s, fl);
    var o := s.objects[(fl.source, slot)];
    assert StoredOk(s, fl.source, o);
    PinnedOk(s.node, o, fl.from, fl.seen);
    FlightStep(s, s', f);
  }

  /** A part copy keeps the history of ACT bytes, unless it took their bucket for a plain one. */
  lemma ReusedOk(n: Node, o: Obj, encrypt: bool, from: Bucket, act: bool)
    requires HeldOk(n, o.encrypted, o.own) && Fits(n, act, o.own) && (act ==> from.act) && Reusable(o, encrypt)
    ensures HeldOk(n, encrypt, Reused(o, from)) && Fits(n, act, Reused(o, from))
  {
  }

  lemma PartReadKeeps(s: World, f: nat, slot: string, s': World)
    requires Inv(s) && ReadObjectStep(s, f, slot, s') && s.flights[f].PartFrom?
    ensures Inv(s')
  {
    var fl := s.flights[f];
    assert FlightOk(s, fl);
    var o := s.objects[(fl.source, slot)];
    assert StoredOk(s, fl.source, o);
    assert FlightFits(s, fl.source, s.buckets[fl.source].act, fl);
    if Awaited(s, fl.target) && Reusable(o, fl.encrypt) {
      ReusedOk(s.node, o, fl.encrypt, fl.from, s.buckets[fl.source].act);
    }
    assert PartOfOk(s', fl.bucket, fl.encrypt, fl.target, fl.source, fl.from, o);
    FlightStep(s, s', f);
  }

  lemma ReuseKeeps(s: World, f: nat, s': World)
    requires Inv(s) && ReusePartStep(s, f, s')
    ensures Inv(s')
  {
    var fl := s.flights[f];
    assert FlightOk(s, fl);
    assert FlightFits(s, fl.bucket, s.buckets[fl.bucket].act, fl);
    FlightStep(s, s', f);
  }

  lemma CompleteKeeps(s: World, f: nat, u: string, numbers: seq<int>, slot: string, s': World)
    requires Inv(s) && CompleteStep(s, f, u, numbers, slot, s')
    ensures Inv(s')
  {
    var up := s.uploads[u];
    assert UploadOk(s, u, up);
    var o := s'.flights[f].obj;
    forall i | 0 <= i < |o.parts|
      ensures HeldOk(s.node, up.encrypted, o.parts[i])
      ensures up.bucket in s.buckets ==> Fits(s.node, s.buckets[up.bucket].act, o.parts[i])
    {
      var n := numbers[i];
      assert n in up.parts && o.parts[i] == up.parts[n];
      assert HeldOk(s.node, up.encrypted, up.parts[n]);
    }
    FlightStep(s, s', f);
  }

  lemma BeginPutKeeps(s: World, step: Step, s': World)
    requires Inv(s) && Next(s, step, s') && (step.BeginPut? || step.BeginCopy?)
    ensures Inv(s')
  {
    assert FlightOk(s', s'.flights[step.f]);
    FlightStep(s, s', step.f);
  }

  lemma BeginPartKeeps(s: World, step: Step, s': World)
    requires Inv(s) && Next(s, step, s') && (step.BeginPart? || step.BeginPartCopy?)
    ensures Inv(s')
  {
    assert UploadOk(s, step.u, s.uploads[step.u]);
    assert FlightOk(s', s'.flights[step.f]);
    FlightStep(s, s', step.f);
  }

  lemma BeginStreamKeeps(s: World, f: nat, lo: nat, hi: nat, s': World)
    requires Inv(s) && BeginStreamStep(s, f, lo, hi, s')
    ensures Inv(s')
  {
    assert FlightOk(s, s.flights[f]);
    assert FlightOk(s', s'.flights[f]);
    FlightStep(s, s', f);
  }

  lemma BeginGrantKeeps(s: World, step: Step, s': World)
    requires Inv(s) && Next(s, step, s') && (step.BeginGrant? || step.BeginCommit?)
    ensures Inv(s')
  {
    assert FlightOk(s', s'.flights[step.f]);
    FlightStep(s, s', step.f);
  }

  lemma AnswerKeeps(s: World, f: nat, history: string, s': World)
    requires Inv(s) && Next(s, AnswerGrant(f, history), s')
    ensures Inv(s')
  {
    assert FlightOk(s, s.flights[f]);
    assert FlightOk(s', s'.flights[f]);
    FlightStep(s, s', f);
  }

  lemma ReadPageKeeps(s: World, f: nat, slots: set<string>, s': World)
    requires Inv(s) && ReadPageStep(s, f, slots, s')
    ensures Inv(s')
  {
    var fl := s.flights[f];
    assert FlightOk(s, fl);
    assert FlightFits(s, fl.bucket, s.buckets[fl.bucket].act, fl);
    var read := s'.flights[f].read;
    forall slot | slot in read
      ensures ObjOk(s.node, read[slot]) && ObjFits(s.node, s.buckets[fl.bucket].act, read[slot])
    {
      if slot in Page(s, fl.bucket, slots) {
        assert StoredOk(s, fl.bucket, s.objects[(fl.bucket, slot)]);
      } else {
        assert slot in fl.read && read[slot] == fl.read[slot];
      }
    }
    assert ObjsOk(s.node, read) && RootFits(s.node, s.buckets[fl.bucket].act, read);
    FlightStep(s, s', f);
  }

  /** A step that leaves the node and the settings of buckets alone. */
  lemma IndexStep(s: World, s': World)
    requires Inv(s) && s'.node == s.node && s'.buckets == s.buckets && s'.roots == s.roots && SameUploads(s, s')
    requires forall id :: id in s'.objects ==> (id in s.objects && s.objects[id] == s'.objects[id]) || StoredOk(s', id.0, s'.objects[id])
    requires forall u :: u in s'.uploads ==> (u in s.uploads && s.uploads[u] == s'.uploads[u]) || UploadOk(s', u, s'.uploads[u])
    requires forall f :: f in s'.flights ==> f in s.flights && s.flights[f] == s'.flights[f]
    ensures Inv(s')
  {
    ObjectsHoused(s);
    CarryBuckets(s, s');
    CarryObjects(s, s');
    CarryUploads(s, s');
    CarryFlights(s, s');
    CarryRoots(s, s');
  }

  lemma StoreObjectKeeps(s: World, f: nat, id: (string, string), o: Obj, s': World)
    requires Inv(s) && StoredOk(s, id.0, o)
    requires s' == s.(objects := s.objects[id := o], flights := s.flights - {f})
    ensures Inv(s')
  {
    UploadsUsed(s);
    IndexStep(s, s');
  }

  lemma StorePartKeeps(s: World, f: nat, u: string, n: int, h: Held, s': World)
    requires Inv(s) && u in s.uploads && HeldOk(s.node, s.uploads[u].encrypted, h)
    requires s.uploads[u].bucket in s.buckets ==> Fits(s.node, s.buckets[s.uploads[u].bucket].act, h)
    requires s' == s.(uploads := s.uploads[u := s.uploads[u].(parts := s.uploads[u].parts[n := h])], flights := s.flights - {f})
    ensures Inv(s')
  {
    UploadsUsed(s);
    assert UploadOk(s, u, s.uploads[u]);
    assert UploadOk(s', u, s'.uploads[u]);
    IndexStep(s, s');
  }

  lemma NothingStored(s: World, f: nat, s': World)
    requires Inv(s) && s' == s.(flights := s.flights - {f})
    ensures Inv(s')
  {
    UploadsUsed(s);
    IndexStep(s, s');
  }

  /** A recorded history leaves an ACT bucket an ACT bucket. */
  lemma StoreGrantKeeps(s: World, f: nat, b: string, history: string, s': World)
    requires Inv(s) && b in s.buckets && s.buckets[b].act && history != "" && history in s.node.histories
    requires s' == s.(buckets := s.buckets[b := Bucket(true, history)], flights := s.flights - {f})
    ensures Inv(s')
  {
    ObjectsHoused(s);
    UploadsUsed(s);
    CarryBuckets(s, s');
    CarryObjects(s, s');
    CarryUploads(s, s');
    CarryFlights(s, s');
    CarryRoots(s, s');
  }

  lemma StoreHeldKeeps(s: World, f: nat, s': World)
    requires Inv(s) && f in s.flights && s.flights[f].Ready? && s' == Stored(s, s.flights[f]).(flights := s.flights - {f})
    ensures Inv(s')
  {
    var fl := s.flights[f];
    assert FlightOk(s, fl);
    match fl.target
    case ToObject(slot) =>
      if fl.bucket in s.buckets {
        StoreObjectKeeps(s, f, (fl.bucket, slot), Obj(fl.encrypt, fl.held, []), s');
      } else {
        NothingStored(s, f, s');
      }
    case ToPart(u, n) =>
      if u in s.uploads {
        StorePartKeeps(s, f, u, n, fl.held, s');
      } else {
        NothingStored(s, f, s');
      }
  }

  lemma StoreKeeps(s: World, f: nat, s': World)
    requires Inv(s) && f in s.flights && Writes(s.flights[f]) && s' == Stored(s, s.flights[f]).(flights := s.flights - {f})
    ensures Inv(s')
  {
    var fl := s.flights[f];
    if fl.Ready? {
      StoreHeldKeeps(s, f, s');
    } else if fl.bucket !in s.buckets {
      NothingStored(s, f, s');
    } else {
      assert FlightOk(s, fl);
      if fl.Copying? {
        StoreObjectKeeps(s, f, (fl.bucket, fl.slot), fl.obj, s');
      } else {
        StoreGrantKeeps(s, f, fl.bucket, fl.answer.value, s');
      }
    }
  }

  lemma RestoreKeeps(s: World, b: string, root: string, s': World)
    requires Inv(s) && Next(s, Restore(b, root), s')
    ensures Inv(s')
  {
    var objs := s.roots[root].1;
    assert RootOk(s, b, objs);
    forall id | id in s'.objects
      ensures (id in s.objects && s.objects[id] == s'.objects[id]) || StoredOk(s', id.0, s'.objects[id])
    {
      if id.0 == b {
        assert id.1 in objs && s'.objects[id] == objs[id.1];
      }
    }
    UploadsUsed(s);
    IndexStep(s, s');
  }

  lemma PublishKeeps(s: World, f: nat, root: string, s': World)
    requires Inv(s) && PublishStep(s, f, root, s')
    ensures Inv(s')
  {
    var fl := s.flights[f];
    assert FlightOk(s, fl);
    if fl.bucket in s.buckets {
      assert FlightFits(s, fl.bucket, s.buckets[fl.bucket].act, fl);
    }
    assert RootOk(s', fl.bucket, fl.read);
    ObjectsHoused(s);
    UploadsUsed(s);
    CarryBuckets(s, s');
    CarryObjects(s, s');
    CarryUploads(s, s');
    CarryFlights(s, s');
    CarryRoots(s, s');
  }

  /** Deleting a bucket or minting a history. */
  lemma BucketKeeps(s: World, step: Step, s': World)
    requires Inv(s) && Next(s, step, s') && (step.DeleteBucket? || step.MintHistory?)
    ensures Inv(s')
  {
    ObjectsHoused(s);
    UploadsUsed(s);
    CarryBuckets(s, s');
    CarryObjects(s, s');
    CarryUploads(s, s');
    CarryFlights(s, s');
    CarryRoots(s, s');
  }

  lemma RemovalKeeps(s: World, step: Step, s': World)
    requires Inv(s) && Next(s, step, s') && (step.AbortUpload? || step.Delete?)
    ensures Inv(s')
  {
    UploadsUsed(s);
    IndexStep(s, s');
  }

  lemma CreateUploadKeeps(s: World, step: Step, s': World)
    requires Inv(s) && Next(s, step, s') && step.CreateUpload?
    ensures Inv(s')
  {
    UploadsUsed(s);
    assert UploadOk(s', step.u, s'.uploads[step.u]);
    IndexStep(s, s');
  }

  // ---------------------------------------------------------------------------------------------
  // Creating a bucket
  // ---------------------------------------------------------------------------------------------

  /** Whether a request fits a setting does not depend on which buckets are there. */
  lemma FitsAnyBuckets(s: World, s': World, f: Flight)
    requires s' == s.(buckets := s'.buckets)
    ensures FlightSound(s, f) <==> FlightSound(s', f)
    ensures forall name, act :: FlightFits(s, name, act, f) <==> FlightFits(s', name, act, f)
  {
  }

  lemma CreatedFlights(s: World, step: Step, s': World)
    requires FlightsOk(s) && step.CreateBucket? && Next(s, step, s')
    ensures FlightsOk(s') <==> forall f :: f in s.flights ==> FlightFits(s, step.b, step.act, s.flights[f])
  {
    forall f | f in s.flights
      ensures FlightOk(s', s.flights[f]) <==> FlightFits(s, step.b, step.act, s.flights[f])
    {
      assert FlightOk(s, s.flights[f]);
      FitsAnyBuckets(s, s', s.flights[f]);
      assert step.b in s'.buckets;
    }
  }

  lemma CreatedUploads(s: World, step: Step, s': World)
    requires UploadsOk(s) && step.CreateBucket? && Next(s, step, s')
    ensures UploadsOk(s') <==> forall u :: u in s.uploads && s.uploads[u].bucket == step.b ==> PartsFit(s.node, step.act, s.uploads[u])
  {
    forall u | u in s.uploads
      ensures UploadOk(s', u, s.uploads[u]) <==> (s.uploads[u].bucket == step.b ==> PartsFit(s.node, step.act, s.uploads[u]))
    {
      assert UploadOk(s, u, s.uploads[u]);
    }
  }

  lemma CreatedRoots(s: World, step: Step, s': World)
    requires RootsOk(s) && step.CreateBucket? && Next(s, step, s')
    ensures RootsOk(s') <==> forall r :: r in s.roots && s.roots[r].0 == step.b ==> RootFits(s.node, step.act, s.roots[r].1)
  {
    forall r | r in s.roots
      ensures RootOk(s', s.roots[r].0, s.roots[r].1) <==> (s.roots[r].0 == step.b ==> RootFits(s.node, step.act, s.roots[r].1))
    {
      assert RootOk(s, s.roots[r].0, s.roots[r].1);
    }
  }

  lemma CreatedRest(s: World, step: Step, s': World)
    requires Inv(s) && step.CreateBucket? && Next(s, step, s')
    ensures BucketsOk(s') && ObjectsOk(s')
  {
    forall id | id in s'.objects
      ensures StoredOk(s', id.0, s'.objects[id])
    {
      assert StoredOk(s, id.0, s.objects[id]);
    }
  }

  /** Creating a bucket keeps the invariant exactly when what an earlier bucket of that name left behind fits. */
  lemma CreateKeepsIff(s: World, step: Step, s': World)
    requires Inv(s) && step.CreateBucket? && Next(s, step, s')
    ensures Inv(s') <==> LeftoversFit(s, step.b, step.act)
  {
    CreatedRest(s, step, s');
    CreatedUploads(s, step, s');
    CreatedFlights(s, step, s');
    CreatedRoots(s, step, s');
  }

  // ---------------------------------------------------------------------------------------------
  // Every run
  // ---------------------------------------------------------------------------------------------

  /** A step that does not bring unfitting leftovers back to life. */
  ghost predicate Harmless(s: World, step: Step) {
    step.CreateBucket? ==> LeftoversFit(s, step.b, step.act)
  }

  /** Steps that begin a request. */
  predicate Begins(step: Step) {
    || step.BeginPut? || step.BeginPart? || step.BeginCopy? || step.BeginPartCopy?
    || step.Complete? || step.BeginGrant? || step.BeginCommit?
  }

  lemma BeginsKeeps(s: World, step: Step, s': World)
    requires Inv(s) && Next(s, step, s') && Begins(step)
    ensures Inv(s')
  {
    if step.Complete? {
      CompleteKeeps(s, step.f, step.u, step.numbers, step.slot, s');
    } else if step.BeginGrant? || step.BeginCommit? {
      BeginGrantKeeps(s, step, s');
    } else if step.BeginPart? || step.BeginPartCopy? {
      BeginPartKeeps(s, step, s');
    } else {
      BeginPutKeeps(s, step, s');
    }
  }

  /** Steps that advance a copy. */
  predicate Copies(step: Step) {
    step.ReadSource? || step.ReadObject? || step.ReusePart? || step.BeginStream?
  }

  lemma CopiesKeeps(s: World, step: Step, s': World)
    requires Inv(s) && Next(s, step, s') && Copies(step)
    ensures Inv(s')
  {
    if step.ReadSource? {
      ReadSourceKeeps(s, step.f, step.source, s');
    } else if step.ReusePart? {
      ReuseKeeps(s, step.f, s');
    } else if step.BeginStream? {
      BeginStreamKeeps(s, step.f, step.lo, step.hi, s');
    } else if s.flights[step.f].CopyFrom? {
      CopyReadKeeps(s, step.f, step.slot, s');
    } else {
      PartReadKeeps(s, step.f, step.slot, s');
    }
  }

  /** Steps that advance or end any other request. */
  predicate Ends(step: Step) {
    step.SendBody? || step.Store? || step.AnswerGrant? || step.ReadPage? || step.Publish?
  }

  lemma EndsKeeps(s: World, step: Step, s': World)
    requires Inv(s) && Next(s, step, s') && Ends(step)
    ensures Inv(s')
  {
    if step.SendBody? {
      SendBodyKeeps(s, step.f, step.h, step.node, s');
    } else if step.Store? {
      StoreKeeps(s, step.f, s');
    } else if step.AnswerGrant? {
      AnswerKeeps(s, step.f, step.history, s');
    } else if step.ReadPage? {
      ReadPageKeeps(s, step.f, step.slots, s');
    } else {
      PublishKeeps(s, step.f, step.root, s');
    }
  }

  /** Steps that are over at once, apart from creating a bucket. */
  predicate Atomic(step: Step) {
    || step.DeleteBucket? || step.MintHistory? || step.CreateUpload? || step.AbortUpload? || step.Delete? || step.Restore?
  }

  lemma AtomicKeeps(s: World, step: Step, s': World)
    requires Inv(s) && Next(s, step, s') && Atomic(step)
    ensures Inv(s')
  {
    if step.CreateUpload? {
      CreateUploadKeeps(s, step, s');
    } else if step.Restore? {
      RestoreKeeps(s, step.b, step.root, s');
    } else if step.DeleteBucket? || step.MintHistory? {
      BucketKeeps(s, step, s');
    } else {
      RemovalKeeps(s, step, s');
    }
  }

  lemma NextKeeps(s: World, step: Step, s': World)
    requires Inv(s) && Next(s, step, s') && Harmless(s, step)
    ensures Inv(s')
  {
    if step.CreateBucket? {
      CreateKeepsIff(s, step, s');
    } else if Begins(step) {
      BeginsKeeps(s, step, s');
    } else if Copies(step) {
      CopiesKeeps(s, step, s');
    } else if Ends(step) {
      EndsKeeps(s, step, s');
    } else {
      AtomicKeeps(s, step, s');
    }
  }

  /** A run in which no step before position `n` brings unfitting leftovers back to life. */
  ghost predicate HarmlessUntil(states: seq<World>, steps: seq<Step>, n: nat) {
    IsRun(states, steps) && n < |states| && forall i :: 0 <= i < n ==> Harmless(states[i], steps[i])
  }

  lemma {:induction false} RunKeeps(states: seq<World>, steps: seq<Step>, n: nat)
    requires HarmlessUntil(states, steps, n)
    ensures Inv(states[n])
  {
    if n > 0 {
      RunKeeps(states, steps, n - 1);
      NextKeeps(states[n - 1], steps[n - 1], states[n]);
    }
  }

  // ---------------------------------------------------------------------------------------------
  // What the invariant gives
  // ---------------------------------------------------------------------------------------------

  /** The stored bytes of an object: its own and its parts'. */
  predicate HeldBy(o: Obj, h: Held) {
    h == o.own || h in o.parts
  }

  /** A read returns the bytes uploaded, and in an ACT bucket under exactly the history the node holds for them. */
  predicate ReadsBack(s: World, b: string, h: Held) {
    && b in s.buckets && Read(s, b, h) == Some(h.data)
    && (s.buckets[b].act ==> h.ref in s.node.actRefs && HistoryFor(h.history, s.buckets[b]) == s.node.actRefs[h.ref])
  }

  /** Sound bytes read back exactly when they fit the bucket they are in. */
  lemma ReadsBackIff(s: World, b: string, encrypted: bool, h: Held)
    requires b in s.buckets && HeldOk(s.node, encrypted, h) && h.ref != ""
    ensures ReadsBack(s, b, h) <==> Fits(s.node, s.buckets[b].act, h)
  {
  }

  /**
   * However often the bucket's history has rotated, every stored reference of an ACT bucket is read
   * with exactly the history the node holds for it, and the read returns the bytes uploaded.
   */
  lemma EveryReadSucceeds(states: seq<World>, steps: seq<Step>, n: nat, id: (string, string), h: Held)
    requires HarmlessUntil(states, steps, n) && id in states[n].objects
    requires HeldBy(states[n].objects[id], h) && h.ref != ""
    ensures ReadsBack(states[n], id.0, h)
  {
    RunKeeps(states, steps, n);
    var s := states[n];
    assert StoredOk(s, id.0, s.objects[id]);
    ReadsBackIff(s, id.0, s.objects[id].encrypted, h);
  }

  /** Outside ACT buckets a reference is key-bearing exactly when its object says it is encrypted. */
  lemma KeyBearingMatchesFlag(states: seq<World>, steps: seq<Step>, n: nat, id: (string, string), h: Held)
    requires HarmlessUntil(states, steps, n) && id in states[n].objects
    requires HeldBy(states[n].objects[id], h) && h.ref != ""
    ensures id.0 in states[n].buckets
    ensures !states[n].buckets[id.0].act ==> (Manifest.KeyBearing(h.ref) <==> states[n].objects[id].encrypted)
  {
    RunKeeps(states, steps, n);
    assert StoredOk(states[n], id.0, states[n].objects[id]);
  }

  /** The same holds for the parts of every upload still in progress whose bucket is there. */
  lemma PartsMatchFlag(states: seq<World>, steps: seq<Step>, n: nat, u: string, k: int)
    requires HarmlessUntil(states, steps, n) && u in states[n].uploads && k in states[n].uploads[u].parts
    requires states[n].uploads[u].bucket in states[n].buckets && states[n].uploads[u].parts[k].ref != ""
    ensures var s, up := states[n], states[n].uploads[u];
            && ReadsBack(s, up.bucket, up.parts[k])
            && (!s.buckets[up.bucket].act ==> (Manifest.KeyBearing(up.parts[k].ref) <==> up.encrypted))
  {
    RunKeeps(states, steps, n);
    var s := states[n];
    var up := s.uploads[u];
    assert UploadOk(s, u, up);
    ReadsBackIff(s, up.bucket, up.encrypted, up.parts[k]);
  }

  // ---------------------------------------------------------------------------------------------
  // Streamed copies
  // ---------------------------------------------------------------------------------------------

  predicate Waits(s: World, f: nat, fl: Flight) {
    f in s.flights && s.flights[f] == fl
  }

  /** The step advances request `f`. */
  predicate Advances(step: Step, f: nat) {
    match step
    case AnswerGrant(g, _) => g == f
    case SendBody(g, _, _) => g == f
    case Store(g) => g == f
    case ReadSource(g, _) => g == f
    case ReadObject(g, _) => g == f
    case ReusePart(g) => g == f
    case BeginStream(g, _, _) => g == f
    case ReadPage(g, _) => g == f
    case Publish(g, _) => g == f
    case _ => false
  }

  /** Any other step leaves the request as it is, and whatever the step, the node only grows. */
  ghost predicate Carries(s: World, s': World, f: nat, fl: Flight) {
    (Waits(s, f, fl) ==> Waits(s', f, fl)) && Grows(s.node, s'.node)
  }

  lemma BeginsCarries(s: World, step: Step, s': World, f: nat, fl: Flight)
    requires Next(s, step, s') && Begins(step)
    ensures Carries(s, s', f, fl)
  {
  }

  lemma CopiesCarries(s: World, step: Step, s': World, f: nat, fl: Flight)
    requires Next(s, step, s') && Copies(step) && !Advances(step, f)
    ensures Carries(s, s', f, fl)
  {
    assert Becomes(s, step.f, s'.flights[step.f], s') by {
      CopyBecomes(s, step, s');
    }
    hide Next;
  }

  /** A step of a copy changes nothing but its own request. */
  lemma CopyBecomes(s: World, step: Step, s': World)
    requires Next(s, step, s') && Copies(step)
    ensures step.f in s'.flights && Becomes(s, step.f, s'.flights[step.f], s')
  {
    if step.ReadSource? {
      assert ReadSourceStep(s, step.f, step.source, s');
    } else if step.ReadObject? {
      assert ReadObjectStep(s, step.f, step.slot, s');
    } else if step.ReusePart? {
      assert ReusePartStep(s, step.f, s');
    } else {
      assert BeginStreamStep(s, step.f, step.lo, step.hi, s');
    }
  }

  lemma EndsCarries(s: World, step: Step, s': World, f: nat, fl: Flight)
    requires Next(s, step, s') && Ends(step) && !Advances(step, f)
    ensures Carries(s, s', f, fl)
  {
    if step.SendBody? {
      assert SendBodyStep(s, step.f, step.h, step.node, s');
    } else {
      assert s'.node == s.node;
    }
  }

  lemma StepCarries(s: World, step: Step, s': World, f: nat, fl: Flight)
    requires Next(s, step, s') && !Advances(step, f)
    ensures Carries(s, s', f, fl)
  {
    if Begins(step) {
      BeginsCarries(s, step, s', f, fl);
    } else if Copies(step) {
      CopiesCarries(s, step, s', f, fl);
    } else if Ends(step) {
      EndsCarries(s, step, s', f, fl);
    } else {
      assert step.CreateBucket? || Atomic(step);
    }
  }

  lemma {:induction false} WaitsAlong(states: seq<World>, f: nat, fl: Flight, i: nat, k: nat)
    requires i <= k < |states| && Waits(states[i], f, fl)
    requires forall j :: i <= j < k ==> Carries(states[j], states[j + 1], f, fl)
    ensures Waits(states[k], f, fl) && Grows(states[i].node, states[k].node)
  {
    if i < k {
      WaitsAlong(states, f, fl, i, k - 1);
      assert Carries(states[k - 1], states[k - 1 + 1], f, fl);
    }
  }

  lemma StillWaits(states: seq<World>, steps: seq<Step>, f: nat, fl: Flight, i: nat, k: nat)
    requires IsRun(states, steps) && i <= k < |states| && Waits(states[i], f, fl)
    requires forall j :: i <= j < k ==> !Advances(steps[j], f)
    ensures Waits(states[k], f, fl) && Grows(states[i].node, states[k].node)
  {
    forall j | i <= j < k
      ensures Carries(states[j], states[j + 1], f, fl)
    {
      StepCarries(states[j], steps[j], states[j + 1], f, fl);
    }
    WaitsAlong(states, f, fl, i, k);
  }

  /** A part copy reads its source object at i, begins to stream at m and sends the body at k. */
  ghost predicate Streams(states: seq<World>, steps: seq<Step>, f: nat, i: nat, m: nat, k: nat) {
    && IsRun(states, steps) && i < m < k < |steps|
    && steps[i].ReadObject? && steps[i].f == f && f in states[i].flights && states[i].flights[f].PartFrom?
    && steps[m].BeginStream? && steps[m].f == f && steps[k].SendBody? && steps[k].f == f
    && (forall j :: i < j < m ==> !Advances(steps[j], f)) && (forall j :: m < j < k ==> !Advances(steps[j], f))
  }

  /** The object a part copy reads at position i. */
  function SourceId(states: seq<World>, steps: seq<Step>, f: nat, i: nat): (string, string)
    requires i < |steps| && i < |states| && steps[i].ReadObject? && f in states[i].flights && states[i].flights[f].PartFrom?
  {
    (states[i].flights[f].source, steps[i].slot)
  }

  /** What reading the source object leaves in flight. */
  lemma SourceRead(states: seq<World>, steps: seq<Step>, f: nat, i: nat, m: nat, k: nat) returns (id: (string, string))
    requires HarmlessUntil(states, steps, i) && Streams(states, steps, f, i, m, k)
    ensures id == SourceId(states, steps, f, i) && id in states[i].objects
    ensures f in states[m].flights && states[m].flights[f].PartOf? && states[m].flights[f].obj == states[i].objects[id]
    ensures HeldOk(states[m].node, states[i].objects[id].encrypted, states[i].objects[id].own)
  {
    RunKeeps(states, steps, i);
    assert Next(states[i], steps[i], states[i + 1]);
    id := SourceId(states, steps, f, i);
    var o := states[i].objects[id];
    assert StoredOk(states[i], id.0, o);
    StillWaits(states, steps, f, states[i + 1].flights[f], i + 1, m);
    HeldStays(states[i].node, states[m].node, o.encrypted, o.own);
  }

  /** What is in flight once the destination has been read is what is sent. */
  lemma StreamSent(states: seq<World>, steps: seq<Step>, f: nat, i: nat, m: nat, k: nat)
    requires Streams(states, steps, f, i, m, k)
    ensures f in states[m + 1].flights && states[m + 1].flights[f].Sending?
    ensures states[m + 1].flights[f].body == Some(steps[k].h.data)
  {
    assert Next(states[m], steps[m], states[m + 1]);
    StillWaits(states, steps, f, states[m + 1].flights[f], m + 1, k);
    assert Next(states[k], steps[k], states[k + 1]);
  }

  /**
   * A streamed copy stores the source's bytes: when its body goes out, however much later, what the
   * node takes is the requested range of the bytes originally uploaded for the object that was read.
   */
  lemma StreamedBytes(states: seq<World>, steps: seq<Step>, f: nat, i: nat, m: nat, k: nat)
    requires HarmlessUntil(states, steps, i) && Streams(states, steps, f, i, m, k)
    ensures var id := SourceId(states, steps, f, i);
            && id in states[i].objects && steps[m].lo <= steps[m].hi <= |states[i].objects[id].own.data|
            && steps[k].h.data == states[i].objects[id].own.data[steps[m].lo..steps[m].hi]
  {
    var id := SourceRead(states, steps, f, i, m, k);
    StreamSent(states, steps, f, i, m, k);
    assert Next(states[m], steps[m], states[m + 1]);
    assert BeginStreamStep(states[m], f, steps[m].lo, steps[m].hi, states[m + 1]);
  }
}
