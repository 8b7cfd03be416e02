/**
 * Re-creating a bucket under the other ACT setting while something of the old one is still around:
 * every such re-creation goes on to store an object that does not read back, and concrete runs from
 * the empty system show the whole course.
 */
module GatewayAnomalies {
  import opened Wrappers
  import opened Gateway
  import opened GatewaySafety
  import Hex
  import Manifest

  /** A stored object, or one of its parts, that does not read back. */
  predicate Lost(s: World, id: (string, string), h: Held) {
    id in s.objects && HeldBy(s.objects[id], h) && h.ref != "" && !ReadsBack(s, id.0, h)
  }

  /** Sound bytes in a bucket they do not fit: not readable outside ACT, under no history of their own inside. */
  lemma MisplacedFails(s: World, b: string, encrypted: bool, h: Held)
    requires b in s.buckets && HeldOk(s.node, encrypted, h) && h.ref != "" && !Fits(s.node, s.buckets[b].act, h)
    ensures !ReadsBack(s, b, h)
    ensures !s.buckets[b].act ==> Read(s, b, h) == None
    ensures s.buckets[b].act ==> h.ref !in s.node.actRefs
  {
    ReadsBackIff(s, b, encrypted, h);
  }

  // ---------------------------------------------------------------------------------------------
  // Steps that lead to such an object
  // ---------------------------------------------------------------------------------------------

  /** From `s`, some steps lead to an object that does not read back. */
  ghost predicate GoesWrong(s: World) {
    exists states, steps, id, h :: IsPath(states, steps) && states[0] == s && LostAtEnd(states, id, h)
  }

  predicate LostAtEnd(states: seq<World>, id: (string, string), h: Held) {
    states != [] && Lost(states[|states| - 1], id, h)
  }

  lemma WrongNow(s: World, id: (string, string), h: Held)
    requires Lost(s, id, h)
    ensures GoesWrong(s)
  {
    assert IsPath([s], []) && LostAtEnd([s], id, h);
  }

  lemma WrongLater(s: World, step: Step, s': World)
    requires Next(s, step, s') && GoesWrong(s')
    ensures GoesWrong(s)
  {
    var states, steps, id, h :| IsPath(states, steps) && states[0] == s' && LostAtEnd(states, id, h);
    Prepend(s, step, states, steps);
    assert LostAtEnd([s] + states, id, h);
  }

  lemma Prepend(s: World, step: Step, states: seq<World>, steps: seq<Step>)
    requires IsPath(states, steps) && Next(s, step, states[0])
    ensures IsPath([s] + states, [step] + steps)
  {
    var all, through := [s] + states, [step] + steps;
    forall i | 0 <= i < |through|
      ensures Next(all[i], through[i], all[i + 1])
    {
      if i > 0 {
        assert Next(states[i - 1], steps[i - 1], states[i - 1 + 1]);
      }
    }
  }

  /** A request number that is not in use. */
  lemma FreeFlight(s: World) returns (f: nat)
    ensures f !in s.flights
  {
    f := Above(s.flights.Keys);
  }

  lemma {:induction false} Above(keys: set<nat>) returns (f: nat)
    ensures forall k :: k in keys ==> k < f
  {
    if keys == {} {
      f := 0;
    } else {
      var k :| k in keys;
      var g := Above(keys - {k});
      f := if k < g then g else k + 1;
      assert forall j :: j in keys ==> j == k || j in keys - {k};
    }
  }

  /** A text that is not among the given ones. */
  lemma {:induction false} Longer(names: set<string>) returns (name: string)
    ensures name != "" && forall k :: k in names ==> |k| < |name|
  {
    if names == {} {
      name := "c";
    } else {
      var k :| k in names;
      var g := Longer(names - {k});
      name := if |k| < |g| then g else k + "c";
      assert forall j :: j in names ==> j == k || j in names - {k};
    }
  }

  /** The node has a reference left of each length. */
  ghost predicate HasRoom(n: Node) {
    FreeRef(n, 64) && FreeRef(n, 128)
  }

  ghost predicate FreeRef(n: Node, width: nat) {
    exists r :: IsFree(n, width, r)
  }

  predicate IsFree(n: Node, width: nat, r: string) {
    Hex.AllHex(r) && |r| == width && r !in n.blobs && r !in n.actRefs
  }

  /** With room, the node takes any bytes from a handler that saw a bucket it may have been. */
  lemma TakesUpload(n: Node, seen: Bucket, encrypt: bool, data: string) returns (h: Held, n': Node)
    requires HasRoom(n) && (seen.act ==> seen.history != "" && seen.history in n.histories)
    ensures Sends(n, seen, encrypt, data, h, n') && h.ref != "" && h.data == data
    ensures Grows(n, n') && HeldOk(n', encrypt, h) && Fits(n', seen.act, h)
  {
    var width := if seen.act || encrypt then 128 else 64;
    var r :| IsFree(n, width, r);
    h := Held(r, if seen.act then seen.history else "", data);
    n' := n.(blobs := n.blobs[r := data], actRefs := if seen.act then n.actRefs[r := seen.history] else n.actRefs);
    SendsGrows(n, seen, encrypt, data, h, n');
  }

  // ---------------------------------------------------------------------------------------------
  // Things a client can always do
  // ---------------------------------------------------------------------------------------------

  /** A PUT from its first step to its last. */
  lemma PutPath(s: World, b: string, encrypt: bool, slot: string, h: Held, n': Node)
    requires b in s.buckets && Sends(s.node, s.buckets[b], encrypt, h.data, h, n')
    requires GoesWrong(s.(node := n', objects := s.objects[(b, slot) := Obj(encrypt, h, [])]))
    ensures GoesWrong(s)
  {
    var f := FreeFlight(s);
    var s1 := s.(flights := s.flights[f := Sending(b, s.buckets[b], encrypt, None, ToObject(slot))]);
    var s2 := s1.(node := n', flights := s1.flights[f := Ready(b, encrypt, h, ToObject(slot))]);
    var s3 := s.(node := n', objects := s.objects[(b, slot) := Obj(encrypt, h, [])]);
    assert s2.flights - {f} == s.flights;
    WrongLater(s2, Store(f), s3);
    assert SendBodyStep(s1, f, h, n', s2);
    WrongLater(s1, SendBody(f, h, n'), s2);
    WrongLater(s, BeginPut(f, b, encrypt, slot), s1);
  }

  /** A change of grants from its first step to its last moves an ACT bucket to a new history. */
  lemma GrantPath(s: World, b: string, history: string)
    requires b in s.buckets && s.buckets[b].act && history != ""
    requires GoesWrong(s.(node := s.node.(histories := s.node.histories + {history}), buckets := s.buckets[b := Bucket(true, history)]))
    ensures GoesWrong(s)
  {
    var f := FreeFlight(s);
    var s1 := s.(node := s.node.(histories := s.node.histories + {history}));
    var s2 := s1.(flights := s1.flights[f := Granting(b, None)]);
    var s3 := s2.(flights := s2.flights[f := Granting(b, Some(history))]);
    var s4 := s1.(buckets := s.buckets[b := Bucket(true, history)]);
    assert s3.flights - {f} == s.flights;
    WrongLater(s3, Store(f), s4);
    WrongLater(s2, AnswerGrant(f, history), s3);
    WrongLater(s1, BeginGrant(f, b), s2);
    WrongLater(s, MintHistory(history), s1);
  }

  /** What is left of the objects without those of one bucket. */
  function Without(objects: map<(string, string), Obj>, b: string): map<(string, string), Obj> {
    map id | id in objects && id.0 != b :: objects[id]
  }

  lemma {:induction false} EmptyPath(s: World, b: string)
    requires GoesWrong(s.(objects := Without(s.objects, b)))
    ensures GoesWrong(s)
    decreases |s.objects|
  {
    if id :| id in s.objects && id.0 == b {
      var s' := s.(objects := s.objects - {(b, id.1)});
      assert id == (b, id.1);
      assert s'.objects.Keys == s.objects.Keys - {id};
      assert Without(s'.objects, b) == Without(s.objects, b);
      EmptyPath(s', b);
      WrongLater(s, Delete(b, id.1), s');
    } else {
      assert Without(s.objects, b) == s.objects;
    }
  }

  /** A bucket of any name can be made a plain one: created, or emptied, deleted and created again. */
  lemma PlainPath(s: World, b: string)
    requires ObjectsOk(s)
    requires GoesWrong(s.(buckets := s.buckets[b := Bucket(false, "")], objects := Without(s.objects, b)))
    ensures GoesWrong(s)
  {
    var s' := s.(buckets := s.buckets[b := Bucket(false, "")], objects := Without(s.objects, b));
    var s1 := s.(buckets := s.buckets - {b}, objects := Without(s.objects, b));
    WrongLater(s1, CreateBucket(b, false, ""), s');
    if b in s.buckets {
      var s2 := s.(objects := Without(s.objects, b));
      WrongLater(s2, DeleteBucket(b), s1);
      EmptyPath(s, b);
    } else {
      ObjectsHoused(s);
      assert Without(s.objects, b) == s.objects && s.buckets - {b} == s.buckets;
    }
  }

  // ---------------------------------------------------------------------------------------------
  // Every unfitting leftover goes wrong
  // ---------------------------------------------------------------------------------------------

  /** An object about to be written that will not read back. */
  lemma WritingGoesWrong(s: World, f: nat, h: Held)
    requires f in s.flights && s.flights[f].Copying? && s.flights[f].bucket in s.buckets
    requires HeldBy(s.flights[f].obj, h) && h.ref != "" && !ReadsBack(s, s.flights[f].bucket, h)
    ensures GoesWrong(s)
  {
    var fl := s.flights[f];
    var s' := Stored(s, fl).(flights := s.flights - {f});
    WrongNow(s', (fl.bucket, fl.slot), h);
    WrongLater(s, Store(f), s');
  }

  /** An open upload with a part that does not read back: completing it. */
  lemma UploadGoesWrong(s: World, u: string, n: int)
    requires u in s.uploads && s.uploads[u].bucket in s.buckets && n in s.uploads[u].parts
    requires s.uploads[u].parts[n].ref != "" && !ReadsBack(s, s.uploads[u].bucket, s.uploads[u].parts[n])
    ensures GoesWrong(s)
  {
    var up := s.uploads[u];
    var f := FreeFlight(s);
    var h := up.parts[n];
    var parts := seq(|[n]|, i requires 0 <= i < |[n]| => up.parts[[n][i]]);
    assert parts == [h];
    var o := Obj(up.encrypted, Empty, parts);
    var s' := s.(flights := s.flights[f := Copying(up.bucket, o, "")]);
    assert CompleteStep(s, f, u, [n], "", s');
    assert h in o.parts;
    WritingGoesWrong(s', f, h);
    WrongLater(s, Complete(f, u, [n], ""), s');
  }

  /** Bytes about to be recorded that will not read back. */
  lemma ReadyGoesWrong(s: World, f: nat)
    requires f in s.flights && s.flights[f].Ready? && s.flights[f].bucket in s.buckets && Awaited(s, s.flights[f].target)
    requires TargetOk(s, s.flights[f].bucket, s.flights[f].encrypt, s.flights[f].target)
    requires s.flights[f].held.ref != "" && !ReadsBack(s, s.flights[f].bucket, s.flights[f].held)
    ensures GoesWrong(s)
  {
    var fl := s.flights[f];
    var s' := Stored(s, fl).(flights := s.flights - {f});
    match fl.target
    case ToObject(slot) =>
      WrongNow(s', (fl.bucket, slot), fl.held);
      WrongLater(s, Store(f), s');
    case ToPart(u, n) =>
      UploadGoesWrong(s', u, n);
      WrongLater(s, Store(f), s');
  }

  function BodyOf(f: Flight): string
    requires f.Sending?
  {
    if f.body.Some? then f.body.value else "x"
  }

  /** A request that saw the old bucket and has yet to send its body. */
  lemma SendingGoesWrong(s: World, f: nat)
    requires HasRoom(s.node) && f in s.flights && s.flights[f].Sending? && FlightSound(s, s.flights[f])
    requires s.flights[f].bucket in s.buckets && !FlightFits(s, s.flights[f].bucket, s.buckets[s.flights[f].bucket].act, s.flights[f])
    ensures GoesWrong(s)
  {
    var fl := s.flights[f];
    var h, n' := TakesUpload(s.node, fl.seen, fl.encrypt, BodyOf(fl));
    var s' := s.(node := n', flights := s.flights[f := Ready(fl.bucket, fl.encrypt, h, fl.target)]);
    assert SendBodyStep(s, f, h, n', s');
    MisplacedFails(s', fl.bucket, fl.encrypt, h);
    ReadyGoesWrong(s', f);
    WrongLater(s, SendBody(f, h, n'), s');
  }

  /** A change of grants that will mark a plain bucket as ACT, with an object stored there before it does. */
  lemma GrantGoesWrong(s: World, f: nat)
    requires HasRoom(s.node) && f in s.flights && s.flights[f].Granting? && FlightSound(s, s.flights[f])
    requires s.flights[f].bucket in s.buckets && !s.buckets[s.flights[f].bucket].act
    ensures GoesWrong(s)
  {
    var b := s.flights[f].bucket;
    if s.flights[f].answer.Some? {
      AnsweredGoesWrong(s, f);
    } else {
      var s1 := s.(node := s.node.(histories := s.node.histories + {"g"}));
      var s2 := s1.(flights := s1.flights[f := Granting(b, Some("g"))]);
      assert HasRoom(s2.node) by {
        var r64 :| IsFree(s.node, 64, r64);
        var r128 :| IsFree(s.node, 128, r128);
        assert IsFree(s2.node, 64, r64) && IsFree(s2.node, 128, r128);
      }
      AnsweredGoesWrong(s2, f);
      WrongLater(s1, AnswerGrant(f, "g"), s2);
      WrongLater(s, MintHistory("g"), s1);
    }
  }

  lemma AnsweredGoesWrong(s: World, f: nat)
    requires HasRoom(s.node) && f in s.flights && s.flights[f].Granting? && s.flights[f].answer.Some?
    requires s.flights[f].bucket in s.buckets && !s.buckets[s.flights[f].bucket].act
    ensures GoesWrong(s)
  {
    var b := s.flights[f].bucket;
    var h, n' := TakesUpload(s.node, s.buckets[b], false, "x");
    var s1 := s.(node := n', objects := s.objects[(b, "k") := Obj(false, h, [])]);
    var s2 := Stored(s1, s1.flights[f]).(flights := s1.flights - {f});
    WrongNow(s2, (b, "k"), h);
    WrongLater(s1, Store(f), s2);
    PutPath(s, b, false, "k", h, n');
  }

  /** A copy between two names whose source bytes do not fit the destination. */
  lemma CopyGoesWrong(s: World, f: nat, slot: string, h: Held)
    requires f in s.flights && s.flights[f].CopyFrom? && s.flights[f].bucket in s.buckets
    requires (s.flights[f].source, slot) in s.objects && s.objects[(s.flights[f].source, slot)] == Obj(false, h, [])
    requires h.ref != "" && HeldOk(s.node, false, h) && !Fits(s.node, s.buckets[s.flights[f].bucket].act, h)
    ensures GoesWrong(s)
  {
    var fl := s.flights[f];
    var o := Pinned(s.objects[(fl.source, slot)], fl.from, fl.seen);
    var s' := s.(flights := s.flights[f := Copying(fl.bucket, o, fl.slot)]);
    assert ReadObjectStep(s, f, slot, s');
    PinnedOk(s.node, Obj(false, h, []), fl.from, fl.seen);
    MisplacedFails(s', fl.bucket, false, o.own);
    WritingGoesWrong(s', f, o.own);
    WrongLater(s, ReadObject(f, slot), s');
  }

  /** An object copy that read two plain buckets, one of which is an ACT bucket now. */
  lemma CopyFromGoesWrong(s: World, f: nat)
    requires HasRoom(s.node) && BucketsOk(s) && f in s.flights && s.flights[f].CopyFrom? && s.flights[f].bucket != s.flights[f].source
    requires s.flights[f].bucket in s.buckets && s.flights[f].source in s.buckets
    requires s.buckets[s.flights[f].bucket].act != s.buckets[s.flights[f].source].act
    ensures GoesWrong(s)
  {
    var fl := s.flights[f];
    var h, n' := TakesUpload(s.node, s.buckets[fl.source], false, "x");
    var s' := s.(node := n', objects := s.objects[(fl.source, "k") := Obj(false, h, [])]);
    CopyGoesWrong(s', f, "k", h);
    PutPath(s, fl.source, false, "k", h, n');
  }

  /** The same when the other of the two buckets may be gone. */
  lemma CopyPairGoesWrong(s: World, f: nat)
    requires HasRoom(s.node) && BucketsOk(s) && ObjectsOk(s)
    requires f in s.flights && s.flights[f].CopyFrom? && s.flights[f].bucket != s.flights[f].source
    requires var b, c := s.flights[f].bucket, s.flights[f].source;
             || (b in s.buckets && s.buckets[b].act && (c in s.buckets ==> !s.buckets[c].act))
             || (c in s.buckets && s.buckets[c].act && (b in s.buckets ==> !s.buckets[b].act))
    ensures GoesWrong(s)
  {
    var b, c := s.flights[f].bucket, s.flights[f].source;
    if b in s.buckets && c in s.buckets {
      CopyFromGoesWrong(s, f);
    } else {
      var gone := if b in s.buckets then c else b;
      var s' := s.(buckets := s.buckets[gone := Bucket(false, "")], objects := Without(s.objects, gone));
      CopyFromGoesWrong(s', f);
      PlainPath(s, gone);
    }
  }

  /** An object copy that took its destination for a plain bucket: a source in another plain bucket. */
  lemma CopyToGoesWrong(s: World, f: nat)
    requires HasRoom(s.node) && BucketsOk(s) && ObjectsOk(s) && f in s.flights && s.flights[f].CopyTo? && !s.flights[f].seen.act
    requires s.flights[f].bucket in s.buckets && s.buckets[s.flights[f].bucket].act
    ensures GoesWrong(s)
  {
    var fl := s.flights[f];
    var c := Longer(s.buckets.Keys);
    var s1 := s.(buckets := s.buckets[c := Bucket(false, "")]);
    var s2 := s1.(flights := s1.flights[f := CopyFrom(fl.bucket, fl.seen, fl.slot, c, Bucket(false, ""))]);
    assert c !in s.buckets && ReadSourceStep(s1, f, c, s2);
    CopyFromGoesWrong(s2, f);
    WrongLater(s1, ReadSource(f, c), s2);
    WrongLater(s, CreateBucket(c, false, ""), s1);
  }

  /** A part copy that took its source for a plain bucket; it is an ACT bucket by now, and holds an object. */
  lemma PartReadGoesWrong(s: World, f: nat, h: Held)
    requires f in s.flights && s.flights[f].PartFrom? && FlightSound(s, s.flights[f]) && Awaited(s, s.flights[f].target)
    requires !s.flights[f].from.act && (s.flights[f].source, "k") in s.objects
    requires s.objects[(s.flights[f].source, "k")] == Obj(s.flights[f].encrypt, h, [])
    requires h.ref != "" && h.ref in s.node.actRefs && s.node.actRefs[h.ref] != "" && s.flights[f].bucket in s.buckets
    requires s.flights[f].bucket == s.flights[f].source || !s.buckets[s.flights[f].bucket].act
    ensures GoesWrong(s)
  {
    var fl := s.flights[f];
    var o := Obj(fl.encrypt, h, []);
    var s1 := s.(flights := s.flights[f := PartOf(fl.bucket, fl.encrypt, fl.target, fl.source, fl.from, o)]);
    assert ReadObjectStep(s, f, "k", s1);
    var s2 := s.(flights := s.flights[f := Ready(fl.bucket, fl.encrypt, h.(history := ""), fl.target)]);
    assert s2.flights == s1.flights[f := Ready(fl.bucket, fl.encrypt, Reused(o, fl.from), fl.target)];
    assert ReusePartStep(s1, f, s2);
    ForgottenGoesWrong(s2, f);
    WrongLater(s1, ReusePart(f), s2);
    WrongLater(s, ReadObject(f, "k"), s1);
  }

  /** ACT bytes about to be recorded without their history: lost at once outside ACT, and on the next grant inside. */
  lemma ForgottenGoesWrong(s: World, f: nat)
    requires f in s.flights && s.flights[f].Ready? && s.flights[f].bucket in s.buckets && Awaited(s, s.flights[f].target)
    requires TargetOk(s, s.flights[f].bucket, s.flights[f].encrypt, s.flights[f].target)
    requires s.flights[f].held.history == "" && s.flights[f].held.ref != ""
    requires s.flights[f].held.ref in s.node.actRefs && s.node.actRefs[s.flights[f].held.ref] != ""
    ensures GoesWrong(s)
  {
    var b := s.flights[f].bucket;
    if s.buckets[b].act {
      var g := Longer({s.node.actRefs[s.flights[f].held.ref]});
      var s' := s.(node := s.node.(histories := s.node.histories + {g}), buckets := s.buckets[b := Bucket(true, g)]);
      ReadyGoesWrong(s', f);
      GrantPath(s, b, g);
    } else {
      ReadyGoesWrong(s, f);
    }
  }

  /** A part copy that took its source for a plain bucket, once its destination is one it may be copied to. */
  lemma PartFromGoesWrong(s: World, f: nat)
    requires HasRoom(s.node) && BucketsOk(s) && f in s.flights && s.flights[f].PartFrom? && FlightSound(s, s.flights[f])
    requires Awaited(s, s.flights[f].target) && !s.flights[f].from.act
    requires s.flights[f].source in s.buckets && s.buckets[s.flights[f].source].act && s.flights[f].bucket in s.buckets
    requires s.flights[f].bucket == s.flights[f].source || !s.buckets[s.flights[f].bucket].act
    ensures GoesWrong(s)
  {
    var fl := s.flights[f];
    var h, n' := TakesUpload(s.node, s.buckets[fl.source], fl.encrypt, "x");
    var s' := s.(node := n', objects := s.objects[(fl.source, "k") := Obj(fl.encrypt, h, [])]);
    PartReadGoesWrong(s', f, h);
    PutPath(s, fl.source, fl.encrypt, "k", h, n');
  }

  lemma PartPairGoesWrong(s: World, f: nat)
    requires HasRoom(s.node) && BucketsOk(s) && ObjectsOk(s) && f in s.flights && s.flights[f].PartFrom? && FlightSound(s, s.flights[f])
    requires s.flights[f].source in s.buckets && !FlightFits(s, s.flights[f].source, s.buckets[s.flights[f].source].act, s.flights[f])
    ensures GoesWrong(s)
  {
    var fl := s.flights[f];
    if fl.bucket == fl.source {
      PartFromGoesWrong(s, f);
    } else {
      var s' := s.(buckets := s.buckets[fl.bucket := Bucket(false, "")], objects := Without(s.objects, fl.bucket));
      PartFromGoesWrong(s', f);
      PlainPath(s, fl.bucket);
    }
  }

  /** A part copy within one name whose source object was read from the old bucket. */
  lemma PartOfGoesWrong(s: World, f: nat)
    requires f in s.flights && s.flights[f].PartOf? && FlightSound(s, s.flights[f]) && s.flights[f].bucket in s.buckets
    requires !FlightFits(s, s.flights[f].bucket, s.buckets[s.flights[f].bucket].act, s.flights[f])
    ensures GoesWrong(s)
  {
    var fl := s.flights[f];
    var h := Reused(fl.obj, fl.from);
    var s' := s.(flights := s.flights[f := Ready(fl.bucket, fl.encrypt, h, fl.target)]);
    assert ReusePartStep(s, f, s');
    MisplacedFails(s', fl.bucket, fl.encrypt, h);
    ReadyGoesWrong(s', f);
    WrongLater(s, ReusePart(f), s');
  }

  lemma UnfitHeld(n: Node, act: bool, o: Obj) returns (h: Held)
    requires !ObjFits(n, act, o) && ObjOk(n, o)
    ensures HeldBy(o, h) && h.ref != "" && !Fits(n, act, h) && HeldOk(n, o.encrypted, h)
  {
    if !Fits(n, act, o.own) {
      h := o.own;
    } else {
      var i :| 0 <= i < |o.parts| && !Fits(n, act, o.parts[i]);
      h := o.parts[i];
    }
  }

  lemma ReplacedHas(s: World, b: string, objs: map<string, Obj>, slot: string)
    requires slot in objs
    ensures (b, slot) in Replaced(s, b, objs) && Replaced(s, b, objs)[(b, slot)] == objs[slot]
  {
  }

  /** An old root, restored. */
  lemma RootGoesWrong(s: World, r: string)
    requires r in s.roots && s.roots[r].0 in s.buckets && ObjsOk(s.node, s.roots[r].1)
    requires !RootFits(s.node, s.buckets[s.roots[r].0].act, s.roots[r].1)
    ensures GoesWrong(s)
  {
    var b, objs := s.roots[r].0, s.roots[r].1;
    var slot :| slot in objs && !ObjFits(s.node, s.buckets[b].act, objs[slot]);
    var h := UnfitHeld(s.node, s.buckets[b].act, objs[slot]);
    var s' := s.(objects := Replaced(s, b, objs));
    ReplacedHas(s, b, objs, slot);
    MisplacedFails(s', b, objs[slot].encrypted, h);
    WrongNow(s', (b, slot), h);
    WrongLater(s, Restore(b, r), s');
  }

  /** A commit that read the old bucket: its root, published and restored. */
  lemma CommitGoesWrong(s: World, f: nat)
    requires f in s.flights && s.flights[f].Committing? && FlightSound(s, s.flights[f]) && s.flights[f].bucket in s.buckets
    requires !FlightFits(s, s.flights[f].bucket, s.buckets[s.flights[f].bucket].act, s.flights[f])
    ensures GoesWrong(s)
  {
    var fl := s.flights[f];
    var s' := s.(roots := s.roots["r" := (fl.bucket, fl.read)], flights := s.flights - {f});
    RootGoesWrong(s', "r");
    WrongLater(s, Publish(f, "r"), s');
  }

  /** An object about to be written in a bucket it does not fit. */
  lemma CopyingGoesWrong(s: World, f: nat)
    requires f in s.flights && s.flights[f].Copying? && FlightSound(s, s.flights[f]) && s.flights[f].bucket in s.buckets
    requires !FlightFits(s, s.flights[f].bucket, s.buckets[s.flights[f].bucket].act, s.flights[f])
    ensures GoesWrong(s)
  {
    var fl := s.flights[f];
    var h := UnfitHeld(s.node, s.buckets[fl.bucket].act, fl.obj);
    MisplacedFails(s, fl.bucket, fl.obj.encrypted, h);
    WritingGoesWrong(s, f, h);
  }

  lemma HeldGoesWrong(s: World, f: nat)
    requires f in s.flights && s.flights[f].Ready? && FlightSound(s, s.flights[f]) && s.flights[f].bucket in s.buckets
    requires !FlightFits(s, s.flights[f].bucket, s.buckets[s.flights[f].bucket].act, s.flights[f])
    ensures GoesWrong(s)
  {
    var fl := s.flights[f];
    MisplacedFails(s, fl.bucket, fl.encrypt, fl.held);
    ReadyGoesWrong(s, f);
  }

  // ---------------------------------------------------------------------------------------------
  // The condition is exact
  // ---------------------------------------------------------------------------------------------

  lemma UploadLeftover(s: World, step: Step, s': World, u: string)
    requires UploadsOk(s) && step.CreateBucket? && Next(s, step, s')
    requires u in s.uploads && s.uploads[u].bucket == step.b && !PartsFit(s.node, step.act, s.uploads[u])
    ensures GoesWrong(s')
  {
    assert UploadOk(s, u, s.uploads[u]);
    var n :| n in s.uploads[u].parts && !Fits(s.node, step.act, s.uploads[u].parts[n]);
    MisplacedFails(s', step.b, s.uploads[u].encrypted, s.uploads[u].parts[n]);
    UploadGoesWrong(s', u, n);
  }

  /** The bucket names a request that does not fit is about. */
  lemma UnfitNames(s: World, name: string, act: bool, f: Flight)
    requires !FlightFits(s, name, act, f)
    ensures name == f.bucket || ((f.CopyFrom? || f.PartFrom?) && name == f.source)
  {
  }

  lemma CopyLeftover(s: World, step: Step, s': World, f: nat)
    requires Inv(s) && HasRoom(s.node) && step.CreateBucket? && Next(s, step, s') && f in s.flights
    requires !FlightFits(s, step.b, step.act, s.flights[f])
    requires s.flights[f].CopyTo? || s.flights[f].CopyFrom? || s.flights[f].PartFrom?
    ensures GoesWrong(s')
  {
    var fl := s.flights[f];
    assert FlightOk(s, fl);
    FitsAnyBuckets(s, s', fl);
    CreatedRest(s, step, s');
    UnfitNames(s, step.b, step.act, fl);
    if fl.CopyTo? {
      CopyToGoesWrong(s', f);
    } else if fl.PartFrom? {
      PartPairGoesWrong(s', f);
    } else {
      var other := if step.b == fl.bucket then fl.source else fl.bucket;
      if other in s.buckets {
        assert FlightFits(s, other, s.buckets[other].act, fl);
      }
      CopyPairGoesWrong(s', f);
    }
  }

  lemma FlightLeftover(s: World, step: Step, s': World, f: nat)
    requires Inv(s) && HasRoom(s.node) && step.CreateBucket? && Next(s, step, s') && f in s.flights
    requires !FlightFits(s, step.b, step.act, s.flights[f])
    ensures GoesWrong(s')
  {
    var fl := s.flights[f];
    if fl.CopyTo? || fl.CopyFrom? || fl.PartFrom? {
      CopyLeftover(s, step, s', f);
    } else {
      assert FlightOk(s, fl);
      FitsAnyBuckets(s, s', fl);
      UnfitNames(s, step.b, step.act, fl);
      if fl.Sending? {
        SendingGoesWrong(s', f);
      } else if fl.Ready? {
        HeldGoesWrong(s', f);
      } else if fl.Copying? {
        CopyingGoesWrong(s', f);
      } else if fl.PartOf? {
        PartOfGoesWrong(s', f);
      } else if fl.Granting? {
        GrantGoesWrong(s', f);
      } else {
        CommitGoesWrong(s', f);
      }
    }
  }

  lemma RootLeftover(s: World, step: Step, s': World, r: string)
    requires RootsOk(s) && step.CreateBucket? && Next(s, step, s')
    requires r in s.roots && s.roots[r].0 == step.b && !RootFits(s.node, step.act, s.roots[r].1)
    ensures GoesWrong(s')
  {
    assert RootOk(s, s.roots[r].0, s.roots[r].1);
    RootGoesWrong(s', r);
  }

  /**
   * The condition on creating a bucket is exact: when something left over does not fit, steps lead on
   * to a stored object that does not read back.
   */
  lemma UnfitGoesWrong(s: World, step: Step, s': World)
    requires Inv(s) && HasRoom(s.node) && step.CreateBucket? && Next(s, step, s') && !LeftoversFit(s, step.b, step.act)
    ensures GoesWrong(s')
  {
    if u :| u in s.uploads && s.uploads[u].bucket == step.b && !PartsFit(s.node, step.act, s.uploads[u]) {
      UploadLeftover(s, step, s', u);
    } else if f :| f in s.flights && !FlightFits(s, step.b, step.act, s.flights[f]) {
      FlightLeftover(s, step, s', f);
    } else {
      var r :| r in s.roots && s.roots[r].0 == step.b && !RootFits(s.node, step.act, s.roots[r].1);
      RootLeftover(s, step, s', r);
    }
  }

  // ---------------------------------------------------------------------------------------------
  // Whole runs
  // ---------------------------------------------------------------------------------------------

  function Zeros(n: nat): (s: string)
    ensures |s| == n && Hex.AllHex(s)
  {
    if n == 0 then "" else "0" + Zeros(n - 1)
  }

  /** The part's bytes, under the history of the bucket at the time. */
  const Part1 := Held(Zeros(128), "h", "x")

  lemma Append(states: seq<World>, steps: seq<Step>, step: Step, s: World)
    requires IsRun(states, steps) && Next(states[|states| - 1], step, s)
    ensures IsRun(states + [s], steps + [step])
  {
  }

  /** An upload with one part in an ACT bucket. */
  function AfterPart(): World {
    World(Node(map[Part1.ref := "x"], map[Part1.ref := "h"], {"h"}), map["b" := Bucket(true, "h")], map[],
          map["u" := Upload("b", false, map[1 := Part1])], {"u"}, map[], map[])
  }

  /** An upload in an ACT bucket, and a request that will send its first part. */
  function BeforePart(): World {
    World(Node(map[], map[], {"h"}), map["b" := Bucket(true, "h")], map[], map["u" := Upload("b", false, map[])], {"u"},
          map[0 := Sending("b", Bucket(true, "h"), false, None, ToPart("u", 1))], map[])
  }

  lemma BeginRun() returns (states: seq<World>, steps: seq<Step>)
    ensures IsRun(states, steps) && states[|states| - 1] == BeforePart()
  {
    states, steps := [Init], [];
    var s1 := Init.(node := Node(map[], map[], {"h"}));
    Append(states, steps, MintHistory("h"), s1);
    states, steps := states + [s1], steps + [MintHistory("h")];
    var s2 := s1.(buckets := map["b" := Bucket(true, "h")]);
    Append(states, steps, CreateBucket("b", true, "h"), s2);
    states, steps := states + [s2], steps + [CreateBucket("b", true, "h")];
    var s3 := s2.(uploads := map["u" := Upload("b", false, map[])], usedIds := {"u"});
    Append(states, steps, CreateUpload("u", "b", false), s3);
    states, steps := states + [s3], steps + [CreateUpload("u", "b", false)];
    Append(states, steps, BeginPart(0, "u", 1), BeforePart());
    states, steps := states + [BeforePart()], steps + [BeginPart(0, "u", 1)];
  }

  lemma SendsPart(s: World, s': World)
    requires s == BeforePart()
    requires s' == s.(node := AfterPart().node, flights := map[0 := Ready("b", false, Part1, ToPart("u", 1))])
    ensures SendBodyStep(s, 0, Part1, AfterPart().node, s')
    ensures AfterPart() == Stored(s', s'.flights[0]).(flights := s'.flights - {0})
  {
    assert Part1.ref == Zeros(128);
    assert ActUpload(s.node, "x", "h", Part1.ref, AfterPart().node);
  }

  lemma PartRun() returns (states: seq<World>, steps: seq<Step>)
    ensures IsRun(states, steps) && states[|states| - 1] == AfterPart()
  {
    states, steps := BeginRun();
    var node := AfterPart().node;
    var s := BeforePart().(node := node, flights := map[0 := Ready("b", false, Part1, ToPart("u", 1))]);
    SendsPart(BeforePart(), s);
    Append(states, steps, SendBody(0, Part1, node), s);
    states, steps := states + [s], steps + [SendBody(0, Part1, node)];
    Append(states, steps, Store(0), AfterPart());
    states, steps := states + [AfterPart()], steps + [Store(0)];
  }

  /** The bucket deleted and created again without ACT. */
  function AfterRecreation(): World {
    AfterPart().(buckets := map["b" := Bucket(false, "")])
  }

  lemma RecreatedRun() returns (states: seq<World>, steps: seq<Step>)
    ensures IsRun(states, steps) && states[|states| - 1] == AfterRecreation()
  {
    states, steps := PartRun();
    var s := AfterPart().(buckets := map[]);
    Append(states, steps, DeleteBucket("b"), s);
    states, steps := states + [s], steps + [DeleteBucket("b")];
    Append(states, steps, CreateBucket("b", false, ""), AfterRecreation());
    states, steps := states + [AfterRecreation()], steps + [CreateBucket("b", false, "")];
  }

  /**
   * An upload begun in an ACT bucket, the bucket deleted and created again without ACT, the upload
   * completed: the object is not marked encrypted, its part's reference is key-bearing, and reading
   * it returns nothing.
   */
  lemma RecreationBreaks() returns (states: seq<World>, steps: seq<Step>, id: (string, string), h: Held)
    ensures IsRun(states, steps)
    ensures var s := states[|states| - 1];
            && id in s.objects && HeldBy(s.objects[id], h) && id.0 in s.buckets && !s.buckets[id.0].act
            && Read(s, id.0, h) == None && Manifest.KeyBearing(h.ref) && !s.objects[id].encrypted
  {
    states, steps := RecreatedRun();
    h, id := Part1, ("b", "k");
    var s, o := AfterRecreation(), Obj(false, Empty, [h]);
    var s' := s.(flights := map[0 := Copying("b", o, "k")]);
    CompletesOne(s, s', o);
    Append(states, steps, Complete(0, "u", [1], "k"), s');
    states, steps := states + [s'], steps + [Complete(0, "u", [1], "k")];
    var last := s.(objects := map[id := o]);
    StoresOne(s', last, o);
    Append(states, steps, Store(0), last);
    states, steps := states + [last], steps + [Store(0)];
    assert h in o.parts;
  }

  lemma StoresOne(s: World, s': World, o: Obj)
    requires s == AfterRecreation().(flights := map[0 := Copying("b", o, "k")])
    requires s' == AfterRecreation().(objects := map[("b", "k") := o])
    ensures Next(s, Store(0), s')
  {
    assert s' == Stored(s, s.flights[0]).(flights := s.flights - {0});
  }

  lemma CompletesOne(s: World, s': World, o: Obj)
    requires "u" in s.uploads && s.uploads["u"] == Upload("b", false, map[1 := Part1]) && "b" in s.buckets && 0 !in s.flights
    requires o == Obj(false, Empty, [Part1]) && s' == s.(flights := s.flights[0 := Copying("b", o, "k")])
    ensures CompleteStep(s, 0, "u", [1], "k", s')
  {
    var up := s.uploads["u"];
    assert seq(|[1]|, i requires 0 <= i < |[1]| => up.parts[[1][i]]) == [Part1];
  }

  /** A change of grants in an ACT bucket that has its new history but has not recorded it yet. */
  function BeforeGrant(): World {
    World(Node(map[], map[], {"h", "g"}), map["b" := Bucket(true, "h")], map[], map[], {}, map[0 := Granting("b", Some("g"))], map[])
  }

  lemma GrantRun() returns (states: seq<World>, steps: seq<Step>)
    ensures IsRun(states, steps) && states[|states| - 1] == BeforeGrant()
  {
    states, steps := [Init], [];
    var s1 := Init.(node := Node(map[], map[], {"h"}));
    Append(states, steps, MintHistory("h"), s1);
    states, steps := states + [s1], steps + [MintHistory("h")];
    var s2 := s1.(buckets := map["b" := Bucket(true, "h")]);
    Append(states, steps, CreateBucket("b", true, "h"), s2);
    states, steps := states + [s2], steps + [CreateBucket("b", true, "h")];
    var s3 := s2.(flights := map[0 := Granting("b", None)]);
    Append(states, steps, BeginGrant(0, "b"), s3);
    states, steps := states + [s3], steps + [BeginGrant(0, "b")];
    var s4 := s3.(node := Node(map[], map[], {"h", "g"}));
    Append(states, steps, MintHistory("g"), s4);
    states, steps := states + [s4], steps + [MintHistory("g")];
    Append(states, steps, AnswerGrant(0, "g"), BeforeGrant());
    states, steps := states + [BeforeGrant()], steps + [AnswerGrant(0, "g")];
  }

  /** A plain object in the bucket that was created again, the grant still outstanding. */
  const Plain := Held(Zeros(64), "", "x")

  function AfterPut(): World {
    BeforeGrant().(node := Node(map[Plain.ref := "x"], map[], {"h", "g"}), buckets := map["b" := Bucket(false, "")],
                   objects := map[("b", "k") := Obj(false, Plain, [])])
  }

  /** The bucket deleted and created again without ACT while the grant is outstanding. */
  function GrantLeftOver(): World {
    BeforeGrant().(buckets := map["b" := Bucket(false, "")])
  }

  lemma GrantLeftOverRun() returns (states: seq<World>, steps: seq<Step>)
    ensures IsRun(states, steps) && states[|states| - 1] == GrantLeftOver()
  {
    states, steps := GrantRun();
    var s := BeforeGrant().(buckets := map[]);
    Append(states, steps, DeleteBucket("b"), s);
    states, steps := states + [s], steps + [DeleteBucket("b")];
    Append(states, steps, CreateBucket("b", false, ""), GrantLeftOver());
    states, steps := states + [GrantLeftOver()], steps + [CreateBucket("b", false, "")];
  }

  lemma PutRun() returns (states: seq<World>, steps: seq<Step>)
    ensures IsRun(states, steps) && states[|states| - 1] == AfterPut()
  {
    states, steps := GrantLeftOverRun();
    var s1, s2 := PutSteps();
    Append(states, steps, BeginPut(1, "b", false, "k"), s1);
    states, steps := states + [s1], steps + [BeginPut(1, "b", false, "k")];
    Append(states, steps, SendBody(1, Plain, s2.node), s2);
    states, steps := states + [s2], steps + [SendBody(1, Plain, s2.node)];
    Append(states, steps, Store(1), AfterPut());
    states, steps := states + [AfterPut()], steps + [Store(1)];
  }

  lemma PutSteps() returns (s1: World, s2: World)
    ensures Next(GrantLeftOver(), BeginPut(1, "b", false, "k"), s1) && Next(s1, SendBody(1, Plain, s2.node), s2)
    ensures Next(s2, Store(1), AfterPut())
  {
    var s := GrantLeftOver();
    s1 := s.(flights := s.flights[1 := Sending("b", Bucket(false, ""), false, None, ToObject("k"))]);
    s2 := s1.(node := AfterPut().node, flights := s1.flights[1 := Ready("b", false, Plain, ToObject("k"))]);
    SendsPlain(s1, s2);
    assert AfterPut() == Stored(s2, s2.flights[1]).(flights := s2.flights - {1});
  }

  lemma SendsPlain(s: World, s': World)
    requires s.node == BeforeGrant().node && 1 in s.flights
    requires s.flights[1] == Sending("b", Bucket(false, ""), false, None, ToObject("k"))
    requires s' == s.(node := AfterPut().node, flights := s.flights[1 := Ready("b", false, Plain, ToObject("k"))])
    ensures SendBodyStep(s, 1, Plain, s'.node, s')
  {
    assert Plain.ref == Zeros(64);
    assert PlainUpload(s.node, "x", false, Plain.ref, s'.node);
  }

  /**
   * Grants being changed in an ACT bucket, the bucket deleted and created again without ACT, an object
   * stored, the new history recorded: the bucket is an ACT bucket now and holds plain content.
   */
  lemma GrantBreaks() returns (states: seq<World>, steps: seq<Step>, id: (string, string), h: Held)
    ensures IsRun(states, steps) && Lost(states[|states| - 1], id, h)
    ensures var s := states[|states| - 1];
            id.0 in s.buckets && s.buckets[id.0].act && h.ref in s.node.blobs && h.ref !in s.node.actRefs
  {
    states, steps := PutRun();
    h, id := Plain, ("b", "k");
    var s := AfterPut();
    var s' := s.(buckets := map["b" := Bucket(true, "g")], flights := map[]);
    assert s' == Stored(s, s.flights[0]).(flights := s.flights - {0});
    Append(states, steps, Store(0), s');
    states, steps := states + [s'], steps + [Store(0)];
  }
}
