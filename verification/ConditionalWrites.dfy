/**
 * Conditional writes under interleaving. A handler checks the condition early, moves the bytes, and
 * commits later; the store re-checks the condition atomically with the write. Any number of
 * handlers, deletes and restores interleave between those two points.
 */
module ConditionalWrites {
  import opened ByteStrings
  import opened Objects
  import opened Wrappers
  import Mem = MemoryStore
  import Versions = Versioning

  /** A request on its way to the store: its bytes may still be moving. */
  datatype Pending = Pending(o: Object, cond: PutCondition)

  datatype State = State(st: Stacks, pending: map<nat, Pending>)

  datatype Step =
    | Begin(h: nat, p: Pending)
    | Abandon(h: nat)
    | Commit(h: nat)
    | RemoveVersion(key: string, id: string)
    | RemoveKey(key: string)
    | Restore(objects: seq<Object>, bucket: string)

  datatype EarlyAnswer = Proceed | NoSuchKey | PreconditionFailed

  /** The check a PUT makes before bytes move; If-Match against a missing key is NoSuchKey, not a 412. */
  function EarlyCheck(cond: PutCondition, versions: seq<Object>): EarlyAnswer {
    if cond.PutCondition? && cond.ifMatch != "" && Current(versions).None? then NoSuchKey
    else if Admits(cond, versions) then Proceed
    else PreconditionFailed
  }

  /** The early check turns away exactly what the store would refuse at that moment. */
  lemma EarlyCheckIsTheStores(cond: PutCondition, versions: seq<Object>)
    ensures EarlyCheck(cond, versions) == Proceed <==> Admits(cond, versions)
    ensures EarlyCheck(cond, versions) == NoSuchKey <==> cond.PutCondition? && cond.ifMatch != "" && Current(versions).None?
  {
  }

  function Here(s: State, key: string): Option<Object> {
    Current(VersionsOf(s.st, key))
  }

  /** A commit the store accepts: the condition holds at the moment of the write. */
  predicate Succeeds(s: State, step: Step) {
    step.Commit? && step.h in s.pending && Admits(s.pending[step.h].cond, VersionsOf(s.st, s.pending[step.h].o.key))
  }

  ghost predicate Next(s: State, step: Step, s': State) {
    match step
    case Begin(h, p) => h !in s.pending && s' == s.(pending := s.pending[h := p])
    case Abandon(h) => s' == s.(pending := s.pending - {h})
    case Commit(h) =>
      && h in s.pending
      && s' == State(if Succeeds(s, step) then Mem.Put(s.st, s.pending[h].o) else s.st, s.pending - {h})
    case RemoveVersion(key, id) => s' == s.(st := Mem.DeleteVersion(s.st, key, id))
    case RemoveKey(key) => s' == s.(st := Mem.DeleteObject(s.st, key))
    case Restore(objects, bucket) => Mem.Restorable(objects) && s' == s.(st := Mem.Restore(objects, bucket))
  }

  /** A run: states one longer than steps, each step leading from one state to the next. */
  ghost predicate IsRun(states: seq<State>, steps: seq<Step>) {
    && |states| == |steps| + 1
    && forall i :: 0 <= i < |steps| ==> Next(states[i], steps[i], states[i + 1])
  }

  /** The write is stamped no earlier than the versions it leaves in place. */
  ghost predicate StampedLast(versions: seq<Object>, o: Object) {
    forall i :: 0 <= i < |versions| && versions[i].versionId != o.versionId ==> versions[i].vseq <= o.vseq
  }

  // ---------------------------------------------------------------------------------------------
  // When an accepted write is the one readers see
  // ---------------------------------------------------------------------------------------------

  /** An accepted write becomes the latest version exactly when it is stamped last. */
  lemma WriteShows(versions: seq<Object>, o: Object)
    requires NewestFirst(versions) && DistinctIds(versions)
    ensures Mem.PutStack(versions, o)[0] == o.(isLatest := true) <==> StampedLast(versions, o)
  {
    var t := Mem.Others(versions, o.versionId);
    Mem.OthersElements(versions, o.versionId);
    Mem.OthersOrdered(versions, o.versionId);
    Mem.SortedIsFixed(t);
    assert ([o] + t)[1..] == t;
    assert Mem.PutStack(versions, o) == Mem.Flagged(Mem.InsertVersion(o, t));
    if t != [] {
      assert t[0] in versions && t[0].versionId != o.versionId;
      forall i | 0 <= i < |versions| && versions[i].versionId != o.versionId
        ensures versions[i].vseq <= t[0].vseq
      {
        assert versions[i] in t;
      }
    } else {
      forall i | 0 <= i < |versions|
        ensures versions[i].versionId == o.versionId
      {
        assert versions[i] in versions;
      }
    }
  }

  /** The versions of its key that a write leaves in place. */
  function Survivors(s: State, o: Object): seq<Object> {
    Mem.Others(VersionsOf(s.st, o.key), o.versionId)
  }

  /** A later-stamped survivor stays on top of the write. */
  predicate Covered(s: State, o: Object) {
    Survivors(s, o) != [] && Survivors(s, o)[0].vseq > o.vseq
  }

  /** What readers see after an accepted write: the write, or the survivor that covers it. */
  lemma SuccessShows(s: State, step: Step, s': State, o: Object)
    requires ValidStacks(s.st) && Next(s, step, s') && Succeeds(s, step) && o == s.pending[step.h].o
    ensures Covered(s, o) ==>
              var top := Survivors(s, o)[0];
              Here(s', o.key) == if top.deleteMarker then None else Some(top.(isLatest := true))
    ensures !Covered(s, o) ==> Here(s', o.key) == if o.deleteMarker then None else Some(o.(isLatest := true))
  {
    var versions := VersionsOf(s.st, o.key);
    var t := Survivors(s, o);
    Mem.OthersOrdered(versions, o.versionId);
    Mem.SortedIsFixed(t);
    assert ([o] + t)[1..] == t;
    assert Mem.PutStack(versions, o) == Mem.Flagged(Mem.InsertVersion(o, t));
  }

  // ---------------------------------------------------------------------------------------------
  // Every run keeps the stacks well formed
  // ---------------------------------------------------------------------------------------------

  ghost predicate ProperKeys(s: State) {
    forall h :: h in s.pending ==> s.pending[h].o.key != "" && IsBytes(s.pending[h].o.key)
  }

  lemma NextKeepsValid(s: State, step: Step, s': State)
    requires ValidStacks(s.st) && ProperKeys(s) && Next(s, step, s')
    requires step.Begin? ==> step.p.o.key != "" && IsBytes(step.p.o.key)
    ensures ValidStacks(s'.st) && ProperKeys(s')
  {
    match step
    case Commit(h) => Mem.PutKeepsValid(s.st, s.pending[h].o);
    case RemoveVersion(key, id) => Mem.DeleteVersionKeepsValid(s.st, key, id);
    case Restore(objects, bucket) => Mem.RestoreOnePerKey(objects, bucket);
    case _ =>
  }

  /** A run from a well-formed index in which every request names a non-empty key. */
  ghost predicate ProperRun(states: seq<State>, steps: seq<Step>) {
    && IsRun(states, steps) && ValidStacks(states[0].st) && ProperKeys(states[0])
    && forall i :: 0 <= i < |steps| && steps[i].Begin? ==> steps[i].p.o.key != "" && IsBytes(steps[i].p.o.key)
  }

  lemma {:induction false} RunKeepsValid(states: seq<State>, steps: seq<Step>, n: nat)
    requires ProperRun(states, steps) && n < |states|
    ensures ValidStacks(states[n].st) && ProperKeys(states[n])
  {
    if n > 0 {
      RunKeepsValid(states, steps, n - 1);
      NextKeepsValid(states[n - 1], steps[n - 1], states[n]);
    }
  }

  // ---------------------------------------------------------------------------------------------
  // Create-only writes
  // ---------------------------------------------------------------------------------------------

  /** A successful write under `If-None-Match: *` of a real object. */
  predicate CreatesOnly(s: State, step: Step, key: string) {
    && Succeeds(s, step)
    && var p := s.pending[step.h];
       p.o.key == key && !p.o.deleteMarker && p.cond.PutCondition? && p.cond.ifNoneMatch == "*"
  }

  const CreateOnly := PutCondition("", "*")

  /** The write lies under a delete marker that is stamped after it. */
  predicate Hidden(s: State, o: Object) {
    Covered(s, o) && Survivors(s, o)[0].deleteMarker
  }

  /**
   * After an accepted create-only write, a second one is admitted next exactly when the first lies
   * under a delete marker stamped after it.
   */
  lemma CreateAgainIff(s: State, step: Step, s': State, key: string)
    requires ValidStacks(s.st) && Next(s, step, s') && CreatesOnly(s, step, key)
    ensures Here(s', key).None? <==> Hidden(s, s.pending[step.h].o)
    ensures Admits(CreateOnly, VersionsOf(s'.st, key)) <==> Hidden(s, s.pending[step.h].o)
  {
    SuccessShows(s, step, s', s.pending[step.h].o);
  }

  /** Somewhere between a state with the key and a later one without it, the key was removed. */
  lemma {:induction false} RemovalBetween(states: seq<State>, key: string, a: nat, b: nat) returns (r: nat)
    requires a < b < |states| && Here(states[a], key).Some? && Here(states[b], key).None?
    ensures a <= r < b && Here(states[r], key).Some? && Here(states[r + 1], key).None?
    decreases b - a
  {
    if Here(states[a + 1], key).None? {
      r := a;
    } else {
      r := RemovalBetween(states, key, a + 1, b);
    }
  }

  /** Between two successful create-only writes of a key, the first not hidden, that key was removed. */
  lemma CreateOnce(states: seq<State>, steps: seq<Step>, key: string, i: nat, j: nat) returns (r: nat)
    requires ProperRun(states, steps)
    requires i < j < |steps| && CreatesOnly(states[i], steps[i], key) && CreatesOnly(states[j], steps[j], key)
    requires !Hidden(states[i], states[i].pending[steps[i].h].o)
    ensures i < r < j && Here(states[r], key).Some? && Here(states[r + 1], key).None?
  {
    RunKeepsValid(states, steps, i);
    CreateAgainIff(states[i], steps[i], states[i + 1], key);
    r := RemovalBetween(states, key, i + 1, j);
  }

  // ---------------------------------------------------------------------------------------------
  // If-Match writes
  // ---------------------------------------------------------------------------------------------

  /** A successful write of a real object under an `If-Match` condition. */
  predicate Updates(s: State, step: Step, key: string, tag: string) {
    && Succeeds(s, step)
    && var p := s.pending[step.h];
       p.o.key == key && !p.o.deleteMarker && p.cond.PutCondition? && p.cond.ifMatch == tag && tag != ""
  }

  ghost predicate Carries(s: State, key: string, tag: string) {
    Here(s, key).Some? && Here(s, key).value.etag == tag
  }

  /** What it replaced carried that tag at the moment of the write, and it is what readers see next. */
  lemma UpdateReplacedTag(s: State, step: Step, s': State, key: string, tag: string)
    requires ValidStacks(s.st) && Next(s, step, s') && Updates(s, step, key, tag)
    ensures Here(s, key).Some? && (tag == "*" || Here(s, key).value.etag == tag)
    ensures Here(s', key) == Some(s.pending[step.h].o.(isLatest := true)) <==>
            StampedLast(VersionsOf(s.st, key), s.pending[step.h].o)
  {
    var o := s.pending[step.h].o;
    WriteShows(VersionsOf(s.st, key), o);
  }

  /** Beneath a later-stamped version that carries the tag, the write leaves the tag in place. */
  predicate TagStays(s: State, o: Object, tag: string) {
    Covered(s, o) && !Survivors(s, o)[0].deleteMarker && Survivors(s, o)[0].etag == tag
  }

  /**
   * After an accepted If-Match write that changes the tag, a second write against the same tag is
   * admitted next exactly when a later-stamped version with that tag covers the first.
   */
  lemma UpdateAgainIff(s: State, step: Step, s': State, key: string, tag: string)
    requires ValidStacks(s.st) && Next(s, step, s') && Updates(s, step, key, tag) && tag != "*"
    requires s.pending[step.h].o.etag != tag
    ensures Carries(s', key, tag) <==> TagStays(s, s.pending[step.h].o, tag)
    ensures Admits(PutCondition(tag, ""), VersionsOf(s'.st, key)) <==> TagStays(s, s.pending[step.h].o, tag)
  {
    SuccessShows(s, step, s', s.pending[step.h].o);
  }

  /** A tag that is gone at one state and back at a later one was brought back by a step between. */
  lemma {:induction false} ReturnBetween(states: seq<State>, key: string, tag: string, a: nat, b: nat) returns (r: nat)
    requires a < b < |states| && !Carries(states[a], key, tag) && Carries(states[b], key, tag)
    ensures a <= r < b && !Carries(states[r], key, tag) && Carries(states[r + 1], key, tag)
    decreases b - a
  {
    if Carries(states[a + 1], key, tag) {
      r := a;
    } else {
      r := ReturnBetween(states, key, tag, a + 1, b);
    }
  }

  /**
   * No lost update: two successful writes against the same tag, the first of which changed it and is
   * not covered by a version that carries it, can only happen when the tag came back in between.
   */
  lemma UpdateOnce(states: seq<State>, steps: seq<Step>, key: string, tag: string, i: nat, j: nat) returns (r: nat)
    requires ProperRun(states, steps)
    requires i < j < |steps| && tag != "*"
    requires Updates(states[i], steps[i], key, tag) && Updates(states[j], steps[j], key, tag)
    requires states[i].pending[steps[i].h].o.etag != tag && !TagStays(states[i], states[i].pending[steps[i].h].o, tag)
    ensures i < r < j && !Carries(states[r], key, tag) && Carries(states[r + 1], key, tag)
  {
    RunKeepsValid(states, steps, i);
    RunKeepsValid(states, steps, j);
    UpdateAgainIff(states[i], steps[i], states[i + 1], key, tag);
    UpdateReplacedTag(states[j], steps[j], states[j + 1], key, tag);
    r := ReturnBetween(states, key, tag, i + 1, j);
  }

  // ---------------------------------------------------------------------------------------------
  // Stamps out of order
  // ---------------------------------------------------------------------------------------------

  function Version(id: string, vseq: int, marker: bool, etag: string): Object {
    Object("k", id, vseq, true, marker, etag, Body("", "", 0, false, 0, "", [], Attrs("", "", "", map[], "", "", 0)))
  }

  /** Two pending writes of one key that commit one after the other, over one version stamped after both. */
  function TwoWriters(top: Object, a: Object, b: Object, cond: PutCondition): seq<State> {
    var s0 := State(map["k" := [top]], map[1 := Pending(a, cond), 2 := Pending(b, cond)]);
    var s1 := State(Mem.Put(s0.st, a), s0.pending - {1});
    [s0, s1, State(Mem.Put(s1.st, b), s1.pending - {2})]
  }

  lemma TwoWritersRun(top: Object, a: Object, b: Object, cond: PutCondition)
    requires top.key == a.key == b.key == "k" && top.isLatest && top.vseq > a.vseq && top.versionId != a.versionId
    requires Admits(cond, [top])
    ensures var states, steps := TwoWriters(top, a, b, cond), [Commit(1), Commit(2)];
            ProperRun(states, steps) && Succeeds(states[0], steps[0]) && Succeeds(states[1], steps[1])
  {
    var states, steps := TwoWriters(top, a, b, cond), [Commit(1), Commit(2)];
    assert VersionsOf(states[0].st, "k") == [top];
    assert Survivors(states[0], a) == [top] by {
      Mem.NothingCut([top], a.versionId);
    }
    assert Next(states[0], steps[0], states[1]);
    SuccessShows(states[0], steps[0], states[1], a);
    assert top.(isLatest := true) == top;
    assert Next(states[1], steps[1], states[2]);
  }

  /**
   * A create-only write stamped before a delete that committed first stays hidden under the marker,
   * and a second create-only write is accepted with no removal in between.
   */
  lemma CreateTwiceWhenStampsDisagree() returns (states: seq<State>, steps: seq<Step>)
    ensures ProperRun(states, steps) && |steps| == 2
    ensures CreatesOnly(states[0], steps[0], "k") && CreatesOnly(states[1], steps[1], "k")
  {
    var top, a, b := Version("m", 10, true, ""), Version("a", 3, false, ""), Version("b", 4, false, "");
    TwoWritersRun(top, a, b, CreateOnly);
    states, steps := TwoWriters(top, a, b, CreateOnly), [Commit(1), Commit(2)];
  }

  /** Two If-Match writes stamped before the version they replace: both succeed against its tag. */
  lemma UpdateTwiceWhenStampsDisagree() returns (states: seq<State>, steps: seq<Step>)
    ensures ProperRun(states, steps) && |steps| == 2
    ensures Updates(states[0], steps[0], "k", "t") && Updates(states[1], steps[1], "k", "t")
    ensures states[0].pending[steps[0].h].o.etag != "t"
  {
    var top, a, b := Version("m", 10, false, "t"), Version("a", 3, false, "u"), Version("b", 4, false, "v");
    TwoWritersRun(top, a, b, PutCondition("t", ""));
    states, steps := TwoWriters(top, a, b, PutCondition("t", "")), [Commit(1), Commit(2)];
  }

  // ---------------------------------------------------------------------------------------------
  // What a request writes, and what it leaves alone
  // ---------------------------------------------------------------------------------------------

  /** A refused commit changes nothing; an accepted one replaces the version of its id and no other. */
  lemma CommitMeaning(s: State, h: nat, s': State, v: Object)
    requires Next(s, Commit(h), s')
    ensures h in s.pending && h !in s'.pending
    ensures !Succeeds(s, Commit(h)) ==> s'.st == s.st
    ensures Succeeds(s, Commit(h)) ==>
              var o := s.pending[h].o;
              Versions.Keeps(s'.st, v) <==>
              o.(isLatest := false) == v.(isLatest := false)
              || (Versions.Keeps(s.st, v) && (v.key == o.key ==> v.versionId != o.versionId))
  {
    hide Mem.Put;
    Versions.PutHolds(s.st, s.pending[h].o, v);
  }

  /** The keys a step may change. */
  predicate Touches(s: State, step: Step, key: string) {
    match step
    case Commit(h) => h in s.pending && s.pending[h].o.key == key
    case RemoveVersion(k, _) => k == key
    case RemoveKey(k) => k == key
    case Restore(_, _) => true
    case _ => false
  }

  lemma OthersUntouched(s: State, step: Step, s': State, key: string)
    requires Next(s, step, s') && !Touches(s, step, key)
    ensures VersionsOf(s'.st, key) == VersionsOf(s.st, key)
  {
  }

  /** What a removal takes away: one version, or all of a key. */
  lemma RemovalMeaning(s: State, step: Step, s': State, v: Object)
    requires Next(s, step, s')
    ensures step.RemoveVersion? ==>
              (Versions.Keeps(s'.st, v) <==> Versions.Keeps(s.st, v) && !(v.key == step.key && v.versionId == step.id))
    ensures step.RemoveKey? ==> (Versions.Keeps(s'.st, v) <==> Versions.Keeps(s.st, v) && v.key != step.key)
    ensures step.RemoveVersion? || step.RemoveKey? ==> s'.pending == s.pending
  {
    hide Mem.DeleteVersion;
    if step.RemoveVersion? {
      Versions.DeleteVersionHolds(s.st, step.key, step.id, v);
    }
  }

  /** A request that begins or is given up writes nothing, and one given up is never committed. */
  lemma OnlyCommitsWrite(s: State, step: Step, s': State)
    requires Next(s, step, s')
    ensures step.Begin? ==> s'.st == s.st && s'.pending == s.pending[step.h := step.p]
    ensures step.Abandon? ==> s'.st == s.st && step.h !in s'.pending
    ensures step.Abandon? ==> forall h :: h != step.h && h in s.pending ==> h in s'.pending && s'.pending[h] == s.pending[h]
  {
  }

  /** The step ends the request of this handler. */
  predicate EndsRequest(step: Step, h: nat) {
    (step.Commit? && step.h == h) || (step.Abandon? && step.h == h)
  }

  /** What is committed is what the request began with, however much happens in between. */
  lemma {:induction false} StaysPending(states: seq<State>, steps: seq<Step>, h: nat, p: Pending, i: nat, k: nat)
    requires IsRun(states, steps) && i < k < |states| && steps[i] == Begin(h, p)
    requires forall j :: i < j < k ==> !EndsRequest(steps[j], h)
    ensures h in states[k].pending && states[k].pending[h] == p
  {
    assert Next(states[k - 1], steps[k - 1], states[k - 1 + 1]);
    if i < k - 1 {
      StaysPending(states, steps, h, p, i, k - 1);
    }
  }

  /**
   * A request is decided once, by the condition it came with, at the moment it reaches the store: it
   * is written if the condition holds then and otherwise leaves the index as it is.
   */
  lemma DecidedAtTheStore(states: seq<State>, steps: seq<Step>, h: nat, p: Pending, i: nat, k: nat)
    requires IsRun(states, steps) && i < k < |steps| && steps[i] == Begin(h, p) && steps[k] == Commit(h)
    requires forall j :: i < j < k ==> !EndsRequest(steps[j], h)
    ensures Succeeds(states[k], steps[k]) <==> Admits(p.cond, VersionsOf(states[k].st, p.o.key))
    ensures states[k + 1].st == if Admits(p.cond, VersionsOf(states[k].st, p.o.key)) then Mem.Put(states[k].st, p.o) else states[k].st
  {
    StaysPending(states, steps, h, p, i, k);
    assert Next(states[k], steps[k], states[k + 1]);
  }
}
