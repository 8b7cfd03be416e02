/**
 * The premises of the head-matches-index result are needed: concrete runs in which one is dropped
 * and the bucket is settled while its head is wrong, and for every overlap how long it stays so.
 */
module CommitAnomalies {
  import opened Objects
  import opened CommitRoundTrip
  import opened CommitProtocol
  import Mem = MemoryStore

  const Sample := Object("k", "null", 1, true, false, "tag",
                         Body("b", "", 0, false, 0, "", [], Attrs("", "", "", map[], "", "", 0)))

  /** One bucket holding one object, and the empty bucket. */
  lemma SampleStates()
    ensures Canonical([Sample], "b") && Canonical([], "b")
    ensures Mem.Restorable([Sample]) && ValidStacks(Mem.Restore([Sample], "b")) && Owned(Mem.Restore([Sample], "b"), "b")
    ensures LiveListing(Mem.Restore([Sample], "b"), "", "") == [Sample]
    ensures Mem.Restore([], "b") == map[] && LiveListing(map[], "", "") == []
  {
    assert CanonicalRow(Sample, "b");
    RestoreListing([Sample], "b");
    RestoreListing([], "b");
  }

  /** The first commit of an empty bucket, up to the saved document. */
  function AfterEmptyCommit(): World {
    World(map["b" := BucketRow(map[], "", 0)], map["r1" := Doc("b", 1, "", [])], {}, {}, Saved("b", "r1", 1), {}, false, {})
  }

  lemma EmptyCommitRun() returns (states: seq<World>, steps: seq<Step>)
    ensures IsRun(states, steps) && states[|states| - 1] == AfterEmptyCommit()
    ensures forall i :: 0 <= i < |steps| ==> !steps[i].Restore?
  {
    hide ListObjects;
    var s1 := Init.(buckets := map["b" := BucketRow(map[], "", 0)]);
    states, steps := [Init, s1], [CreateBucket("b")];
    var s2 := s1.(phase := Cleared("b"));
    Extend(states, steps, Start("b"), s2);
    states, steps := states + [s2], steps + [Start("b")];
    var s3 := s1.(phase := Reading("b", "", 1, [], ""));
    Extend(states, steps, Look, s3);
    states, steps := states + [s3], steps + [Look];
    var s4 := s1.(phase := Collected("b", "", 1, []));
    EmptyPage(s3, s4);
    Extend(states, steps, ReadPage(1), s4);
    states, steps := states + [s4], steps + [ReadPage(1)];
    Extend(states, steps, SaveCommit("r1"), AfterEmptyCommit());
    states, steps := states + [AfterEmptyCommit()], steps + [SaveCommit("r1")];
  }

  lemma EmptyPage(s: World, s': World)
    requires s.phase == Reading("b", "", 1, [], "") && "b" in s.buckets && s.buckets["b"].st == map[]
    requires s' == s.(phase := Collected("b", "", 1, []))
    ensures Next(s, ReadPage(1), s')
  {
    assert LiveListing(map[], "", "") == [];
    assert s.phase.acc + ListObjects(map[], "", "", 1) == [];
  }

  lemma Extend(states: seq<World>, steps: seq<Step>, step: Step, s: World)
    requires IsRun(states, steps) && Next(states[|states| - 1], step, s)
    ensures IsRun(states + [s], steps + [step])
  {
  }

  /** The empty commit became the head; then one object was written and notified. */
  function AfterWrite(): World {
    World(map["b" := BucketRow(Mem.Restore([Sample], "b"), "r1", 1)], map["r1" := Doc("b", 1, "", [])], {"b"}, {}, Idle, {"b"}, false, {})
  }

  lemma WriteRun() returns (states: seq<World>, steps: seq<Step>)
    ensures IsRun(states, steps) && states[|states| - 1] == AfterWrite()
    ensures forall i :: 0 <= i < |steps| ==> !steps[i].Restore?
  {
    SampleStates();
    hide ValidStacks, Owned, LiveListing, ListObjects, Mem.Restore;
    states, steps := EmptyCommitRun();
    var full := Mem.Restore([Sample], "b");
    var s1 := AfterEmptyCommit().(buckets := map["b" := BucketRow(map[], "r1", 1)], phase := Idle, good := {"b"});
    Extend(states, steps, SetHead, s1);
    states, steps := states + [s1], steps + [SetHead];
    var s2 := s1.(buckets := map["b" := BucketRow(full, "r1", 1)], pending := {("b", 0)});
    Extend(states, steps, Write("b", 0, full), s2);
    states, steps := states + [s2], steps + [Write("b", 0, full)];
    Extend(states, steps, Notify("b", 0), AfterWrite());
    states, steps := states + [AfterWrite()], steps + [Notify("b", 0)];
  }

  /** The second build has cleared the mark and read the object. */
  function AfterRead(): World {
    AfterWrite().(dirty := {}, phase := Collected("b", "r1", 2, [Sample]))
  }

  lemma SecondBuildRun() returns (states: seq<World>, steps: seq<Step>)
    ensures IsRun(states, steps) && states[|states| - 1] == AfterRead()
    ensures forall i :: 0 <= i < |steps| ==> !steps[i].Restore?
  {
    SampleStates();
    hide ValidStacks, Owned, LiveListing, Mem.Restore;
    states, steps := WriteRun();
    var s1 := AfterWrite().(phase := Cleared("b"), dirty := {});
    Extend(states, steps, Start("b"), s1);
    states, steps := states + [s1], steps + [Start("b")];
    var s2 := s1.(phase := Reading("b", "r1", 2, [], ""));
    Extend(states, steps, Look, s2);
    states, steps := states + [s2], steps + [Look];
    assert s2.phase.acc + ListObjects(StOf(s2, "b"), "", "", 2) == [Sample];
    Extend(states, steps, ReadPage(2), AfterRead());
    states, steps := states + [AfterRead()], steps + [ReadPage(2)];
  }

  /**
   * A restore that lands while a build of the bucket is in flight is overwritten by the head the
   * build then sets: the bucket is settled and its latest commit succeeded, yet the head lists an
   * object the index does not.
   */
  lemma OverlapBreaks() returns (states: seq<World>, steps: seq<Step>, n: nat)
    ensures IsRun(states, steps) && n < |states| && Settled(states[n], "b") && states[n].phase == Idle
    ensures "b" in states[n].good && "b" in states[n].mixed && !HeadIsCurrent(states[n], "b")
  {
    SampleStates();
    hide ValidStacks, Owned, LiveListing, ListObjects, Mem.Restore;
    states, steps := SecondBuildRun();
    var s := AfterRead();
    var s1 := s.(buckets := s.buckets["b" := BucketRow(map[], "r1", 1)], good := s.good + {"b"}, overlapped := true);
    Extend(states, steps, Restore("b", "r1"), s1);
    states, steps := states + [s1], steps + [Restore("b", "r1")];
    var s2 := s1.(docs := s1.docs["r2" := Doc("b", 2, "r1", [Sample])], phase := Saved("b", "r2", 2));
    Extend(states, steps, SaveCommit("r2"), s2);
    states, steps := states + [s2], steps + [SaveCommit("r2")];
    var s3 := s2.(buckets := s2.buckets["b" := BucketRow(map[], "r2", 2)], phase := Idle, good := s2.good + {"b"}, mixed := {"b"});
    Extend(states, steps, SetHead, s3);
    states, steps := states + [s3], steps + [SetHead];
    n := |states| - 1;
  }

  /** A failed commit has already cleared the mark and does not set it again. */
  lemma FailureLeavesStale() returns (states: seq<World>, steps: seq<Step>, n: nat)
    ensures IsRun(states, steps) && n < |states| && Settled(states[n], "b") && states[n].phase == Idle
    ensures (forall i :: 0 <= i < |steps| ==> !steps[i].Restore?) && !HeadIsCurrent(states[n], "b")
  {
    SampleStates();
    states, steps := SecondBuildRun();
    var s := AfterRead();
    var s1 := s.(phase := Idle, good := s.good - {"b"});
    Extend(states, steps, Fail, s1);
    states, steps := states + [s1], steps + [Fail];
    n := |states| - 1;
  }

  // ---------------------------------------------------------------------------------------------
  // Every overlap that reads something else
  // ---------------------------------------------------------------------------------------------

  /** The step leaves the bucket's index and record to the committer. */
  predicate Quiet(step: Step, b: string) {
    match step
    case CreateBucket(c) => c != b
    case DeleteBucket(c) => c != b
    case Write(c, _, _) => c != b
    case Restore(c, _) => c != b
    case _ => true
  }

  /** The committer has read the whole of bucket b and will make `objects` its head. */
  ghost predicate Carries(s: World, b: string, objects: seq<Object>) {
    match s.phase
    case Collected(c, _, _, acc) => c == b && acc == objects
    case Saved(c, root, _) => c == b && root in s.docs && s.docs[root].objects == objects
    case _ => false
  }

  predicate HeadLists(s: World, b: string, objects: seq<Object>) {
    b in s.buckets && s.buckets[b].head in s.docs && s.docs[s.buckets[b].head].objects == objects
  }

  /** The bucket is there with this index, and its next head, or its head, lists `objects`. */
  ghost predicate Awaits(s: World, b: string, st: Stacks, objects: seq<Object>) {
    b in s.buckets && s.buckets[b].st == st && Carries(s, b, objects)
  }

  ghost predicate Stands(s: World, b: string, st: Stacks, objects: seq<Object>) {
    HeadLists(s, b, objects) && s.buckets[b].st == st
  }

  lemma PendingStays(s: World, step: Step, s': World, b: string, st: Stacks, objects: seq<Object>)
    requires Next(s, step, s') && Awaits(s, b, st, objects) && Quiet(step, b) && !step.Fail?
    ensures if step.SetHead? then Stands(s', b, st, objects) else Awaits(s', b, st, objects)
  {
  }

  /** A later head of this bucket. */
  predicate SetsHeadOf(s: World, step: Step, b: string) {
    step.SetHead? && s.phase.Saved? && s.phase.bucket == b
  }

  lemma SetStays(s: World, step: Step, s': World, b: string, st: Stacks, objects: seq<Object>)
    requires Next(s, step, s') && Stands(s, b, st, objects) && Quiet(step, b) && !SetsHeadOf(s, step, b)
    ensures Stands(s', b, st, objects)
  {
  }

  lemma {:induction false} PendingAlong(states: seq<World>, steps: seq<Step>, b: string, st: Stacks, objects: seq<Object>, i: nat, k: nat)
    requires IsRun(states, steps) && i <= k < |states| && Awaits(states[i], b, st, objects)
    requires forall j :: i <= j < k ==> Quiet(steps[j], b) && !steps[j].Fail? && !steps[j].SetHead?
    ensures Awaits(states[k], b, st, objects)
  {
    if i < k {
      PendingAlong(states, steps, b, st, objects, i, k - 1);
      PendingStays(states[k - 1], steps[k - 1], states[k], b, st, objects);
    }
  }

  lemma {:induction false} SetAlong(states: seq<World>, steps: seq<Step>, b: string, st: Stacks, objects: seq<Object>, i: nat, n: nat)
    requires IsRun(states, steps) && i <= n < |states| && Stands(states[i], b, st, objects)
    requires forall j :: i <= j < n ==> Quiet(steps[j], b) && !SetsHeadOf(states[j], steps[j], b)
    ensures Stands(states[n], b, st, objects)
  {
    if i < n {
      SetAlong(states, steps, b, st, objects, i, n - 1);
      SetStays(states[n - 1], steps[n - 1], states[n], b, st, objects);
    }
  }

  /** The restore leaves the build's work standing. */
  lemma RestoreUnderBuild(s: World, b: string, root: string, s': World, objects: seq<Object>)
    requires ValidDocs(s) && Next(s, Restore(b, root), s') && Carries(s, b, objects)
    ensures Awaits(s', b, Mem.Restore(s.docs[root].objects, b), objects)
    ensures LiveListing(Mem.Restore(s.docs[root].objects, b), "", "") == s.docs[root].objects
  {
    RestoreListing(s.docs[root].objects, b);
  }

  /**
   * In every run: a restore of b at i lands after the pages of a build of b have been read, its
   * document lists something else than they did, and the build sets its head at k. Then the head is
   * not current from there on, until b is written, restored, committed or created anew.
   */
  lemma OverlapLeavesStale(states: seq<World>, steps: seq<Step>, b: string, objects: seq<Object>, i: nat, k: nat, n: nat)
    requires IsRun(states, steps) && i < k < n < |states|
    requires steps[i].Restore? && steps[i].b == b && Carries(states[i], b, objects)
    requires steps[i].root in states[i].docs && states[i].docs[steps[i].root].objects != objects
    requires steps[k].SetHead? && forall j :: i < j < k ==> Quiet(steps[j], b) && !steps[j].Fail? && !steps[j].SetHead?
    requires forall j :: k < j < n ==> Quiet(steps[j], b) && !SetsHeadOf(states[j], steps[j], b)
    ensures HeadLists(states[n], b, objects) && !HeadIsCurrent(states[n], b)
  {
    RunKeeps(states, steps, b, i);
    var root := steps[i].root;
    var st := Mem.Restore(states[i].docs[root].objects, b);
    RestoreUnderBuild(states[i], b, root, states[i + 1], objects);
    PendingAlong(states, steps, b, st, objects, i + 1, k);
    PendingStays(states[k], steps[k], states[k + 1], b, st, objects);
    SetAlong(states, steps, b, st, objects, k + 1, n);
  }
}
