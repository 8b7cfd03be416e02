/**
 * Versioning with handlers that are not atomic: a request reads the bucket's mode in one step and
 * writes the index in a later one, with anything in between, a change of mode included.
 */
module VersioningRaces {
  import opened Objects
  import opened Versioning
  import Mem = MemoryStore

  /** A request in flight and the mode it read. */
  datatype Flight = Flight(r: Request, seen: Mode)

  datatype State = State(b: Bucket, flights: map<nat, Flight>)

  datatype Step = Begin(h: nat, r: Request) | Finish(h: nat)

  /** The request's effect, with the mode it read; only a change of mode sets the mode. */
  function ServeSeen(b: Bucket, f: Flight): Bucket {
    var b' := Serve(Bucket(f.seen, b.st), f.r);
    Bucket(if f.r.SetVersioning? then b'.mode else b.mode, b'.st)
  }

  /** Version ids are minted for a bucket read as Enabled only, and are new when they are written. */
  ghost predicate MintsNew(b: Bucket, f: Flight) {
    f.seen == Enabled ==> Acceptable(b, f.r)
  }

  ghost predicate Next(s: State, step: Step, s': State) {
    match step
    case Begin(h, r) => h !in s.flights && s' == s.(flights := s.flights[h := Flight(r, s.b.mode)])
    case Finish(h) =>
      && h in s.flights && MintsNew(s.b, s.flights[h])
      && s' == State(ServeSeen(s.b, s.flights[h]), s.flights - {h})
  }

  ghost predicate IsRun(states: seq<State>, steps: seq<Step>) {
    |states| == |steps| + 1 && forall i :: 0 <= i < |steps| ==> Next(states[i], steps[i], states[i + 1])
  }

  /** The step finishes a request that names the version or replaces the bucket. */
  predicate LetsGo(s: State, step: Step, v: Object) {
    step.Finish? && step.h in s.flights && Releases(s.flights[step.h].r, v)
  }

  ghost predicate NeverLetsGo(states: seq<State>, steps: seq<Step>, v: Object) {
    IsRun(states, steps) && forall i :: 0 <= i < |steps| ==> !LetsGo(states[i], steps[i], v)
  }

  /** A plain DELETE of the key that read the bucket before versioning was set. */
  predicate IsLate(f: Flight, key: string) {
    f.seen == Unversioned && f.r.Delete? && f.r.key == key && f.r.versionId == ""
  }

  ghost predicate SomeLate(s: State, key: string) {
    exists h :: h in s.flights && IsLate(s.flights[h], key)
  }

  /** Versioning is set, the version is there, and no late delete of its key is in flight. */
  ghost predicate Safe(s: State, v: Object) {
    s.b.mode != Unversioned && Keeps(s.b.st, v) && !SomeLate(s, v.key)
  }

  lemma ServeSeenKeeps(b: Bucket, f: Flight, v: Object)
    requires b.mode != Unversioned && Keeps(b.st, v) && v.versionId != NullVersion
    requires MintsNew(b, f) && !Releases(f.r, v) && !IsLate(f, v.key)
    ensures ServeSeen(b, f).mode != Unversioned && Keeps(ServeSeen(b, f).st, v)
  {
    if f.seen == Enabled {
      ServeKeeps(Bucket(Enabled, b.st), f.r, v);
    } else if f.r.Write? {
      PutKeeps(b.st, StampVersion(f.r.o, f.seen, f.r.s), v);
    } else if f.r.Delete? && f.r.versionId != "" {
      DeleteVersionKeeps(b.st, f.r.key, f.r.versionId, v);
    } else if f.r.Delete? && f.seen == Suspended {
      PutKeeps(b.st, StampVersion(DeleteMarkerFor(f.r.key), Suspended, f.r.s), v);
    } else if f.r.Delete? {
      var u :| u in VersionsOf(b.st, v.key) && u.(isLatest := false) == v.(isLatest := false);
      assert u in VersionsOf(Mem.DeleteObject(b.st, f.r.key), v.key);
    }
  }

  lemma NextKeepsSafe(s: State, step: Step, s': State, v: Object)
    requires Safe(s, v) && v.versionId != NullVersion && Next(s, step, s') && !LetsGo(s, step, v)
    ensures Safe(s', v)
  {
    if step.Finish? {
      ServeSeenKeeps(s.b, s.flights[step.h], v);
    }
    forall h | h in s'.flights
      ensures !IsLate(s'.flights[h], v.key)
    {
      assert h in s.flights ==> !IsLate(s.flights[h], v.key);
    }
  }

  lemma {:induction false} RunKeepsSafe(states: seq<State>, steps: seq<Step>, v: Object, n: nat)
    requires NeverLetsGo(states, steps, v) && Safe(states[0], v) && v.versionId != NullVersion && n < |states|
    ensures Safe(states[n], v)
  {
    if n > 0 {
      RunKeepsSafe(states, steps, v, n - 1);
      NextKeepsSafe(states[n - 1], steps[n - 1], states[n], v);
    }
  }

  /** A late delete takes every version of its key with it. */
  lemma LateDeleteRemoves(s: State, h: nat, s': State, v: Object)
    requires h in s.flights && IsLate(s.flights[h], v.key) && Next(s, Finish(h), s')
    ensures !Keeps(s'.b.st, v)
  {
    assert v.key !in s'.b.st;
  }

  /** Whatever happens next short of naming the version or replacing the bucket, it is there at the end. */
  ghost predicate AlwaysKept(s: State, v: Object) {
    forall states: seq<State>, steps: seq<Step> :: NeverLetsGo(states, steps, v) && states[0] == s ==> Keeps(states[|states| - 1].b.st, v)
  }

  /**
   * Once versioning is set, a version with its own id survives every later run of interleaved
   * handlers, until a request names it or replaces the bucket, exactly when no plain DELETE of its
   * key that read the bucket before versioning was set is still in flight.
   */
  lemma KeptIff(s: State, v: Object)
    requires s.b.mode != Unversioned && Keeps(s.b.st, v) && v.versionId != NullVersion && v.versionId != ""
    ensures AlwaysKept(s, v) <==> !SomeLate(s, v.key)
  {
    if SomeLate(s, v.key) {
      var h :| h in s.flights && IsLate(s.flights[h], v.key);
      var s' := State(ServeSeen(s.b, s.flights[h]), s.flights - {h});
      LateDeleteRemoves(s, h, s', v);
      assert IsRun([s, s'], [Finish(h)]) && NeverLetsGo([s, s'], [Finish(h)], v);
      assert [s, s'][0] == s && !Keeps([s, s'][1].b.st, v);
    } else {
      forall states: seq<State>, steps: seq<Step> | NeverLetsGo(states, steps, v) && states[0] == s
        ensures Keeps(states[|states| - 1].b.st, v)
      {
        RunKeepsSafe(states, steps, v, |states| - 1);
      }
    }
  }
}
