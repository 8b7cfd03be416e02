/**
 * The commit chain as interleaved steps: request handlers that write and only later notify, the
 * committer that clears the dirty mark, reads the index page by page, saves a commit and then moves
 * the head, and restores. One gateway, any number of buckets.
 */
module CommitProtocol {
  import opened ByteStrings
  import opened Objects
  import opened Wrappers
  import opened CommitRoundTrip
  import Mem = MemoryStore
  import Listing = ObjectListing

  datatype BucketRow = BucketRow(st: Stacks, head: string, seq_: int)

  /** A saved commit document. */
  datatype Doc = Doc(bucket: string, seq_: int, parent: string, objects: seq<Object>)

  /** Where the committer is; the commit lock admits one build at a time. */
  datatype Phase =
    | Idle
    | Cleared(bucket: string)
    | Reading(bucket: string, parent: string, seq_: int, acc: seq<Object>, after: string)
    | Collected(bucket: string, parent: string, seq_: int, acc: seq<Object>)
    | Saved(bucket: string, root: string, seq_: int)

  /**
   * `pending` holds handlers between their write and their Notify. The last three are history:
   * `good` the buckets whose latest commit succeeded, or that were restored since; `overlapped`
   * whether a restore of the bucket being built has landed since the build started; `mixed` the
   * buckets whose head was set by a build that was overlapped.
   */
  datatype World = World(buckets: map<string, BucketRow>, docs: map<string, Doc>, dirty: set<string>,
                         pending: set<(string, nat)>, phase: Phase, good: set<string>, overlapped: bool, mixed: set<string>)

  datatype Step =
    | CreateBucket(b: string)
    | DeleteBucket(b: string)
    | Write(b: string, h: nat, st: Stacks)
    | Notify(b: string, h: nat)
    | Start(b: string)
    | Look
    | ReadPage(limit: nat)
    | SaveCommit(root: string)
    | SetHead
    | Fail
    | Restore(b: string, root: string)

  function Building(s: World): Option<string> {
    if s.phase == Idle then None else Some(s.phase.bucket)
  }

  function StOf(s: World, b: string): Stacks {
    if b in s.buckets then s.buckets[b].st else map[]
  }

  ghost predicate Next(s: World, step: Step, s': World) {
    match step
    case CreateBucket(b) => b !in s.buckets && s' == s.(buckets := s.buckets[b := BucketRow(map[], "", 0)], good := s.good - {b})
    case DeleteBucket(b) =>
      b in s.buckets && s.buckets[b].st == map[] && s' == s.(buckets := s.buckets - {b}, good := s.good - {b})
    case Write(b, h, st) =>
      && b in s.buckets && ValidStacks(st) && Owned(st, b)
      && s' == s.(buckets := s.buckets[b := s.buckets[b].(st := st)], pending := s.pending + {(b, h)})
    case Notify(b, h) => (b, h) in s.pending && s' == s.(pending := s.pending - {(b, h)}, dirty := s.dirty + {b})
    case Start(b) => s.phase == Idle && s' == s.(phase := Cleared(b), dirty := s.dirty - {b}, overlapped := false)
    case Look =>
      && s.phase.Cleared? && s.phase.bucket in s.buckets
      && var row := s.buckets[s.phase.bucket];
         s' == s.(phase := Reading(s.phase.bucket, row.head, row.seq_ + 1, [], ""))
    case ReadPage(limit) =>
      && s.phase.Reading? && s.phase.bucket in s.buckets && limit > 0
      && var page := ListObjects(StOf(s, s.phase.bucket), "", s.phase.after, limit);
         s' == s.(phase := if |page| < limit
                           then Collected(s.phase.bucket, s.phase.parent, s.phase.seq_, s.phase.acc + page)
                           else s.phase.(acc := s.phase.acc + page, after := page[|page| - 1].key))
    case SaveCommit(root) =>
      && s.phase.Collected? && root != ""
      && var doc := Doc(s.phase.bucket, s.phase.seq_, s.phase.parent, s.phase.acc);
         (root in s.docs ==> s.docs[root] == doc)
         && s' == s.(docs := s.docs[root := doc], phase := Saved(s.phase.bucket, root, s.phase.seq_))
    case SetHead =>
      && s.phase.Saved? && s.phase.bucket in s.buckets
      && s' == s.(buckets := s.buckets[s.phase.bucket := s.buckets[s.phase.bucket].(head := s.phase.root, seq_ := s.phase.seq_)],
                  phase := Idle, good := s.good + {s.phase.bucket},
                  mixed := if s.overlapped then s.mixed + {s.phase.bucket} else s.mixed - {s.phase.bucket})
    case Fail => s.phase != Idle && s' == s.(phase := Idle, good := s.good - {s.phase.bucket})
    case Restore(b, root) =>
      && b in s.buckets && root in s.docs && s.docs[root].bucket == b
      && s' == s.(buckets := s.buckets[b := BucketRow(Mem.Restore(s.docs[root].objects, b), root, s.docs[root].seq_)],
                  good := s.good + {b}, overlapped := s.overlapped || Building(s) == Some(b), mixed := s.mixed - {b})
  }

  const Init := World(map[], map[], {}, {}, Idle, {}, false, {})

  /** A restore of the bucket while a build of it is in flight. */
  predicate Overlaps(s: World, step: Step, b: string) {
    step.Restore? && step.b == b && Building(s) == Some(b)
  }

  ghost predicate IsRun(states: seq<World>, steps: seq<Step>) {
    && |states| == |steps| + 1 && states[0] == Init
    && forall i :: 0 <= i < |steps| ==> Next(states[i], steps[i], states[i + 1])
  }

  // ---------------------------------------------------------------------------------------------
  // Well-formedness
  // ---------------------------------------------------------------------------------------------

  ghost predicate UpTo(acc: seq<Object>, after: string) {
    forall i :: 0 <= i < |acc| ==> AtMost(acc[i].key, after)
  }

  ghost predicate ValidRows(s: World) {
    forall b :: b in s.buckets ==> ValidStacks(s.buckets[b].st) && Owned(s.buckets[b].st, b)
  }

  ghost predicate ValidDocs(s: World) {
    forall r :: r in s.docs ==> r != "" && Canonical(s.docs[r].objects, s.docs[r].bucket)
  }

  ghost predicate ValidPhase(s: World) {
    match s.phase
    case Reading(b, _, _, acc, after) => Canonical(acc, b) && UpTo(acc, after)
    case Collected(b, _, _, acc) => Canonical(acc, b)
    case _ => true
  }

  ghost predicate Valid(s: World) {
    ValidRows(s) && ValidDocs(s) && ValidPhase(s)
  }

  lemma PageRows(st: Stacks, b: string, after: string, limit: nat)
    requires ValidStacks(st) && Owned(st, b) && limit > 0
    ensures Canonical(ListObjects(st, "", after, limit), b)
    ensures forall j :: 0 <= j < |ListObjects(st, "", after, limit)| ==> Less(after, ListObjects(st, "", after, limit)[j].key)
  {
    hide LiveListing;
    var live := LiveListing(st, "", after);
    ListingCanonical(st, b, after);
    LiveListingContents(st, "", after);
    forall j | 0 <= j < |live|
      ensures Less(after, live[j].key)
    {
      assert live[j] in live;
    }
  }

  /** A page read after everything collected so far keeps the collection in order. */
  lemma PageExtends(acc: seq<Object>, page: seq<Object>, b: string, after: string)
    requires Canonical(acc, b) && UpTo(acc, after) && Canonical(page, b)
    requires forall j :: 0 <= j < |page| ==> Less(after, page[j].key)
    ensures Canonical(acc + page, b)
    ensures page != [] ==> UpTo(acc + page, page[|page| - 1].key)
  {
    forall i, j | 0 <= i < |acc| && 0 <= j < |page|
      ensures Less(acc[i].key, page[j].key)
    {
      AtMostThenLess(acc[i].key, after, page[j].key);
    }
  }

  lemma NextKeepsRows(s: World, step: Step, s': World)
    requires ValidRows(s) && ValidDocs(s) && Next(s, step, s')
    ensures ValidRows(s')
  {
    if step.Restore? {
      RestoreListing(s.docs[step.root].objects, step.b);
    }
  }

  lemma NextKeepsPhase(s: World, step: Step, s': World)
    requires ValidRows(s) && ValidPhase(s) && Next(s, step, s')
    ensures ValidPhase(s')
  {
    if step.ReadPage? {
      var b := s.phase.bucket;
      PageRows(StOf(s, b), b, s.phase.after, step.limit);
      PageExtends(s.phase.acc, ListObjects(StOf(s, b), "", s.phase.after, step.limit), b, s.phase.after);
    }
  }

  lemma NextKeepsValid(s: World, step: Step, s': World)
    requires Valid(s) && Next(s, step, s')
    ensures Valid(s')
  {
    NextKeepsRows(s, step, s');
    NextKeepsPhase(s, step, s');
  }

  // ---------------------------------------------------------------------------------------------
  // The head is current when nothing is outstanding
  // ---------------------------------------------------------------------------------------------

  ghost predicate Settled(s: World, b: string) {
    b !in s.dirty && forall h: nat :: (b, h) !in s.pending
  }

  ghost function Live(s: World, b: string): seq<Object> {
    LiveListing(StOf(s, b), "", "")
  }

  /** What the committer has read agrees with the index as far as it has read. */
  ghost predicate ReadSoFar(s: World, b: string) {
    match s.phase
    case Idle => true
    case Cleared(_) => true
    case Reading(_, _, _, acc, after) => Live(s, b) == acc + LiveListing(StOf(s, b), "", after)
    case Collected(_, _, _, acc) => Live(s, b) == acc
    case Saved(_, root, _) => root in s.docs && s.docs[root].objects == Live(s, b)
  }

  ghost predicate HeadIsCurrent(s: World, b: string) {
    b in s.buckets && s.buckets[b].head in s.docs && s.docs[s.buckets[b].head].objects == Live(s, b)
  }

  ghost predicate Current_(s: World, b: string) {
    Settled(s, b) ==>
      if Building(s) == Some(b) && !s.overlapped then ReadSoFar(s, b)
      else b in s.good && b !in s.mixed ==> HeadIsCurrent(s, b)
  }

  lemma ReadKeepsCurrent(s: World, limit: nat, s': World, b: string)
    requires ValidRows(s) && Next(s, ReadPage(limit), s') && Current_(s, b)
    ensures Current_(s', b)
  {
    if s.phase.bucket == b && Settled(s, b) && !s.overlapped {
      var st, acc, after := StOf(s, b), s.phase.acc, s.phase.after;
      var page := ListObjects(st, "", after, limit);
      Listing.ReadOne(st, acc, after, limit, page);
      PageIsRead(s, limit, s', st, acc, after, page);
    }
  }

  /** The committer's view after a page, given what the page leaves unread. */
  lemma PageIsRead(s: World, limit: nat, s': World, st: Stacks, acc: seq<Object>, after: string, page: seq<Object>)
    requires Next(s, ReadPage(limit), s') && ReadSoFar(s, s.phase.bucket)
    requires st == StOf(s, s.phase.bucket) && acc == s.phase.acc && after == s.phase.after && page == ListObjects(st, "", after, limit)
    requires |page| < limit ==> acc + LiveListing(st, "", after) == acc + page
    requires |page| >= limit ==> acc + LiveListing(st, "", after) == (acc + page) + LiveListing(st, "", page[|page| - 1].key)
    ensures ReadSoFar(s', s.phase.bucket)
  {
    hide ListObjects, LiveListing;
    assert StOf(s', s.phase.bucket) == st;
  }

  lemma NextKeepsCurrent(s: World, step: Step, s': World, b: string)
    requires Valid(s) && Next(s, step, s') && Current_(s, b)
    ensures Current_(s', b)
  {
    match step
    case CreateBucket(_) => BucketKeepsCurrent(s, step, s', b);
    case DeleteBucket(_) => BucketKeepsCurrent(s, step, s', b);
    case Write(_, _, _) => HandlerKeepsCurrent(s, step, s', b);
    case Notify(_, _) => HandlerKeepsCurrent(s, step, s', b);
    case Start(_) =>
    case Look => LookKeepsCurrent(s, s', b);
    case ReadPage(limit) => ReadKeepsCurrent(s, limit, s', b);
    case SaveCommit(root) => SaveKeepsCurrent(s, root, s', b);
    case SetHead => HeadKeepsCurrent(s, s', b);
    case Fail =>
    case Restore(c, root) => RestoreKeepsCurrent(s, c, root, s', b);
  }

  lemma BucketKeepsCurrent(s: World, step: Step, s': World, b: string)
    requires Next(s, step, s') && (step.CreateBucket? || step.DeleteBucket?) && Current_(s, b)
    ensures Current_(s', b)
  {
    if step.b == b && step.CreateBucket? {
      assert StOf(s', b) == StOf(s, b) == map[];
    }
  }

  lemma HandlerKeepsCurrent(s: World, step: Step, s': World, b: string)
    requires Next(s, step, s') && (step.Write? || step.Notify?) && Current_(s, b)
    ensures Current_(s', b)
  {
    if step.Write? && step.b == b {
      assert (b, step.h) in s'.pending;
    }
    if step.Notify? && step.b != b && Settled(s', b) {
      assert forall g: nat :: (b, g) in s.pending ==> (b, g) in s'.pending;
    }
  }

  lemma LookKeepsCurrent(s: World, s': World, b: string)
    requires Next(s, Look, s') && Current_(s, b)
    ensures Current_(s', b)
  {
    assert LiveListing(StOf(s, b), "", "") == [] + LiveListing(StOf(s, b), "", "");
  }

  lemma HeadKeepsCurrent(s: World, s': World, b: string)
    requires Next(s, SetHead, s') && Current_(s, b)
    ensures Current_(s', b)
  {
  }

  lemma RestoreKeepsCurrent(s: World, c: string, root: string, s': World, b: string)
    requires ValidDocs(s) && Next(s, Restore(c, root), s') && Current_(s, b)
    ensures Current_(s', b)
  {
    if c == b {
      RestoreListing(s.docs[root].objects, b);
    }
  }

  lemma SaveKeepsCurrent(s: World, root: string, s': World, b: string)
    requires Next(s, SaveCommit(root), s') && Current_(s, b)
    ensures Current_(s', b)
  {
    if Settled(s', b) && (s.phase.bucket != b || s.overlapped) && b in s.good && b !in s.mixed {
      assert s'.docs[s.buckets[b].head] == s.docs[s.buckets[b].head];
    }
  }

  lemma {:induction false} RunKeeps(states: seq<World>, steps: seq<Step>, b: string, n: nat)
    requires IsRun(states, steps) && n < |states|
    ensures Valid(states[n]) && Current_(states[n], b)
  {
    if n > 0 {
      RunKeeps(states, steps, b, n - 1);
      NextKeepsValid(states[n - 1], steps[n - 1], states[n]);
      NextKeepsCurrent(states[n - 1], steps[n - 1], states[n], b);
    }
  }

  /**
   * In every run: when the bucket is not dirty, no handler is between its write and its Notify, no
   * build of it is running, its latest commit succeeded, and its head was not set by a build that a
   * restore overlapped, the head document lists exactly what the index lists. An earlier overlap
   * does no harm once a later commit or restore has set the head.
   */
  lemma HeadMatchesIndex(states: seq<World>, steps: seq<Step>, b: string, n: nat)
    requires IsRun(states, steps) && n < |states|
    requires Settled(states[n], b) && Building(states[n]) != Some(b) && b in states[n].good && b !in states[n].mixed
    ensures b in states[n].buckets && states[n].buckets[b].head in states[n].docs
    ensures states[n].docs[states[n].buckets[b].head].objects == LiveListing(states[n].buckets[b].st, "", "")
  {
    RunKeeps(states, steps, b, n);
  }

  /** The running build of the bucket is clean and so is its head. */
  predicate Clean(s: World, b: string) {
    b !in s.mixed && (Building(s) == Some(b) ==> !s.overlapped)
  }

  lemma {:induction false} CleanFrom(states: seq<World>, steps: seq<Step>, b: string, k: nat, n: nat)
    requires IsRun(states, steps) && k <= n < |states| && Clean(states[k], b)
    requires forall i :: k <= i < n ==> !Overlaps(states[i], steps[i], b)
    ensures Clean(states[n], b)
  {
    if k < n {
      CleanFrom(states, steps, b, k, n - 1);
    }
  }

  /**
   * In terms of the run alone: it is enough that no restore of this bucket has overlapped a build of
   * it since the state after a clean commit, a restore outside a build, or the start.
   */
  lemma HeadMatchesSince(states: seq<World>, steps: seq<Step>, b: string, k: nat, n: nat)
    requires IsRun(states, steps) && k <= n < |states|
    requires k == 0 || SetsHead(states[k - 1], steps[k - 1], b)
    requires forall i :: k <= i < n ==> !Overlaps(states[i], steps[i], b)
    requires Settled(states[n], b) && Building(states[n]) != Some(b) && b in states[n].good
    ensures HeadIsCurrent(states[n], b)
  {
    CleanFrom(states, steps, b, k, n);
    RunKeeps(states, steps, b, n);
  }

  /** A step that sets the bucket's head with no build of it overlapped. */
  predicate SetsHead(s: World, step: Step, b: string) {
    || (step.SetHead? && s.phase.Saved? && s.phase.bucket == b && !s.overlapped)
    || (step.Restore? && step.b == b && Building(s) != Some(b))
  }

  // ---------------------------------------------------------------------------------------------
  // The same, without the history variables
  // ---------------------------------------------------------------------------------------------

  /** The step sets the bucket's head. */
  predicate Finishes(s: World, step: Step, b: string) {
    (step.SetHead? && s.phase.Saved? && s.phase.bucket == b) || (step.Restore? && step.b == b)
  }

  /** A failed build of the bucket, or a new life of it. */
  predicate Spoils(s: World, step: Step, b: string) {
    || (step.Fail? && s.phase != Idle && s.phase.bucket == b)
    || (step.CreateBucket? && step.b == b) || (step.DeleteBucket? && step.b == b)
  }

  lemma GoodStep(s: World, step: Step, s': World, b: string)
    requires Next(s, step, s')
    ensures b in s'.good <==> Finishes(s, step, b) || (b in s.good && !Spoils(s, step, b))
  {
  }

  lemma StepAt(states: seq<World>, steps: seq<Step>, n: nat)
    requires IsRun(states, steps) && n + 1 < |states|
    ensures |states| == |steps| + 1 && Next(states[n], steps[n], states[n + 1])
  {
  }

  lemma {:induction false} GoodSince(states: seq<World>, steps: seq<Step>, b: string, i: nat, n: nat)
    requires IsRun(states, steps) && i < n < |states| && Finishes(states[i], steps[i], b)
    requires forall j :: i < j < n ==> !Spoils(states[j], steps[j], b)
    ensures b in states[n].good
  {
    hide IsRun, Next, Finishes, Spoils;
    StepAt(states, steps, n - 1);
    GoodStep(states[n - 1], steps[n - 1], states[n], b);
    if i < n - 1 {
      GoodSince(states, steps, b, i, n - 1);
    }
  }

  /** Every handler that wrote has notified since. */
  ghost predicate AllNotified(steps: seq<Step>, b: string, n: nat)
    requires n <= |steps|
  {
    forall i, h :: 0 <= i < n && IsWrite(steps[i], b, h) ==> NotifiedBy(steps, b, h, i, n)
  }

  predicate IsWrite(step: Step, b: string, h: nat) {
    step.Write? && step.b == b && step.h == h
  }

  ghost predicate NotifiedBy(steps: seq<Step>, b: string, h: nat, i: nat, n: nat)
    requires n <= |steps|
  {
    exists j :: i < j < n && steps[j] == Notify(b, h)
  }

  /** Every notification has been followed by the start of a build. */
  ghost predicate AllStarted(steps: seq<Step>, b: string, n: nat)
    requires n <= |steps|
  {
    forall i :: 0 <= i < n && steps[i].Notify? && steps[i].b == b ==> StartedBy(steps, b, i, n)
  }

  ghost predicate StartedBy(steps: seq<Step>, b: string, i: nat, n: nat)
    requires n <= |steps|
  {
    exists j :: i < j < n && steps[j] == Start(b)
  }

  lemma {:induction false} PendingHasWrite(states: seq<World>, steps: seq<Step>, b: string, h: nat, n: nat) returns (i: nat)
    requires IsRun(states, steps) && n < |states| && (b, h) in states[n].pending
    ensures i < n && IsWrite(steps[i], b, h) && forall j :: i < j < n ==> steps[j] != Notify(b, h)
  {
    assert Next(states[n - 1], steps[n - 1], states[n - 1 + 1]);
    if IsWrite(steps[n - 1], b, h) {
      i := n - 1;
    } else {
      i := PendingHasWrite(states, steps, b, h, n - 1);
    }
  }

  lemma {:induction false} DirtyHasNotify(states: seq<World>, steps: seq<Step>, b: string, n: nat) returns (i: nat)
    requires IsRun(states, steps) && n < |states| && b in states[n].dirty
    ensures i < n && steps[i].Notify? && steps[i].b == b && forall j :: i < j < n ==> steps[j] != Start(b)
  {
    assert Next(states[n - 1], steps[n - 1], states[n - 1 + 1]);
    if steps[n - 1].Notify? && steps[n - 1].b == b {
      i := n - 1;
    } else {
      i := DirtyHasNotify(states, steps, b, n - 1);
    }
  }

  lemma SettledBySteps(states: seq<World>, steps: seq<Step>, b: string, n: nat)
    requires IsRun(states, steps) && n < |states| && AllNotified(steps, b, n) && AllStarted(steps, b, n)
    ensures Settled(states[n], b)
  {
    if b in states[n].dirty {
      var i := DirtyHasNotify(states, steps, b, n);
    }
    forall h: nat | (b, h) in states[n].pending
      ensures false
    {
      var i := PendingHasWrite(states, steps, b, h, n);
    }
  }

  /**
   * By the steps of the run alone: every write has been notified and every notification has been
   * followed by a build; the step at i set the head, and no build of the bucket has failed since; no
   * restore has overlapped a build since the head was set at k; and no build is running now. Then the
   * head lists exactly what the index lists.
   */
  lemma HeadMatchesSteps(states: seq<World>, steps: seq<Step>, b: string, k: nat, i: nat, n: nat)
    requires IsRun(states, steps) && k <= n && i < n < |states|
    requires AllNotified(steps, b, n) && AllStarted(steps, b, n)
    requires Finishes(states[i], steps[i], b) && forall j :: i < j < n ==> !Spoils(states[j], steps[j], b)
    requires k == 0 || SetsHead(states[k - 1], steps[k - 1], b)
    requires forall j :: k <= j < n ==> !Overlaps(states[j], steps[j], b)
    requires Building(states[n]) != Some(b)
    ensures b in states[n].buckets && states[n].buckets[b].head in states[n].docs
    ensures states[n].docs[states[n].buckets[b].head].objects == LiveListing(states[n].buckets[b].st, "", "")
  {
    SettledBySteps(states, steps, b, n);
    GoodSince(states, steps, b, i, n);
    HeadMatchesSince(states, steps, b, k, n);
  }

  /**
   * A commit catches up: with the committer idle and no handler between its write and its Notify,
   * five steps lead to a settled bucket whose head lists its index, under the next sequence number.
   */
  lemma CommitCatchesUp(s0: World, b: string, root: string) returns (s: World)
    requires s0.phase == Idle && b in s0.buckets && (forall h: nat :: (b, h) !in s0.pending) && root != "" && root !in s0.docs
    ensures exists s1, s2, s3, s4, limit ::
              Next(s0, Start(b), s1) && Next(s1, Look, s2) && Next(s2, ReadPage(limit), s3)
              && Next(s3, SaveCommit(root), s4) && Next(s4, SetHead, s)
    ensures Settled(s, b) && HeadIsCurrent(s, b) && s.buckets[b].head == root
    ensures s.buckets[b].seq_ == s0.buckets[b].seq_ + 1 && s.docs[root].parent == s0.buckets[b].head
    ensures s.buckets[b].st == s0.buckets[b].st && b in s.good && b !in s.mixed
  {
    hide LiveListing;
    var row := s0.buckets[b];
    var live := LiveListing(row.st, "", "");
    var limit := |live| + 1;
    var s1 := s0.(phase := Cleared(b), dirty := s0.dirty - {b}, overlapped := false);
    var s2 := s1.(phase := Reading(b, row.head, row.seq_ + 1, [], ""));
    assert ListObjects(StOf(s2, b), "", "", limit) == live;
    assert [] + live == live;
    var s3 := s2.(phase := Collected(b, row.head, row.seq_ + 1, live));
    var s4 := s3.(docs := s3.docs[root := Doc(b, row.seq_ + 1, row.head, live)], phase := Saved(b, root, row.seq_ + 1));
    s := s4.(buckets := s4.buckets[b := row.(head := root, seq_ := row.seq_ + 1)], phase := Idle, good := s4.good + {b}, mixed := s4.mixed - {b});
    assert Next(s0, Start(b), s1) && Next(s1, Look, s2) && Next(s2, ReadPage(limit), s3);
    assert Next(s3, SaveCommit(root), s4) && Next(s4, SetHead, s);
  }

  // ---------------------------------------------------------------------------------------------
  // The parent chain
  // ---------------------------------------------------------------------------------------------

  /** A (root, sequence) pair that a bucket may have as its head. */
  ghost predicate IsHead(docs: map<string, Doc>, b: string, root: string, seq_: int) {
    (root == "" && seq_ == 0) || (root in docs && docs[root].bucket == b && docs[root].seq_ == seq_)
  }

  ghost predicate HeadsChained(s: World) {
    forall b :: b in s.buckets ==> IsHead(s.docs, b, s.buckets[b].head, s.buckets[b].seq_)
  }

  ghost predicate DocsChained(s: World) {
    forall r :: r in s.docs ==>
                  r != "" && s.docs[r].seq_ >= 1 && IsHead(s.docs, s.docs[r].bucket, s.docs[r].parent, s.docs[r].seq_ - 1)
  }

  ghost predicate PhaseChained(s: World) {
    match s.phase
    case Reading(b, parent, seq_, _, _) => seq_ >= 1 && IsHead(s.docs, b, parent, seq_ - 1)
    case Collected(b, parent, seq_, _) => seq_ >= 1 && IsHead(s.docs, b, parent, seq_ - 1)
    case Saved(b, root, seq_) => seq_ >= 1 && IsHead(s.docs, b, root, seq_)
    case _ => true
  }

  ghost predicate Chained(s: World) {
    HeadsChained(s) && DocsChained(s) && PhaseChained(s)
  }

  /** A further document leaves heads what they are. */
  lemma HeadStays(docs: map<string, Doc>, more: map<string, Doc>, b: string, root: string, seq_: int)
    requires IsHead(docs, b, root, seq_) && forall r :: r in docs ==> r in more && more[r] == docs[r]
    ensures IsHead(more, b, root, seq_)
  {
  }

  /** The documents after a save: the old ones, and one on top of the head the build started from. */
  lemma SaveAddsDoc(s: World, root: string, s': World)
    requires PhaseChained(s) && Next(s, SaveCommit(root), s')
    ensures forall r :: r in s.docs ==> r in s'.docs && s'.docs[r] == s.docs[r]
    ensures s'.docs.Keys == s.docs.Keys + {root} && root != "" && s'.docs[root].seq_ >= 1 && s'.phase == Saved(s'.docs[root].bucket, root, s'.docs[root].seq_)
    ensures IsHead(s.docs, s'.docs[root].bucket, s'.docs[root].parent, s'.docs[root].seq_ - 1) && s'.buckets == s.buckets
  {
  }

  lemma SaveKeepsHeads(s: World, root: string, s': World)
    requires Chained(s) && Next(s, SaveCommit(root), s')
    ensures HeadsChained(s')
  {
    hide Next;
    SaveAddsDoc(s, root, s');
    forall b | b in s'.buckets
      ensures IsHead(s'.docs, b, s'.buckets[b].head, s'.buckets[b].seq_)
    {
      HeadStays(s.docs, s'.docs, b, s.buckets[b].head, s.buckets[b].seq_);
    }
  }

  lemma SaveKeepsDocs(s: World, root: string, s': World)
    requires Chained(s) && Next(s, SaveCommit(root), s')
    ensures DocsChained(s')
  {
    hide Next;
    SaveAddsDoc(s, root, s');
    forall r | r in s'.docs
      ensures r != "" && s'.docs[r].seq_ >= 1 && IsHead(s'.docs, s'.docs[r].bucket, s'.docs[r].parent, s'.docs[r].seq_ - 1)
    {
      HeadStays(s.docs, s'.docs, s'.docs[r].bucket, s'.docs[r].parent, s'.docs[r].seq_ - 1);
    }
  }

  lemma SaveKeepsChained(s: World, root: string, s': World)
    requires Chained(s) && Next(s, SaveCommit(root), s')
    ensures Chained(s')
  {
    hide Next;
    SaveKeepsHeads(s, root, s');
    SaveKeepsDocs(s, root, s');
    SaveAddsDoc(s, root, s');
  }

  lemma NextKeepsHeads(s: World, step: Step, s': World)
    requires Chained(s) && Next(s, step, s') && s'.docs == s.docs
    ensures HeadsChained(s')
  {
  }

  lemma NextKeepsPhaseChained(s: World, step: Step, s': World)
    requires Chained(s) && Next(s, step, s') && s'.docs == s.docs
    ensures PhaseChained(s')
  {
    if step.Look? {
      assert IsHead(s.docs, s.phase.bucket, s.buckets[s.phase.bucket].head, s.buckets[s.phase.bucket].seq_);
    }
  }

  /** Restores may overlap builds here. */
  lemma NextKeepsChained(s: World, step: Step, s': World)
    requires Chained(s) && Next(s, step, s')
    ensures Chained(s')
  {
    if step.SaveCommit? {
      SaveKeepsChained(s, step.root, s');
    } else {
      assert s'.docs == s.docs;
      NextKeepsHeads(s, step, s');
      NextKeepsPhaseChained(s, step, s');
    }
  }

  lemma {:induction false} RunKeepsChained(states: seq<World>, steps: seq<Step>, n: nat)
    requires IsRun(states, steps) && n < |states|
    ensures Chained(states[n])
  {
    if n > 0 {
      RunKeepsChained(states, steps, n - 1);
      NextKeepsChained(states[n - 1], steps[n - 1], states[n]);
    }
  }

  /** The commits from a root back to the first, following parent links. */
  ghost function History(s: World, root: string): seq<string>
    requires Chained(s) && (root == "" || root in s.docs)
    decreases if root in s.docs then s.docs[root].seq_ else 0
  {
    if root == "" then [] else [root] + History(s, s.docs[root].parent)
  }

  lemma {:induction false} HistoryMeaning(s: World, root: string)
    requires Chained(s) && root in s.docs
    ensures |History(s, root)| == s.docs[root].seq_
    ensures forall i :: 0 <= i < |History(s, root)| ==>
                          var r := History(s, root)[i];
                          r in s.docs && s.docs[r].seq_ == s.docs[root].seq_ - i && s.docs[r].bucket == s.docs[root].bucket
    ensures forall i :: 0 <= i < |History(s, root)| - 1 ==> s.docs[History(s, root)[i]].parent == History(s, root)[i + 1]
    ensures s.docs[History(s, root)[|History(s, root)| - 1]].parent == ""
    decreases s.docs[root].seq_
  {
    var p := s.docs[root].parent;
    if p != "" {
      HistoryMeaning(s, p);
      var h := History(s, root);
      assert h[1..] == History(s, p);
      assert forall i :: 1 <= i < |h| ==> h[i] == History(s, p)[i - 1];
    } else {
      assert History(s, p) == [];
    }
  }

  /**
   * Under any interleaving of commits and restores, overlapping or not, the head document's
   * sequence number is the bucket's, and the parent links lead through every smaller number down to
   * commit 1, which has no parent.
   */
  lemma ChainIsWhole(states: seq<World>, steps: seq<Step>, n: nat, b: string)
    requires IsRun(states, steps) && n < |states| && b in states[n].buckets && states[n].buckets[b].head != ""
    ensures var s, row := states[n], states[n].buckets[b];
            && Chained(s) && row.head in s.docs && s.docs[row.head].seq_ == row.seq_
            && |History(s, row.head)| == row.seq_
            && (forall i :: 0 <= i < row.seq_ ==>
                              History(s, row.head)[i] in s.docs && s.docs[History(s, row.head)[i]].seq_ == row.seq_ - i)
            && s.docs[History(s, row.head)[row.seq_ - 1]].parent == ""
  {
    RunKeepsChained(states, steps, n);
    HistoryMeaning(states[n], states[n].buckets[b].head);
  }
}
