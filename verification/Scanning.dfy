/**
 * A scan over a sequence that may stop early, read in one go or batch by batch.
 *
 * Both listings assemble a response this way: visit the rows of one index page after another, and
 * stop as soon as the response is full. That the batches do not show in the result is proved here
 * once, for any way of visiting and any sign of being full.
 */
module Scanning {
  /** Visiting the rest from an accumulator, until it is full. */
  function From<A, T>(visit: (A, T) -> A, full: A -> bool, acc: A, rest: seq<T>): A
    decreases |rest|
  {
    if rest == [] || full(acc) then acc else From(visit, full, visit(acc, rest[0]), rest[1..])
  }

  /** The same scan from its beginning, by its last element. */
  function All<A, T>(visit: (A, T) -> A, full: A -> bool, init: A, xs: seq<T>): A {
    if xs == [] then init
    else
      var acc := All(visit, full, init, xs[..|xs| - 1]);
      if full(acc) then acc else visit(acc, xs[|xs| - 1])
  }

  lemma {:induction false} FromIsAll<A, T>(visit: (A, T) -> A, full: A -> bool, init: A, done: seq<T>, rest: seq<T>)
    ensures From(visit, full, All(visit, full, init, done), rest) == All(visit, full, init, done + rest)
    decreases |rest|
  {
    if rest == [] {
      assert done + rest == done;
    } else {
      var next := done + [rest[0]];
      assert next[..|next| - 1] == done && next + rest[1..] == done + rest;
      FromIsAll(visit, full, init, next, rest[1..]);
    }
  }

  /** From the beginning the two readings agree. */
  lemma WholeScan<A, T>(visit: (A, T) -> A, full: A -> bool, init: A, xs: seq<T>)
    ensures From(visit, full, init, xs) == All(visit, full, init, xs)
  {
    FromIsAll(visit, full, init, [], xs);
    assert [] + xs == xs;
  }

  /** Scanning two batches is scanning the first and going on with the second. */
  lemma {:induction false} FromSplits<A, T>(visit: (A, T) -> A, full: A -> bool, acc: A, a: seq<T>, b: seq<T>)
    ensures From(visit, full, acc, a + b) == From(visit, full, From(visit, full, acc, a), b)
    decreases |a|
  {
    if a == [] {
      assert a + b == b;
    } else if !full(acc) {
      assert (a + b)[1..] == a[1..] + b;
      FromSplits(visit, full, visit(acc, a[0]), a[1..], b);
    }
  }

  /** The loop over one batch. */
  method ScanBatch<A, T>(visit: (A, T) -> A, full: A -> bool, acc: A, batch: seq<T>) returns (r: A)
    requires !full(acc)
    ensures r == From(visit, full, acc, batch)
  {
    r := acc;
    for j := 0 to |batch|
      invariant !full(r) && From(visit, full, r, batch[j..]) == From(visit, full, acc, batch)
    {
      assert batch[j..][1..] == batch[j + 1..];
      r := visit(r, batch[j]);
      if full(r) {
        return;
      }
    }
  }
}
