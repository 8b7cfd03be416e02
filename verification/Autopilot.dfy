/**
 * The stamp autopilot: one decision per batch and pass, repeated until nothing is left to do. The
 * node applies a dilution by halving the remaining time and a top-up by the blocks it buys.
 * Times are 64-bit counts of nanoseconds and wrap around. Ratios are real numbers here; rounding of
 * floating-point division is not modelled.
 */
module Autopilot {
  /** A batch as the node reports it; a negative time to live means unknown. */
  datatype Batch = Batch(depth: nat, bucketDepth: nat, ttl: int, utilization: nat, reportedRatio: real, immutable_: bool)

  /** Thresholds in nanoseconds, as configured: 0 < minTTL <= targetTTL and 0 < diluteAt <= 1. */
  datatype Config = Config(minTTL: int, targetTTL: int, diluteAt: real)

  /** What does not change between passes: storage price, balances, and the age of the reading. */
  datatype Chain = Chain(price: int, wallet: int, native: int, age: int)

  const Second := 1_000_000_000
  const BlockTime := 5 * Second
  const Unbounded := 0x3fff_ffff_ffff_ffff
  const MaxDuration := 0x7fff_ffff_ffff_ffff

  /** The longest time to live in seconds that a 64-bit count of nanoseconds can express. */
  const MaxSeconds := MaxDuration / Second

  /** Arithmetic on durations wraps around at 64 bits. */
  function Wrap(n: int): int {
    (n + MaxDuration + 1) % (2 * (MaxDuration + 1)) - (MaxDuration + 1)
  }

  /** Integer division truncates towards zero. */
  function Quotient(a: int, b: int): int
    requires b > 0
  {
    if a >= 0 then a / b else -(-a / b)
  }

  datatype Action = Nothing | Dilute(newDepth: nat) | Topup(amount: int, cost: int)

  ghost predicate ValidConfig(c: Config) {
    0 < c.minTTL <= c.targetTTL < Unbounded && 0.0 < c.diluteAt <= 1.0
  }

  /** `amount << n`. */
  function Shifted(amount: int, n: nat): int {
    if n == 0 then amount else 2 * Shifted(amount, n - 1)
  }

  /** The use at which a batch `n` levels above its bucket depth counts as full: diluteAt * 2^n. */
  function Capacity(diluteAt: real, n: nat): real {
    if n == 0 then diluteAt else 2.0 * Capacity(diluteAt, n - 1)
  }

  /**
   * `Ratio() >= diluteAt`. A reported ratio wins; a batch at its bucket depth counts as empty; a
   * 64-bit shift by 64 or more is zero, which makes any use at all infinite.
   */
  predicate AtCapacity(b: Batch, c: Config) {
    if b.reportedRatio > 0.0 then b.reportedRatio >= c.diluteAt
    else if b.depth <= b.bucketDepth then 0.0 >= c.diluteAt
    else if b.depth - b.bucketDepth >= 64 then b.utilization > 0
    else b.utilization as real >= Capacity(c.diluteAt, b.depth - b.bucketDepth)
  }

  function Remaining(b: Batch, w: Chain): int {
    if b.ttl < 0 then Unbounded else Wrap(Wrap(b.ttl * Second) - w.age)
  }

  /** The amount per chunk that buys the missing time, and what it costs over the whole batch. */
  function Amount(b: Batch, c: Config, w: Chain): int {
    (Quotient(Wrap(c.targetTTL - Remaining(b, w)), BlockTime) + 1) * w.price
  }

  function Cost(b: Batch, c: Config, w: Chain): int {
    Shifted(Amount(b, c, w), b.depth)
  }

  /** The times involved fit: the reading is not older than a duration leaves room for beyond the target. */
  predicate TimesFit(b: Batch, c: Config, w: Chain) {
    b.ttl <= MaxSeconds && 0 <= w.age <= MaxDuration - c.targetTTL - BlockTime
  }

  /** The decision for one batch: capacity first, then time, guarded by price, gas and funds. */
  function Evaluate(b: Batch, c: Config, w: Chain): Action {
    if AtCapacity(b, c) && !b.immutable_ then Dilute(b.depth + 1)
    else
      if Remaining(b, w) >= c.minTTL || w.price <= 0 then Nothing
      else if w.native <= 0 || w.wallet < Cost(b, c, w) then Nothing
      else Topup(Amount(b, c, w), Cost(b, c, w))
  }

  /** How the node applies an action. */
  function Apply(b: Batch, a: Action, w: Chain): Batch
    requires a.Topup? ==> w.price > 0
  {
    match a
    case Nothing => b
    case Dilute(d) => b.(depth := d, ttl := b.ttl / 2)
    case Topup(amount, _) => b.(ttl := b.ttl + amount / w.price * 5)
  }

  function Pass(b: Batch, c: Config, w: Chain): Batch {
    Apply(b, Evaluate(b, c, w), w)
  }

  function After(b: Batch, c: Config, w: Chain, n: nat): Batch {
    if n == 0 then b else Pass(After(b, c, w, n - 1), c, w)
  }

  predicate Rests(b: Batch, c: Config, w: Chain) {
    Evaluate(b, c, w) == Nothing
  }

  predicate RestsAfter(b: Batch, c: Config, w: Chain, n: nat) {
    Rests(After(b, c, w, n), c, w)
  }

  // ---------------------------------------------------------------------------------------------
  // Top-ups
  // ---------------------------------------------------------------------------------------------

  lemma BlocksBought(blocks: int, price: int)
    requires price > 0
    ensures blocks * price / price == blocks
  {
    var q, r := blocks * price / price, blocks * price % price;
    assert blocks * price == price * q + r;
    assert price * (blocks - q) == r;
    SmallMultiple(price, blocks - q);
  }

  lemma SmallMultiple(p: int, k: int)
    requires p > 0 && 0 <= p * k < p
    ensures k == 0
  {
    assert k >= 1 ==> p * k >= p;
    assert k <= -1 ==> p * k <= -p;
  }

  /**
   * A top-up is paid for, lands above the target by at most one block time, and leaves nothing to
   * do in the next pass.
   */
  lemma TopupLands(b: Batch, c: Config, w: Chain)
    requires ValidConfig(c) && TimesFit(b, c, w) && Evaluate(b, c, w).Topup?
    ensures Evaluate(b, c, w).cost <= w.wallet
    ensures c.targetTTL < Remaining(Pass(b, c, w), w) <= c.targetTTL + BlockTime
    ensures Rests(Pass(b, c, w), c, w) && TimesFit(Pass(b, c, w), c, w)
  {
    RemainingFits(b, c, w);
    var b' := Pass(b, c, w);
    TopupBuys(b, c, w);
    LandsAbove(c.targetTTL - Remaining(b, w));
    RemainingFits(b', c, w);
  }

  /** The time a top-up buys: whole blocks, one more than fit into the missing time. */
  lemma TopupBuys(b: Batch, c: Config, w: Chain)
    requires ValidConfig(c) && TimesFit(b, c, w) && Evaluate(b, c, w).Topup?
    ensures b.ttl >= 0 && Pass(b, c, w) == b.(ttl := b.ttl + ((c.targetTTL - Remaining(b, w)) / BlockTime + 1) * 5)
  {
    RemainingFits(b, c, w);
    var missing := c.targetTTL - Remaining(b, w);
    WrapFits(missing);
    BlocksBought(missing / BlockTime + 1, w.price);
  }

  lemma LandsAbove(missing: int)
    ensures missing < (missing / BlockTime + 1) * 5 * Second <= missing + BlockTime
  {
  }

  /** Within these bounds nothing wraps. */
  lemma RemainingFits(b: Batch, c: Config, w: Chain)
    requires ValidConfig(c) && TimesFit(b, c, w)
    ensures b.ttl >= 0 ==> Remaining(b, w) == b.ttl * Second - w.age
    ensures Remaining(b, w) >= -w.age
  {
    if b.ttl >= 0 {
      WrapFits(b.ttl * Second);
      WrapFits(b.ttl * Second - w.age);
    }
  }

  lemma WrapFits(n: int)
    requires -MaxDuration - 1 <= n <= MaxDuration
    ensures Wrap(n) == n
  {
  }

  /**
   * Beyond the bound the count of nanoseconds wraps to a negative one: a batch with centuries left
   * looks expired, and an autopilot that can pay tops it up.
   */
  lemma LongLivedIsToppedUp(b: Batch, c: Config, w: Chain)
    requires ValidConfig(c) && MaxSeconds < b.ttl <= 2 * MaxSeconds + 1 && 0 <= w.age <= b.ttl * Second - MaxDuration - 1
    requires b.immutable_ || !AtCapacity(b, c)
    requires w.price > 0 && w.native > 0 && w.wallet >= Cost(b, c, w)
    ensures b.ttl * Second - w.age > c.targetTTL && Remaining(b, w) < 0
    ensures Evaluate(b, c, w).Topup?
  {
    hide Shifted, Amount;
    WrapsOnce(b.ttl * Second);
    WrapFits(b.ttl * Second - 2 * (MaxDuration + 1) - w.age);
  }

  lemma WrapsOnce(n: int)
    requires MaxDuration < n < 2 * (MaxDuration + 1)
    ensures Wrap(n) == n - 2 * (MaxDuration + 1)
  {
  }

  // ---------------------------------------------------------------------------------------------
  // Dilutions
  // ---------------------------------------------------------------------------------------------

  /** The node computes the ratio itself, and the use fits some depth the shift can express. */
  predicate CanGrow(b: Batch, c: Config) {
    b.reportedRatio <= 0.0 && b.depth - b.bucketDepth < 64
    && b.utilization as real < Capacity(c.diluteAt, 63)
  }

  lemma {:induction false} CapacityGrows(at: real, a: nat, b: nat)
    requires at > 0.0 && a <= b
    ensures 0.0 < Capacity(at, a) <= Capacity(at, b)
    decreases b
  {
    if a < b {
      CapacityGrows(at, a, b - 1);
    } else if a > 0 {
      CapacityGrows(at, a - 1, a - 1);
    }
  }

  /**
   * Repeated passes: finitely many dilutions, then at most one top-up, then rest. The number of
   * dilutions is bounded by the depth left.
   */
  method RunToRest(b: Batch, c: Config, w: Chain) returns (last: Batch, dilutions: nat, topups: nat)
    requires ValidConfig(c) && TimesFit(b, c, w)
    requires b.immutable_ || !AtCapacity(b, c) || CanGrow(b, c)
    ensures last == After(b, c, w, dilutions + topups) && Rests(last, c, w)
    ensures topups <= 1
    ensures b.immutable_ || !AtCapacity(b, c) ==> dilutions == 0
    ensures last.depth == b.depth + dilutions && (dilutions > 0 ==> last.depth - last.bucketDepth <= 63)
    ensures topups == 1 ==> c.targetTTL < Remaining(last, w) <= c.targetTTL + BlockTime
  {
    last, dilutions, topups := b, 0, 0;
    while AtCapacity(last, c) && !last.immutable_
      invariant TimesFit(last, c, w) && last == After(b, c, w, dilutions) && last == b.(depth := b.depth + dilutions, ttl := last.ttl)
      invariant b.immutable_ || !AtCapacity(b, c) ==> dilutions == 0
      invariant dilutions > 0 ==> CanGrow(b, c) && last.depth - last.bucketDepth <= 63
      decreases 64 - (last.depth - last.bucketDepth)
    {
      assert CanGrow(last, c);
      last := Pass(last, c, w);
      dilutions := dilutions + 1;
    }
    if Evaluate(last, c, w).Topup? {
      TopupLands(last, c, w);
      last := Pass(last, c, w);
      topups := 1;
    }
  }

  /**
   * The condition is exact: otherwise every pass dilutes again and the batch never rests.
   */
  lemma {:induction false} NeverRests(b: Batch, c: Config, w: Chain, n: nat)
    requires ValidConfig(c) && !b.immutable_ && AtCapacity(b, c) && !CanGrow(b, c)
    ensures var x := After(b, c, w, n);
            !Rests(x, c, w) && AtCapacity(x, c) && !CanGrow(x, c) && !x.immutable_ && x.depth == b.depth + n
  {
    if n > 0 {
      NeverRests(b, c, w, n - 1);
      var x := After(b, c, w, n - 1);
      StaysAtCapacity(x, c, w);
    }
  }

  lemma StaysAtCapacity(b: Batch, c: Config, w: Chain)
    requires ValidConfig(c) && !b.immutable_ && AtCapacity(b, c) && !CanGrow(b, c)
    ensures AtCapacity(Pass(b, c, w), c) && !CanGrow(Pass(b, c, w), c)
  {
    var d := b.depth + 1 - b.bucketDepth;
    CapacityGrows(c.diluteAt, 63, 63);
    if 0 < d < 64 {
      CapacityGrows(c.diluteAt, d, 63);
    }
  }

  lemma RestsIff(b: Batch, c: Config, w: Chain)
    requires ValidConfig(c) && TimesFit(b, c, w)
    ensures (exists n: nat :: RestsAfter(b, c, w, n)) <==> (b.immutable_ || !AtCapacity(b, c) || CanGrow(b, c))
  {
    if b.immutable_ || !AtCapacity(b, c) || CanGrow(b, c) {
      var n := StepsToRest(b, c, w);
      assert RestsAfter(b, c, w, n);
    } else {
      forall n: nat
        ensures !RestsAfter(b, c, w, n)
      {
        NeverRests(b, c, w, n);
      }
    }
  }

  lemma {:induction false} AfterShift(b: Batch, c: Config, w: Chain, n: nat)
    ensures After(Pass(b, c, w), c, w, n) == After(b, c, w, n + 1)
  {
    if n > 0 {
      AfterShift(b, c, w, n - 1);
    }
  }

  lemma {:induction false} StepsToRest(b: Batch, c: Config, w: Chain) returns (n: nat)
    requires ValidConfig(c) && TimesFit(b, c, w)
    requires b.immutable_ || !AtCapacity(b, c) || CanGrow(b, c)
    ensures Rests(After(b, c, w, n), c, w)
    decreases 64 - (b.depth - b.bucketDepth)
  {
    if AtCapacity(b, c) && !b.immutable_ {
      var k := StepsToRest(Pass(b, c, w), c, w);
      AfterShift(b, c, w, k);
      n := k + 1;
    } else if Evaluate(b, c, w).Topup? {
      TopupLands(b, c, w);
      assert After(b, c, w, 1) == Pass(After(b, c, w, 0), c, w);
      n := 1;
    } else {
      n := 0;
    }
  }

  // ---------------------------------------------------------------------------------------------
  // The decision in plain terms
  // ---------------------------------------------------------------------------------------------

  function Pow2(n: nat): int {
    if n == 0 then 1 else 2 * Pow2(n - 1)
  }

  lemma {:induction false} CapacityIs(diluteAt: real, n: nat)
    ensures Capacity(diluteAt, n) == diluteAt * Pow2(n) as real
  {
    if n > 0 {
      CapacityIs(diluteAt, n - 1);
    }
  }

  lemma {:induction false} ShiftedIs(amount: int, n: nat)
    ensures Shifted(amount, n) == amount * Pow2(n)
  {
    if n > 0 {
      ShiftedIs(amount, n - 1);
    }
  }

  lemma {:induction false} Pow2Positive(n: nat)
    ensures Pow2(n) > 0
  {
    if n > 0 {
      Pow2Positive(n - 1);
    }
  }

  /** Capacity is judged by the reported ratio if there is one, and else by use over 2^(levels above the bucket depth). */
  lemma AtCapacityIff(b: Batch, c: Config)
    requires ValidConfig(c)
    ensures b.reportedRatio > 0.0 ==> (AtCapacity(b, c) <==> b.reportedRatio >= c.diluteAt)
    ensures b.reportedRatio <= 0.0 && b.depth <= b.bucketDepth ==> !AtCapacity(b, c)
    ensures b.reportedRatio <= 0.0 && 0 < b.depth - b.bucketDepth < 64 ==>
              Pow2(b.depth - b.bucketDepth) > 0
              && (AtCapacity(b, c) <==> b.utilization as real / Pow2(b.depth - b.bucketDepth) as real >= c.diluteAt)
    ensures b.reportedRatio <= 0.0 && b.depth - b.bucketDepth >= 64 ==> (AtCapacity(b, c) <==> b.utilization > 0)
  {
    if b.depth > b.bucketDepth {
      var n := b.depth - b.bucketDepth;
      CapacityIs(c.diluteAt, n);
      Pow2Positive(n);
      RatioIff(b.utilization as real, Pow2(n) as real, c.diluteAt);
    }
  }

  lemma RatioIff(u: real, p: real, at: real)
    requires p > 0.0
    ensures u / p >= at <==> u >= at * p
  {
    assert u / p * p == u;
    if u / p >= at {
      assert (u / p - at) * p >= 0.0;
    } else {
      assert (at - u / p) * p > 0.0;
    }
  }

  /**
   * A mutable batch at capacity goes one level up. Any other is topped up exactly when less than the
   * minimum time remains, storage has a price, there is gas, and the wallet covers the amount for
   * each of the 2^depth chunks.
   */
  lemma DecisionMeaning(b: Batch, c: Config, w: Chain)
    ensures Evaluate(b, c, w).Dilute? <==> AtCapacity(b, c) && !b.immutable_
    ensures Evaluate(b, c, w).Dilute? ==> Evaluate(b, c, w).newDepth == b.depth + 1
    ensures Evaluate(b, c, w).Topup? <==>
            && (b.immutable_ || !AtCapacity(b, c))
            && Remaining(b, w) < c.minTTL && w.price > 0 && w.native > 0 && w.wallet >= Amount(b, c, w) * Pow2(b.depth)
    ensures Evaluate(b, c, w).Topup? ==>
              Evaluate(b, c, w).amount == Amount(b, c, w) && Evaluate(b, c, w).cost == Amount(b, c, w) * Pow2(b.depth)
  {
    ShiftedIs(Amount(b, c, w), b.depth);
  }

  /** A dilution doubles what the batch can hold and halves, rounding down, the seconds it has left. */
  lemma DilutionTrades(b: Batch, c: Config, w: Chain)
    requires AtCapacity(b, c) && !b.immutable_
    ensures Pass(b, c, w).depth == b.depth + 1 && Pow2(b.depth + 1) == 2 * Pow2(b.depth)
    ensures 2 * Pass(b, c, w).ttl <= b.ttl <= 2 * Pass(b, c, w).ttl + 1
    ensures Pass(b, c, w).utilization == b.utilization && Pass(b, c, w).bucketDepth == b.bucketDepth
  {
  }

  /** An unknown time to live counts as unbounded, and a known time to live is reduced by the reading's age. */
  lemma RemainingMeaning(b: Batch, c: Config, w: Chain)
    requires ValidConfig(c)
    ensures b.ttl < 0 ==> c.targetTTL < Remaining(b, w) == 0x4000_0000_0000_0000 - 1
    ensures b.ttl >= 0 && TimesFit(b, c, w) ==> Remaining(b, w) == b.ttl * 1_000_000_000 - w.age
  {
    if TimesFit(b, c, w) {
      RemainingFits(b, c, w);
    }
  }

  /** Division towards zero leaves a remainder of the dividend's sign, smaller than the divisor. */
  lemma QuotientTruncates(a: int, b: int)
    requires b > 0
    ensures a >= 0 ==> 0 <= a - b * Quotient(a, b) < b
    ensures a < 0 ==> -b < a - b * Quotient(a, b) <= 0
  {
    if a < 0 {
      assert -a == b * (-a / b) + -a % b;
    }
  }
}
