/** The pruning loop of an outbound lane: when it ends, what it removes and what it costs. */
module Pruning {
  import opened LaneTypes

  // ---------- Rounds of the loop ----------

  /** The oldest unpruned nonce after `k` rounds. */
  ghost function OldestAfter(data: OutboundLaneData, k: nat): Nonce {
    if k == 0 then data.oldestUnpruned else WrappingAdd(OldestAfter(data, k - 1), 1)
  }

  /** Reference time left after `k` rounds. */
  ghost function LeftAfter(write: U64, budget: U64, k: nat): U64 {
    if k == 0 then budget else WrappingSub(LeftAfter(write, budget, k - 1), write)
  }

  /** Reference time spent in `k` rounds. */
  ghost function SpentAfter(write: U64, k: nat): U64 {
    if k == 0 then 0 else WrappingAdd(SpentAfter(write, k - 1), write)
  }

  /** The guard of the loop is false after `k` rounds. */
  ghost predicate Stops(data: OutboundLaneData, write: U64, budget: U64, k: nat) {
    LeftAfter(write, budget, k) < WrappingAdd(write, write) || OldestAfter(data, k) > data.latestReceived
  }

  ghost predicate Terminates(data: OutboundLaneData, write: U64, budget: U64) {
    exists k: nat :: Stops(data, write, budget, k)
  }

  ghost function FirstStop(data: OutboundLaneData, write: U64, budget: U64, from: nat, bound: nat): (k: nat)
    requires from <= bound && Stops(data, write, budget, bound)
    requires forall j: nat :: j < from ==> !Stops(data, write, budget, j)
    ensures Stops(data, write, budget, k)
    ensures forall j: nat :: j < k ==> !Stops(data, write, budget, j)
    decreases bound - from
  {
    if Stops(data, write, budget, from) then from else FirstStop(data, write, budget, from + 1, bound)
  }

  /** Two writes, wrapping, add up to something, so the weight guard of the loop can fail. */
  predicate AddsUp(write: U64) {
    WrappingAdd(write, write) != 0
  }

  /** What decides whether the loop ends: a nonce above the confirmed ones, or a guard that can fail. */
  predicate LoopEnds(data: OutboundLaneData, write: U64) {
    data.latestReceived < U64_MAX || AddsUp(write)
  }

  lemma {:induction false} OldestIs(data: OutboundLaneData, k: nat)
    requires data.oldestUnpruned + k <= U64_MAX
    ensures OldestAfter(data, k) == data.oldestUnpruned + k
  {
    if k > 0 {
      OldestIs(data, k - 1);
    }
  }

  /** While the guard holds, two rounds take away exactly the weight the guard asks for, even if one of them wraps. */
  lemma {:induction false} TwoRoundsTakeGuard(data: OutboundLaneData, write: U64, budget: U64, j: nat)
    requires forall k: nat :: k < 2 * j ==> !Stops(data, write, budget, k)
    ensures LeftAfter(write, budget, 2 * j) == budget - j * WrappingAdd(write, write)
  {
    var two := WrappingAdd(write, write);
    if j > 0 {
      TwoRoundsTakeGuard(data, write, budget, j - 1);
      assert !Stops(data, write, budget, 2 * (j - 1));
      var left := LeftAfter(write, budget, 2 * (j - 1));
      assert LeftAfter(write, budget, 2 * j - 1) == WrappingSub(left, write);
      assert j * two == (j - 1) * two + two;
    }
  }

  function ConfirmedUnpruned(data: OutboundLaneData): nat {
    Max(data.latestReceived - data.oldestUnpruned + 1, 0)
  }

  lemma LoopWithNonceLeftEnds(data: OutboundLaneData, write: U64, budget: U64)
    requires data.latestReceived < U64_MAX
    ensures Stops(data, write, budget, ConfirmedUnpruned(data))
  {
    OldestIs(data, ConfirmedUnpruned(data));
  }

  lemma LoopWithGuardEnds(data: OutboundLaneData, write: U64, budget: U64)
    requires AddsUp(write)
    ensures Terminates(data, write, budget)
  {
    if !Terminates(data, write, budget) {
      TwoRoundsTakeGuard(data, write, budget, budget + 1);
      MulMonotone(1, WrappingAdd(write, write), budget + 1);
      assert false;
    }
  }

  lemma FreeLoopGoesOn(data: OutboundLaneData, write: U64, budget: U64, k: nat)
    requires !AddsUp(write) && data.latestReceived == U64_MAX
    ensures !Stops(data, write, budget, k)
  {
  }

  /** The loop ends if and only if some nonce is above the confirmed ones or two writes do not add up to zero. */
  lemma TerminatesIff(data: OutboundLaneData, write: U64, budget: U64)
    ensures Terminates(data, write, budget) <==> LoopEnds(data, write)
  {
    if data.latestReceived < U64_MAX {
      LoopWithNonceLeftEnds(data, write, budget);
    } else if AddsUp(write) {
      LoopWithGuardEnds(data, write, budget);
    } else {
      forall k: nat ensures !Stops(data, write, budget, k) {
        FreeLoopGoesOn(data, write, budget, k);
      }
    }
  }

  /** Number of rounds: the first point at which the guard is false. */
  ghost function PruneCount(data: OutboundLaneData, write: U64, budget: U64): (count: nat)
    requires LoopEnds(data, write)
    ensures Stops(data, write, budget, count)
    ensures forall j: nat :: j < count ==> !Stops(data, write, budget, j)
  {
    TerminatesIff(data, write, budget);
    var bound: nat :| Stops(data, write, budget, bound);
    FirstStop(data, write, budget, 0, bound)
  }

  /** Weight the loop reports: one write per round, and one more for the lane data if that is not zero. */
  ghost function Spent(write: U64, count: nat): U64 {
    if SpentAfter(write, count) == 0 then 0 else WrappingAdd(SpentAfter(write, count), write)
  }

  /** Lane data is only written back when some weight was spent. */
  ghost function AfterPrune(data: OutboundLaneData, write: U64, budget: U64): OutboundLaneData
    requires LoopEnds(data, write)
  {
    var count := PruneCount(data, write, budget);
    if SpentAfter(write, count) == 0 then data else data.(oldestUnpruned := OldestAfter(data, count))
  }

  ghost predicate IsPruned(data: OutboundLaneData, count: nat, n: Nonce) {
    exists j: nat :: j < count && OldestAfter(data, j) == n
  }

  /** Messages that are left after `count` rounds. */
  ghost function Unpruned(messages: Messages, lane: LaneId, data: OutboundLaneData, count: nat): Messages {
    map k | k in messages && !(k.0 == lane && IsPruned(data, count, k.1)) :: messages[k]
  }

  lemma {:induction false} LeftIs(write: U64, budget: U64, k: nat)
    requires k * write <= budget
    ensures LeftAfter(write, budget, k) == budget - k * write
  {
    if k > 0 {
      assert k * write == (k - 1) * write + write;
      LeftIs(write, budget, k - 1);
    }
  }

  lemma {:induction false} SpentIs(write: U64, k: nat)
    ensures SpentAfter(write, k) == Wrap(k * write)
  {
    if k > 0 {
      assert k * write == (k - 1) * write + write;
      SpentIs(write, k - 1);
      WrapStep((k - 1) * write, write);
    }
  }

  lemma UnprunedStep(messages: Messages, lane: LaneId, data: OutboundLaneData, k: nat)
    ensures Unpruned(messages, lane, data, k + 1) == Unpruned(messages, lane, data, k) - {(lane, OldestAfter(data, k))}
  {
    forall n: Nonce ensures IsPruned(data, k + 1, n) <==> IsPruned(data, k, n) || n == OldestAfter(data, k) {
      if IsPruned(data, k + 1, n) {
        var j: nat :| j < k + 1 && OldestAfter(data, j) == n;
        assert j < k ==> IsPruned(data, k, n);
      }
    }
  }

  // ---------- Where the loop ends ----------

  lemma LeastIsUnique(data: OutboundLaneData, write: U64, budget: U64, k: nat)
    requires LoopEnds(data, write) && Stops(data, write, budget, k)
    requires forall j: nat :: j < k ==> !Stops(data, write, budget, j)
    ensures PruneCount(data, write, budget) == k
  {
    var count := PruneCount(data, write, budget);
    assert k < count ==> !Stops(data, write, budget, k);
  }

  /** Rounds that stay below the end of the nonces remove a run of messages from the oldest on. */
  lemma PrunedIsRange(data: OutboundLaneData, count: nat)
    requires data.oldestUnpruned + count <= U64_MAX + 1
    ensures forall n: Nonce :: IsPruned(data, count, n) <==> data.oldestUnpruned <= n < data.oldestUnpruned + count
  {
    forall j: nat | j < count ensures OldestAfter(data, j) == data.oldestUnpruned + j {
      OldestIs(data, j);
    }
    forall n: Nonce | data.oldestUnpruned <= n < data.oldestUnpruned + count ensures IsPruned(data, count, n) {
      OldestIs(data, n - data.oldestUnpruned);
    }
  }

  /** Below the last nonce the loop removes only confirmed messages, from the oldest on. */
  lemma PruneRemovesConfirmed(data: OutboundLaneData, write: U64, budget: U64)
    requires data.latestReceived < U64_MAX
    ensures var count := PruneCount(data, write, budget);
            && count <= ConfirmedUnpruned(data)
            && data.oldestUnpruned + count <= U64_MAX
            && OldestAfter(data, count) == data.oldestUnpruned + count
            && forall n: Nonce :: IsPruned(data, count, n) <==> data.oldestUnpruned <= n < data.oldestUnpruned + count
  {
    var todo, count := ConfirmedUnpruned(data), PruneCount(data, write, budget);
    LoopWithNonceLeftEnds(data, write, budget);
    assert todo < count ==> !Stops(data, write, budget, todo);
    OldestIs(data, count);
    PrunedIsRange(data, count);
  }

  // ---------- The number of rounds in closed form ----------

  lemma MulMonotone(a: nat, b: nat, w: nat)
    ensures a <= b ==> a * w <= b * w
  {
    if a <= b {
      assert b * w == a * w + (b - a) * w;
    }
  }

  lemma DivisionSplits(x: nat, d: nat)
    requires d > 0
    ensures 0 <= x / d && (x / d) * d <= x < (x / d) * d + d
  {
    assert x == (x / d) * d + x % d;
  }

  /** How often `d` goes into `x`. */
  function Quotient(x: nat, d: nat): (q: nat)
    requires d > 0
    ensures q * d <= x < q * d + d
  {
    DivisionSplits(x, d);
    x / d
  }

  /** Rounds that the budget pays for, as the wrapping guard sees it. */
  function Affordable(write: U64, budget: U64): nat
    requires AddsUp(write)
  {
    var two := WrappingAdd(write, write);
    if 2 * write <= U64_MAX then Max(Quotient(budget, write) - 1, 0)
    else if write <= budget then 2 * Quotient(budget - write, two) + 1
    else 2 * Quotient(budget, two)
  }

  /** The count in closed form: rounds end with the confirmed messages or with the budget. */
  function ClosedCount(data: OutboundLaneData, write: U64, budget: U64): nat
    requires LoopEnds(data, write)
  {
    if !AddsUp(write) then ConfirmedUnpruned(data)
    else if data.latestReceived == U64_MAX then Affordable(write, budget)
    else Min(ConfirmedUnpruned(data), Affordable(write, budget))
  }

  // Two writes fit 64 bits.

  lemma DivisionBounds(r: nat, w: nat, count: nat)
    requires w > 0
    ensures (count + 1) * w <= r <==> count + 1 <= Quotient(r, w)
    ensures count * w + 2 * w > r <==> count + 2 > Quotient(r, w)
  {
    var q := Quotient(r, w);
    MulMonotone(count + 1, q, w);
    MulMonotone(count + 2, q, w);
    MulMonotone(q + 1, count + 1, w);
    MulMonotone(q + 1, count + 2, w);
  }

  lemma NarrowRoundsGoOn(write: U64, budget: U64, k: nat)
    requires 0 < 2 * write <= U64_MAX && k < Affordable(write, budget)
    ensures LeftAfter(write, budget, k) >= WrappingAdd(write, write)
  {
    DivisionBounds(budget, write, k);
    LeftIs(write, budget, k);
  }

  lemma NarrowRoundsEnd(write: U64, budget: U64)
    requires 0 < 2 * write <= U64_MAX
    ensures LeftAfter(write, budget, Affordable(write, budget)) < WrappingAdd(write, write)
  {
    var k := Affordable(write, budget);
    DivisionBounds(budget, write, k);
    if k > 0 {
      DivisionBounds(budget, write, k - 1);
      assert (k - 1 + 1) * write == k * write;
    }
    LeftIs(write, budget, k);
  }

  // Two writes do not fit: one round in two wraps.

  lemma {:induction false} WideLeft(write: U64, budget: U64, j: nat)
    requires 2 * write > U64_MAX && j * WrappingAdd(write, write) <= budget
    ensures LeftAfter(write, budget, 2 * j) == budget - j * WrappingAdd(write, write)
    ensures LeftAfter(write, budget, 2 * j + 1) == WrappingSub(budget - j * WrappingAdd(write, write), write)
  {
    var two := WrappingAdd(write, write);
    if j > 0 {
      assert j * two == (j - 1) * two + two;
      WideLeft(write, budget, j - 1);
      assert LeftAfter(write, budget, 2 * j) == WrappingSub(LeftAfter(write, budget, 2 * (j - 1) + 1), write);
    }
  }

  lemma QuotientFits(x: nat, d: nat, j: nat)
    requires d > 0 && j <= Quotient(x, d)
    ensures j * d <= x
  {
    MulMonotone(j, Quotient(x, d), d);
  }

  lemma WideEvenRound(write: U64, budget: U64, j: nat)
    requires 2 * write > U64_MAX && (j + 1) * WrappingAdd(write, write) <= budget
    ensures LeftAfter(write, budget, 2 * j) >= WrappingAdd(write, write)
  {
    var two := WrappingAdd(write, write);
    assert (j + 1) * two == j * two + two;
    WideLeft(write, budget, j);
  }

  /** After rounds that cost `paid`, one more write leaves enough for two. */
  lemma OneWriteMore(write: U64, budget: U64, paid: nat)
    requires 2 * write > U64_MAX && paid + WrappingAdd(write, write) <= budget
    requires write <= budget ==> paid + WrappingAdd(write, write) <= budget - write
    ensures WrappingSub(budget - paid, write) >= WrappingAdd(write, write)
  {
  }

  lemma WideOddRound(write: U64, budget: U64, j: nat)
    requires 2 * write > U64_MAX && (j + 1) * WrappingAdd(write, write) <= budget
    requires write <= budget ==> (j + 1) * WrappingAdd(write, write) <= budget - write
    ensures LeftAfter(write, budget, 2 * j + 1) >= WrappingAdd(write, write)
  {
    var two := WrappingAdd(write, write);
    var paid := j * two;
    assert (j + 1) * two == paid + two;
    OneWriteMore(write, budget, paid);
    WideLeft(write, budget, j);
  }

  lemma HalfRound(write: U64, budget: U64, k: nat)
    requires 2 * write > U64_MAX && AddsUp(write) && k < Affordable(write, budget)
    ensures (k / 2 + 1) * WrappingAdd(write, write) <= budget
    ensures k % 2 == 1 && write <= budget ==> (k / 2 + 1) * WrappingAdd(write, write) <= budget - write
  {
    var two, j := WrappingAdd(write, write), k / 2;
    var paid := j * two;
    assert (j + 1) * two == paid + two;
    if write > budget {
      QuotientFits(budget, two, j + 1);
    } else if k % 2 == 0 {
      QuotientFits(budget - write, two, j);
    } else {
      QuotientFits(budget - write, two, j + 1);
    }
  }

  lemma WideRoundsGoOn(write: U64, budget: U64, k: nat)
    requires 2 * write > U64_MAX && AddsUp(write) && k < Affordable(write, budget)
    ensures LeftAfter(write, budget, k) >= WrappingAdd(write, write)
  {
    var j := k / 2;
    HalfRound(write, budget, k);
    if k == 2 * j {
      WideEvenRound(write, budget, j);
    } else {
      WideOddRound(write, budget, j);
    }
  }

  lemma WideRoundsEnd(write: U64, budget: U64)
    requires 2 * write > U64_MAX && AddsUp(write)
    ensures LeftAfter(write, budget, Affordable(write, budget)) < WrappingAdd(write, write)
  {
    var two := WrappingAdd(write, write);
    WideLeft(write, budget, if write <= budget then Quotient(budget - write, two) else Quotient(budget, two));
  }

  lemma EarlierRoundsGoOn(data: OutboundLaneData, write: U64, budget: U64, k: nat)
    requires LoopEnds(data, write) && k < ClosedCount(data, write, budget)
    ensures !Stops(data, write, budget, k)
  {
    if data.latestReceived < U64_MAX {
      OldestIs(data, k);
    }
    if AddsUp(write) && 2 * write <= U64_MAX {
      NarrowRoundsGoOn(write, budget, k);
    } else if AddsUp(write) {
      WideRoundsGoOn(write, budget, k);
    }
  }

  lemma ClosedCountStops(data: OutboundLaneData, write: U64, budget: U64)
    requires LoopEnds(data, write)
    ensures Stops(data, write, budget, ClosedCount(data, write, budget))
  {
    if data.latestReceived < U64_MAX && ClosedCount(data, write, budget) == ConfirmedUnpruned(data) {
      LoopWithNonceLeftEnds(data, write, budget);
    } else if 2 * write <= U64_MAX {
      NarrowRoundsEnd(write, budget);
    } else {
      WideRoundsEnd(write, budget);
    }
  }

  /**
   For every input the loop runs for exactly the closed-form number of rounds. With w > 0 per write
   and two writes that fit 64 bits, that is min(confirmed unpruned, R/w - 1) on a budget R.
   */
  lemma PruneCountIsClosedForm(data: OutboundLaneData, write: U64, budget: U64)
    requires LoopEnds(data, write)
    ensures PruneCount(data, write, budget) == ClosedCount(data, write, budget)
  {
    var k := ClosedCount(data, write, budget);
    ClosedCountStops(data, write, budget);
    forall j: nat | j < k ensures !Stops(data, write, budget, j) {
      EarlierRoundsGoOn(data, write, budget, j);
    }
    LeastIsUnique(data, write, budget, k);
  }

  // ---------- What the loop reports ----------

  lemma NarrowCountIsAffordable(data: OutboundLaneData, write: U64, budget: U64)
    requires LoopEnds(data, write) && 2 * write <= U64_MAX
    ensures var k := ClosedCount(data, write, budget);
            k > 0 ==> (k + 1) * write <= budget
  {
    var k := ClosedCount(data, write, budget);
    if k > 0 && write > 0 {
      DivisionBounds(budget, write, k);
    }
  }

  lemma SpentIsCost(write: U64, k: nat, budget: U64)
    requires k > 0 ==> (k + 1) * write <= budget
    ensures Spent(write, k) == if k == 0 then 0 else (k + 1) * write
    ensures SpentAfter(write, k) == 0 <==> k == 0 || write == 0
  {
    if k > 0 {
      assert (k + 1) * write == k * write + write;
      MulMonotone(1, k, write);
      SpentIs(write, k);
    }
  }

  /** If two writes fit, the loop reports the true cost of its writes, which is within the budget. */
  lemma PruneStaysWithinBudget(data: OutboundLaneData, write: U64, budget: U64)
    requires 2 * write <= U64_MAX && LoopEnds(data, write)
    ensures var count := PruneCount(data, write, budget);
            && Spent(write, count) == (if count == 0 then 0 else (count + 1) * write) <= budget
            && (SpentAfter(write, count) == 0 <==> count == 0 || write == 0)
  {
    PruneCountIsClosedForm(data, write, budget);
    NarrowCountIsAffordable(data, write, budget);
    SpentIsCost(write, PruneCount(data, write, budget), budget);
  }

  /** The writes stay within the budget for every lane and every budget if and only if two writes fit 64 bits. */
  lemma BudgetHoldsIffTwoWritesFit(write: U64)
    ensures (forall data, budget :: LoopEnds(data, write) && PruneCount(data, write, budget) > 0 ==>
               (PruneCount(data, write, budget) + 1) * write <= budget)
       <==> 2 * write <= U64_MAX
  {
    if 2 * write <= U64_MAX {
      forall data, budget | LoopEnds(data, write) && PruneCount(data, write, budget) > 0
        ensures (PruneCount(data, write, budget) + 1) * write <= budget
      {
        PruneCountIsClosedForm(data, write, budget);
        NarrowCountIsAffordable(data, write, budget);
      }
    } else {
      var data, budget := OutboundLaneData(1, 1, 1), WrappingAdd(write, write);
      assert !Stops(data, write, budget, 0) && Stops(data, write, budget, 1);
      LeastIsUnique(data, write, budget, 1);
      assert (1 + 1) * write > budget;
    }
  }

  // ---------- When the lane data is written back ----------

  function Pow2(n: nat): nat {
    if n == 0 then 1 else 2 * Pow2(n - 1)
  }

  lemma OddTimesOdd(a: nat, b: nat)
    requires a % 2 == 1 && b % 2 == 1
    ensures (a * b) % 2 == 1
  {
    var i, j := a / 2, b / 2;
    assert a * b == 2 * (2 * i * j + i + j) + 1;
  }

  lemma FactorOfOne(a: nat, b: nat)
    requires a * b == 1
    ensures a == 1
  {
    if a > 1 {
      MulMonotone(2, a, b);
    }
  }

  lemma EvenProductOfOdd(odd: nat, t: nat, half: nat)
    requires odd % 2 == 1 && odd * t == 2 * half
    ensures t % 2 == 0 && odd * (t / 2) == half
  {
    if t % 2 == 1 {
      OddTimesOdd(odd, t);
    }
    assert odd * (2 * (t / 2)) == 2 * (odd * (t / 2));
  }

  /** A power of two has no odd factor but one. */
  lemma {:induction false} OddFactorIsOne(odd: nat, t: nat, n: nat)
    requires odd % 2 == 1 && odd * t == Pow2(n)
    ensures odd == 1
  {
    if n == 0 {
      FactorOfOne(odd, t);
    } else {
      EvenProductOfOdd(odd, t, Pow2(n - 1));
      OddFactorIsOne(odd, t / 2, n - 1);
    }
  }

  lemma DoubleProduct(a: nat, b: nat)
    ensures (2 * a) * b == 2 * (a * b)
  {
  }

  lemma {:induction false} Pow2Adds(m: nat, n: nat)
    ensures Pow2(m + n) == Pow2(m) * Pow2(n)
  {
    if m > 0 {
      Pow2Adds(m - 1, n);
      DoubleProduct(Pow2(m - 1), Pow2(n));
      assert Pow2(m + n) == 2 * Pow2(m - 1 + n) && Pow2(m) == 2 * Pow2(m - 1);
    }
  }

  lemma Pow2Of32()
    ensures Pow2(32) == 0x1_0000_0000
  {
    assert Pow2(2) == 4;
    Pow2Adds(2, 2);
    Pow2Adds(4, 4);
    Pow2Adds(8, 8);
    Pow2Adds(16, 16);
  }

  lemma NoncesArePowerOfTwo()
    ensures Pow2(64) == U64_MAX + 1
  {
    Pow2Of32();
    Pow2Adds(32, 32);
  }

  lemma {:induction false} WideSpent(write: U64, j: nat)
    requires 2 * write > U64_MAX && j * WrappingAdd(write, write) <= U64_MAX
    ensures SpentAfter(write, 2 * j) == j * WrappingAdd(write, write)
    ensures SpentAfter(write, 2 * j + 1) == WrappingAdd(j * WrappingAdd(write, write), write)
  {
    var two := WrappingAdd(write, write);
    if j > 0 {
      assert j * two == (j - 1) * two + two;
      WideSpent(write, j - 1);
      assert SpentAfter(write, 2 * j) == WrappingAdd(SpentAfter(write, 2 * (j - 1) + 1), write);
    }
  }

  /** An odd number of wide writes never wraps to zero: 2^64 would have an odd factor. */
  lemma OddWideSpentIsNotZero(write: U64, j: nat)
    requires 2 * write > U64_MAX && AddsUp(write) && j * WrappingAdd(write, write) <= U64_MAX
    ensures WrappingAdd(j * WrappingAdd(write, write), write) != 0
  {
    var two := WrappingAdd(write, write);
    if j * two + write == U64_MAX + 1 {
      assert (2 * j + 1) * two == 2 * (j * two) + two;
      NoncesArePowerOfTwo();
      OddFactorIsOne(2 * j + 1, two, 64);
      assert false;
    }
  }

  lemma WidePairsFit(write: U64, budget: U64, j: nat)
    requires 2 * write > U64_MAX && AddsUp(write) && 2 * j <= Affordable(write, budget)
    ensures j * WrappingAdd(write, write) <= budget
  {
    if write <= budget {
      QuotientFits(budget - write, WrappingAdd(write, write), j);
    } else {
      QuotientFits(budget, WrappingAdd(write, write), j);
    }
  }

  /** Whenever two writes add up, rounds that the budget pays for never wrap to a spending of zero. */
  lemma PaidRoundsAreSpent(write: U64, budget: U64, k: nat)
    requires AddsUp(write) && 0 < k <= Affordable(write, budget)
    ensures SpentAfter(write, k) != 0
  {
    if 2 * write <= U64_MAX {
      DivisionBounds(budget, write, k);
      assert (k + 1) * write == k * write + write;
      SpentIsCost(write, k, budget);
    } else {
      var j := k / 2;
      WidePairsFit(write, budget, j);
      WideSpent(write, j);
      OddWideSpentIsNotZero(write, j);
      MulMonotone(1, j, WrappingAdd(write, write));
      assert k == 2 * j || k == 2 * j + 1;
    }
  }

  /** If two writes wrap to zero, a write is free or half of 2^64, and pairs of writes cancel out. */
  lemma {:induction false} CancellingSpent(write: U64, k: nat)
    requires !AddsUp(write)
    ensures SpentAfter(write, k) == 0 <==> write == 0 || k % 2 == 0
    ensures SpentAfter(write, k) == if k % 2 == 0 then 0 else write
  {
    if k > 0 {
      CancellingSpent(write, k - 1);
    }
  }

  /** The lane data is written back, in terms of the inputs. */
  predicate WritesBack(data: OutboundLaneData, write: U64, budget: U64)
    requires LoopEnds(data, write)
  {
    if AddsUp(write) then ClosedCount(data, write, budget) > 0
    else write != 0 && ConfirmedUnpruned(data) % 2 == 1
  }

  lemma WritesBackIff(data: OutboundLaneData, write: U64, budget: U64)
    requires LoopEnds(data, write)
    ensures SpentAfter(write, PruneCount(data, write, budget)) != 0 <==> WritesBack(data, write, budget)
  {
    PruneCountIsClosedForm(data, write, budget);
    var count := ClosedCount(data, write, budget);
    if !AddsUp(write) {
      CancellingSpent(write, count);
    } else if count > 0 {
      PaidRoundsAreSpent(write, budget, count);
    }
  }

  /** The reported weight: a write per round and one for the lane data, unless the rounds add up to nothing. */
  lemma ReportedIs(data: OutboundLaneData, write: U64, budget: U64)
    requires LoopEnds(data, write)
    ensures var count := PruneCount(data, write, budget);
            Spent(write, count) == if WritesBack(data, write, budget) then Wrap((count + 1) * write) else 0
  {
    var count := PruneCount(data, write, budget);
    WritesBackIff(data, write, budget);
    SpentIs(write, count + 1);
  }

  // ---------- What stays stored ----------

  ghost predicate Ordered(data: OutboundLaneData) {
    1 <= data.oldestUnpruned <= data.latestReceived + 1 && data.latestReceived <= data.latestGenerated
  }

  /** The stored messages of a lane are exactly the generated ones that are not pruned. */
  ghost predicate StoredExactly(messages: Messages, lane: LaneId, data: OutboundLaneData) {
    forall n: Nonce :: (lane, n) in messages <==> data.oldestUnpruned <= n <= data.latestGenerated
  }

  /** The rounds end before the nonces do. */
  ghost predicate NoWrap(data: OutboundLaneData, count: nat) {
    data.oldestUnpruned + count <= U64_MAX
  }

  /** Rounds within the nonces: in step if the lane data follows, or if there was no round. */
  lemma RangeKeepsStorageIff(messages: Messages, lane: LaneId, data: OutboundLaneData, count: nat, saved: bool)
    requires Ordered(data) && StoredExactly(messages, lane, data) && NoWrap(data, count)
    requires count > 0 ==> data.oldestUnpruned + count <= data.latestReceived + 1
    ensures var after := if saved then data.(oldestUnpruned := data.oldestUnpruned + count) else data;
            && Ordered(after)
            && (StoredExactly(Unpruned(messages, lane, data, count), lane, after) <==> count == 0 || saved)
  {
    PrunedIsRange(data, count);
    if count > 0 && !saved {
      assert IsPruned(data, count, data.oldestUnpruned) && (lane, data.oldestUnpruned) in messages;
    }
  }

  /** Rounds past the last nonce remove the last message, which the lane data then still lists. */
  lemma WrappedPruneLosesLast(messages: Messages, lane: LaneId, data: OutboundLaneData, count: nat, oldest: Nonce)
    requires data.latestGenerated == U64_MAX && !NoWrap(data, count)
    ensures !StoredExactly(Unpruned(messages, lane, data, count), lane, data.(oldestUnpruned := oldest))
  {
    OldestIs(data, U64_MAX - data.oldestUnpruned);
    var last: Nonce := U64_MAX;
    assert IsPruned(data, count, last) && (lane, last) !in Unpruned(messages, lane, data, count);
  }

  /**
   When storage and lane data stay in step, in terms of the inputs. If two writes add up, always
   unless the rounds pass the last nonce. If not, only when there is nothing to remove, or a write
   is not free and an odd number of messages is removed.
   */
  predicate StaysInStep(data: OutboundLaneData, write: U64, budget: U64)
    requires LoopEnds(data, write)
  {
    if AddsUp(write)
    then ClosedCount(data, write, budget) == 0 || data.oldestUnpruned + ClosedCount(data, write, budget) <= U64_MAX
    else ConfirmedUnpruned(data) == 0 || (write != 0 && ConfirmedUnpruned(data) % 2 == 1)
  }

  lemma PruneKeepsStorageIff(messages: Messages, lane: LaneId, data: OutboundLaneData, write: U64, budget: U64)
    requires Ordered(data) && LoopEnds(data, write) && StoredExactly(messages, lane, data)
    ensures var count := PruneCount(data, write, budget);
            && (StoredExactly(Unpruned(messages, lane, data, count), lane, AfterPrune(data, write, budget))
                <==> StaysInStep(data, write, budget))
            && (NoWrap(data, count) ==> Ordered(AfterPrune(data, write, budget)))
  {
    var count := PruneCount(data, write, budget);
    PruneCountIsClosedForm(data, write, budget);
    WritesBackIff(data, write, budget);
    if data.latestReceived < U64_MAX {
      PruneRemovesConfirmed(data, write, budget);
    }
    if NoWrap(data, count) {
      OldestIs(data, count);
      RangeKeepsStorageIff(messages, lane, data, count, SpentAfter(write, count) != 0);
    } else {
      WrappedPruneLosesLast(messages, lane, data, count, AfterPrune(data, write, budget).oldestUnpruned);
    }
  }

  /** Below the last nonce two writes that add up are enough, whatever the budget. */
  lemma PruneKeepsStorageBelowLast(data: OutboundLaneData, write: U64, budget: U64)
    requires data.latestReceived < U64_MAX && AddsUp(write)
    ensures StaysInStep(data, write, budget) && NoWrap(data, PruneCount(data, write, budget))
  {
    PruneCountIsClosedForm(data, write, budget);
    PruneRemovesConfirmed(data, write, budget);
  }
}
