/**
The linearly weighted moving average that sets the next difficulty from the last 120
blocks, in 256-bit arithmetic, and what it guarantees for every history.
*/
module Difficulty {
  import opened Arith
  import opened Machine

  const TARGET_TIME := 75
  const WINDOW := 120
  const MAX_SOLVE_TIME := 750
  const MIN_DIFFICULTY: u256 := 1_200_000_000
  const I64_SPAN := 0x1_0000_0000_0000_0000

  /** `as i64`, and the wrapping difference of two such values. */
  function AsI64(x: u64): int {
    if x < I64_SPAN / 2 then x else x - I64_SPAN
  }

  function WrapI64(x: int): int
    requires -I64_SPAN < x < I64_SPAN
  {
    if x >= I64_SPAN / 2 then x - I64_SPAN else if x < -(I64_SPAN / 2) then x + I64_SPAN else x
  }

  /** Seconds between two blocks as the source computes them. */
  function Gap(previous: u64, current: u64): int {
    WrapI64(AsI64(current) - AsI64(previous))
  }

  function SolveTime(gap: int): (t: int)
    ensures 1 <= t <= MAX_SOLVE_TIME
  {
    Min(Max(gap, 1), MAX_SOLVE_TIME)
  }

  /** Sum over the i-th gap (i = 1..count) of its clamped length times i. */
  function WeightedTimes(ts: seq<u64>, count: nat): (sum: nat)
    requires count < |ts|
    ensures count > 0 ==> sum > 0
  {
    if count == 0 then 0
    else WeightedTimes(ts, count - 1) + SolveTime(Gap(ts[count - 1], ts[count])) * count
  }

  /** Sum over the i-th difficulty of its value times i, saturating at each step. */
  function WeightedDiffs(diffs: seq<u256>, count: nat): u256
    requires count <= |diffs| && count <= WINDOW
  {
    if count == 0 then 0
    else SatAdd256(WeightedDiffs(diffs, count - 1), SatMul256(diffs[count - 1], count))
  }

  function Last(diffs: seq<u256>): u256 {
    if diffs == [] then MIN_DIFFICULTY else diffs[|diffs| - 1]
  }

  function Unclamped(weighted: u256, solveTimes: nat): u256
    requires 0 < solveTimes
  {
    if weighted * TARGET_TIME <= U256_MAX then
      DivNonNegative(weighted * TARGET_TIME, solveTimes);
      weighted * TARGET_TIME / solveTimes
    else U256_MAX
  }

  /** At most a quarter up or down, then lifted to the minimum. */
  function Clamped(next: u256, last: u256): u256 {
    var delta := last / 4;
    Max(Min(Max(next, SatSub256(last, delta)), SatAdd256(last, delta)), MIN_DIFFICULTY)
  }

  function NextDifficulty(ts: seq<u64>, diffs: seq<u256>): u256 {
    if |ts| < WINDOW + 1 || |diffs| < WINDOW then Max(Last(diffs), MIN_DIFFICULTY)
    else
      var weighted := WeightedDiffs(diffs[|diffs| - WINDOW..], WINDOW);
      Clamped(Unclamped(weighted, WeightedTimes(ts[|ts| - WINDOW - 1..], WINDOW)), Last(diffs))
  }

  /** `calculate_next_difficulty`. */
  method CalculateNextDifficulty(ts: seq<u64>, diffs: seq<u256>) returns (r: u256)
    ensures r == NextDifficulty(ts, diffs)
  {
    var n, len, diffLen := WINDOW, |ts|, |diffs|;
    var last := if diffLen == 0 then MIN_DIFFICULTY else diffs[diffLen - 1];
    if len < n + 1 || diffLen < n {
      return Max(last, MIN_DIFFICULTY);
    }
    var solveTimeSum, weightedDiffSum: u256 := 0, 0;
    ghost var window, recent := ts[len - n - 1..], diffs[diffLen - n..];
    for i := 1 to n + 1
      invariant solveTimeSum == WeightedTimes(window, i - 1)
      invariant weightedDiffSum == WeightedDiffs(recent, i - 1)
    {
      var solveTime := Min(Max(Gap(ts[len - n - 1 + i - 1], ts[len - n - 1 + i]), 1), TARGET_TIME * 10);
      solveTimeSum := solveTimeSum + solveTime * i;
      weightedDiffSum := SatAdd256(weightedDiffSum, SatMul256(diffs[diffLen - n + i - 1], i));
    }
    var next := Unclamped(weightedDiffSum, solveTimeSum);
    var delta := last / 4;
    var minAllowed, maxAllowed := SatSub256(last, delta), SatAdd256(last, delta);
    r := Max(Min(Max(next, minAllowed), maxAllowed), MIN_DIFFICULTY);
  }

  // ----- guarantees for every history

  /** Never below the minimum, and within a quarter of the last difficulty unless lifted to it. */
  lemma WithinQuarter(ts: seq<u64>, diffs: seq<u256>)
    ensures
      var r, last := NextDifficulty(ts, diffs), Last(diffs);
      && MIN_DIFFICULTY <= r
      && last - last / 4 <= r
      && (r <= last + last / 4 || r == MIN_DIFFICULTY)
  {
  }

  lemma {:induction false} WeightedTimesMonotone(ts: seq<u64>, slower: seq<u64>, count: nat)
    requires count < |ts| && count < |slower|
    requires forall i :: 1 <= i <= count ==> Gap(ts[i - 1], ts[i]) <= Gap(slower[i - 1], slower[i])
    ensures WeightedTimes(ts, count) <= WeightedTimes(slower, count)
  {
    if count > 0 {
      WeightedTimesMonotone(ts, slower, count - 1);
      MulMonotone(SolveTime(Gap(ts[count - 1], ts[count])), SolveTime(Gap(slower[count - 1], slower[count])), count);
    }
  }

  /** Longer gaps, block by block, never raise the next difficulty. */
  lemma LongerGapsNeverRaise(ts: seq<u64>, slower: seq<u64>, diffs: seq<u256>)
    requires |ts| == |slower|
    requires forall i :: 1 <= i < |ts| ==> Gap(ts[i - 1], ts[i]) <= Gap(slower[i - 1], slower[i])
    ensures NextDifficulty(slower, diffs) <= NextDifficulty(ts, diffs)
  {
    if |ts| >= WINDOW + 1 && |diffs| >= WINDOW {
      var fast, slow := ts[|ts| - WINDOW - 1..], slower[|ts| - WINDOW - 1..];
      WeightedTimesMonotone(fast, slow, WINDOW);
      var weighted := WeightedDiffs(diffs[|diffs| - WINDOW..], WINDOW);
      DivAntitone(weighted * TARGET_TIME, WeightedTimes(fast, WINDOW), WeightedTimes(slow, WINDOW));
    }
  }

  /** Only the last 121 timestamps and 120 difficulties matter once there are that many. */
  lemma OnlyTheWindowMatters(ts: seq<u64>, diffs: seq<u256>, moreTs: seq<u64>, moreDiffs: seq<u256>)
    requires |ts| >= WINDOW + 1 && |diffs| >= WINDOW
    ensures NextDifficulty(moreTs + ts, moreDiffs + diffs) == NextDifficulty(ts, diffs)
  {
    assert (moreTs + ts)[|moreTs + ts| - WINDOW - 1..] == ts[|ts| - WINDOW - 1..];
    assert (moreDiffs + diffs)[|moreDiffs + diffs| - WINDOW..] == diffs[|diffs| - WINDOW..];
  }

  // ----- the fixed point

  function Clamp256(x: nat): u256 {
    if x <= U256_MAX then x else U256_MAX
  }

  lemma {:induction false} ConstantDiffs(diffs: seq<u256>, d: u256, count: nat)
    requires count <= |diffs| && count <= WINDOW
    requires forall i :: 0 <= i < count ==> diffs[i] == d
    ensures WeightedDiffs(diffs, count) == Clamp256(d * Triangle(count + 1))
  {
    if count > 0 {
      ConstantDiffs(diffs, d, count - 1);
      Distribute(Triangle(count), count, d);
      MulNonNegative(d, count);
      MulNonNegative(d, Triangle(count));
    }
  }

  lemma {:induction false} ConstantGaps(ts: seq<u64>, count: nat)
    requires count < |ts|
    requires forall i :: 1 <= i <= count ==> Gap(ts[i - 1], ts[i]) == TARGET_TIME
    ensures WeightedTimes(ts, count) == TARGET_TIME * Triangle(count + 1)
  {
    if count > 0 {
      ConstantGaps(ts, count - 1);
    }
  }

  /**
  With a full window of difficulty d and 75-second gaps the next difficulty is d again,
  exactly when d is at least the minimum and d * 7260 * 75 fits in 256 bits (or d is the
  largest 256-bit number, which the upper clamp cannot move).
  */
  lemma FixedPointIff(ts: seq<u64>, diffs: seq<u256>, d: u256)
    requires |ts| >= WINDOW + 1 && |diffs| >= WINDOW
    requires forall i :: |ts| - WINDOW <= i < |ts| ==> Gap(ts[i - 1], ts[i]) == TARGET_TIME
    requires forall i :: |diffs| - WINDOW <= i < |diffs| ==> diffs[i] == d
    ensures NextDifficulty(ts, diffs) == d <==>
            (MIN_DIFFICULTY <= d && (d * 544_500 <= U256_MAX || d == U256_MAX))
  {
    var window, recent := ts[|ts| - WINDOW - 1..], diffs[|diffs| - WINDOW..];
    forall i | 1 <= i <= WINDOW ensures Gap(window[i - 1], window[i]) == TARGET_TIME {
      assert window[i] == ts[|ts| - WINDOW - 1 + i] && window[i - 1] == ts[|ts| - WINDOW - 1 + i - 1];
    }
    ConstantGaps(window, WINDOW);
    ConstantDiffs(recent, d, WINDOW);
    TriangleClosedForm(WINDOW + 1);
    assert Last(diffs) == d;
    var weighted := WeightedDiffs(recent, WINDOW);
    assert weighted == Clamp256(d * 7260);
    if d * 544_500 <= U256_MAX {
      DivUnique(weighted * TARGET_TIME, 544_500, d, 0);
    }
  }

  // ----- growth over successive retargets

  function Power(base: nat, exponent: nat): nat {
    if exponent == 0 then 1
    else
      MulNonNegative(base, Power(base, exponent - 1));
      base * Power(base, exponent - 1)
  }

  /** The difficulty in force after each new timestamp has been followed by a retarget. */
  function Retargets(ts: seq<u64>, diffs: seq<u256>, times: seq<u64>): seq<u256>
    decreases |times|
  {
    if times == [] then diffs
    else Retargets(ts + [times[0]], diffs + [NextDifficulty(ts, diffs)], times[1..])
  }

  /** After k retargets from a difficulty at or above the minimum: between (3/4)^k and (5/4)^k of it. */
  lemma {:induction false} GrowthBound(ts: seq<u64>, diffs: seq<u256>, times: seq<u64>)
    requires Last(diffs) >= MIN_DIFFICULTY
    ensures
      var final, k := Last(Retargets(ts, diffs, times)), |times|;
      && MIN_DIFFICULTY <= final
      && final * Power(4, k) <= Last(diffs) * Power(5, k)
      && Last(diffs) * Power(3, k) <= final * Power(4, k)
    decreases |times|
  {
    if times != [] {
      var next := NextDifficulty(ts, diffs);
      WithinQuarter(ts, diffs);
      GrowthBound(ts + [times[0]], diffs + [next], times[1..]);
      var final, k, last := Last(Retargets(ts, diffs, times)), |times| - 1, Last(diffs);
      GrowthStep(final, next, last, k);
    }
  }

  lemma GrowthStep(final: nat, next: nat, last: nat, k: nat)
    requires 4 * next <= 5 * last && 3 * last <= 4 * next
    requires final * Power(4, k) <= next * Power(5, k)
    requires next * Power(3, k) <= final * Power(4, k)
    ensures final * Power(4, k + 1) <= last * Power(5, k + 1)
    ensures last * Power(3, k + 1) <= final * Power(4, k + 1)
  {
    RatioStep(final, next, last, Power(4, k), Power(5, k), 4, 5);
    RatioStep(last, next, final, Power(3, k), Power(4, k), 3, 4);
  }

  /** Chaining two ratio bounds through `next`. */
  lemma RatioStep(x: nat, next: nat, y: nat, p: nat, q: nat, b: nat, c: nat)
    requires (x * p <= next * q && b * next <= c * y) || (next * p <= y * q && b * x <= c * next)
    ensures x * (b * p) <= y * (c * q)
  {
    if x * p <= next * q && b * next <= c * y {
      MulMonotone(x * p, next * q, b);
      MulMonotone(b * next, c * y, q);
      Regroup(x, b, p);
      Regroup(next, b, q);
      Regroup(y, c, q);
    } else {
      MulMonotone(next * p, y * q, c);
      MulMonotone(b * x, c * next, p);
      Regroup(x, b, p);
      Regroup(next, c, p);
      Regroup(y, c, q);
    }
  }

  lemma Regroup(x: int, b: int, p: int)
    ensures x * (b * p) == b * (x * p) == (b * x) * p
  {
  }
}
