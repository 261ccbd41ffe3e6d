/**
The next difficulty written out over the block times and difficulties themselves: what a
gap counts for, the two weighted sums over a window, and the closed form for even spacing.
*/
module DifficultyFormula {
  import opened Arith
  import opened Difficulty
  import opened Machine
  import opened Sequences

  /** Seconds from one time to the next as a signed 64-bit number. */
  function Seconds(earlier: u64, later: u64): int {
    (later - earlier + 0x8000_0000_0000_0000) % 0x1_0000_0000_0000_0000 - 0x8000_0000_0000_0000
  }

  /** The plain difference for times below 2^63, and never outside the signed range. */
  lemma GapMeaning(earlier: u64, later: u64)
    ensures Gap(earlier, later) == Seconds(earlier, later)
    ensures -0x8000_0000_0000_0000 <= Gap(earlier, later) <= 0x7FFF_FFFF_FFFF_FFFF
    ensures earlier <= 0x7FFF_FFFF_FFFF_FFFF && later <= 0x7FFF_FFFF_FFFF_FFFF ==> Gap(earlier, later) == later - earlier
  {
  }

  /** The i-th gap of a window, at least 1 and at most 750 seconds, times i. */
  function TimeTerms(ts: seq<u64>, count: nat): (terms: seq<nat>)
    requires count < |ts|
    ensures |terms| == count
  {
    seq(count, i requires 0 <= i < count => Scaled(Min(Max(Seconds(ts[i], ts[i + 1]), 1), 750), i + 1))
  }

  /** The i-th difficulty of a window times i. */
  function DiffTerms(diffs: seq<u256>, count: nat): (terms: seq<nat>)
    requires count <= |diffs|
    ensures |terms| == count
  {
    seq(count, i requires 0 <= i < count => Scaled(diffs[i], i + 1))
  }

  function Scaled(d: nat, i: nat): nat {
    MulNonNegative(d, i);
    d * i
  }

  lemma {:induction false} TimesAreSum(ts: seq<u64>, count: nat)
    requires count < |ts|
    ensures WeightedTimes(ts, count) == Sum(TimeTerms(ts, count))
  {
    if count > 0 {
      TimesAreSum(ts, count - 1);
      GapMeaning(ts[count - 1], ts[count]);
      assert TimeTerms(ts, count)[..count - 1] == TimeTerms(ts, count - 1);
    }
  }

  lemma {:induction false} DiffsAreSum(diffs: seq<u256>, count: nat)
    requires count <= |diffs| && count <= WINDOW
    ensures WeightedDiffs(diffs, count) == Clamp256(Sum(DiffTerms(diffs, count)))
  {
    if count > 0 {
      DiffsAreSum(diffs, count - 1);
      MulNonNegative(diffs[count - 1], count);
      assert DiffTerms(diffs, count)[..count - 1] == DiffTerms(diffs, count - 1);
    }
  }

  /** `s[|s| - n..]` */
  function Tail<T>(s: seq<T>, n: nat): (t: seq<T>)
    requires n <= |s|
    ensures |t| == n
  {
    s[|s| - n..]
  }

  /** The average of a window, limited to a quarter around the last difficulty and lifted to the minimum. */
  lemma WindowFormula(ts: seq<u64>, diffs: seq<u256>)
    requires |ts| >= 121 && |diffs| >= 120
    ensures
      var times, work := Sum(TimeTerms(Tail(ts, 121), 120)), Sum(DiffTerms(Tail(diffs, 120), 120));
      var last: int := diffs[|diffs| - 1];
      && times >= 1
      && (work * 75 <= U256_MAX ==>
            NextDifficulty(ts, diffs) == Max(Min(Max(work * 75 / times, last - last / 4), last + last / 4), 1_200_000_000))
      && (work * 75 > U256_MAX ==>
            NextDifficulty(ts, diffs) == Max(Min(U256_MAX, last + last / 4), 1_200_000_000))
  {
    hide Sum, TimeTerms, DiffTerms, WeightedTimes, WeightedDiffs;
    var window, recent := Tail(ts, 121), Tail(diffs, 120);
    TimesAreSum(window, 120);
    DiffsAreSum(recent, 120);
    assert WeightedTimes(window, 120) > 0;
  }

  /** Fewer times or difficulties than a window: the last difficulty, at least the minimum. */
  lemma ShortHistory(ts: seq<u64>, diffs: seq<u256>)
    requires |ts| < 121 || |diffs| < 120
    ensures diffs != [] ==> NextDifficulty(ts, diffs) == Max(diffs[|diffs| - 1], 1_200_000_000)
    ensures diffs == [] ==> NextDifficulty(ts, diffs) == 1_200_000_000
  {
  }

  // ----- even spacing

  lemma {:induction false} EvenTimes(ts: seq<u64>, gap: int, count: nat)
    requires count < |ts|
    requires forall i :: 0 <= i < count ==> Seconds(ts[i], ts[i + 1]) == gap
    ensures Sum(TimeTerms(ts, count)) == Min(Max(gap, 1), 750) * Triangle(count + 1)
  {
    if count > 0 {
      EvenTimes(ts, gap, count - 1);
      assert TimeTerms(ts, count)[..count - 1] == TimeTerms(ts, count - 1);
      Distribute(Triangle(count), count, Min(Max(gap, 1), 750));
    }
  }

  lemma {:induction false} EvenDiffs(diffs: seq<u256>, d: u256, count: nat)
    requires count <= |diffs|
    requires forall i :: 0 <= i < count ==> diffs[i] == d
    ensures Sum(DiffTerms(diffs, count)) == d * Triangle(count + 1)
  {
    if count > 0 {
      EvenDiffs(diffs, d, count - 1);
      assert DiffTerms(diffs, count)[..count - 1] == DiffTerms(diffs, count - 1);
      Distribute(Triangle(count), count, d);
    }
  }

  /**
  Constant difficulty d and constant gap g, where a gap below 1 counts as 1 and one above
  750 as 750: the difficulty is scaled by 75 / g, within a quarter and above the minimum.
  When d * 7260 * 75 does not fit in 256 bits the result is the upper limit instead.
  */
  lemma EvenSpacing(ts: seq<u64>, diffs: seq<u256>, d: u256, gap: int)
    requires |ts| >= 121 && |diffs| >= 120
    requires forall i :: |ts| - 120 <= i < |ts| ==> Seconds(ts[i - 1], ts[i]) == gap
    requires forall i :: |diffs| - 120 <= i < |diffs| ==> diffs[i] == d
    ensures
      var g := if gap < 1 then 1 else if gap > 750 then 750 else gap;
      NextDifficulty(ts, diffs) ==
        if d * 544_500 <= U256_MAX then Max(Min(Max(d * 75 / g, d - d / 4), d + d / 4), 1_200_000_000)
        else Max(Min(U256_MAX, d + d / 4), 1_200_000_000)
  {
    hide *;
    WindowFormula(ts, diffs);
    EvenTail(ts, gap);
    ConstantTail(diffs, d);
    EvenTimes(Tail(ts, 121), gap, 120);
    EvenDiffs(Tail(diffs, 120), d, 120);
    TriangleClosedForm(121);
    var g := if gap < 1 then 1 else if gap > 750 then 750 else gap;
    Clip(gap, g);
    EvenQuotient(d, g);
  }

  lemma Clip(gap: int, g: int)
    requires g == if gap < 1 then 1 else if gap > 750 then 750 else gap
    ensures Min(Max(gap, 1), 750) == g
  {
  }

  lemma ConstantTail(diffs: seq<u256>, d: u256)
    requires |diffs| >= 120
    requires forall i :: |diffs| - 120 <= i < |diffs| ==> diffs[i] == d
    ensures forall i :: 0 <= i < 120 ==> Tail(diffs, 120)[i] == d
    ensures diffs[|diffs| - 1] == d
  {
  }

  lemma EvenTail(ts: seq<u64>, gap: int)
    requires |ts| >= 121
    requires forall i :: |ts| - 120 <= i < |ts| ==> Seconds(ts[i - 1], ts[i]) == gap
    ensures forall i :: 0 <= i < 120 ==> Seconds(Tail(ts, 121)[i], Tail(ts, 121)[i + 1]) == gap
  {
    hide Seconds;
    forall i | 0 <= i < 120 ensures Seconds(Tail(ts, 121)[i], Tail(ts, 121)[i + 1]) == gap {
      var j := |ts| - 120 + i;
      assert Seconds(ts[j - 1], ts[j]) == gap;
    }
  }

  lemma EvenQuotient(d: nat, g: int)
    requires 0 < g
    ensures 0 < g * 7260 && d * 7260 * 75 / (g * 7260) == d * 75 / g
    ensures d * 7260 * 75 == d * 544_500
  {
    CancelFactor(d * 75, g, 7260);
  }

  lemma CancelFactor(x: int, g: int, k: int)
    requires 0 < g && 0 < k
    ensures 0 < g * k && (x * k) / (g * k) == x / g
  {
    MulBounds(g, k);
    DivMod(x, g);
    var q, r := x / g, x % g;
    assert x * k == q * (g * k) + r * k by { assert (q * g + r) * k == q * (g * k) + r * k; }
    MulMonotone(r + 1, g, k);
    Distribute(r, 1, k);
    MulNonNegative(r, k);
    DivUnique(x * k, g * k, q, r * k);
  }
}
