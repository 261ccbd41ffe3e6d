/**
The emission schedule in VNT (1 GO = 10^8 VNT): the reward of each block, the total
supply as the plain sum of rewards, and the closed-form supply function of the node,
which replaces that sum by products and three logarithmic floor sums.
*/
module Emission {
  import opened Arith
  import opened FloorSum
  import opened FloorSumValues
  import opened Machine
  import opened Sequences

  const TOTAL_SUPPLY := 2_000_000_000_000_000
  const REWARD_PHASE0 := 1_000_000_000_000
  const REWARD_YEAR1 := 47_564_700
  const REWARD_YEAR2 := 386_463_100
  const REWARD_YEAR3 := 505_374_800
  const REWARD_YEAR4 := 624_286_500
  const REWARD_YEAR5 := 743_198_200
  const REWARD_YEAR6_END := 347_222_200
  const REWARD_YEAR7_END := 9_513_000
  const PHASE0_END := 99
  const YEAR1_END := 420_579
  const YEAR2_END := 841_059
  const YEAR3_END := 1_261_539
  const YEAR4_END := 1_682_019
  const YEAR5_END := 2_102_499
  const YEAR6_END := 2_522_979
  const YEAR7_END := 2_943_459
  const HARDFORK := 17_000
  const REWARD_POST_FORK := 121_899_404
  const FORK_REMAINDER := 159_680
  const SCHEDULE_END := 105_694_901
  const SLOPE_END := 134_500_269
  const TAIL_CORRECTION := 1_434_078

  /** A linear decline by `delta` over `total` blocks, rounded down at `offset`. */
  function Sloped(start: nat, delta: nat, total: nat, offset: nat): nat
    requires 0 < total && delta <= start && offset <= total
  {
    SlopedBelowStart(start, delta, total, offset);
    start - delta * offset / total
  }

  lemma SlopedBelowStart(start: nat, delta: nat, total: nat, offset: nat)
    requires 0 < total && delta <= start && offset <= total
    ensures 0 <= delta * offset / total <= start
  {
    MulNonNegative(delta, offset);
    DivNonNegative(delta * offset, total);
    MulMonotone(offset, total, delta);
    DivMonotone(delta * offset, delta * total, total);
    DivUnique(delta * total, total, delta, 0);
  }

  /** `calculate_block_reward_btc_z`; `CalculateBlockReward` is the same table over 10^8. */
  function BlockReward(height: nat): nat {
    if height <= PHASE0_END then REWARD_PHASE0
    else if height <= YEAR1_END then
      if height < HARDFORK then REWARD_YEAR1
      else if height == HARDFORK then REWARD_POST_FORK + FORK_REMAINDER
      else REWARD_POST_FORK
    else if height <= YEAR2_END then REWARD_YEAR2
    else if height <= YEAR3_END then REWARD_YEAR3
    else if height <= YEAR4_END then REWARD_YEAR4
    else if height <= YEAR5_END then REWARD_YEAR5
    else if height <= YEAR6_END then
      Sloped(REWARD_YEAR5, REWARD_YEAR5 - REWARD_YEAR6_END,
             YEAR6_END - (YEAR5_END + 1), height - (YEAR5_END + 1))
    else if height <= YEAR7_END then
      Sloped(REWARD_YEAR6_END, REWARD_YEAR6_END - REWARD_YEAR7_END,
             YEAR7_END - (YEAR6_END + 1), height - (YEAR6_END + 1))
    else if height < SCHEDULE_END then
      Sloped(REWARD_YEAR7_END, REWARD_YEAR7_END, SLOPE_END - (YEAR7_END + 1), height - (YEAR7_END + 1))
    else if height == SCHEDULE_END then TAIL_CORRECTION
    else 0
  }

  function Rewards(count: nat): seq<nat> {
    seq(count, h requires 0 <= h => BlockReward(h))
  }

  /** The supply after block `height`: the sum of all rewards up to it. */
  function Supply(height: nat): nat {
    Sum(Rewards(height + 1))
  }

  lemma SupplyStep(height: nat)
    ensures Supply(height) == BlockReward(height) + if height == 0 then 0 else Supply(height - 1)
  {
    assert Rewards(height + 1)[..height] == Rewards(height);
  }

  lemma SlopedPositive(start: nat, delta: nat, total: nat, offset: nat)
    requires 0 < total && delta <= start && offset < total && 0 < start
    ensures 0 < Sloped(start, delta, total, offset)
  {
    DivGalois(start, total, delta * offset);
    MulMonotone(delta, start, offset);
    MulMonotone(offset + 1, total, start);
    Distribute(offset, 1, start);
  }

  /** Every block of the schedule pays something, and no block after it does. */
  lemma RewardPositiveUntilEnd(height: nat)
    ensures BlockReward(height) > 0 <==> height <= SCHEDULE_END
  {
    if YEAR7_END < height < SCHEDULE_END {
      SlopedPositive(REWARD_YEAR7_END, REWARD_YEAR7_END, SLOPE_END - (YEAR7_END + 1), height - (YEAR7_END + 1));
    }
  }

  lemma {:induction false} FlatSegment(lo: nat, hi: nat, reward: nat)
    requires lo <= hi
    requires forall h | lo < h <= hi :: BlockReward(h) == reward
    ensures Supply(hi) == Supply(lo) + (hi - lo) * reward
  {
    hide Supply, BlockReward;
    if lo < hi {
      FlatSegment(lo, hi - 1, reward);
      SupplyStep(hi);
      Distribute(hi - 1 - lo, 1, reward);
    }
  }

  lemma {:induction false} SlopedSegment(lo: nat, hi: nat, start: nat, delta: nat, total: nat)
    requires lo <= hi && 0 < total && delta <= start && hi - lo <= total + 1
    requires forall h | lo < h <= hi :: BlockReward(h) == Sloped(start, delta, total, h - lo - 1)
    ensures Supply(hi) == Supply(lo) + (hi - lo) * start - SumFloors(hi - lo, total, delta, 0)
  {
    hide Supply, BlockReward;
    if lo < hi {
      SlopedSegment(lo, hi - 1, start, delta, total);
      SupplyStep(hi);
      Distribute(hi - 1 - lo, 1, start);
      assert BlockReward(hi) == start - FloorAt(hi - lo - 1, total, delta, 0);
    }
  }

  lemma SupplyInYearSix(h: nat)
    requires YEAR5_END <= h <= YEAR6_END
    ensures var n := h - YEAR5_END;
      Supply(h) == Supply(YEAR5_END) + n * REWARD_YEAR5 -
        SumFloors(n, YEAR6_END - (YEAR5_END + 1), REWARD_YEAR5 - REWARD_YEAR6_END, 0)
  {
    SlopedSegment(YEAR5_END, h, REWARD_YEAR5, REWARD_YEAR5 - REWARD_YEAR6_END, YEAR6_END - (YEAR5_END + 1));
  }

  lemma SupplyInYearSeven(h: nat)
    requires YEAR6_END <= h <= YEAR7_END
    ensures var n := h - YEAR6_END;
      Supply(h) == Supply(YEAR6_END) + n * REWARD_YEAR6_END -
        SumFloors(n, YEAR7_END - (YEAR6_END + 1), REWARD_YEAR6_END - REWARD_YEAR7_END, 0)
  {
    SlopedSegment(YEAR6_END, h, REWARD_YEAR6_END, REWARD_YEAR6_END - REWARD_YEAR7_END, YEAR7_END - (YEAR6_END + 1));
  }

  lemma SupplyInLongTail(h: nat)
    requires YEAR7_END <= h < SCHEDULE_END
    ensures var n := h - YEAR7_END;
      Supply(h) == Supply(YEAR7_END) + n * REWARD_YEAR7_END -
        SumFloors(n, SLOPE_END - (YEAR7_END + 1), REWARD_YEAR7_END, 0)
  {
    SlopedSegment(YEAR7_END, h, REWARD_YEAR7_END, REWARD_YEAR7_END, SLOPE_END - (YEAR7_END + 1));
  }

  lemma SupplyInPhase0(h: nat)
    requires h <= PHASE0_END
    ensures Supply(h) == (h + 1) * REWARD_PHASE0
  {
    SupplyStep(0);
    FlatSegment(0, h, REWARD_PHASE0);
  }

  lemma SupplyInYear1(h: nat)
    requires PHASE0_END < h <= YEAR1_END
    ensures Supply(h) == 100_000_000_000_000 +
      (if h < HARDFORK then (h - PHASE0_END) * REWARD_YEAR1
       else (HARDFORK - 1 - PHASE0_END) * REWARD_YEAR1 + (h - HARDFORK + 1) * REWARD_POST_FORK + FORK_REMAINDER)
  {
    SupplyInPhase0(PHASE0_END);
    FlatSegment(PHASE0_END, Min(h, HARDFORK - 1), REWARD_YEAR1);
    if HARDFORK <= h {
      SupplyStep(HARDFORK);
      FlatSegment(HARDFORK, h, REWARD_POST_FORK);
    }
  }

  lemma SupplyInYears2To5(h: nat)
    requires YEAR1_END <= h <= YEAR5_END
    ensures Supply(h) == 150_000_005_056_000 +
      (Min(h, YEAR2_END) - YEAR1_END) * REWARD_YEAR2 +
      (if YEAR2_END < h then (Min(h, YEAR3_END) - YEAR2_END) * REWARD_YEAR3 else 0) +
      (if YEAR3_END < h then (Min(h, YEAR4_END) - YEAR3_END) * REWARD_YEAR4 else 0) +
      (if YEAR4_END < h then (h - YEAR4_END) * REWARD_YEAR5 else 0)
  {
    SupplyInYear1(YEAR1_END);
    FlatSegment(YEAR1_END, Min(h, YEAR2_END), REWARD_YEAR2);
    if YEAR2_END < h { FlatSegment(YEAR2_END, Min(h, YEAR3_END), REWARD_YEAR3); }
    if YEAR3_END < h { FlatSegment(YEAR3_END, Min(h, YEAR4_END), REWARD_YEAR4); }
    if YEAR4_END < h { FlatSegment(YEAR4_END, h, REWARD_YEAR5); }
  }

  lemma SupplyAtYear5()
    ensures Supply(YEAR5_END) == 1_099_999_971_904_000
  {
    SupplyInYears2To5(YEAR5_END);
  }

  /**
  `calculate_expected_supply_from_genesis_fallback`: early returns per phase, an
  accumulator, and a floor sum per sloped segment. It computes the plain sum.
  */
  method ExpectedSupply(height: nat) returns (supply: nat)
    ensures supply == Supply(height)
  {
    var phase0 := Min(height, PHASE0_END);
    supply := (phase0 + 1) * REWARD_PHASE0;
    if height <= PHASE0_END {
      SupplyInPhase0(height);
      return;
    }
    if height < HARDFORK {
      supply := supply + (Min(height, YEAR1_END) - PHASE0_END) * REWARD_YEAR1;
      SupplyInYear1(height);
      return;
    }
    supply := supply + (HARDFORK - 1 - PHASE0_END) * REWARD_YEAR1;
    supply := supply + (Min(height, YEAR1_END) - HARDFORK + 1) * REWARD_POST_FORK + FORK_REMAINDER;
    if height <= YEAR1_END {
      SupplyInYear1(height);
      return;
    }
    SupplyInYears2To5(Min(height, YEAR5_END));
    supply := supply + (Min(height, YEAR2_END) - YEAR1_END) * REWARD_YEAR2;
    if height <= YEAR2_END {
      return;
    }
    supply := supply + (Min(height, YEAR3_END) - YEAR2_END) * REWARD_YEAR3;
    if height <= YEAR3_END {
      return;
    }
    supply := supply + (Min(height, YEAR4_END) - YEAR3_END) * REWARD_YEAR4;
    if height <= YEAR4_END {
      return;
    }
    supply := supply + (Min(height, YEAR5_END) - YEAR4_END) * REWARD_YEAR5;
    if height <= YEAR5_END {
      return;
    }
    supply := SlopedSupply(height, supply);
  }

  /** The part of the supply function after year 5. */
  method SlopedSupply(height: nat, upToYear5: nat) returns (supply: nat)
    requires YEAR5_END < height && upToYear5 == Supply(YEAR5_END)
    ensures supply == Supply(height)
  {
    hide Supply, BlockReward;
    supply := upToYear5;
    SupplyInYearSix(Min(height, YEAR6_END));
    var total := YEAR6_END - (YEAR5_END + 1);
    var delta := REWARD_YEAR5 - REWARD_YEAR6_END;
    var n := Min(height, YEAR6_END) - YEAR5_END;
    var reduction := FastFloorSum(n, total, delta, 0);
    supply := supply + (n * REWARD_YEAR5 - reduction);
    if height <= YEAR6_END {
      return;
    }
    SupplyInYearSeven(Min(height, YEAR7_END));
    total := YEAR7_END - (YEAR6_END + 1);
    delta := REWARD_YEAR6_END - REWARD_YEAR7_END;
    n := Min(height, YEAR7_END) - YEAR6_END;
    reduction := FastFloorSum(n, total, delta, 0);
    supply := supply + (n * REWARD_YEAR6_END - reduction);
    if height <= YEAR7_END {
      return;
    }
    SupplyInLongTail(Min(height, SCHEDULE_END - 1));
    total := SLOPE_END - (YEAR7_END + 1);
    if height < SCHEDULE_END {
      n := height - YEAR7_END;
      reduction := FastFloorSum(n, total, REWARD_YEAR7_END, 0);
      supply := supply + (n * REWARD_YEAR7_END - reduction);
      return;
    }
    n := SCHEDULE_END - 1 - YEAR7_END;
    reduction := FastFloorSum(n, total, REWARD_YEAR7_END, 0);
    supply := supply + (n * REWARD_YEAR7_END - reduction) + TAIL_CORRECTION;
    SupplyAfterEnd(height);
  }

  lemma SupplyAfterEnd(height: nat)
    requires SCHEDULE_END <= height
    ensures Supply(height) == Supply(SCHEDULE_END - 1) + TAIL_CORRECTION
  {
    SupplyStep(SCHEDULE_END);
    FlatSegment(SCHEDULE_END, height, 0);
  }

  lemma SupplyAtEnd()
    ensures Supply(YEAR6_END) == 1_329_249_957_010_239
    ensures Supply(YEAR7_END) == 1_404_249_965_668_478
    ensures Supply(SCHEDULE_END) == TOTAL_SUPPLY
  {
    SupplyAtYear5();
    SupplyInYearSix(YEAR6_END);
    var six := YearSixLadder();
    LadderIsSum(six);
    SupplyInYearSeven(YEAR7_END);
    var seven := YearSevenLadder();
    LadderIsSum(seven);
    SupplyInLongTail(SCHEDULE_END - 1);
    SupplyStep(SCHEDULE_END);
    var tail := LongTailLadder();
    LadderIsSum(tail);
  }

  lemma {:induction false} SupplyGrows(h: nat, k: nat)
    requires h <= k
    ensures Supply(h) <= Supply(k)
    ensures h < k && h < SCHEDULE_END ==> Supply(h) < Supply(k)
    ensures SCHEDULE_END <= h ==> Supply(h) == Supply(k)
  {
    if h < k {
      SupplyGrows(h, k - 1);
      SupplyStep(k);
      RewardPositiveUntilEnd(k);
    }
  }

  /** The hard cap: never exceeded, and reached exactly at the last block of the schedule. */
  lemma SupplyCap(height: nat)
    ensures Supply(height) <= TOTAL_SUPPLY
    ensures Supply(height) == TOTAL_SUPPLY <==> SCHEDULE_END <= height
  {
    SupplyAtEnd();
    if height <= SCHEDULE_END {
      SupplyGrows(height, SCHEDULE_END);
    } else {
      SupplyGrows(SCHEDULE_END, height);
    }
  }
}
