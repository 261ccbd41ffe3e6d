/**
The schedule in plain numbers: what each block pays, where the slopes start and end, and
the supply at every height where the rule changes.
*/
module EmissionTable {
  import opened Arith
  import opened Emission

  /** The reward of the block at `height` declines from `start` by `delta` over `total` blocks, rounded up. */
  predicate Declines(height: nat, first: nat, start: nat, delta: nat, total: nat) {
    var lost := start - BlockReward(height);
    lost * total <= delta * (height - first) < (lost + 1) * total
  }

  lemma SlopedDeclines(start: nat, delta: nat, total: nat, offset: nat)
    requires 0 < total && delta <= start && offset <= total
    ensures
      var lost := start - Sloped(start, delta, total, offset);
      lost * total <= delta * offset < (lost + 1) * total
  {
    var lost := delta * offset / total;
    DivGalois(lost, total, delta * offset);
    DivGalois(lost + 1, total, delta * offset);
  }

  /** The reward of every block. */
  lemma RewardTable(height: nat)
    ensures height <= 99 ==> BlockReward(height) == 1_000_000_000_000
    ensures 100 <= height <= 16_999 ==> BlockReward(height) == 47_564_700
    ensures height == 17_000 ==> BlockReward(height) == 122_059_084
    ensures 17_001 <= height <= 420_579 ==> BlockReward(height) == 121_899_404
    ensures 420_580 <= height <= 841_059 ==> BlockReward(height) == 386_463_100
    ensures 841_060 <= height <= 1_261_539 ==> BlockReward(height) == 505_374_800
    ensures 1_261_540 <= height <= 1_682_019 ==> BlockReward(height) == 624_286_500
    ensures 1_682_020 <= height <= 2_102_499 ==> BlockReward(height) == 743_198_200
    ensures 2_102_500 <= height <= 2_522_979 ==> Declines(height, 2_102_500, 743_198_200, 395_976_000, 420_479)
    ensures 2_522_980 <= height <= 2_943_459 ==> Declines(height, 2_522_980, 347_222_200, 337_709_200, 420_479)
    ensures 2_943_460 <= height <= 105_694_900 ==> Declines(height, 2_943_460, 9_513_000, 9_513_000, 131_556_809)
    ensures height == 105_694_901 ==> BlockReward(height) == 1_434_078
    ensures height >= 105_694_902 ==> BlockReward(height) == 0
  {
    hide Sloped;
    if 2_102_500 <= height <= 2_522_979 {
      SlopedDeclines(743_198_200, 395_976_000, 420_479, height - 2_102_500);
    } else if 2_522_980 <= height <= 2_943_459 {
      SlopedDeclines(347_222_200, 337_709_200, 420_479, height - 2_522_980);
    } else if 2_943_460 <= height <= 105_694_900 {
      SlopedDeclines(9_513_000, 9_513_000, 131_556_809, height - 2_943_460);
    }
  }

  /** The first two slopes meet the rewards on both sides; the third starts where the second ends. */
  lemma SlopesMeet()
    ensures BlockReward(2_102_500) == BlockReward(2_102_499) == 743_198_200
    ensures BlockReward(2_522_979) == BlockReward(2_522_980) == 347_222_200
    ensures BlockReward(2_943_459) == BlockReward(2_943_460) == 9_513_000
  {
  }

  lemma SlopedDown(start: nat, delta: nat, total: nat, offset: nat)
    requires 0 < total && delta <= start && 0 < offset <= total
    ensures Sloped(start, delta, total, offset) <= Sloped(start, delta, total, offset - 1)
  {
    MulMonotone(offset - 1, offset, delta);
    DivMonotone(delta * (offset - 1), delta * offset, total);
  }

  /** Along the slopes no block pays more than the one before it. */
  lemma SlopesDecline(height: nat)
    requires 2_102_500 <= height < 105_694_901
    ensures BlockReward(height) <= BlockReward(height - 1)
  {
    hide Sloped;
    if height == 2_102_500 || height == 2_522_980 || height == 2_943_460 {
      SlopesMeet();
    } else if height <= 2_522_979 {
      SlopedDown(743_198_200, 395_976_000, 420_479, height - 2_102_500);
    } else if height <= 2_943_459 {
      SlopedDown(347_222_200, 337_709_200, 420_479, height - 2_522_980);
    } else {
      SlopedDown(9_513_000, 9_513_000, 131_556_809, height - 2_943_460);
    }
  }

  /** The supply where the rule changes. */
  lemma SupplyMilestones()
    ensures Supply(0) == 1_000_000_000_000
    ensures Supply(99) == 100_000_000_000_000
    ensures Supply(16_999) == 100_803_843_430_000
    ensures Supply(17_000) == 100_803_965_489_084
    ensures Supply(420_579) == 150_000_005_056_000
    ensures Supply(841_059) == 312_500_009_344_000
    ensures Supply(1_261_539) == 525_000_005_248_000
    ensures Supply(1_682_019) == 787_499_992_768_000
    ensures Supply(2_102_499) == 1_099_999_971_904_000
    ensures Supply(2_522_979) == 1_329_249_957_010_239
    ensures Supply(2_943_459) == 1_404_249_965_668_478
    ensures Supply(105_694_900) == 1_999_999_998_565_922
    ensures Supply(105_694_901) == 2_000_000_000_000_000
  {
    hide Supply, BlockReward;
    SupplyInPhase0(0);
    SupplyInPhase0(99);
    SupplyInYear1(16_999);
    SupplyInYear1(17_000);
    SupplyInYear1(420_579);
    SupplyInYears2To5(841_059);
    SupplyInYears2To5(1_261_539);
    SupplyInYears2To5(1_682_019);
    SupplyInYears2To5(2_102_499);
    SupplyAtEnd();
    SupplyAfterEnd(105_694_901);
  }
}
