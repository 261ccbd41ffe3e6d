/**
The ASERT difficulty rule: exponential in target time minus actual time, with a second
degree polynomial for the fraction of a half-life and shifts for whole half-lives.
*/
module Asert {
  import opened Arith
  import opened Difficulty
  import opened Machine

  const HALF_LIFE := 172_800
  const LARGEST_FACTOR := 126_701
  const TWO_TO_240 := 0x1_0000_0000_0000_0000_0000_0000_0000_0000_0000_0000_0000_0000_0000_0000_0000

  /** `U256::bits`: the length of the binary representation. */
  function Bits(x: nat): nat {
    if x == 0 then 0 else 1 + Bits(x / 2)
  }

  /** 65536 * 2^(r / half-life), approximated from below by 1 + y ln 2 + (y ln 2)^2 / 2. */
  function Factor(r: nat): nat {
    MulNonNegative(r, r);
    DivNonNegative(r * 45_426, HALF_LIFE);
    DivNonNegative(r * r * 15_741, HALF_LIFE * HALF_LIFE);
    65_536 + r * 45_426 / HALF_LIFE + r * r * 15_741 / (HALF_LIFE * HALF_LIFE)
  }

  function Raised(anchor: u256, d: nat, r: nat): u256 {
    MulNonNegative(anchor, Factor(r));
    if anchor * Factor(r) > U256_MAX then U256_MAX
    else
      var temp := anchor * Factor(r) / 65_536;
      if d < 256 && Bits(temp) + d <= 256 then
        ShiftFits(temp, d);
        temp * Pow2(d)
      else U256_MAX
  }

  function Lowered(anchor: u256, d: nat, r: nat): u256 {
    LoweredFits(anchor, d, r);
    if d >= 256 then 0
    else if anchor * 65_536 <= U256_MAX then anchor * 65_536 / Factor(r) / Pow2(d)
    else (anchor / Factor(r)) * 65_536 / Pow2(d)
  }

  lemma LoweredFits(anchor: u256, d: nat, r: nat)
    ensures 0 <= anchor * 65_536 / Factor(r) / Pow2(d) <= U256_MAX
    ensures 0 <= (anchor / Factor(r)) * 65_536 / Pow2(d) <= U256_MAX
  {
    var f, p := Factor(r), Pow2(d);
    DivNonNegative(anchor, f);
    DivAntitone(anchor * 65_536, 65_536, f);
    DivUnique(anchor * 65_536, 65_536, anchor, 0);
    DivNonNegative(anchor * 65_536, f);
    DivNonNegative(anchor * 65_536 / f, p);
    DivAntitone(anchor, 65_536, f);
    DivMod(anchor, 65_536);
    DivNonNegative((anchor / f) * 65_536, p);
  }

  /** The rule as a function of target time minus actual time. */
  function Adjusted(anchor: u256, x: int): u256 {
    var next :=
      if x >= 0 then Raised(anchor, x / HALF_LIFE, x % HALF_LIFE)
      else Lowered(anchor, (-x) / HALF_LIFE, (-x) % HALF_LIFE);
    Max(next, MIN_DIFFICULTY)
  }

  /** `calculate_next_difficulty_asert_u256`; the target time is a u64 product. */
  function NextDifficultyAsert(prevHeight: u64, prevTs: u64, anchorHeight: u64, anchorTs: u64, anchor: u256): u256 {
    if prevHeight <= anchorHeight then Max(anchor, MIN_DIFFICULTY)
    else
      var target := (prevHeight - anchorHeight) * TARGET_TIME % (U64_MAX + 1);
      Adjusted(anchor, target - SatSub64(prevTs, anchorTs))
  }

  // ----- powers and bit lengths

  lemma Pow2Sum(a: nat, x: nat, b: nat, y: nat)
    requires Pow2(a) == x && Pow2(b) == y
    ensures Pow2(a + b) == x * y
  {
    Pow2Add(a, b);
  }

  lemma Pow2Of256()
    ensures Pow2(256) == U256_MAX + 1
    ensures Pow2(240) == TWO_TO_240
  {
    hide Pow2;
    Pow2Of16();
    Pow2Sum(16, 0x1_0000, 16, 0x1_0000);
    Pow2Sum(32, 0x1_0000_0000, 32, 0x1_0000_0000);
    Pow2Sum(64, 0x1_0000_0000_0000_0000, 64, 0x1_0000_0000_0000_0000);
    Pow2Sum(128, 0x1_0000_0000_0000_0000_0000_0000_0000_0000, 64, 0x1_0000_0000_0000_0000);
    Pow2Sum(192, 0x1_0000_0000_0000_0000_0000_0000_0000_0000_0000_0000_0000_0000, 32, 0x1_0000_0000);
    Pow2Sum(224, 0x1_0000_0000_0000_0000_0000_0000_0000_0000_0000_0000_0000_0000_0000_0000, 16, 0x1_0000);
    Pow2Sum(240, TWO_TO_240, 16, 0x1_0000);
  }

  lemma Pow2Of16()
    ensures Pow2(16) == 0x1_0000
  {
    assert Pow2(4) == 16;
    Pow2Add(4, 4);
    Pow2Add(8, 8);
  }

  lemma {:induction false} BitsMeaning(x: nat, b: nat)
    ensures Bits(x) <= b <==> x < Pow2(b)
  {
    if x > 0 && b > 0 {
      BitsMeaning(x / 2, b - 1);
    }
  }

  /** Shifting left by d stays within 256 bits exactly when the lengths add up to at most 256. */
  lemma ShiftMeaning(x: nat, d: nat)
    requires d < 256
    ensures Bits(x) + d <= 256 <==> x * Pow2(d) <= U256_MAX
  {
    Pow2Of256();
    Pow2Add(256 - d, d);
    BitsMeaning(x, 256 - d);
    if x < Pow2(256 - d) {
      MulMonotone(x + 1, Pow2(256 - d), Pow2(d));
      Distribute(x, 1, Pow2(d));
    } else {
      MulMonotone(Pow2(256 - d), x, Pow2(d));
    }
  }

  lemma ShiftFits(x: nat, d: nat)
    requires d < 256 && Bits(x) + d <= 256
    ensures 0 <= x * Pow2(d) <= U256_MAX
  {
    ShiftMeaning(x, d);
    MulNonNegative(x, Pow2(d));
  }

  // ----- the polynomial factor

  lemma FactorRange(r: nat)
    requires r < HALF_LIFE
    ensures 65_536 <= Factor(r) <= LARGEST_FACTOR < 131_072
    ensures Factor(HALF_LIFE - 1) == LARGEST_FACTOR && Factor(0) == 65_536
  {
    FactorMonotone(r, HALF_LIFE - 1);
  }

  lemma FactorMonotone(r: nat, s: nat)
    requires r <= s
    ensures Factor(r) <= Factor(s)
  {
    MulMonotone(r, s, r);
    MulMonotone(r, s, s);
    DivMonotone(r * 45_426, s * 45_426, HALF_LIFE);
    DivMonotone(r * r * 15_741, s * s * 15_741, HALF_LIFE * HALF_LIFE);
  }

  // ----- raising: the result grows with d * half-life + r

  /** The raised value without saturation, when the product fits. */
  function RaisedExact(anchor: u256, d: nat, r: nat): nat {
    MulNonNegative(anchor, Factor(r));
    DivNonNegative(anchor * Factor(r), 65_536);
    MulNonNegative(anchor * Factor(r) / 65_536, Pow2(d));
    anchor * Factor(r) / 65_536 * Pow2(d)
  }

  lemma RaisedIsExact(anchor: u256, d: nat, r: nat)
    requires anchor * Factor(r) <= U256_MAX
    ensures Raised(anchor, d, r) ==
            if d < 256 && RaisedExact(anchor, d, r) <= U256_MAX then RaisedExact(anchor, d, r) else U256_MAX
  {
    if d < 256 { ShiftMeaning(anchor * Factor(r) / 65_536, d); }
  }

  lemma RaisedExactBounds(anchor: u256, d: nat, r: nat)
    requires r < HALF_LIFE
    ensures anchor * Pow2(d) <= RaisedExact(anchor, d, r) <= anchor * Pow2(d + 1)
  {
    FactorRange(r);
    MulMonotone(65_536, Factor(r), anchor);
    MulMonotone(Factor(r), 131_072, anchor);
    DivMonotone(anchor * 65_536, anchor * Factor(r), 65_536);
    DivMonotone(anchor * Factor(r), anchor * 131_072, 65_536);
    DivUnique(anchor * 65_536, 65_536, anchor, 0);
    DivUnique(anchor * 131_072, 65_536, 2 * anchor, 0);
    var temp := anchor * Factor(r) / 65_536;
    MulMonotone(anchor, temp, Pow2(d));
    MulMonotone(temp, 2 * anchor, Pow2(d));
  }

  lemma {:induction false} Pow2Monotone(a: nat, b: nat)
    requires a <= b
    ensures Pow2(a) <= Pow2(b)
  {
    if a < b {
      Pow2Monotone(a, b - 1);
    }
  }

  /** (d, r) comes no later than (e, s) in elapsed half-lives and remainder. */
  predicate NoLater(d: nat, r: nat, e: nat, s: nat) {
    r < HALF_LIFE && s < HALF_LIFE && (d < e || (d == e && r <= s))
  }

  lemma RaisedExactMonotone(anchor: u256, d: nat, r: nat, e: nat, s: nat)
    requires NoLater(d, r, e, s)
    ensures RaisedExact(anchor, d, r) <= RaisedExact(anchor, e, s)
  {
    if d == e {
      FactorMonotone(r, s);
      MulMonotone(Factor(r), Factor(s), anchor);
      DivMonotone(anchor * Factor(r), anchor * Factor(s), 65_536);
      MulMonotone(anchor * Factor(r) / 65_536, anchor * Factor(s) / 65_536, Pow2(d));
    } else {
      RaisedExactBounds(anchor, d, r);
      RaisedExactBounds(anchor, e, s);
      Pow2Monotone(d + 1, e);
      MulMonotone(Pow2(d + 1), Pow2(e), anchor);
    }
  }

  /** Products below the overflow line, or so large that every product overflows. */
  predicate AnchorInRange(anchor: u256) {
    anchor * LARGEST_FACTOR <= U256_MAX || TWO_TO_240 <= anchor
  }

  lemma RaisedMonotone(anchor: u256, d: nat, r: nat, e: nat, s: nat)
    requires AnchorInRange(anchor) && NoLater(d, r, e, s)
    ensures Raised(anchor, d, r) <= Raised(anchor, e, s)
  {
    FactorRange(r);
    FactorRange(s);
    if TWO_TO_240 <= anchor {
      MulMonotone(TWO_TO_240, anchor, Factor(s));
      MulMonotone(65_536, Factor(s), TWO_TO_240);
    } else {
      MulMonotone(Factor(r), LARGEST_FACTOR, anchor);
      MulMonotone(Factor(s), LARGEST_FACTOR, anchor);
      RaisedIsExact(anchor, d, r);
      RaisedIsExact(anchor, e, s);
      RaisedExactMonotone(anchor, d, r, e, s);
    }
  }

  /** Raising never goes below the anchor. */
  lemma RaisedAtLeastAnchor(anchor: u256, d: nat, r: nat)
    requires r < HALF_LIFE
    ensures anchor <= Raised(anchor, d, r)
  {
    if anchor * Factor(r) <= U256_MAX {
      RaisedIsExact(anchor, d, r);
      RaisedExactBounds(anchor, d, r);
      MulMonotone(1, Pow2(d), anchor);
    }
  }

  // ----- lowering: the result shrinks

  /** The value before the shift, in whichever order the source multiplies and divides. */
  function Divided(anchor: u256, r: nat): nat {
    DivNonNegative(anchor * 65_536, Factor(r));
    DivNonNegative(anchor, Factor(r));
    if anchor * 65_536 <= U256_MAX then anchor * 65_536 / Factor(r) else anchor / Factor(r) * 65_536
  }

  lemma DividedMonotone(anchor: u256, r: nat, s: nat)
    requires r <= s
    ensures Divided(anchor, s) <= Divided(anchor, r)
  {
    FactorMonotone(r, s);
    DivAntitone(anchor * 65_536, Factor(r), Factor(s));
    DivAntitone(anchor, Factor(r), Factor(s));
  }

  /** One half-life never loses more than half. */
  lemma DividedBounds(anchor: u256, r: nat)
    requires r < HALF_LIFE
    ensures anchor / 2 <= Divided(anchor, r) <= anchor
  {
    FactorRange(r);
    var f := Factor(r);
    if anchor * 65_536 <= U256_MAX {
      DivAntitone(anchor * 65_536, f, 131_072);
      DivAntitone(anchor * 65_536, 65_536, f);
      DivUnique(anchor * 65_536, 65_536, anchor, 0);
      DivMod(anchor, 2);
      DivUnique(anchor * 65_536, 131_072, anchor / 2, (anchor % 2) * 65_536);
    } else {
      DivAntitone(anchor, f, LARGEST_FACTOR);
      DivAntitone(anchor, 65_536, f);
      DivMod(anchor, 65_536);
      DivMod(anchor, LARGEST_FACTOR);
    }
  }

  lemma LoweredIsShift(anchor: u256, d: nat, r: nat)
    ensures Lowered(anchor, d, r) == if d >= 256 then 0 else Divided(anchor, r) / Pow2(d)
  {
  }

  lemma LoweredMonotone(anchor: u256, d: nat, r: nat, e: nat, s: nat)
    requires NoLater(d, r, e, s)
    ensures Lowered(anchor, e, s) <= Lowered(anchor, d, r)
  {
    LoweredIsShift(anchor, d, r);
    LoweredIsShift(anchor, e, s);
    if e < 256 {
      if d == e {
        DividedMonotone(anchor, r, s);
        DivMonotone(Divided(anchor, s), Divided(anchor, r), Pow2(d));
      } else {
        DividedBounds(anchor, r);
        DividedBounds(anchor, s);
        Pow2Monotone(d + 1, e);
        DivMonotone(Divided(anchor, s), anchor, Pow2(e));
        DivAntitone(anchor, Pow2(d + 1), Pow2(e));
        DivDiv(anchor, 2, Pow2(d));
        DivMonotone(anchor / 2, Divided(anchor, r), Pow2(d));
      }
    } else {
      LoweredFits(anchor, d, r);
    }
  }

  lemma LoweredAtMostAnchor(anchor: u256, d: nat, r: nat)
    requires r < HALF_LIFE
    ensures Lowered(anchor, d, r) <= anchor
  {
    LoweredIsShift(anchor, d, r);
    DividedBounds(anchor, r);
    DivNonNegative(Divided(anchor, r), Pow2(d));
  }

  // ----- the rule

  lemma SplitNoLater(a: nat, b: nat)
    requires a <= b
    ensures NoLater(a / HALF_LIFE, a % HALF_LIFE, b / HALF_LIFE, b % HALF_LIFE)
  {
  }

  lemma AdjustedMonotone(anchor: u256, x: int, y: int)
    requires AnchorInRange(anchor) && x <= y
    ensures Adjusted(anchor, x) <= Adjusted(anchor, y)
  {
    hide Raised, Lowered;
    if x >= 0 {
      SplitNoLater(x, y);
      RaisedMonotone(anchor, x / HALF_LIFE, x % HALF_LIFE, y / HALF_LIFE, y % HALF_LIFE);
    } else if y < 0 {
      SplitNoLater(-y, -x);
      LoweredMonotone(anchor, (-y) / HALF_LIFE, (-y) % HALF_LIFE, (-x) / HALF_LIFE, (-x) % HALF_LIFE);
    } else {
      LoweredAtMostAnchor(anchor, (-x) / HALF_LIFE, (-x) % HALF_LIFE);
      RaisedAtLeastAnchor(anchor, y / HALF_LIFE, y % HALF_LIFE);
    }
  }

  /** In between, the last second of the first half-life overflows and the next second does not. */
  lemma NotMonotoneBetween(anchor: u256)
    requires !AnchorInRange(anchor)
    ensures Adjusted(anchor, HALF_LIFE - 1) == U256_MAX
    ensures Adjusted(anchor, HALF_LIFE) < U256_MAX
  {
    FactorRange(0);
    DivUnique(anchor * 65_536, 65_536, anchor, 0);
    RaisedIsExact(anchor, 1, 0);
    assert Pow2(1) == 2;
  }

  /**
  Exactly which anchors give a rule that never falls as target time minus actual time
  grows: those whose product with the largest factor fits in 256 bits, and those from
  2^240 on, where every product overflows.
  */
  lemma AsertMonotoneIff(anchor: u256)
    ensures (forall x: int, y: int :: x <= y ==> Adjusted(anchor, x) <= Adjusted(anchor, y)) <==>
            AnchorInRange(anchor)
  {
    hide Adjusted;
    if AnchorInRange(anchor) {
      forall x: int, y: int | x <= y ensures Adjusted(anchor, x) <= Adjusted(anchor, y) {
        AdjustedMonotone(anchor, x, y);
      }
    } else {
      NotMonotoneBetween(anchor);
    }
  }

  /** On the node's inputs, for an anchor below 2^239 and target times that fit in 64 bits. */
  lemma AsertMonotone(anchor: u256, anchorHeight: u64, anchorTs: u64,
                      height: u64, ts: u64, otherHeight: u64, otherTs: u64)
    requires anchor < TWO_TO_240 / 2
    requires anchorHeight < height && (height - anchorHeight) * TARGET_TIME <= U64_MAX
    requires anchorHeight < otherHeight && (otherHeight - anchorHeight) * TARGET_TIME <= U64_MAX
    requires (height - anchorHeight) * TARGET_TIME - SatSub64(ts, anchorTs) <=
             (otherHeight - anchorHeight) * TARGET_TIME - SatSub64(otherTs, anchorTs)
    ensures NextDifficultyAsert(height, ts, anchorHeight, anchorTs, anchor) <=
            NextDifficultyAsert(otherHeight, otherTs, anchorHeight, anchorTs, anchor)
  {
    hide Adjusted;
    assert AnchorInRange(anchor);
    AdjustedMonotone(anchor,
      (height - anchorHeight) * TARGET_TIME - SatSub64(ts, anchorTs),
      (otherHeight - anchorHeight) * TARGET_TIME - SatSub64(otherTs, anchorTs));
  }
}
