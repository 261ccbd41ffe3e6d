/**
What the half-life rule computes: exact doublings and halvings at whole half-lives of two
days, and in between the polynomial the code approximates a power of two with.
*/
module AsertMeaning {
  import opened Arith
  import opened Asert
  import opened Difficulty
  import opened Machine

  /** Sixteen fraction bits of 1 + y ln 2 + (y ln 2)^2 / 2 at y = r / 172800, cut down by less than two units. */
  lemma FactorMeaning(r: nat)
    ensures
      var t := 172_800;
      var exact := 65_536 * (t * t) + 45_426 * (r * t) + 15_741 * (r * r);
      Factor(r) * (t * t) <= exact < (Factor(r) + 2) * (t * t)
  {
    var t: int := 172_800;
    MulNonNegative(r, r);
    var a, b := r * 45_426 / t, r * r * 15_741 / (t * t);
    DivMod(r * 45_426, t);
    DivMod(r * r * 15_741, t * t);
    Bracket(r, t, a, b);
  }

  lemma Bracket(r: nat, t: int, a: int, b: int)
    requires t == 172_800
    requires a * t <= r * 45_426 < (a + 1) * t
    requires b * (t * t) <= r * r * 15_741 < (b + 1) * (t * t)
    ensures (65_536 + a + b) * (t * t) <= 65_536 * (t * t) + 45_426 * (r * t) + 15_741 * (r * r) <
            (65_536 + a + b + 2) * (t * t)
  {
  }

  /** On schedule the anchor stays; each half-life ahead doubles it, as far as 256 bits go. */
  lemma AheadDoubles(anchor: u256, k: nat)
    requires anchor * 65_536 <= U256_MAX
    ensures Adjusted(anchor, k * 172_800) ==
            if k < 256 && anchor * Pow2(k) <= U256_MAX then Max(anchor * Pow2(k), 1_200_000_000) else U256_MAX
  {
    hide Pow2, Factor, Bits, Raised;
    DivUnique(k * 172_800, 172_800, k, 0);
    FactorRange(0);
    RaisedIsExact(anchor, k, 0);
    DivUnique(anchor * 65_536, 65_536, anchor, 0);
  }

  /** Each half-life behind halves it, rounded down, never below the minimum. */
  lemma BehindHalves(anchor: u256, k: int)
    requires k > 0
    ensures Adjusted(anchor, -k * 172_800) == Max(if k < 256 then Whole(anchor) / Pow2(k) else 0, 1_200_000_000)
  {
    hide Pow2, Factor, Lowered;
    DivUnique(k * 172_800, 172_800, k, 0);
    FactorRange(0);
    LoweredIsShift(anchor, k, 0);
    DivUnique(anchor * 65_536, 65_536, anchor, 0);
  }

  /** The anchor, without its low sixteen bits when it has more than 240. */
  function Whole(anchor: u256): nat {
    DivNonNegative(anchor, 65_536);
    if anchor * 65_536 <= U256_MAX then anchor else anchor / 65_536 * 65_536
  }

  /** Between the half-lives ahead: the anchor times the factor, sixteen bits dropped, then the doublings. */
  lemma AheadBetween(anchor: u256, k: nat, r: nat)
    requires r < 172_800 && anchor * Factor(r) <= U256_MAX
    ensures
      var next := anchor * Factor(r) / 65_536 * Pow2(k);
      Adjusted(anchor, k * 172_800 + r) ==
      if k < 256 && next <= U256_MAX then Max(next, 1_200_000_000) else U256_MAX
  {
    hide Pow2, Factor, Bits, Raised;
    DivUnique(k * 172_800 + r, 172_800, k, r);
    RaisedIsExact(anchor, k, r);
  }

  /** The rule compares 75 seconds a block with the time since the anchor; up to the anchor it leaves it. */
  lemma ScheduleMeaning(height: u64, ts: u64, anchorHeight: u64, anchorTs: u64, anchor: u256)
    ensures height <= anchorHeight ==>
              NextDifficultyAsert(height, ts, anchorHeight, anchorTs, anchor) == Max(anchor, 1_200_000_000)
    ensures height > anchorHeight ==>
              NextDifficultyAsert(height, ts, anchorHeight, anchorTs, anchor) ==
              Adjusted(anchor, (height - anchorHeight) * 75 % 0x1_0000_0000_0000_0000 - Max(ts - anchorTs, 0))
  {
    hide Adjusted;
  }
}
