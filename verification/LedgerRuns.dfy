/**
Runs of accepted blocks from the empty ledger, and what they do to the money supply.
*/
module LedgerRuns {
  import opened Emission
  import opened Ledger
  import opened LedgerMoney
  import opened Machine
  import opened Wrappers

  datatype Block = Block(txs: seq<Tx>, minerAddress: Bytes, parentHash: Bytes, hash: Bytes)

  const EMPTY := State(map[], map[], 0)

  /** Blocks 0, 1, 2, ... executed for real and committed; None when one is refused. */
  function Run(oracle: Oracle, blocks: seq<Block>): Option<State> {
    if blocks == [] then Some(EMPTY)
    else
      var height := |blocks| - 1;
      match Run(oracle, blocks[..height])
      case None => None
      case Some(s) =>
        var b := blocks[height];
        match Execute(oracle, s, b.txs, b.minerAddress, b.parentHash, height, false)
        case Err(_) => None
        case Ok(e) => Some(Commit(s, e, height, b.hash))
  }

  // ----- the last block of a run

  ghost function ContextOf(oracle: Oracle, s: State, b: Block, height: nat): Context {
    Context(oracle, s, AddressOf(b.minerAddress), height, false)
  }

  ghost function StateBefore(oracle: Oracle, blocks: seq<Block>): State
    requires blocks != [] && Run(oracle, blocks).Some?
  {
    Run(oracle, blocks[..|blocks| - 1]).value
  }

  lemma ExecutedWrites(oracle: Oracle, s: State, b: Block, height: nat)
    requires Execute(oracle, s, b.txs, b.minerAddress, b.parentHash, height, false).Ok?
    ensures
      var ctx := ContextOf(oracle, s, b, height);
      var e := Execute(oracle, s, b.txs, b.minerAddress, b.parentHash, height, false).value;
      After(ctx, b.txs, |b.txs|).Ok? && e.writes == Writes(ctx, After(ctx, b.txs, |b.txs|).value)
  {
    hide After, Writes, GatePasses, AddressOf, Supply;
  }

  lemma LastBlockRan(oracle: Oracle, blocks: seq<Block>)
    requires blocks != [] && Run(oracle, blocks).Some?
    ensures
      var height, b := |blocks| - 1, blocks[|blocks| - 1];
      var s := StateBefore(oracle, blocks);
      && Run(oracle, blocks[..height]) == Some(s)
      && Execute(oracle, s, b.txs, b.minerAddress, b.parentHash, height, false).Ok?
      && Run(oracle, blocks).value ==
         Commit(s, Execute(oracle, s, b.txs, b.minerAddress, b.parentHash, height, false).value, height, b.hash)
      && After(ContextOf(oracle, s, b, height), b.txs, |b.txs|).Ok?
  {
    hide Execute, Commit, After;
    var height, b := |blocks| - 1, blocks[|blocks| - 1];
    ExecutedWrites(oracle, Run(oracle, blocks[..height]).value, b, height);
  }

  // ----- the conservation gate

  /**
  The gate compares clamped counters. It passes exactly when the block has no coinbase or a
  coinbase without fee, or when the block moves 2^64 - 1 VNT or more, which blinds it.
  */
  lemma GateExact(ctx: Context, txs: seq<Tx>)
    requires After(ctx, txs, |txs|).Ok? && !ctx.simulation
    requires Total(ctx.state.accounts) < U64_MAX
    ensures GatePasses(After(ctx, txs, |txs|).value) <==>
            (CoinbaseFee(txs) == 0 || TallyAfter(ctx, txs, |txs|).volume >= U64_MAX)
  {
    BlockInvariant(ctx, txs, |txs|);
    var t := TallyAfter(ctx, txs, |txs|);
    ClampAdd(t.amounts, t.volume - t.amounts + CoinbaseFee(txs));
  }

  // ----- one block

  lemma DueLater(rewards: seq<MaturingReward>, r: MaturingReward, height: nat)
    requires height < r.height
    ensures Due(rewards + [r], height) == Due(rewards, height)
    ensures Pending(rewards + [r]) == Pending(rewards) + r.amount
  {
    assert (rewards + [r])[..|rewards|] == rewards;
  }

  lemma {:induction false} DueWithinPending(rewards: seq<MaturingReward>, height: nat)
    ensures Due(rewards, height) <= Pending(rewards)
  {
    MatureParts(rewards, height);
  }

  /** What the reward adds to the accounts on view. */
  lemma RewardedTotal(ctx: Context, p: Progress)
    ensures Total(Shown(ctx, Rewarded(ctx, p))) ==
            Total(Shown(ctx, p.changed)) + SatAdd64(Reward(ctx.height), p.fees)
  {
    var v := View(ctx, p.changed, ctx.miner);
    var amount := SatAdd64(Reward(ctx.height), p.fees);
    DueLater(v.maturing, MaturingReward(amount, ctx.height + MATURITY), ctx.height);
    ShownPut(ctx, p.changed, ctx.miner, Schedule(v, amount, ctx.height));
  }

  /** The end-of-block payout is exact for every account. */
  lemma PayoutIsExact(ctx: Context, p: Progress, a: Bytes)
    requires Total(Shown(ctx, p.changed)) <= U64_MAX
    ensures
      var v := View(ctx, Rewarded(ctx, p), a);
      && v.balance + Due(v.maturing, ctx.height) <= U64_MAX
      && Mature(v, ctx.height).balance == v.balance + Due(v.maturing, ctx.height)
      && Worth(Mature(v, ctx.height)) == Worth(v)
  {
    var before := View(ctx, p.changed, a);
    ShownPut(ctx, p.changed, a, before);
    DueWithinPending(before.maturing, ctx.height);
    var amount := SatAdd64(Reward(ctx.height), p.fees);
    DueLater(before.maturing, MaturingReward(amount, ctx.height + MATURITY), ctx.height);
    MatureKeepsWorth(View(ctx, Rewarded(ctx, p), a), ctx.height);
  }

  lemma CommittedWorth(ctx: Context, p: Progress, k: Bytes)
    requires Total(ctx.state.accounts) <= U64_MAX && Total(Shown(ctx, p.changed)) <= U64_MAX
    requires p.changed.Keys == p.touched
    ensures WorthAt(ctx.state.accounts + Writes(ctx, p), k) == WorthAt(Shown(ctx, Rewarded(ctx, p)), k)
    ensures k in ctx.state.accounts + Writes(ctx, p) <==> k in Shown(ctx, Rewarded(ctx, p))
  {
    if k in Writes(ctx, p) {
      PayoutIsExact(ctx, p, k);
    } else if k in ctx.state.accounts {
      StoredWorthBounded(ctx.state, k);
    }
  }

  /** Committing the writes leaves the total that was on view. */
  lemma CommittedTotal(ctx: Context, p: Progress)
    requires Total(ctx.state.accounts) <= U64_MAX && Total(Shown(ctx, p.changed)) <= U64_MAX
    requires p.changed.Keys == p.touched
    ensures Total(ctx.state.accounts + Writes(ctx, p)) == Total(Shown(ctx, Rewarded(ctx, p)))
  {
    var after, shown := ctx.state.accounts + Writes(ctx, p), Shown(ctx, Rewarded(ctx, p));
    forall k ensures WorthAt(after, k) == WorthAt(shown, k) && (k in after <==> k in shown) {
      CommittedWorth(ctx, p, k);
    }
    SameEntries(after, shown);
  }

  lemma SameEntries(m: map<Bytes, Account>, n: map<Bytes, Account>)
    requires forall k :: WorthAt(m, k) == WorthAt(n, k) && (k in m <==> k in n)
    ensures Total(m) == Total(n)
  {
    forall k | k in m ensures Worth(m[k]) == Worth(n[k]) {
      assert WorthAt(m, k) == WorthAt(n, k);
    }
    TotalSameWorth(m, n);
  }

  /**
  An accepted block adds exactly its reward to the money supply if and only if its coinbase
  carries no fee; otherwise it adds more.
  */
  lemma BlockConserves(oracle: Oracle, s: State, b: Block, height: nat)
    requires Total(s.accounts) <= TOTAL_SUPPLY
    requires Execute(oracle, s, b.txs, b.minerAddress, b.parentHash, height, false).Ok?
    ensures
      var e := Execute(oracle, s, b.txs, b.minerAddress, b.parentHash, height, false).value;
      var after := Total(Commit(s, e, height, b.hash).accounts);
      after >= Total(s.accounts) + BlockReward(height) &&
      (after == Total(s.accounts) + BlockReward(height) <==> CoinbaseFee(b.txs) == 0)
  {
    hide After, Judge, Total, Shown, Rewarded, Writes, BlockReward, TallyAfter;
    var ctx := Context(oracle, s, AddressOf(b.minerAddress), height, false);
    var p := After(ctx, b.txs, |b.txs|).value;
    BlockInvariant(ctx, b.txs, |b.txs|);
    CommittedTotal(ctx, p);
    RewardedTotal(ctx, p);
    RewardFitsU64(height);
  }

  // ----- whole runs

  function SupplyAfter(count: nat): nat {
    if count == 0 then 0 else Supply(count - 1)
  }

  ghost predicate FeeFree(blocks: seq<Block>) {
    forall i :: 0 <= i < |blocks| ==> CoinbaseFee(blocks[i].txs) == 0
  }

  lemma SupplyAfterStep(count: nat)
    ensures SupplyAfter(count + 1) == SupplyAfter(count) + BlockReward(count)
    ensures SupplyAfter(count) <= TOTAL_SUPPLY
  {
    SupplyStep(count);
    if count > 0 { SupplyCap(count - 1); }
  }

  lemma EmptyTotal(oracle: Oracle)
    ensures Run(oracle, []) == Some(EMPTY) && Total(EMPTY.accounts) == 0
  {
  }

  /**
  Conservation over a run: as long as no coinbase carries a fee, the money in all accounts,
  spendable and waiting, is the sum of the block rewards so far.
  */
  lemma {:induction false} RunConserves(oracle: Oracle, blocks: seq<Block>)
    requires Run(oracle, blocks).Some? && FeeFree(blocks)
    ensures Total(Run(oracle, blocks).value.accounts) == SupplyAfter(|blocks|) <= TOTAL_SUPPLY
  {
    hide Run, Execute, StateBefore, Supply, BlockReward;
    SupplyAfterStep(|blocks|);
    if blocks == [] {
      EmptyTotal(oracle);
    } else {
      var height := |blocks| - 1;
      LastBlockRan(oracle, blocks);
      RunConserves(oracle, blocks[..height]);
      SupplyAfterStep(height);
      BlockConserves(oracle, StateBefore(oracle, blocks), blocks[height], height);
    }
  }

  // ----- nothing saturates

  lemma {:induction false} EarlierRan(ctx: Context, txs: seq<Tx>, i: nat, count: nat)
    requires i <= count <= |txs| && After(ctx, txs, count).Ok? && !ctx.simulation
    ensures After(ctx, txs, i).Ok?
    ensures i < count ==> Judge(ctx, i, txs[i], After(ctx, txs, i).value.changed) == None
  {
    hide Judge, Apply;
    if i < count {
      AfterUnfolds(ctx, txs, count);
      EarlierRan(ctx, txs, i, count - 1);
    }
  }

  /** Transfer i: its cost does not saturate and is covered, and its receiver is credited in full. */
  ghost predicate TransferExact(ctx: Context, txs: seq<Tx>, i: nat)
    requires i < |txs| && After(ctx, txs, i).Ok?
  {
    var p, tx := After(ctx, txs, i).value, txs[i];
    && TotalSpend(tx, CreationFee(View(ctx, p.changed, AddressOf(tx.receiver)))) == SpendOf(ctx, tx, p)
    && SpendOf(ctx, tx, p) <= View(ctx, p.changed, AddressOf(tx.sender)).balance
    && Credit(View(ctx, Debited(ctx, tx, p), AddressOf(tx.receiver)), tx.amount).balance ==
       View(ctx, Debited(ctx, tx, p), AddressOf(tx.receiver)).balance + tx.amount
  }

  /** At the end of the block account a is paid what is due in full. */
  ghost predicate PayoutExact(ctx: Context, txs: seq<Tx>, a: Bytes)
    requires After(ctx, txs, |txs|).Ok?
  {
    var v := View(ctx, Rewarded(ctx, After(ctx, txs, |txs|).value), a);
    Mature(v, ctx.height).balance == v.balance + Due(v.maturing, ctx.height)
  }

  /** The fees were added up, and added to the reward, without saturating. */
  ghost predicate RewardExact(ctx: Context, txs: seq<Tx>)
    requires After(ctx, txs, |txs|).Ok? && !ctx.simulation
  {
    var p, t := After(ctx, txs, |txs|).value, TallyAfter(ctx, txs, |txs|);
    && p.fees == t.volume - t.amounts + CoinbaseFee(txs)
    && SatAdd64(Reward(ctx.height), p.fees) == Reward(ctx.height) + p.fees
  }

  lemma TransfersAreExact(ctx: Context, txs: seq<Tx>, i: nat)
    requires i < |txs| && After(ctx, txs, |txs|).Ok? && !ctx.simulation && txs[i].amount > 0
    requires Total(ctx.state.accounts) < U64_MAX
    ensures After(ctx, txs, i).Ok? && TransferExact(ctx, txs, i)
  {
    hide After, Judge, Shown, Total, View, Credit, Apply, SpendOf, TallyAfter;
    EarlierRan(ctx, txs, i, |txs|);
    BlockInvariant(ctx, txs, i);
    SpendIsExact(ctx, i, txs[i], After(ctx, txs, i).value);
    TransferIsExact(ctx, i, txs[i], After(ctx, txs, i).value);
  }

  lemma PayoutsAreExact(ctx: Context, txs: seq<Tx>, a: Bytes)
    requires After(ctx, txs, |txs|).Ok? && !ctx.simulation
    requires Total(ctx.state.accounts) < U64_MAX
    ensures PayoutExact(ctx, txs, a)
  {
    hide After, Shown, Total, View, Mature, Rewarded, Due, TallyAfter;
    BlockInvariant(ctx, txs, |txs|);
    PayoutIsExact(ctx, After(ctx, txs, |txs|).value, a);
  }

  /** A reward that saturated would show in the total. */
  lemma RewardIsExact(ctx: Context, txs: seq<Tx>)
    requires After(ctx, txs, |txs|).Ok? && !ctx.simulation
    requires Total(ctx.state.accounts) < U64_MAX
    requires Total(ctx.state.accounts + Writes(ctx, After(ctx, txs, |txs|).value)) < U64_MAX
    ensures RewardExact(ctx, txs)
  {
    hide After, Shown, Total, Rewarded, TallyAfter, Writes;
    BlockInvariant(ctx, txs, |txs|);
    CommittedTotal(ctx, After(ctx, txs, |txs|).value);
    RewardedTotal(ctx, After(ctx, txs, |txs|).value);
  }

  /**
  In any run, coinbase fees or not, no transfer or payout of a block saturates as long as the
  money before it stays below 2^64 - 1, and no reward does as long as the money after it does.
  */
  lemma RunNeverSaturates(oracle: Oracle, blocks: seq<Block>, i: nat, a: Bytes)
    requires blocks != [] && Run(oracle, blocks).Some?
    requires Total(StateBefore(oracle, blocks).accounts) < U64_MAX
    ensures
      var txs := blocks[|blocks| - 1].txs;
      var ctx := ContextOf(oracle, StateBefore(oracle, blocks), blocks[|blocks| - 1], |blocks| - 1);
      && After(ctx, txs, |txs|).Ok? && PayoutExact(ctx, txs, a)
      && (i < |txs| && txs[i].amount > 0 ==> After(ctx, txs, i).Ok? && TransferExact(ctx, txs, i))
      && (Total(Run(oracle, blocks).value.accounts) < U64_MAX ==> RewardExact(ctx, txs))
  {
    hide After, Run, Execute, Total, Supply, StateBefore, PayoutExact, TransferExact, RewardExact, Writes;
    var height, b := |blocks| - 1, blocks[|blocks| - 1];
    var ctx := ContextOf(oracle, StateBefore(oracle, blocks), b, height);
    LastBlockRan(oracle, blocks);
    ExecutedWrites(oracle, StateBefore(oracle, blocks), b, height);
    PayoutsAreExact(ctx, b.txs, a);
    if i < |b.txs| && b.txs[i].amount > 0 {
      TransfersAreExact(ctx, b.txs, i);
    }
    if Total(Run(oracle, blocks).value.accounts) < U64_MAX {
      RewardIsExact(ctx, b.txs);
    }
  }

  /** Before every block of the run the money is below 2^64 - 1, so no spend check saturates. */
  ghost predicate TotalsFit(oracle: Oracle, blocks: seq<Block>) {
    forall n :: 0 <= n < |blocks| ==>
      Run(oracle, blocks[..n]).Some? && Total(Run(oracle, blocks[..n]).value.accounts) < U64_MAX
  }

  /** Without coinbase fees the totals fit, at the tip too. */
  lemma FeeFreeFits(oracle: Oracle, blocks: seq<Block>)
    requires Run(oracle, blocks).Some? && FeeFree(blocks)
    ensures TotalsFit(oracle, blocks) && Total(Run(oracle, blocks).value.accounts) < U64_MAX
  {
    hide Run, SupplyAfter, Total, CoinbaseFee;
    RunConserves(oracle, blocks);
    forall n | 0 <= n < |blocks|
      ensures Run(oracle, blocks[..n]).Some? && Total(Run(oracle, blocks[..n]).value.accounts) < U64_MAX
    {
      ConservedPrefix(oracle, blocks, n);
      SupplyAfterStep(n);
    }
  }

  lemma TotalsFitBefore(oracle: Oracle, blocks: seq<Block>)
    requires blocks != [] && Run(oracle, blocks).Some? && TotalsFit(oracle, blocks)
    ensures TotalsFit(oracle, blocks[..|blocks| - 1]) && Total(StateBefore(oracle, blocks).accounts) < U64_MAX
  {
    hide Run, Total;
    var before := blocks[..|blocks| - 1];
    forall n | 0 <= n < |before|
      ensures Run(oracle, before[..n]).Some? && Total(Run(oracle, before[..n]).value.accounts) < U64_MAX
    {
      assert before[..n] == blocks[..n];
    }
  }

  /** A coinbase fee breaks the supply equation at its block, if an earlier block has not. */
  lemma FeeBreaksConservation(oracle: Oracle, blocks: seq<Block>)
    requires blocks != [] && Run(oracle, blocks).Some?
    requires CoinbaseFee(blocks[|blocks| - 1].txs) != 0
    requires Total(StateBefore(oracle, blocks).accounts) == SupplyAfter(|blocks| - 1)
    ensures Total(Run(oracle, blocks).value.accounts) != SupplyAfter(|blocks|)
  {
    hide Run, Execute, StateBefore, Supply, BlockReward, Total;
    var height := |blocks| - 1;
    LastBlockRan(oracle, blocks);
    SupplyAfterStep(height);
    BlockConserves(oracle, StateBefore(oracle, blocks), blocks[height], height);
  }

  /** The supply equation holds after each of the first blocks. */
  ghost predicate ConservesThroughout(oracle: Oracle, blocks: seq<Block>) {
    forall n :: 0 <= n <= |blocks| ==>
      Run(oracle, blocks[..n]).Some? && Total(Run(oracle, blocks[..n]).value.accounts) == SupplyAfter(n)
  }

  /** Exactly which runs conserve money at every block: those whose coinbases carry no fee. */
  lemma RunConservesIff(oracle: Oracle, blocks: seq<Block>)
    requires Run(oracle, blocks).Some?
    ensures ConservesThroughout(oracle, blocks) <==> FeeFree(blocks)
  {
    hide Run, SupplyAfter, Total, CoinbaseFee;
    if FeeFree(blocks) {
      forall n | 0 <= n <= |blocks|
        ensures Run(oracle, blocks[..n]).Some? && Total(Run(oracle, blocks[..n]).value.accounts) == SupplyAfter(n)
      {
        ConservedPrefix(oracle, blocks, n);
      }
    } else {
      var i :| 0 <= i < |blocks| && CoinbaseFee(blocks[i].txs) != 0;
      FeeAt(oracle, blocks, i);
    }
  }

  lemma ConservedPrefix(oracle: Oracle, blocks: seq<Block>, n: nat)
    requires Run(oracle, blocks).Some? && FeeFree(blocks) && n <= |blocks|
    ensures Run(oracle, blocks[..n]).Some? && Total(Run(oracle, blocks[..n]).value.accounts) == SupplyAfter(n)
  {
    hide Run, Supply, Total, CoinbaseFee;
    RunPrefix(oracle, blocks, n);
    RunConserves(oracle, blocks[..n]);
  }

  lemma FeeAt(oracle: Oracle, blocks: seq<Block>, i: nat)
    requires Run(oracle, blocks).Some? && i < |blocks| && CoinbaseFee(blocks[i].txs) != 0
    ensures !ConservesThroughout(oracle, blocks)
  {
    hide Run, Supply, Total, CoinbaseFee, Execute, Commit;
    var upTo := blocks[..i + 1];
    RunPrefix(oracle, blocks, i + 1);
    LastBlockRan(oracle, upTo);
    assert upTo[..i] == blocks[..i];
    if ConservesThroughout(oracle, blocks) {
      assert Total(Run(oracle, blocks[..i]).value.accounts) == SupplyAfter(i);
      FeeBreaksConservation(oracle, upTo);
    }
  }

  /** The largest volume a gate can still see bounds what an accepted block may charge its coinbase. */
  lemma VisibleVolumeMeansNoFee(oracle: Oracle, s: State, b: Block, height: nat)
    requires Total(s.accounts) <= TOTAL_SUPPLY
    requires Execute(oracle, s, b.txs, b.minerAddress, b.parentHash, height, false).Ok?
    requires After(ContextOf(oracle, s, b, height), b.txs, |b.txs|).Ok?
    requires TallyAfter(ContextOf(oracle, s, b, height), b.txs, |b.txs|).volume < U64_MAX
    ensures CoinbaseFee(b.txs) == 0
  {
    GateExact(ContextOf(oracle, s, b, height), b.txs);
  }

  lemma {:induction false} RunPrefix(oracle: Oracle, blocks: seq<Block>, n: nat)
    requires Run(oracle, blocks).Some? && n <= |blocks|
    ensures Run(oracle, blocks[..n]).Some?
  {
    if n < |blocks| {
      var height := |blocks| - 1;
      RunPrefix(oracle, blocks[..height], n);
      assert blocks[..height][..n] == blocks[..n];
    } else {
      assert blocks[..n] == blocks;
    }
  }
}
