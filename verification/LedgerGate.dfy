/**
A run the conservation gate cannot see through.

The gate compares three saturating counters, so a block that moves 2^64 - 1 VNT or more reads
the same on both sides whatever its coinbase fee. This file exhibits such a block at the end of
a run from the empty ledger: 106 empty blocks give an owner a hundred matured rewards of
10 000 GO, and block 106 sends 995 000 GO from the owner to itself 185 400 times. Encoded, the
block stays below the 36 MiB a node reads of a block response.
*/
module LedgerGate {
  import opened Emission
  import opened Ledger
  import opened LedgerHistory
  import opened LedgerMoney
  import opened LedgerNonces
  import opened LedgerRuns
  import opened Machine
  import opened Varint
  import opened Wrappers

  const OWNER: Bytes :=
    [1, 0, 0, 0, 0, 0, 0, 0, 0, 0, 0, 0, 0, 0, 0, 0, 0, 0, 0, 0, 0, 0, 0, 0, 0, 0, 0, 0, 0, 0, 0, 0]
  const MINER: Bytes :=
    [2, 0, 0, 0, 0, 0, 0, 0, 0, 0, 0, 0, 0, 0, 0, 0, 0, 0, 0, 0, 0, 0, 0, 0, 0, 0, 0, 0, 0, 0, 0, 0]
  const SIGNATURE := ZERO32 + ZERO32
  const AMOUNT: u64 := 99_500_000_000_000
  const FEE: u64 := 250
  const EMPTY_BLOCKS: nat := 106
  const MATURED: nat := 100
  const SAVINGS: u64 := 100_000_000_000_000
  const FEWEST: nat := 185_400
  const MOST: nat := 190_000
  const RESPONSE_LIMIT := 36 * 1024 * 1024

  function OpenOracle(): Oracle {
    Oracle(tx => ZERO32, (key, message, signature) => true, (s, writes, height) => ZERO32)
  }

  // ----- the empty blocks

  function EmptyBlock(): Block {
    Block([], OWNER, ZERO32, ZERO32)
  }

  function EmptyBlocks(k: nat): seq<Block> {
    if k == 0 then [] else EmptyBlocks(k - 1) + [EmptyBlock()]
  }

  lemma {:induction false} EmptyBlocksShape(k: nat)
    ensures |EmptyBlocks(k)| == k && forall i :: 0 <= i < k ==> EmptyBlocks(k)[i] == EmptyBlock()
    ensures k > 0 ==> EmptyBlocks(k)[..k - 1] == EmptyBlocks(k - 1)
  {
    if k > 0 { EmptyBlocksShape(k - 1); }
  }

  lemma EmptyBlockRuns(s: State, height: nat)
    requires height > 0 ==> height - 1 in s.blockHashes && s.blockHashes[height - 1] == ZERO32
    ensures Execute(OpenOracle(), s, [], OWNER, ZERO32, height, false).Ok?
    ensures After(ContextOf(OpenOracle(), s, EmptyBlock(), height), [], 0) == Ok(START)
  {
    hide Writes;
  }

  lemma OneMoreRun(oracle: Oracle, blocks: seq<Block>)
    requires blocks != [] && Run(oracle, blocks[..|blocks| - 1]).Some?
    requires
      var b := blocks[|blocks| - 1];
      Execute(oracle, Run(oracle, blocks[..|blocks| - 1]).value, b.txs, b.minerAddress, b.parentHash, |blocks| - 1, false).Ok?
    ensures Run(oracle, blocks).Some?
    ensures |blocks| - 1 in Run(oracle, blocks).value.blockHashes
    ensures Run(oracle, blocks).value.blockHashes[|blocks| - 1] == blocks[|blocks| - 1].hash
  {
    hide Execute;
  }

  lemma {:induction false} EmptyBlocksRun(k: nat)
    ensures Run(OpenOracle(), EmptyBlocks(k)).Some? && FeeFree(EmptyBlocks(k))
    ensures k > 0 ==>
              k - 1 in Run(OpenOracle(), EmptyBlocks(k)).value.blockHashes &&
              Run(OpenOracle(), EmptyBlocks(k)).value.blockHashes[k - 1] == ZERO32
  {
    hide Execute, EmptyBlocks, OpenOracle, After, ContextOf;
    EmptyBlocksShape(k);
    if k > 0 {
      hide Run;
      EmptyBlocksRun(k - 1);
      EmptyBlockRuns(Run(OpenOracle(), EmptyBlocks(k - 1)).value, k - 1);
      OneMoreRun(OpenOracle(), EmptyBlocks(k));
    }
  }

  lemma ScheduledNext(k: nat)
    requires 1 <= k <= EMPTY_BLOCKS && Run(OpenOracle(), EmptyBlocks(k)).Some?
    ensures Run(OpenOracle(), EmptyBlocks(k - 1)).Some?
    ensures Scheduled(OpenOracle(), EmptyBlocks(k), OWNER) ==
            Scheduled(OpenOracle(), EmptyBlocks(k - 1), OWNER) +
            [MaturingReward(BlockReward(k - 1), k - 1 + MATURITY)]
  {
    hide Run, StateBefore, After, RewardOf, EmptyBlocks, BlockReward;
    var blocks := EmptyBlocks(k);
    EmptyBlocksShape(k);
    LastBlockRan(OpenOracle(), blocks);
    OwnerReward(StateBefore(OpenOracle(), blocks), k - 1);
  }

  /** Of the rewards of the empty blocks those of the first hundred are due at the last of them. */
  lemma {:induction false} RewardsDue(k: nat)
    requires k <= EMPTY_BLOCKS && Run(OpenOracle(), EmptyBlocks(k)).Some?
    ensures Due(Scheduled(OpenOracle(), EmptyBlocks(k), OWNER), EMPTY_BLOCKS - 1) == Min(k, MATURED) * REWARD_PHASE0
    decreases k
  {
    hide Run, Due, Scheduled, EmptyBlocks;
    if k == 0 {
      NothingScheduled();
    } else {
      ScheduledNext(k);
      RewardsDue(k - 1);
      OneMore(Scheduled(OpenOracle(), EmptyBlocks(k - 1), OWNER), MaturingReward(BlockReward(k - 1), k - 1 + MATURITY),
              EMPTY_BLOCKS - 1);
    }
  }

  lemma OwnerReward(s: State, height: nat)
    requires After(ContextOf(OpenOracle(), s, EmptyBlock(), height), [], 0).Ok?
    ensures RewardOf(OpenOracle(), s, EmptyBlock(), height) == MaturingReward(BlockReward(height), height + MATURITY)
  {
    hide BlockReward;
    RewardFitsU64(height);
  }

  lemma NothingScheduled()
    ensures EmptyBlocks(0) == [] && Scheduled(OpenOracle(), [], OWNER) == [] && Due([], EMPTY_BLOCKS - 1) == 0
  {
  }

  lemma {:induction false} NothingMoved(k: nat)
    requires Run(OpenOracle(), EmptyBlocks(k)).Some?
    ensures SpentInRun(OpenOracle(), EmptyBlocks(k), OWNER) == 0 && ReceivedInRun(EmptyBlocks(k), OWNER) == 0
    ensures SentInRun(EmptyBlocks(k), OWNER) == []
  {
    hide Run, StateBefore, After;
    EmptyBlocksShape(k);
    if k > 0 {
      EmptyBlocksRun(k - 1);
      LastBlockRan(OpenOracle(), EmptyBlocks(k));
      NothingMoved(k - 1);
    }
  }

  /** After the empty blocks the owner can spend a hundred rewards, and has sent nothing. */
  lemma OwnerBalance()
    ensures Run(OpenOracle(), EmptyBlocks(EMPTY_BLOCKS)).Some?
    ensures
      var s := Run(OpenOracle(), EmptyBlocks(EMPTY_BLOCKS)).value;
      && ReadAccount(s, OWNER).balance == SAVINGS && ReadAccount(s, OWNER).nonce == 0
      && EMPTY_BLOCKS - 1 in s.blockHashes && s.blockHashes[EMPTY_BLOCKS - 1] == ZERO32
      && Total(s.accounts) <= TOTAL_SUPPLY
  {
    hide Run, ReadAccount, EmptyBlocks, Due, Total, Scheduled, SpentInRun, ReceivedInRun, SentInRun, TotalsFit, SupplyAfter, FeeFree;
    EmptyBlocksRun(EMPTY_BLOCKS);
    EmptyBlocksShape(EMPTY_BLOCKS);
    RunConserves(OpenOracle(), EmptyBlocks(EMPTY_BLOCKS));
    FeeFreeFits(OpenOracle(), EmptyBlocks(EMPTY_BLOCKS));
    AccountInRun(OpenOracle(), EmptyBlocks(EMPTY_BLOCKS), OWNER);
    NoncesInRun(OpenOracle(), EmptyBlocks(EMPTY_BLOCKS), OWNER);
    NothingMoved(EMPTY_BLOCKS);
    RewardsDue(EMPTY_BLOCKS);
  }

  // ----- the block

  function SelfTransfer(nonce: u64): Tx {
    Tx(OWNER, OWNER, AMOUNT, FEE, nonce, 0, ZERO32, Some(SIGNATURE))
  }

  /** A coinbase that carries a fee of 1, then n transfers from the owner to itself. */
  function GateTxs(n: nat): seq<Tx>
    requires n <= MOST
  {
    [Tx([], MINER, 0, 1, 0, 0, [], None)] + seq(n, i requires 0 <= i <= MOST => SelfTransfer(i))
  }

  function GateBlock(n: nat): Block
    requires n <= MOST
  {
    Block(GateTxs(n), MINER, ZERO32, ZERO32)
  }

  // ----- its size on the wire

  /** A length-delimited field with a one-byte tag, and a number, which is left out when zero. */
  function RecordSize(length: nat): nat {
    if length == 0 then 0 else 1 + |Encode(length)| + length
  }

  function NumberSize(v: nat): nat {
    if v == 0 then 0 else 1 + |Encode(v)|
  }

  /** Addresses and signature are messages of one field; version and chain id are zero here. */
  function TxSize(tx: Tx): nat {
    RecordSize(RecordSize(|tx.sender|)) + RecordSize(RecordSize(|tx.receiver|)) +
    NumberSize(tx.amount) + NumberSize(tx.fee) + NumberSize(tx.nonce) + NumberSize(tx.timestamp) +
    RecordSize(|tx.recentBlockHash|) +
    (if tx.signature.Some? then RecordSize(RecordSize(|tx.signature.value|)) else 0)
  }

  function BodySize(txs: seq<Tx>, n: nat): nat
    requires n <= |txs|
  {
    if n == 0 then 0 else BodySize(txs, n - 1) + RecordSize(TxSize(txs[n - 1]))
  }

  lemma ShortNumbers(v: nat)
    ensures v < 128 ==> |Encode(v)| == 1
    ensures v < 16_384 ==> |Encode(v)| <= 2
    ensures v < 2_097_152 ==> |Encode(v)| <= 3
    ensures v < 562_949_953_421_312 ==> |Encode(v)| <= 7
  {
    hide Encode;
    EncodeStep(v);
    assert Pow128(3) == 128 * Pow128(2) && Pow128(2) == 128 * Pow128(1) && Pow128(1) == 128 * Pow128(0);
    assert Pow128(7) == 128 * Pow128(6) && Pow128(6) == 128 * Pow128(5) && Pow128(5) == 128 * Pow128(4);
    assert Pow128(4) == 128 * Pow128(3);
    if v < 16_384 { EncodeShort(v, 2); }
    if v < 2_097_152 { EncodeShort(v, 3); }
    if v < 562_949_953_421_312 { EncodeShort(v, 7); }
    if v < 128 { EncodeShort(v, 1); }
  }

  lemma SelfTransferSize(nonce: nat)
    requires nonce <= MOST
    ensures RecordSize(TxSize(SelfTransfer(nonce))) <= 192
  {
    hide Encode;
    assert |SIGNATURE| == 64;
    ShortNumbers(32);
    ShortNumbers(34);
    ShortNumbers(64);
    ShortNumbers(66);
    ShortNumbers(AMOUNT);
    ShortNumbers(FEE);
    ShortNumbers(nonce);
    ShortNumbers(TxSize(SelfTransfer(nonce)));
  }

  lemma {:induction false} GateBodySize(n: nat, k: nat)
    requires k <= n <= MOST
    ensures |GateTxs(n)| == n + 1 && BodySize(GateTxs(n), k + 1) <= 64 + 192 * k
  {
    hide TxSize, RecordSize;
    if k == 0 {
      CoinbaseSize();
      assert BodySize(GateTxs(n), 0) == 0;
    } else {
      GateBodySize(n, k - 1);
      assert GateTxs(n)[k] == SelfTransfer(k - 1);
      SelfTransferSize(k - 1);
    }
  }

  lemma CoinbaseSize()
    ensures RecordSize(TxSize(Tx([], MINER, 0, 1, 0, 0, [], None))) <= 64
  {
    hide Encode;
    ShortNumbers(32);
    ShortNumbers(34);
    ShortNumbers(1);
    ShortNumbers(TxSize(Tx([], MINER, 0, 1, 0, 0, [], None)));
  }

  /** A context in which the owner holds a hundred rewards, has sent nothing, and names a recent block. */
  ghost predicate Ready(ctx: Context) {
    && ctx.oracle == OpenOracle() && ctx.miner == MINER && !ctx.simulation && ZERO32 in RecentHashes(ctx.state, ctx.height)
    && ReadAccount(ctx.state, OWNER).balance == SAVINGS && ReadAccount(ctx.state, OWNER).nonce == 0
  }

  /** The owner after k transfers to itself. */
  function OwnerAfter(ctx: Context, k: nat): Account
    requires k <= MOST && SAVINGS <= ReadAccount(ctx.state, OWNER).balance
  {
    var a := ReadAccount(ctx.state, OWNER);
    a.(balance := a.balance - FEE * k, nonce := k)
  }

  lemma CoinbaseAccepted(ctx: Context, txs: seq<Tx>)
    requires Ready(ctx) && |txs| > 0 && txs[0] == Tx([], MINER, 0, 1, 0, 0, [], None)
    ensures After(ctx, txs, 1).Ok? && TallyAfter(ctx, txs, 1) == Tally(0, 0)
    ensures View(ctx, After(ctx, txs, 1).value.changed, OWNER) == OwnerAfter(ctx, 0)
  {
    hide ReadAccount;
    assert After(ctx, txs, 0) == Ok(START);
  }

  lemma TransferAccepted(ctx: Context, index: nat, nonce: nat, p: Progress)
    requires Ready(ctx) && index > 0 && nonce < MOST
    requires View(ctx, p.changed, OWNER) == OwnerAfter(ctx, nonce)
    ensures Judge(ctx, index, SelfTransfer(nonce), p.changed) == None
    ensures SpendOf(ctx, SelfTransfer(nonce), p) == AMOUNT + FEE
    ensures View(ctx, Apply(ctx, index, SelfTransfer(nonce), p).changed, OWNER) == OwnerAfter(ctx, nonce + 1)
  {
    hide ReadAccount, RecentHashes;
    assert |SIGNATURE| == 64;
  }

  lemma {:induction false} TransfersAccepted(ctx: Context, n: nat, k: nat)
    requires Ready(ctx) && k <= n <= MOST
    ensures |GateTxs(n)| == n + 1 && After(ctx, GateTxs(n), k + 1).Ok?
    ensures View(ctx, After(ctx, GateTxs(n), k + 1).value.changed, OWNER) == OwnerAfter(ctx, k)
    ensures TallyAfter(ctx, GateTxs(n), k + 1).volume == k * (AMOUNT + FEE)
  {
    hide View, Judge, Apply, SpendOf, ReadAccount;
    var txs := GateTxs(n);
    if k == 0 {
      CoinbaseAccepted(ctx, txs);
    } else {
      TransfersAccepted(ctx, n, k - 1);
      assert txs[k] == SelfTransfer(k - 1);
      TransferAccepted(ctx, k, k - 1, After(ctx, txs, k).value);
    }
  }

  lemma GateBlockRuns(s: State, n: nat)
    requires FEWEST <= n <= MOST && Total(s.accounts) <= TOTAL_SUPPLY
    requires ReadAccount(s, OWNER).balance == SAVINGS && ReadAccount(s, OWNER).nonce == 0
    requires EMPTY_BLOCKS - 1 in s.blockHashes && s.blockHashes[EMPTY_BLOCKS - 1] == ZERO32
    ensures Execute(OpenOracle(), s, GateTxs(n), MINER, ZERO32, EMPTY_BLOCKS, false).Ok?
    ensures CoinbaseFee(GateTxs(n)) == 1
  {
    hide After, Writes, View, Total, ReadAccount, TallyAfter, GatePasses;
    var ctx := ContextOf(OpenOracle(), s, GateBlock(n), EMPTY_BLOCKS);
    assert AddressOf(MINER) == MINER;
    assert s.blockHashes[EMPTY_BLOCKS - 1] in RecentHashes(s, EMPTY_BLOCKS);
    TransfersAccepted(ctx, n, n);
    GateExact(ctx, GateTxs(n));
  }

  function GateRun(n: nat): seq<Block>
    requires n <= MOST
  {
    EmptyBlocks(EMPTY_BLOCKS) + [GateBlock(n)]
  }

  /**
  The gate is blind on runs from the empty ledger: the run is accepted although its last block
  carries a coinbase fee, and the money in the ledger then exceeds the rewards paid out. The
  body of that block is at least 4096 bytes below what a node reads of a block response.
  */
  lemma GateIsBlind(n: nat)
    requires FEWEST <= n <= MOST
    ensures Run(OpenOracle(), GateRun(n)).Some? && !FeeFree(GateRun(n))
    ensures Total(Run(OpenOracle(), GateRun(n)).value.accounts) > SupplyAfter(|GateRun(n)|)
    ensures |GateTxs(n)| == n + 1 && BodySize(GateTxs(n), n + 1) + 4096 <= RESPONSE_LIMIT
  {
    hide Execute, Total, ReadAccount, GateTxs, EmptyBlocks, SupplyAfter, CoinbaseFee, BodySize;
    GateBodySize(n, n);
    OwnerBalance();
    EmptyBlocksShape(EMPTY_BLOCKS);
    EmptyBlocksRun(EMPTY_BLOCKS);
    var blocks, before := GateRun(n), EmptyBlocks(EMPTY_BLOCKS);
    var s := Run(OpenOracle(), before).value;
    assert blocks[..EMPTY_BLOCKS] == before && blocks[EMPTY_BLOCKS] == GateBlock(n);
    GateBlockRuns(s, n);
    BlockConserves(OpenOracle(), s, GateBlock(n), EMPTY_BLOCKS);
    RunConserves(OpenOracle(), before);
    SupplyAfterStep(EMPTY_BLOCKS);
  }
}
