/**
The block executor as the node runs it: a state manager whose fields are overwritten by
each committed block, and an execution loop over a write-back account cache. Every
method is proved equal to the functions of module `Ledger`.
*/
module LedgerNode {
  import opened Emission
  import opened Ledger
  import opened LedgerRules
  import opened Machine
  import opened Wrappers

  /** Two overlays that show the same account at every address. */
  ghost predicate SameView(ctx: Context, cache: map<Bytes, Account>, changed: map<Bytes, Account>) {
    forall a :: View(ctx, cache, a) == View(ctx, changed, a)
  }

  /** `entry(a).or_insert_with(...)`: load into the cache what the database shows. */
  function Load(ctx: Context, cache: map<Bytes, Account>, a: Bytes): (loaded: map<Bytes, Account>)
    ensures SameView(ctx, loaded, cache) && a in loaded
  {
    if a in cache then cache else cache[a := ReadAccount(ctx.state, a)]
  }

  /** The miner, unless it is the zero address, and every well-formed sender and receiver. */
  function Touched(ctx: Context, txs: seq<Tx>): set<Bytes> {
    (if ctx.miner != ZERO32 then {ctx.miner} else {}) +
    (set tx | tx in txs && |tx.sender| == 32 :: tx.sender) +
    (set tx | tx in txs && |tx.receiver| == 32 :: tx.receiver)
  }

  /** All states of the touched addresses, read before the first transaction runs. */
  method Prefetch(ctx: Context, txs: seq<Tx>) returns (cache: map<Bytes, Account>)
    ensures cache.Keys == Touched(ctx, txs)
    ensures forall a :: a in cache ==> cache[a] == ReadAccount(ctx.state, a)
    ensures SameView(ctx, cache, map[])
  {
    hide ReadAccount;
    var touched: set<Bytes> := if ctx.miner != ZERO32 then {ctx.miner} else {};
    for i := 0 to |txs|
      invariant touched == Touched(ctx, txs[..i])
    {
      assert txs[..i + 1] == txs[..i] + [txs[i]];
      if |txs[i].sender| == 32 {
        touched := touched + {txs[i].sender};
      }
      if |txs[i].receiver| == 32 {
        touched := touched + {txs[i].receiver};
      }
    }
    assert txs[..|txs|] == txs;
    cache := map a | a in touched :: ReadAccount(ctx.state, a);
  }

  /** The hashes of the last 100 blocks, for the replay check. */
  method LoadRecentHashes(s: State, height: nat) returns (recent: set<Bytes>)
    ensures recent == RecentHashes(s, height)
  {
    recent := {};
    var start := if height >= RECENT_WINDOW then height - RECENT_WINDOW else 0;
    for h := start to height
      invariant recent == set k | k in s.blockHashes && start <= k < h :: s.blockHashes[k]
    {
      if h in s.blockHashes {
        recent := recent + {s.blockHashes[h]};
      }
    }
  }

  method PrecheckAll(ctx: Context, txs: seq<Tx>) returns (early: seq<Option<Reason>>)
    ensures |early| == |txs| && forall i :: 0 <= i < |txs| ==> early[i] == Precheck(ctx, i, txs[i])
  {
    early := [];
    for i := 0 to |txs|
      invariant |early| == i && forall k :: 0 <= k < i ==> early[k] == Precheck(ctx, k, txs[k])
    {
      early := early + [Precheck(ctx, i, txs[i])];
    }
  }

  /** The reason to reject a transaction in the sequential phase, read off the cache. */
  method JudgeFromCache(ctx: Context, index: nat, tx: Tx, early: Option<Reason>, recent: set<Bytes>,
                        cache: map<Bytes, Account>, ghost changed: map<Bytes, Account>)
    returns (verdict: Option<Reason>, loaded: map<Bytes, Account>)
    requires early == Precheck(ctx, index, tx) && recent == RecentHashes(ctx.state, ctx.height)
    requires SameView(ctx, cache, changed)
    ensures verdict == Judge(ctx, index, tx, changed)
    ensures SameView(ctx, loaded, changed)
  {
    loaded := cache;
    if early.Some? {
      return early, loaded;
    }
    if index == 0 && AddressOf(tx.receiver) != ctx.miner {
      return Some(CoinbaseReceiverMismatch), loaded;
    }
    if tx.amount > 0 && ctx.height >= REPLAY_CHECK_FROM {
      if |tx.recentBlockHash| == 32 {
        if tx.recentBlockHash !in recent {
          return Some(OutdatedRecentHash), loaded;
        }
      } else {
        return Some(MissingRecentHash), loaded;
      }
    }
    if tx.amount > 0 {
      loaded := Load(ctx, loaded, AddressOf(tx.receiver));
      assert View(ctx, loaded, AddressOf(tx.receiver)) == View(ctx, changed, AddressOf(tx.receiver));
      var creationFee := CreationFee(loaded[AddressOf(tx.receiver)]);
      loaded := Load(ctx, loaded, AddressOf(tx.sender));
      assert View(ctx, loaded, AddressOf(tx.sender)) == View(ctx, changed, AddressOf(tx.sender));
      var sender := loaded[AddressOf(tx.sender)];
      if tx.nonce != sender.nonce {
        return Some(NonceMismatch), loaded;
      }
      if !IsValidFee(tx.fee) {
        return Some(InvalidFee), loaded;
      }
      if sender.balance < SatAdd64(SatAdd64(tx.amount, tx.fee), creationFee) {
        return Some(InsufficientBalance), loaded;
      }
    }
    verdict := None;
  }

  /** Updating one account keeps two overlays equal. */
  lemma PutBoth(ctx: Context, cache: map<Bytes, Account>, changed: map<Bytes, Account>, a: Bytes, x: Account)
    requires SameView(ctx, cache, changed)
    ensures SameView(ctx, cache[a := x], changed[a := x])
  {
    var cache', changed' := cache[a := x], changed[a := x];
    forall b ensures View(ctx, cache', b) == View(ctx, changed', b) {
      assert View(ctx, cache, b) == View(ctx, changed, b);
    }
  }

  /** The account updates of one accepted transaction, written to the cache. */
  method ApplyToCache(ctx: Context, index: nat, tx: Tx, cache: map<Bytes, Account>, ghost p: Progress)
    returns (updated: map<Bytes, Account>, spend: u64, creationFee: u64)
    requires SameView(ctx, cache, p.changed)
    ensures SameView(ctx, updated, Apply(ctx, index, tx, p).changed)
    ensures creationFee == (if tx.amount > 0 then CreationFee(View(ctx, p.changed, AddressOf(tx.receiver))) else 0)
    ensures spend == if tx.amount > 0 then TotalSpend(tx, creationFee) else 0
  {
    var sender, receiver := AddressOf(tx.sender), AddressOf(tx.receiver);
    updated, spend, creationFee := cache, 0, 0;
    ghost var changed := p.changed;
    if tx.amount > 0 {
      updated := Load(ctx, updated, receiver);
      assert View(ctx, updated, receiver) == View(ctx, changed, receiver);
      creationFee := CreationFee(updated[receiver]);
      spend := SatAdd64(SatAdd64(tx.amount, tx.fee), creationFee);
      updated := Load(ctx, updated, sender);
      assert View(ctx, updated, sender) == View(ctx, changed, sender);
      var debited := Debit(updated[sender], spend);
      PutBoth(ctx, updated, changed, sender, debited);
      updated, changed := updated[sender := debited], changed[sender := debited];
    }
    updated := Load(ctx, updated, receiver);
    assert View(ctx, updated, receiver) == View(ctx, changed, receiver);
    var credited := Credit(updated[receiver], if index == 0 then 0 else tx.amount);
    PutBoth(ctx, updated, changed, receiver, credited);
    updated := updated[receiver := credited];
  }

  /** Reward, gate, maturity: the end of the block. */
  method FinishFromCache(ctx: Context, cache: map<Bytes, Account>, totalFees: u64, deducted: u64, credited: u64,
                         touched: set<Bytes>, hashes: seq<Bytes>, kept: seq<Tx>, ghost p: Progress)
    returns (r: Result<Execution, BlockError>)
    requires SameView(ctx, cache, p.changed)
    requires p == Progress(p.changed, totalFees, deducted, credited, touched, hashes, kept)
    ensures r == Finish(ctx, p)
  {
    var minerReward := SatAdd64(Reward(ctx.height), totalFees);
    var final := Load(ctx, cache, ctx.miner);
    assert View(ctx, final, ctx.miner) == View(ctx, p.changed, ctx.miner);
    var scheduled := Schedule(final[ctx.miner], minerReward, ctx.height);
    PutBoth(ctx, final, p.changed, ctx.miner, scheduled);
    final := final[ctx.miner := scheduled];
    if deducted != SatAdd64(credited, totalFees) {
      return Err(BlockError(ConservationViolation, -1));
    }
    var supply := ExpectedSupply(ctx.height);
    var writes := map a | a in touched + {ctx.miner} :: Mature(View(ctx, final, a), ctx.height);
    assert writes == Writes(ctx, p);
    r := Ok(Execution(writes, ctx.oracle.stateRoot(ctx.state, writes, ctx.height), hashes, kept, supply));
  }

  lemma RecordedSupply(oracle: Oracle, s: State, txs: seq<Tx>, minerAddress: Bytes, parentHash: Bytes,
                       height: nat, simulation: bool)
    requires Execute(oracle, s, txs, minerAddress, parentHash, height, simulation).Ok?
    ensures Execute(oracle, s, txs, minerAddress, parentHash, height, simulation).value.supply == Supply(height)
  {
    hide After, Writes, Supply;
  }

  class StateManager {
    var accounts: map<Bytes, Account>
    var blockHashes: map<nat, Bytes>
    var version: nat
    var actualSupply: nat

    constructor ()
      ensures Snapshot() == State(map[], map[], 0) && actualSupply == 0
    {
      accounts, blockHashes, version, actualSupply := map[], map[], 0, 0;
    }

    function Snapshot(): State
      reads this
    {
      State(accounts, blockHashes, version)
    }

    /** `execute_block_internal`. */
    method ExecuteBlockInternal(oracle: Oracle, txs: seq<Tx>, minerAddress: Bytes, parentHash: Bytes,
                                height: nat, simulation: bool)
      returns (r: Result<Execution, BlockError>)
      ensures r == Execute(oracle, Snapshot(), txs, minerAddress, parentHash, height, simulation)
    {
      hide Judge, Precheck, View, Finish;
      if height > 0 {
        if |parentHash| != 32 {
          return Err(BlockError(BadParentHashLength, -1));
        }
        if height - 1 !in blockHashes {
          return Err(BlockError(ParentNotFound, -1));
        }
        if blockHashes[height - 1] != parentHash {
          return Err(BlockError(ParentHashMismatch, -1));
        }
      }
      var ctx := Context(oracle, Snapshot(), AddressOf(minerAddress), height, simulation);
      var cache := Prefetch(ctx, txs);
      var recent := LoadRecentHashes(ctx.state, height);
      var early := PrecheckAll(ctx, txs);

      var totalFees: u64, deducted: u64, credited: u64 := 0, 0, 0;
      var touched: set<Bytes> := {};
      var hashes: seq<Bytes>, kept: seq<Tx> := [], [];
      ghost var p := START;
      for i := 0 to |txs|
        invariant After(ctx, txs, i) == Ok(p)
        invariant SameView(ctx, cache, p.changed)
        invariant p == Progress(p.changed, totalFees, deducted, credited, touched, hashes, kept)
      {
        var tx := txs[i];
        var verdict, loaded := JudgeFromCache(ctx, i, tx, early[i], recent, cache, p.changed);
        cache := loaded;
        if verdict.Some? {
          if simulation {
            continue;
          }
          AfterFails(ctx, txs, i + 1);
          return Err(BlockError(verdict.value, i));
        }
        var updated, spend, creationFee := ApplyToCache(ctx, i, tx, cache, p);
        cache := updated;
        p := Apply(ctx, i, tx, p);
        var sender, receiver := AddressOf(tx.sender), AddressOf(tx.receiver);
        deducted := SatAdd64(deducted, spend);
        credited := SatAdd64(credited, tx.amount);
        touched := touched + {receiver} + (if i > 0 then {sender} else {});
        totalFees := SatAdd64(SatAdd64(totalFees, tx.fee), creationFee);
        hashes := hashes + [oracle.signingHash(tx)];
        kept := kept + [tx];
      }

      r := FinishFromCache(ctx, cache, totalFees, deducted, credited, touched, hashes, kept, p);
    }

    /** `execute_block_transactions`: a real run commits accounts, version and supply. */
    method ExecuteBlockTransactions(oracle: Oracle, txs: seq<Tx>, minerAddress: Bytes, parentHash: Bytes,
                                    height: nat, simulation: bool)
      returns (r: Result<Execution, BlockError>)
      modifies this
      ensures r == Execute(oracle, old(Snapshot()), txs, minerAddress, parentHash, height, simulation)
      ensures blockHashes == old(blockHashes)
      ensures r.Ok? && !simulation ==>
        accounts == old(accounts) + r.value.writes && version == height && actualSupply == r.value.supply
      ensures r.Err? || simulation ==> Snapshot() == old(Snapshot()) && actualSupply == old(actualSupply)
    {
      hide Execute;
      r := ExecuteBlockInternal(oracle, txs, minerAddress, parentHash, height, simulation);
      if r.Ok? && !simulation {
        accounts := accounts + r.value.writes;
        version := height;
        actualSupply := r.value.supply;
      }
    }

    /** The ledger part of accepting a block: execute for real, then record its hash. */
    method AcceptBlock(oracle: Oracle, txs: seq<Tx>, minerAddress: Bytes, parentHash: Bytes,
                       height: nat, blockHash: Bytes) returns (ok: bool)
      modifies this
      ensures var e := Execute(oracle, old(Snapshot()), txs, minerAddress, parentHash, height, false);
        ok == e.Ok? &&
        if ok then Snapshot() == Commit(old(Snapshot()), e.value, height, blockHash) && actualSupply == Supply(height)
        else Snapshot() == old(Snapshot()) && actualSupply == old(actualSupply)
      ensures ok ==> forall i :: 0 < i < |txs| ==> SignedBySender(oracle, txs[i])
      ensures ok ==> ParentConditions(old(Snapshot()), parentHash, height)
    {
      hide Execute, Supply, SignedBySender;
      var r := ExecuteBlockTransactions(oracle, txs, minerAddress, parentHash, height, false);
      ok := r.Ok?;
      if ok {
        RecordedSupply(oracle, old(Snapshot()), txs, minerAddress, parentHash, height, false);
        AcceptedIff(oracle, old(Snapshot()), txs, minerAddress, parentHash, height);
        forall i | 0 < i < |txs| ensures SignedBySender(oracle, txs[i]) {
          AcceptedIsSigned(oracle, old(Snapshot()), txs, minerAddress, parentHash, height, i);
        }
        blockHashes := blockHashes[height := blockHash];
      }
    }
  }

  /** A real run that fails at one transaction fails as a whole. */
  lemma {:induction false} AfterFails(ctx: Context, txs: seq<Tx>, count: nat)
    requires count <= |txs| && After(ctx, txs, count).Err?
    ensures After(ctx, txs, |txs|) == After(ctx, txs, count)
    decreases |txs| - count
  {
    hide Judge, Apply;
    if count < |txs| {
      AfterFails(ctx, txs, count + 1);
    }
  }
}
