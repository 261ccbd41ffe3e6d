/**
What one block does to the ledger, as a function.

The functions follow the order of checks of the block executor: a transaction is judged
against the accounts as the earlier transactions of the block left them, a rejected one
fails the block (real mode) or is skipped (simulation), and the block ends with the
miner's reward, the conservation gate and the payout of matured rewards.
*/
module Ledger {
  import opened Emission
  import opened Machine
  import opened Wrappers

  const WALLET_CREATION_FEE: u64 := 1000
  const MATURITY := 6
  const RECENT_WINDOW := 100
  const REPLAY_CHECK_FROM := 15

  datatype MaturingReward = MaturingReward(amount: u64, height: nat)

  datatype Account = Account(balance: u64, nonce: u64, coinId: Bytes, maturing: seq<MaturingReward>)

  const FRESH := Account(0, 0, ZERO32, [])

  /** An absent sender or receiver is the empty byte string, as the decoder's default. */
  datatype Tx = Tx(
    sender: Bytes, receiver: Bytes, amount: u64, fee: u64, nonce: u64, timestamp: u64,
    recentBlockHash: Bytes, signature: Option<Bytes>)

  /** The committed state. Addresses and hashes are byte strings. */
  datatype State = State(accounts: map<Bytes, Account>, blockHashes: map<nat, Bytes>, version: nat)

  /** Library code the executor calls: signing hash, Ed25519 check, state-tree root. */
  datatype Oracle = Oracle(
    signingHash: Tx -> Bytes,
    verify: (Bytes, Bytes, Bytes) -> bool,
    stateRoot: (State, map<Bytes, Account>, nat) -> Bytes)

  datatype Reason =
    | BadParentHashLength | ParentNotFound | ParentHashMismatch
    | CoinbaseAmountNotZero | TransferAmountZero | BadAddressLength
    | BadSignatureLength | BadSignature | MissingSignature
    | CoinbaseReceiverMismatch | OutdatedRecentHash | MissingRecentHash
    | NonceMismatch | InvalidFee | InsufficientBalance | ConservationViolation

  datatype BlockError = BlockError(reason: Reason, txIndex: int)

  // ----- accounts and maturity

  /** The part of `rewards` that is due at `height`, added up as the source does. */
  function Payout(rewards: seq<MaturingReward>, height: nat): u64 {
    if rewards == [] then 0
    else
      var r := rewards[|rewards| - 1];
      var before := Payout(rewards[..|rewards| - 1], height);
      if r.height <= height then WrapAdd64(before, r.amount) else before
  }

  /** The rewards still waiting after `height`, in order. */
  function Waiting(rewards: seq<MaturingReward>, height: nat): seq<MaturingReward> {
    if rewards == [] then []
    else
      var r := rewards[|rewards| - 1];
      Waiting(rewards[..|rewards| - 1], height) + if r.height <= height then [] else [r]
  }

  function Mature(a: Account, height: nat): Account {
    a.(balance := SatAdd64(a.balance, Payout(a.maturing, height)),
       maturing := Waiting(a.maturing, height))
  }

  /** `get_account_state`: the stored account, with rewards due at the tip already paid. */
  function ReadAccount(s: State, address: Bytes): Account {
    Mature(if address in s.accounts then s.accounts[address] else FRESH, s.version)
  }

  // ----- one transaction

  datatype Context = Context(oracle: Oracle, state: State, miner: Bytes, height: nat, simulation: bool)

  function AddressOf(raw: Bytes): Bytes {
    if |raw| == 32 then raw else ZERO32
  }

  function View(ctx: Context, changed: map<Bytes, Account>, address: Bytes): Account {
    if address in changed then changed[address] else ReadAccount(ctx.state, address)
  }

  function RecentHashes(s: State, height: nat): set<Bytes> {
    set h | h in s.blockHashes && height - RECENT_WINDOW <= h < height :: s.blockHashes[h]
  }

  predicate IsNewWallet(a: Account) {
    a.balance == 0 && a.nonce == 0 && a.coinId == ZERO32 && a.maturing == []
  }

  predicate IsValidFee(fee: u64) {
    fee == 250 || fee == 500 || fee == 1000
  }

  /** Checks that need no account state; signatures are checked in real mode only. */
  function Precheck(ctx: Context, index: nat, tx: Tx): Option<Reason> {
    if index == 0 && tx.amount > 0 then Some(CoinbaseAmountNotZero)
    else if index > 0 && tx.amount == 0 then Some(TransferAmountZero)
    else if (tx.amount > 0 && |tx.sender| != 32) || |tx.receiver| != 32 then Some(BadAddressLength)
    else if ctx.simulation then None
    else
      match tx.signature
      case Some(sig) =>
        if |sig| != 64 then Some(BadSignatureLength)
        else if !ctx.oracle.verify(AddressOf(tx.sender), ctx.oracle.signingHash(tx), sig) then Some(BadSignature)
        else None
      case None => if tx.amount > 0 then Some(MissingSignature) else None
  }

  function CreationFee(receiver: Account): u64 {
    if IsNewWallet(receiver) then WALLET_CREATION_FEE else 0
  }

  function TotalSpend(tx: Tx, creationFee: u64): u64 {
    SatAdd64(SatAdd64(tx.amount, tx.fee), creationFee)
  }

  /** The sequential checks, in order; None when the transaction is executed. */
  function Judge(ctx: Context, index: nat, tx: Tx, changed: map<Bytes, Account>): Option<Reason> {
    var early := Precheck(ctx, index, tx);
    if early.Some? then early
    else if index == 0 && AddressOf(tx.receiver) != ctx.miner then Some(CoinbaseReceiverMismatch)
    else if tx.amount == 0 then None
    else if ctx.height >= REPLAY_CHECK_FROM && |tx.recentBlockHash| != 32 then Some(MissingRecentHash)
    else if ctx.height >= REPLAY_CHECK_FROM && tx.recentBlockHash !in RecentHashes(ctx.state, ctx.height) then
      Some(OutdatedRecentHash)
    else
      var sender := View(ctx, changed, AddressOf(tx.sender));
      var creationFee := CreationFee(View(ctx, changed, AddressOf(tx.receiver)));
      if tx.nonce != sender.nonce then Some(NonceMismatch)
      else if !IsValidFee(tx.fee) then Some(InvalidFee)
      else if sender.balance < TotalSpend(tx, creationFee) then Some(InsufficientBalance)
      else None
  }

  /** The executor's running variables. */
  datatype Progress = Progress(
    changed: map<Bytes, Account>, fees: u64, deducted: u64, credited: u64,
    touched: set<Bytes>, hashes: seq<Bytes>, kept: seq<Tx>)

  const START := Progress(map[], 0, 0, 0, {}, [], [])

  function Debit(a: Account, spend: u64): Account {
    a.(balance := SatSub64(a.balance, spend), nonce := WrapAdd64(a.nonce, 1))
  }

  function Credit(a: Account, amount: u64): Account {
    a.(balance := SatAdd64(a.balance, amount))
  }

  /** Executing an accepted transaction. Amount 0 (the coinbase) moves no money. */
  function Apply(ctx: Context, index: nat, tx: Tx, p: Progress): Progress {
    var sender, receiver := AddressOf(tx.sender), AddressOf(tx.receiver);
    var creationFee := if tx.amount > 0 then CreationFee(View(ctx, p.changed, receiver)) else 0;
    var spend := if tx.amount > 0 then TotalSpend(tx, creationFee) else 0;
    var debited :=
      if tx.amount > 0 then p.changed[sender := Debit(View(ctx, p.changed, sender), spend)] else p.changed;
    Progress(
      debited[receiver := Credit(View(ctx, debited, receiver), if index == 0 then 0 else tx.amount)],
      SatAdd64(SatAdd64(p.fees, tx.fee), creationFee),
      SatAdd64(p.deducted, spend),
      SatAdd64(p.credited, tx.amount),
      p.touched + {receiver} + (if index > 0 then {sender} else {}),
      p.hashes + [ctx.oracle.signingHash(tx)],
      p.kept + [tx])
  }

  /** The first `count` transactions of a block. */
  function After(ctx: Context, txs: seq<Tx>, count: nat): Result<Progress, BlockError>
    requires count <= |txs|
  {
    if count == 0 then Ok(START)
    else
      match After(ctx, txs, count - 1)
      case Err(e) => Err(e)
      case Ok(p) =>
        var tx := txs[count - 1];
        match Judge(ctx, count - 1, tx, p.changed)
        case None => Ok(Apply(ctx, count - 1, tx, p))
        case Some(reason) => if ctx.simulation then Ok(p) else Err(BlockError(reason, count - 1))
  }

  // ----- the whole block

  datatype Execution = Execution(
    writes: map<Bytes, Account>, root: Bytes, hashes: seq<Bytes>, kept: seq<Tx>, supply: nat)

  lemma RewardFitsU64(height: nat)
    ensures BlockReward(height) <= REWARD_PHASE0
  {
  }

  function Reward(height: nat): u64 {
    RewardFitsU64(height);
    BlockReward(height)
  }

  function Schedule(a: Account, amount: u64, height: nat): Account {
    a.(maturing := a.maturing + [MaturingReward(amount, height + MATURITY)])
  }

  predicate GatePasses(p: Progress) {
    p.deducted == SatAdd64(p.credited, p.fees)
  }

  /** The accounts after the miner's reward is scheduled, before maturity. */
  function Rewarded(ctx: Context, p: Progress): map<Bytes, Account> {
    p.changed[ctx.miner :=
      Schedule(View(ctx, p.changed, ctx.miner), SatAdd64(Reward(ctx.height), p.fees), ctx.height)]
  }

  function Writes(ctx: Context, p: Progress): map<Bytes, Account> {
    map a | a in p.touched + {ctx.miner} :: Mature(View(ctx, Rewarded(ctx, p), a), ctx.height)
  }

  function Finish(ctx: Context, p: Progress): Result<Execution, BlockError> {
    if !GatePasses(p) then Err(BlockError(ConservationViolation, -1))
    else
      var writes := Writes(ctx, p);
      Ok(Execution(writes, ctx.oracle.stateRoot(ctx.state, writes, ctx.height), p.hashes, p.kept, Supply(ctx.height)))
  }

  function ParentProblem(s: State, parentHash: Bytes, height: nat): Option<Reason> {
    if height == 0 then None
    else if |parentHash| != 32 then Some(BadParentHashLength)
    else if height - 1 !in s.blockHashes then Some(ParentNotFound)
    else if s.blockHashes[height - 1] != parentHash then Some(ParentHashMismatch)
    else None
  }

  /** `execute_block_internal` on a decoded body. */
  function Execute(oracle: Oracle, s: State, txs: seq<Tx>, minerAddress: Bytes, parentHash: Bytes,
                   height: nat, simulation: bool): Result<Execution, BlockError>
  {
    match ParentProblem(s, parentHash, height)
    case Some(reason) => Err(BlockError(reason, -1))
    case None =>
      var ctx := Context(oracle, s, AddressOf(minerAddress), height, simulation);
      match After(ctx, txs, |txs|)
      case Err(e) => Err(e)
      case Ok(p) => Finish(ctx, p)
  }

  /** Committing an execution: accounts overwritten, version moved to the block's height. */
  function Commit(s: State, e: Execution, height: nat, hash: Bytes): State {
    State(s.accounts + e.writes, s.blockHashes[height := hash], height)
  }
}
