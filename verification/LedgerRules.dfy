/**
When a transaction is executed, and when a block is accepted, written out in the terms of the
transaction and the accounts: every transfer of an accepted block is signed, names a recent
block, carries the sender's nonce and a fee of one of the three tiers, and is covered.
*/
module LedgerRules {
  import opened Ledger
  import opened LedgerMoney
  import opened Machine
  import opened Wrappers

  /** Nothing was ever stored for the account, or nothing is left of it. */
  predicate Blank(a: Account) {
    a.balance == 0 && a.nonce == 0 && a.coinId == ZERO32 && a.maturing == []
  }

  /** One of the 100 blocks before this height has the hash. */
  ghost predicate NamesRecentBlock(s: State, height: nat, hash: Bytes) {
    |hash| == 32 && exists h :: h in s.blockHashes && height - 100 <= h < height && s.blockHashes[h] == hash
  }

  /** A signature of 64 bytes by the sender on the signing hash. */
  ghost predicate SignedBySender(oracle: Oracle, tx: Tx) {
    && tx.signature.Some? && |tx.signature.value| == 64
    && oracle.verify(if |tx.sender| == 32 then tx.sender else ZERO32, oracle.signingHash(tx), tx.signature.value)
  }

  /** A coinbase: no amount, paid to the miner, and signed only if it carries a signature. */
  ghost predicate CoinbaseConditions(ctx: Context, tx: Tx) {
    && tx.amount == 0 && |tx.receiver| == 32 && tx.receiver == ctx.miner
    && (!ctx.simulation && tx.signature.Some? ==> SignedBySender(ctx.oracle, tx))
  }

  /** A transfer, against the accounts `view` shows before it. */
  ghost predicate TransferConditions(ctx: Context, tx: Tx, view: Bytes -> Account) {
    var sender, receiver := view(tx.sender), view(tx.receiver);
    && tx.amount > 0 && |tx.sender| == 32 && |tx.receiver| == 32
    && (!ctx.simulation ==> SignedBySender(ctx.oracle, tx))
    && (ctx.height >= 15 ==> NamesRecentBlock(ctx.state, ctx.height, tx.recentBlockHash))
    && tx.nonce == sender.nonce
    && (tx.fee == 250 || tx.fee == 500 || tx.fee == 1000)
    && Min(tx.amount + tx.fee + (if Blank(receiver) then 1000 else 0), U64_MAX) <= sender.balance
  }

  ghost function Shows(ctx: Context, changed: map<Bytes, Account>): Bytes -> Account {
    a => View(ctx, changed, a)
  }

  /** The executor executes a transaction exactly when it meets the written-out conditions. */
  lemma ExecutedIff(ctx: Context, index: nat, tx: Tx, changed: map<Bytes, Account>)
    ensures Judge(ctx, index, tx, changed) == None <==>
            if index == 0 then CoinbaseConditions(ctx, tx) else TransferConditions(ctx, tx, Shows(ctx, changed))
  {
    hide View, RecentHashes, ReadAccount;
    RecentMeans(ctx.state, ctx.height, tx.recentBlockHash);
    SpendMeans(tx, CreationFee(View(ctx, changed, tx.receiver)));
  }

  lemma RecentMeans(s: State, height: nat, hash: Bytes)
    ensures |hash| == 32 && hash in RecentHashes(s, height) <==> NamesRecentBlock(s, height, hash)
  {
  }

  lemma SpendMeans(tx: Tx, creationFee: u64)
    ensures TotalSpend(tx, creationFee) == Min(tx.amount + tx.fee + creationFee, U64_MAX)
  {
  }

  // ----- which reason is given

  /** The checks in the order of the executor, each with the reason its failure gives. */
  ghost function Checks(ctx: Context, index: nat, tx: Tx, changed: map<Bytes, Account>): seq<(bool, Reason)> {
    var sender := View(ctx, changed, AddressOf(tx.sender));
    var receiver := View(ctx, changed, AddressOf(tx.receiver));
    [ (!(index == 0 && tx.amount > 0), CoinbaseAmountNotZero),
      (!(index > 0 && tx.amount == 0), TransferAmountZero),
      (|tx.receiver| == 32 && (tx.amount > 0 ==> |tx.sender| == 32), BadAddressLength),
      (ctx.simulation || tx.signature.None? || |tx.signature.value| == 64, BadSignatureLength),
      (ctx.simulation || tx.signature.None? || SignedBySender(ctx.oracle, tx), BadSignature),
      (ctx.simulation || tx.signature.Some? || tx.amount == 0, MissingSignature),
      (index > 0 || tx.receiver == ctx.miner, CoinbaseReceiverMismatch),
      (tx.amount == 0 || ctx.height < 15 || |tx.recentBlockHash| == 32, MissingRecentHash),
      (tx.amount == 0 || ctx.height < 15 || NamesRecentBlock(ctx.state, ctx.height, tx.recentBlockHash), OutdatedRecentHash),
      (tx.amount == 0 || tx.nonce == sender.nonce, NonceMismatch),
      (tx.amount == 0 || tx.fee == 250 || tx.fee == 500 || tx.fee == 1000, InvalidFee),
      (tx.amount == 0 || Min(tx.amount + tx.fee + (if Blank(receiver) then 1000 else 0), U64_MAX) <= sender.balance,
       InsufficientBalance) ]
  }

  /** The place of a transaction's reasons in the list; the other reasons are a block's. */
  function CheckOf(reason: Reason): nat {
    match reason
    case CoinbaseAmountNotZero => 0
    case TransferAmountZero => 1
    case BadAddressLength => 2
    case BadSignatureLength => 3
    case BadSignature => 4
    case MissingSignature => 5
    case CoinbaseReceiverMismatch => 6
    case MissingRecentHash => 7
    case OutdatedRecentHash => 8
    case NonceMismatch => 9
    case InvalidFee => 10
    case InsufficientBalance => 11
    case _ => 12
  }

  /** The reason names check i: it fails and every check before it holds. */
  ghost predicate FirstFailure(checks: seq<(bool, Reason)>, i: nat, reason: Reason) {
    && i < |checks| && !checks[i].0 && checks[i].1 == reason
    && forall j :: 0 <= j < i ==> checks[j].0
  }

  /** A refusal names the first check that fails. */
  lemma RefusalNamesFirstFailure(ctx: Context, index: nat, tx: Tx, changed: map<Bytes, Account>) returns (i: nat)
    requires Judge(ctx, index, tx, changed).Some?
    ensures FirstFailure(Checks(ctx, index, tx, changed), i, Judge(ctx, index, tx, changed).value)
  {
    hide View, RecentHashes, ReadAccount;
    RecentMeans(ctx.state, ctx.height, tx.recentBlockHash);
    SpendMeans(tx, CreationFee(View(ctx, changed, AddressOf(tx.receiver))));
    i := CheckOf(Judge(ctx, index, tx, changed).value);
  }

  // ----- whole blocks

  /** The block names its parent, which is the stored block one below. */
  ghost predicate ParentConditions(s: State, parentHash: Bytes, height: nat) {
    height == 0 ||
    (|parentHash| == 32 && height - 1 in s.blockHashes && s.blockHashes[height - 1] == parentHash)
  }

  /** Transaction i of a block, against the accounts the earlier ones left. */
  ghost predicate MeetsConditions(ctx: Context, txs: seq<Tx>, i: nat)
    requires i < |txs|
  {
    && After(ctx, txs, i).Ok?
    && if i == 0 then CoinbaseConditions(ctx, txs[i])
       else TransferConditions(ctx, txs[i], Shows(ctx, After(ctx, txs, i).value.changed))
  }

  /** A real run gets through n transactions exactly when each meets the conditions in its turn. */
  lemma {:induction false} RealRunIff(ctx: Context, txs: seq<Tx>, n: nat)
    requires n <= |txs| && !ctx.simulation
    ensures After(ctx, txs, n).Ok? <==> forall i :: 0 <= i < n ==> MeetsConditions(ctx, txs, i)
  {
    hide Judge, Apply, CoinbaseConditions, TransferConditions;
    if n > 0 {
      RealRunIff(ctx, txs, n - 1);
      if After(ctx, txs, n - 1).Ok? {
        assert After(ctx, txs, n).Ok? <==> Judge(ctx, n - 1, txs[n - 1], After(ctx, txs, n - 1).value.changed) == None;
        ExecutedIff(ctx, n - 1, txs[n - 1], After(ctx, txs, n - 1).value.changed);
        assert MeetsConditions(ctx, txs, n - 1) <==> After(ctx, txs, n).Ok?;
      }
    }
  }

  /** A block runs for real exactly when parent, every transaction and the gate are in order. */
  lemma AcceptedIff(oracle: Oracle, s: State, txs: seq<Tx>, minerAddress: Bytes, parentHash: Bytes, height: nat)
    ensures
      var ctx := Context(oracle, s, if |minerAddress| == 32 then minerAddress else ZERO32, height, false);
      Execute(oracle, s, txs, minerAddress, parentHash, height, false).Ok? <==>
      (&& ParentConditions(s, parentHash, height)
       && (forall i :: 0 <= i < |txs| ==> MeetsConditions(ctx, txs, i))
       && After(ctx, txs, |txs|).Ok? && GatePasses(After(ctx, txs, |txs|).value))
  {
    hide After, Writes, GatePasses, MeetsConditions;
    RealRunIff(Context(oracle, s, AddressOf(minerAddress), height, false), txs, |txs|);
  }

  /** Every transfer of an accepted block is signed by its sender. */
  lemma AcceptedIsSigned(oracle: Oracle, s: State, txs: seq<Tx>, minerAddress: Bytes, parentHash: Bytes, height: nat, i: nat)
    requires Execute(oracle, s, txs, minerAddress, parentHash, height, false).Ok? && 0 < i < |txs|
    ensures txs[i].amount > 0 && |txs[i].sender| == 32 == |txs[i].receiver|
    ensures SignedBySender(oracle, txs[i])
  {
    hide Execute, After;
    AcceptedIff(oracle, s, txs, minerAddress, parentHash, height);
    var miner := if |minerAddress| == 32 then minerAddress else ZERO32;
    assert MeetsConditions(Context(oracle, s, miner, height, false), txs, i);
  }

  // ----- what an executed transaction does

  /** The two accounts of an executed transfer, and all others, in exact money. */
  ghost predicate TransferEffect(ctx: Context, tx: Tx, before: map<Bytes, Account>, after: map<Bytes, Account>) {
    var cost := tx.amount + tx.fee + if Blank(View(ctx, before, tx.receiver)) then 1000 else 0;
    && View(ctx, after, tx.sender).balance ==
       View(ctx, before, tx.sender).balance - cost + (if tx.sender == tx.receiver then tx.amount else 0)
    && View(ctx, after, tx.sender).nonce == (View(ctx, before, tx.sender).nonce + 1) % (U64_MAX + 1)
    && (tx.receiver != tx.sender ==>
          && View(ctx, after, tx.receiver).balance == View(ctx, before, tx.receiver).balance + tx.amount
          && View(ctx, after, tx.receiver).nonce == View(ctx, before, tx.receiver).nonce)
    && (forall a :: View(ctx, after, a).maturing == View(ctx, before, a).maturing
                    && View(ctx, after, a).coinId == View(ctx, before, a).coinId)
    && (forall a :: a != tx.sender && a != tx.receiver ==> View(ctx, after, a) == View(ctx, before, a))
  }

  lemma TransferDoes(ctx: Context, index: nat, tx: Tx, p: Progress)
    requires Judge(ctx, index, tx, p.changed) == None && index > 0
    requires Total(Shown(ctx, p.changed)) < U64_MAX
    ensures TransferEffect(ctx, tx, p.changed, Apply(ctx, index, tx, p).changed)
  {
    hide ReadAccount, Total, Shown, Judge, RecentHashes;
    Accepted(ctx, index, tx, p.changed);
    ExecutedIff(ctx, index, tx, p.changed);
    TransferIsExact(ctx, index, tx, p);
    NonceStep(View(ctx, p.changed, tx.sender).nonce);
  }

  /** A coinbase changes no account; what it adds to the fees is its own fee. */
  lemma CoinbaseDoes(ctx: Context, tx: Tx)
    requires Judge(ctx, 0, tx, START.changed) == None
    ensures forall a :: View(ctx, Apply(ctx, 0, tx, START).changed, a) == View(ctx, START.changed, a)
    ensures Apply(ctx, 0, tx, START).fees == tx.fee && Apply(ctx, 0, tx, START).deducted == 0
  {
    hide ReadAccount, Judge;
    ExecutedIff(ctx, 0, tx, START.changed);
  }

  lemma NonceStep(n: u64)
    ensures WrapAdd64(n, 1) == (n + 1) % (U64_MAX + 1)
  {
  }

  lemma ApplyKeeps(ctx: Context, index: nat, tx: Tx, p: Progress)
    ensures Apply(ctx, index, tx, p).kept == p.kept + [tx]
    ensures Apply(ctx, index, tx, p).hashes == p.hashes + [ctx.oracle.signingHash(tx)]
  {
  }

  /** The kept transactions of a run and their hashes, in order; a real run keeps all. */
  lemma {:induction false} KeptAndHashed(ctx: Context, txs: seq<Tx>, n: nat)
    requires n <= |txs| && After(ctx, txs, n).Ok?
    ensures
      var p := After(ctx, txs, n).value;
      && |p.hashes| == |p.kept| && (forall i :: 0 <= i < |p.kept| ==> p.hashes[i] == ctx.oracle.signingHash(p.kept[i]))
      && (!ctx.simulation ==> p.kept == txs[..n])
  {
    hide Judge, Apply;
    if n > 0 {
      KeptAndHashed(ctx, txs, n - 1);
      ApplyKeeps(ctx, n - 1, txs[n - 1], After(ctx, txs, n - 1).value);
      assert txs[..n] == txs[..n - 1] + [txs[n - 1]];
    }
  }
}
