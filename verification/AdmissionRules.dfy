/**
The validator's verdicts written out: which transactions of a batch are approved, with which
code the others are refused, and what an approved one leaves for those after it.
*/
module AdmissionRules {
  import opened Admission
  import opened Ledger
  import opened LedgerMoney
  import opened LedgerRules
  import opened Machine

  /** One of the last 100 blocks below the tip, or the tip itself, has the hash. */
  ghost predicate NamesBlockAtTip(s: State, hash: Bytes) {
    |hash| == 32 && exists h :: h in s.blockHashes && s.version - 100 <= h <= s.version && s.blockHashes[h] == hash
  }

  /** What the transaction would cost: a receiver new to the ledger and to the batch costs 1000 more. */
  ghost function FullCost(s: State, cache: Cache, tx: Tx): nat {
    var r := ReadAccount(s, tx.receiver);
    var isNew := |tx.receiver| == 32 && r.balance == 0 && r.nonce == 0 && r.maturing == [] && tx.receiver !in cache.credited;
    Min(tx.amount + tx.fee + (if isNew then 1000 else 0), U64_MAX)
  }

  /** The checks in the order of the validator, each with the code its failure gives. */
  ghost function CodeChecks(ctx: Context, cache: Cache, tx: Tx): seq<(bool, nat)> {
    var sender := View(ctx, cache.wallets, tx.sender);
    var replay := tx.amount > 0 && ctx.state.version >= 15;
    [ (|tx.sender| == 32, 102),
      (tx.signature.Some? && |tx.signature.value| == 64, 103),
      (SignedBySender(ctx.oracle, tx), 104),
      (replay ==> |tx.recentBlockHash| == 32, 108),
      (replay ==> NamesBlockAtTip(ctx.state, tx.recentBlockHash), 107),
      (tx.nonce >= sender.nonce, 105),
      (tx.nonce == sender.nonce, 106),
      (FullCost(ctx.state, cache, tx) <= sender.balance, 107) ]
  }

  ghost predicate FailsFirst(checks: seq<(bool, nat)>, i: nat) {
    i < |checks| && !checks[i].0 && forall j :: 0 <= j < i ==> checks[j].0
  }

  lemma TipMeans(s: State, hash: Bytes)
    ensures |hash| == 32 && hash in HashesAtTip(s) <==> NamesBlockAtTip(s, hash)
  {
  }

  lemma CostMeans(ctx: Context, cache: Cache, tx: Tx)
    ensures TotalSpend(tx, ReceiverFee(ctx, cache, tx)) == FullCost(ctx.state, cache, tx)
  {
    hide ReadAccount;
  }

  /** Code 1 exactly when every check holds. */
  lemma ApprovedIff(ctx: Context, cache: Cache, tx: Tx)
    ensures Verdict(ctx, cache, tx) == 1 <==>
            && |tx.sender| == 32 && SignedBySender(ctx.oracle, tx)
            && (tx.amount > 0 && ctx.state.version >= 15 ==> NamesBlockAtTip(ctx.state, tx.recentBlockHash))
            && tx.nonce == View(ctx, cache.wallets, tx.sender).nonce
            && FullCost(ctx.state, cache, tx) <= View(ctx, cache.wallets, tx.sender).balance
  {
    hide View, HashesAtTip, NamesBlockAtTip, FullCost, TotalSpend, ReceiverFee;
    TipNamed(ctx.state, tx.recentBlockHash);
    TipMeans(ctx.state, tx.recentBlockHash);
    CostMeans(ctx, cache, tx);
  }

  lemma TipNamed(s: State, hash: Bytes)
    ensures NamesBlockAtTip(s, hash) ==> |hash| == 32
  {
  }

  /** A refusal carries the code of the first check that fails. */
  lemma RefusalCode(ctx: Context, cache: Cache, tx: Tx) returns (i: nat)
    requires Verdict(ctx, cache, tx) != 1
    ensures FailsFirst(CodeChecks(ctx, cache, tx), i)
    ensures CodeChecks(ctx, cache, tx)[i].1 == Verdict(ctx, cache, tx)
  {
    hide View, HashesAtTip, NamesBlockAtTip, FullCost, TotalSpend, ReceiverFee;
    TipMeans(ctx.state, tx.recentBlockHash);
    CostMeans(ctx, cache, tx);
    ApprovedIff(ctx, cache, tx);
    i := if |tx.sender| != 32 then 0
         else if tx.signature.None? || |tx.signature.value| != 64 then 1
         else if !SignedBySender(ctx.oracle, tx) then 2
         else if tx.amount > 0 && ctx.state.version >= 15 && |tx.recentBlockHash| != 32 then 3
         else if tx.amount > 0 && ctx.state.version >= 15 && !NamesBlockAtTip(ctx.state, tx.recentBlockHash) then 4
         else if tx.nonce < View(ctx, cache.wallets, tx.sender).nonce then 5
         else if tx.nonce > View(ctx, cache.wallets, tx.sender).nonce then 6
         else 7;
  }

  /** An approved transaction: the cost leaves the sender, the amount reaches a 32-byte receiver, no other wallet moves. */
  ghost predicate AdmitEffect(ctx: Context, tx: Tx, cost: nat, before: Cache, after: Cache) {
    var paid := if |tx.receiver| == 32 then tx.amount else 0;
    var back := if tx.sender == tx.receiver then paid else 0;
    && View(ctx, after.wallets, tx.sender).balance == Min(View(ctx, before.wallets, tx.sender).balance + back, U64_MAX) - cost
    && View(ctx, after.wallets, tx.sender).nonce == Min(View(ctx, before.wallets, tx.sender).nonce + 1, U64_MAX)
    && (tx.receiver != tx.sender ==>
          && View(ctx, after.wallets, tx.receiver).nonce == View(ctx, before.wallets, tx.receiver).nonce
          && View(ctx, after.wallets, tx.receiver).balance == Min(View(ctx, before.wallets, tx.receiver).balance + paid, U64_MAX))
    && (forall a :: a != tx.sender && a != tx.receiver ==> View(ctx, after.wallets, a) == View(ctx, before.wallets, a))
    && after.credited == before.credited + if |tx.receiver| == 32 then {tx.receiver} else {}
  }

  lemma AdmitDoes(ctx: Context, cache: Cache, tx: Tx)
    requires TotalSpend(tx, ReceiverFee(ctx, cache, tx)) <= View(ctx, cache.wallets, tx.sender).balance
    ensures AdmitEffect(ctx, tx, TotalSpend(tx, ReceiverFee(ctx, cache, tx)), cache, Admit(ctx, cache, tx))
  {
    hide ReadAccount, ReceiverFee, TotalSpend;
  }

  lemma ApprovedIsOne(ctx: Context, cache: Cache, tx: Tx)
    ensures APPROVED == 1
    ensures Verdict(ctx, cache, tx) == 1 ==> TotalSpend(tx, ReceiverFee(ctx, cache, tx)) <= View(ctx, cache.wallets, tx.sender).balance
  {
    hide View, HashesAtTip, ReceiverFee, TotalSpend, FormVerdict;
  }

  /** The batch starts from the ledger; each approved transaction takes effect for the later ones, each refused one leaves no trace. */
  lemma BatchStep(ctx: Context, txs: seq<Tx>, n: nat)
    requires n < |txs|
    ensures forall a :: View(ctx, CacheAfter(ctx, txs, 0).wallets, a) == ReadAccount(ctx.state, a)
    ensures CacheAfter(ctx, txs, 0).credited == {}
    ensures
      var before, after := CacheAfter(ctx, txs, n), CacheAfter(ctx, txs, n + 1);
      if Verdict(ctx, before, txs[n]) == 1 then AdmitEffect(ctx, txs[n], FullCost(ctx.state, before, txs[n]), before, after)
      else after == before
  {
    hide ReadAccount, Verdict, Admit, AdmitEffect, FullCost, TotalSpend, ReceiverFee;
    var before := CacheAfter(ctx, txs, n);
    ApprovedIsOne(ctx, before, txs[n]);
    if Verdict(ctx, before, txs[n]) == 1 {
      AdmitDoes(ctx, before, txs[n]);
      CostMeans(ctx, before, txs[n]);
    }
  }
}
