/**
What a dry run keeps, and when a template is built at all: every candidate is judged in its
turn by the written-out conditions, and nothing but the parent can make the builder fail.
*/
module LedgerDryRun {
  import opened Emission
  import opened Ledger
  import opened LedgerRules
  import opened LedgerTemplate
  import opened Machine
  import opened Wrappers

  /** A candidate that meets the conditions of a transfer in its turn is kept and executed; any other leaves no trace. */
  lemma DryRunStep(ctx: Context, txs: seq<Tx>, n: nat)
    requires ctx.simulation && 0 < n < |txs| && After(ctx, txs, n).Ok?
    ensures After(ctx, txs, n + 1).Ok?
    ensures
      var before, after := After(ctx, txs, n).value, After(ctx, txs, n + 1).value;
      && (TransferConditions(ctx, txs[n], Shows(ctx, before.changed)) ==>
            after == Apply(ctx, n, txs[n], before) && after.kept == before.kept + [txs[n]])
      && (!TransferConditions(ctx, txs[n], Shows(ctx, before.changed)) ==> after == before)
  {
    hide Judge, Apply, TransferConditions, CoinbaseConditions;
    ExecutedIff(ctx, n, txs[n], After(ctx, txs, n).value.changed);
    ApplyKeeps(ctx, n, txs[n], After(ctx, txs, n).value);
  }

  /** The first transaction of a template for a 32-byte miner address pays nothing and names the miner. */
  lemma TemplateStarts(ctx: Context, txs: seq<Tx>, minerAddress: Bytes, timestamp: u64)
    requires ctx.simulation && ctx.miner == minerAddress && |minerAddress| == 32
    ensures
      var trial := [Coinbase(minerAddress, timestamp)] + txs;
      && After(ctx, trial, 1).Ok?
      && After(ctx, trial, 1).value.kept == [Tx([], minerAddress, 0, 0, 0, timestamp, [], None)]
      && After(ctx, trial, 1).value.fees == 0
  {
    var trial := [Coinbase(minerAddress, timestamp)] + txs;
    assert trial[0] == Coinbase(minerAddress, timestamp);
    assert After(ctx, trial, 0) == Ok(START);
    FirstOfTrial(ctx, trial);
  }

  lemma FirstOfTrial(ctx: Context, trial: seq<Tx>)
    requires ctx.simulation && |trial| > 0 && CoinbaseConditions(ctx, trial[0]) && After(ctx, trial, 0) == Ok(START)
    ensures After(ctx, trial, 1) == Ok(Apply(ctx, 0, trial[0], START))
  {
    hide Judge, Apply;
    ExecutedIff(ctx, 0, trial[0], map[]);
  }

  // ----- the gate in a dry run

  /** Saturating sums depend only on the plain sum. */
  lemma SatSums(d: u64, c: u64, f: u64, amount: u64, fee: u64, creation: u64)
    requires d == SatAdd64(c, f)
    ensures SatAdd64(d, SatAdd64(SatAdd64(amount, fee), creation)) ==
            SatAdd64(SatAdd64(c, amount), SatAdd64(SatAdd64(f, fee), creation))
  {
  }

  lemma ApplyKeepsGate(ctx: Context, index: nat, tx: Tx, p: Progress)
    requires GatePasses(p) && (tx.amount > 0 || tx.fee == 0)
    ensures GatePasses(Apply(ctx, index, tx, p))
  {
    hide View, Debit, Credit;
    var creationFee := if tx.amount > 0 then CreationFee(View(ctx, p.changed, AddressOf(tx.receiver))) else 0;
    if tx.amount > 0 {
      SatSums(p.deducted, p.credited, p.fees, tx.amount, tx.fee, creationFee);
    }
  }

  /** Whatever the candidates, a dry run behind a coinbase without fee passes the gate. */
  lemma {:induction false} DryRunPassesGate(ctx: Context, txs: seq<Tx>, n: nat)
    requires ctx.simulation && n <= |txs| && (txs != [] ==> txs[0].fee == 0)
    ensures After(ctx, txs, n).Ok? && GatePasses(After(ctx, txs, n).value)
  {
    hide Judge, Apply, TransferConditions, CoinbaseConditions;
    if n > 0 {
      DryRunPassesGate(ctx, txs, n - 1);
      var p, tx := After(ctx, txs, n - 1).value, txs[n - 1];
      if Judge(ctx, n - 1, tx, p.changed) == None {
        ExecutedIff(ctx, n - 1, tx, p.changed);
        MovesMoney(ctx, n - 1, tx, p);
        ApplyKeepsGate(ctx, n - 1, tx, p);
      }
    } else {
      StartPasses();
    }
  }

  lemma StartPasses()
    ensures GatePasses(START)
  {
  }

  lemma MovesMoney(ctx: Context, index: nat, tx: Tx, p: Progress)
    requires if index == 0 then CoinbaseConditions(ctx, tx) else TransferConditions(ctx, tx, Shows(ctx, p.changed))
    ensures index > 0 ==> tx.amount > 0
  {
  }

  /** A template is built exactly when the parent is in order. */
  lemma TemplateBuildsIff(oracle: Oracle, s: State, txs: seq<Tx>, minerAddress: Bytes, parentHash: Bytes,
                          height: nat, timestamp: u64)
    ensures Execute(oracle, s, [Coinbase(minerAddress, timestamp)] + txs, minerAddress, parentHash, height, true).Ok? <==>
            ParentConditions(s, parentHash, height)
  {
    hide After, Writes, GatePasses, Coinbase, Supply;
    var trial := [Coinbase(minerAddress, timestamp)] + txs;
    CoinbaseIsFree(minerAddress, timestamp);
    assert trial[0] == Coinbase(minerAddress, timestamp);
    DryRunPassesGate(Context(oracle, s, AddressOf(minerAddress), height, true), trial, |trial|);
  }

  lemma CoinbaseIsFree(minerAddress: Bytes, timestamp: u64)
    ensures Coinbase(minerAddress, timestamp).fee == 0
  {
  }

  // ----- what an execution reports

  /** The root is that of the writes at this height, the hashes are those of the kept transactions, a real run keeps all. */
  lemma ExecutionReports(oracle: Oracle, s: State, txs: seq<Tx>, minerAddress: Bytes, parentHash: Bytes,
                         height: nat, simulation: bool)
    requires Execute(oracle, s, txs, minerAddress, parentHash, height, simulation).Ok?
    ensures
      var e := Execute(oracle, s, txs, minerAddress, parentHash, height, simulation).value;
      && e.root == oracle.stateRoot(s, e.writes, height) && e.supply == Supply(height)
      && |e.hashes| == |e.kept| && (forall i :: 0 <= i < |e.kept| ==> e.hashes[i] == oracle.signingHash(e.kept[i]))
      && (!simulation ==> e.kept == txs)
  {
    hide After, Writes, GatePasses, Supply;
    KeptAndHashed(Context(oracle, s, AddressOf(minerAddress), height, simulation), txs, |txs|);
    assert txs[..|txs|] == txs;
  }
}
