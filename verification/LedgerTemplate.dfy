/**
The block template: a coinbase is put in front of the mempool's transactions, the whole
list goes through one simulated execution, and whatever survives becomes the block.

The builder relies on the survivors being a valid block. `TemplateReplays` proves it:
executed for real from the same state they give the very execution of the dry run.
*/
module LedgerTemplate {
  import opened Ledger
  import opened LedgerNode
  import opened LedgerRules
  import opened Machine
  import opened Wrappers

  datatype Template = Template(
    height: nat, parentHash: Bytes, minerAddress: Bytes, timestamp: u64,
    txs: seq<Tx>, stateRoot: Bytes, txHashes: seq<Bytes>)

  datatype TemplateError = GenesisForbidden | ExecutionFailed(error: BlockError)

  function Coinbase(minerAddress: Bytes, timestamp: u64): Tx {
    Tx([], minerAddress, 0, 0, 0, timestamp, [], None)
  }

  /** `build_vanguard_block_template`, up to the Merkle root and weight of the header. */
  method BuildTemplate(node: StateManager, oracle: Oracle, height: nat, parentHash: Bytes, minerAddress: Bytes,
                       txs: seq<Tx>, timestamp: u64)
    returns (r: Result<Template, TemplateError>)
    ensures height == 0 ==> r == Err(GenesisForbidden)
    ensures height > 0 ==>
      match Execute(oracle, node.Snapshot(), [Coinbase(minerAddress, timestamp)] + txs,
                    minerAddress, parentHash, height, true)
      case Err(e) => r == Err(ExecutionFailed(e))
      case Ok(e) => r == Ok(Template(height, parentHash, minerAddress, timestamp, e.kept, e.root, e.hashes))
  {
    if height == 0 {
      return Err(GenesisForbidden);
    }
    var trial := [Coinbase(minerAddress, timestamp)] + txs;
    var dryRun := node.ExecuteBlockInternal(oracle, trial, minerAddress, parentHash, height, true);
    match dryRun
    case Err(e) => r := Err(ExecutionFailed(e));
    case Ok(e) => r := Ok(Template(height, parentHash, minerAddress, timestamp, e.kept, e.root, e.hashes));
  }

  /** The outcome of a prefix does not depend on what follows it. */
  lemma {:induction false} AfterPrefix(ctx: Context, txs: seq<Tx>, more: seq<Tx>, count: nat)
    requires count <= |txs|
    ensures After(ctx, txs + more, count) == After(ctx, txs, count)
  {
    hide Judge, Apply;
    if count > 0 {
      AfterPrefix(ctx, txs, more, count - 1);
      assert (txs + more)[count - 1] == txs[count - 1];
    }
  }

  /** An accepted transfer is accepted at any other position after the coinbase, in either mode. */
  lemma TransferMoves(ctx: Context, mode: bool, i: nat, j: nat, tx: Tx, p: Progress)
    requires ctx.simulation && i > 0 && j > 0
    requires Judge(ctx, i, tx, p.changed) == None
    requires !mode ==> SignedBySender(ctx.oracle, tx)
    ensures Judge(ctx.(simulation := mode), j, tx, p.changed) == None
    ensures Apply(ctx.(simulation := mode), j, tx, p) == Apply(ctx, i, tx, p)
  {
    var other := ctx.(simulation := mode);
    assert forall c, a :: View(other, c, a) == View(ctx, c, a);
  }

  /** A dry run never fails at a transaction. */
  lemma {:induction false} DryRunRuns(ctx: Context, txs: seq<Tx>, count: nat)
    requires ctx.simulation && count <= |txs|
    ensures After(ctx, txs, count).Ok?
  {
    if count > 0 {
      DryRunRuns(ctx, txs, count - 1);
    }
  }

  lemma AfterStep(ctx: Context, txs: seq<Tx>, tx: Tx, p: Progress)
    requires After(ctx, txs, |txs|) == Ok(p) && Judge(ctx, |txs|, tx, p.changed) == None
    ensures After(ctx, txs + [tx], |txs| + 1) == Ok(Apply(ctx, |txs|, tx, p))
  {
    AfterPrefix(ctx, txs, [tx], |txs|);
  }

  /** One more survivor: the replay of the earlier ones extends by it. */
  lemma ReplayStep(ctx: Context, mode: bool, i: nat, tx: Tx, q: Progress)
    requires ctx.simulation && i > 0 && |q.kept| > 0
    requires Judge(ctx, i, tx, q.changed) == None
    requires !mode ==> SignedBySender(ctx.oracle, tx)
    requires After(ctx.(simulation := mode), q.kept, |q.kept|) == Ok(q)
    ensures var p := Apply(ctx, i, tx, q);
      After(ctx.(simulation := mode), p.kept, |p.kept|) == Ok(p)
  {
    var replay := ctx.(simulation := mode);
    TransferMoves(ctx, mode, i, |q.kept|, tx, q);
    AfterStep(replay, q.kept, tx, q);
  }

  lemma CoinbaseReplay(ctx: Context, mode: bool, coinbase: Tx)
    requires ctx.simulation && coinbase.amount == 0 && coinbase.signature == None
    requires |coinbase.receiver| == 32 && coinbase.receiver == ctx.miner
    ensures var p := Apply(ctx, 0, coinbase, START);
      Judge(ctx, 0, coinbase, START.changed) == None && p.kept == [coinbase] &&
      After(ctx.(simulation := mode), p.kept, 1) == Ok(p)
  {
    var replay := ctx.(simulation := mode);
    assert forall c, a :: View(replay, c, a) == View(ctx, c, a);
    assert After(replay, [coinbase], 0) == Ok(START);
  }

  /** Replaying the survivors of a dry run, in either mode, retraces its progress. */
  lemma {:induction false} SurvivorsReplay(ctx: Context, mode: bool, txs: seq<Tx>, count: nat, p: Progress)
    requires ctx.simulation && 1 <= count <= |txs|
    requires txs[0].amount == 0 && txs[0].signature == None
    requires |txs[0].receiver| == 32 && txs[0].receiver == ctx.miner
    requires After(ctx, txs, count) == Ok(p)
    requires !mode ==> forall i :: 1 <= i < |p.kept| ==> SignedBySender(ctx.oracle, p.kept[i])
    ensures |p.kept| > 0
    ensures After(ctx.(simulation := mode), p.kept, |p.kept|) == Ok(p)
  {
    if count == 1 {
      assert After(ctx, txs, 0) == Ok(START);
      CoinbaseReplay(ctx, mode, txs[0]);
    } else {
      DryRunRuns(ctx, txs, count - 1);
      var q := After(ctx, txs, count - 1).value;
      var tx := txs[count - 1];
      if Judge(ctx, count - 1, tx, q.changed) == None {
        assert p.kept == q.kept + [tx] && p.kept[|q.kept|] == tx;
        forall i | 1 <= i < |q.kept| ensures q.kept[i] == p.kept[i] {}
        SurvivorsReplay(ctx, mode, txs, count - 1, q);
        ReplayStep(ctx, mode, count - 1, tx, q);
      } else {
        SurvivorsReplay(ctx, mode, txs, count - 1, q);
      }
    }
  }

  lemma SameFinish(ctx: Context, mode: bool, p: Progress)
    ensures Finish(ctx.(simulation := mode), p) == Finish(ctx, p)
  {
    var other := ctx.(simulation := mode);
    assert forall c, a :: View(other, c, a) == View(ctx, c, a);
    assert Rewarded(other, p) == Rewarded(ctx, p);
    assert Writes(other, p) == Writes(ctx, p);
  }

  /**
  Template soundness. With a 32-byte miner address, the survivors run for real give the
  dry run's execution: every one accepted, the same account writes, hashes and root; and
  a second dry run over them drops nothing.
  */
  lemma TemplateReplays(oracle: Oracle, s: State, txs: seq<Tx>, minerAddress: Bytes, parentHash: Bytes,
                        height: nat, timestamp: u64)
    requires |minerAddress| == 32
    requires Execute(oracle, s, [Coinbase(minerAddress, timestamp)] + txs, minerAddress, parentHash, height, true).Ok?
    requires
      var dry := Execute(oracle, s, [Coinbase(minerAddress, timestamp)] + txs, minerAddress, parentHash, height, true);
      forall i :: 1 <= i < |dry.value.kept| ==> SignedBySender(oracle, dry.value.kept[i])
    ensures
      var dry := Execute(oracle, s, [Coinbase(minerAddress, timestamp)] + txs, minerAddress, parentHash, height, true);
      && Execute(oracle, s, dry.value.kept, minerAddress, parentHash, height, false) == dry
      && Execute(oracle, s, dry.value.kept, minerAddress, parentHash, height, true) == dry
  {
    var trial := [Coinbase(minerAddress, timestamp)] + txs;
    var ctx := Context(oracle, s, minerAddress, height, true);
    var p := After(ctx, trial, |trial|).value;
    SurvivorsReplay(ctx, false, trial, |trial|, p);
    SurvivorsReplay(ctx, true, trial, |trial|, p);
    SameFinish(ctx, false, p);
  }

  /** Without a 32-byte miner address the dry run drops its own coinbase. */
  lemma {:induction false} CoinbaseDropped(ctx: Context, txs: seq<Tx>, count: nat, p: Progress)
    requires ctx.simulation && count <= |txs|
    requires |txs| > 0 && |txs[0].receiver| != 32
    requires After(ctx, txs, count) == Ok(p)
    ensures forall tx <- p.kept :: tx.amount > 0
  {
    if count > 0 {
      DryRunRuns(ctx, txs, count - 1);
      CoinbaseDropped(ctx, txs, count - 1, After(ctx, txs, count - 1).value);
    }
  }

  /** No transaction of the list is acceptable in the untouched state. */
  ghost predicate NoneAcceptable(ctx: Context, txs: seq<Tx>) {
    forall i :: 0 <= i < |txs| ==> Judge(ctx, i, txs[i], map[]).Some?
  }

  /** A dry run keeps nothing exactly when nothing is acceptable in the untouched state. */
  lemma {:induction false} NothingKept(ctx: Context, txs: seq<Tx>, count: nat)
    requires ctx.simulation && count <= |txs| && After(ctx, txs, count).Ok?
    ensures After(ctx, txs, count).value.kept == [] <==>
            forall i :: 0 <= i < count ==> Judge(ctx, i, txs[i], map[]).Some?
    ensures After(ctx, txs, count).value.kept == [] ==> After(ctx, txs, count).value == START
  {
    hide Judge;
    if count > 0 {
      DryRunRuns(ctx, txs, count - 1);
      NothingKept(ctx, txs, count - 1);
    }
  }

  /**
  Exactly when the template is a valid block: the survivors are accepted for real, with the
  dry run's result, if and only if the miner address has 32 bytes or no transaction of the
  trial list is acceptable in the state the template is built on.
  */
  lemma TemplateValidIff(oracle: Oracle, s: State, txs: seq<Tx>, minerAddress: Bytes, parentHash: Bytes,
                         height: nat, timestamp: u64)
    requires Execute(oracle, s, [Coinbase(minerAddress, timestamp)] + txs, minerAddress, parentHash, height, true).Ok?
    requires
      var dry := Execute(oracle, s, [Coinbase(minerAddress, timestamp)] + txs, minerAddress, parentHash, height, true);
      forall i :: 1 <= i < |dry.value.kept| ==> SignedBySender(oracle, dry.value.kept[i])
    ensures
      var trial := [Coinbase(minerAddress, timestamp)] + txs;
      var dry := Execute(oracle, s, trial, minerAddress, parentHash, height, true);
      (Execute(oracle, s, dry.value.kept, minerAddress, parentHash, height, false) == dry) <==>
      (|minerAddress| == 32 || NoneAcceptable(Context(oracle, s, AddressOf(minerAddress), height, true), trial))
  {
    if |minerAddress| == 32 {
      TemplateReplays(oracle, s, txs, minerAddress, parentHash, height, timestamp);
    } else {
      hide Judge;
      var trial := [Coinbase(minerAddress, timestamp)] + txs;
      var ctx := Context(oracle, s, ZERO32, height, true);
      var p := After(ctx, trial, |trial|).value;
      NothingKept(ctx, trial, |trial|);
      if p.kept == [] {
        SameFinish(ctx, false, p);
      } else {
        CoinbaseDropped(ctx, trial, |trial|, p);
        FirstSurvivorFails(ctx.(simulation := false), p.kept);
      }
    }
  }

  /** A block whose first transaction moves money is refused at index 0. */
  lemma FirstSurvivorFails(ctx: Context, txs: seq<Tx>)
    requires txs != [] && txs[0].amount > 0 && !ctx.simulation
    ensures After(ctx, txs, |txs|) == Err(BlockError(CoinbaseAmountNotZero, 0))
  {
    assert After(ctx, txs, 0) == Ok(START);
    AfterFails(ctx, txs, 1);
  }
}
