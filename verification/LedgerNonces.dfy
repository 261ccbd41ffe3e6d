/**
Replay protection over runs: the nonces an account's executed transfers carry.
*/
module LedgerNonces {
  import opened Arith
  import opened Ledger
  import opened LedgerMoney
  import opened LedgerRuns
  import opened Machine
  import opened Wrappers

  const WORD: nat := U64_MAX + 1

  /** The transfers of `sender` among the first `count` transactions, in order. */
  function Sent(txs: seq<Tx>, count: nat, sender: Bytes): seq<Tx>
    requires count <= |txs|
  {
    if count <= 1 then []
    else
      var tx := txs[count - 1];
      Sent(txs, count - 1, sender) + if AddressOf(tx.sender) == sender then [tx] else []
  }

  function SentInRun(blocks: seq<Block>, sender: Bytes): seq<Tx> {
    if blocks == [] then []
    else
      var b := blocks[|blocks| - 1];
      SentInRun(blocks[..|blocks| - 1], sender) + Sent(b.txs, |b.txs|, sender)
  }

  lemma NextNonce(start: u64, sent: nat)
    ensures WrapAdd64((start + sent) % WORD, 1) == (start + sent + 1) % WORD
  {
    var x := (start + sent) % WORD;
    ModAdd(start + sent, 1, WORD);
    if x + 1 == WORD { DivUnique(WORD, WORD, 1, 0); } else { DivUnique(x + 1, WORD, 0, x + 1); }
  }

  /** The nonces of `sent` count up from `start`, modulo 2^64. */
  ghost predicate CountsUp(sent: seq<Tx>, start: nat) {
    forall k :: 0 <= k < |sent| ==> sent[k].nonce == (start + k) % WORD
  }

  lemma NonceAfterTransfer(ctx: Context, index: nat, tx: Tx, p: Progress, a: Bytes)
    requires index > 0 && tx.amount > 0
    ensures View(ctx, Apply(ctx, index, tx, p).changed, a).nonce ==
            var nonce := View(ctx, p.changed, a).nonce;
            if AddressOf(tx.sender) == a then WrapAdd64(nonce, 1) else nonce
  {
    hide ReadAccount, CreationFee, TotalSpend;
  }

  lemma NonceAfterCoinbase(ctx: Context, tx: Tx, a: Bytes)
    requires tx.amount == 0
    ensures After(ctx, [], 0) == Ok(START)
    ensures View(ctx, Apply(ctx, 0, tx, START).changed, a).nonce == ReadAccount(ctx.state, a).nonce
  {
    hide ReadAccount;
  }

  lemma {:induction false} NoncesInBlock(ctx: Context, txs: seq<Tx>, count: nat, a: Bytes)
    requires count <= |txs| && After(ctx, txs, count).Ok? && !ctx.simulation
    ensures
      var start := ReadAccount(ctx.state, a).nonce;
      && View(ctx, After(ctx, txs, count).value.changed, a).nonce == (start + |Sent(txs, count, a)|) % WORD
      && CountsUp(Sent(txs, count, a), start)
  {
    hide View, ReadAccount, Judge, Apply, AddressOf, WrapAdd64;
    if count == 0 {
      assert View(ctx, START.changed, a) == ReadAccount(ctx.state, a) by { ViewUnchanged(ctx, a); }
    } else {
      AfterUnfolds(ctx, txs, count);
      var p, tx := After(ctx, txs, count - 1).value, txs[count - 1];
      Accepted(ctx, count - 1, tx, p.changed);
      if count == 1 {
        NonceAfterCoinbase(ctx, tx, a);
      } else {
        NoncesInBlock(ctx, txs, count - 1, a);
        NonceAfterTransfer(ctx, count - 1, tx, p, a);
        NextNonce(ReadAccount(ctx.state, a).nonce, |Sent(txs, count - 1, a)|);
      }
    }
  }

  lemma ViewUnchanged(ctx: Context, a: Bytes)
    ensures View(ctx, START.changed, a) == ReadAccount(ctx.state, a)
  {
  }

  lemma MatureNonce(x: Account, height: nat)
    ensures Mature(x, height).nonce == x.nonce
  {
  }

  lemma RewardedNonce(ctx: Context, p: Progress, a: Bytes)
    ensures View(ctx, Rewarded(ctx, p), a).nonce == View(ctx, p.changed, a).nonce
  {
    hide Reward, SatAdd64, ReadAccount;
  }

  /** The account read back is the one written, or the one read before when nothing was written. */
  lemma NonceStored(ctx: Context, p: Progress, a: Bytes, after: State)
    requires after.accounts == ctx.state.accounts + Writes(ctx, p) && after.version == ctx.height
    ensures a in p.touched + {ctx.miner} ==> ReadAccount(after, a).nonce == View(ctx, Rewarded(ctx, p), a).nonce
    ensures a !in p.touched + {ctx.miner} ==> ReadAccount(after, a).nonce == ReadAccount(ctx.state, a).nonce
  {
    hide Mature, View, Rewarded;
    if a in p.touched + {ctx.miner} {
      MatureNonce(View(ctx, Rewarded(ctx, p), a), ctx.height);
      assert after.accounts[a] == Writes(ctx, p)[a];
    }
    var stored := if a in after.accounts then after.accounts[a] else FRESH;
    MatureNonce(stored, after.version);
    MatureNonce(stored, ctx.state.version);
  }

  /** Reward, maturity and commit leave every nonce alone. */
  lemma NonceAfterCommit(ctx: Context, p: Progress, a: Bytes, after: State)
    requires p.changed.Keys <= p.touched
    requires after.accounts == ctx.state.accounts + Writes(ctx, p) && after.version == ctx.height
    ensures ReadAccount(after, a).nonce == View(ctx, p.changed, a).nonce
  {
    hide ReadAccount, Writes, Rewarded;
    NonceStored(ctx, p, a, after);
    RewardedNonce(ctx, p, a);
  }

  lemma EmptyNonces(oracle: Oracle, a: Bytes)
    ensures CountsUp([], 0) && Run(oracle, []) == Some(EMPTY) && ReadAccount(EMPTY, a).nonce == 0
  {
  }

  /**
  Replay safety: in any accepted run from the empty ledger, the transfers of a sender carry
  the nonces 0, 1, 2, ... in the order of execution (modulo 2^64), so none repeats.
  */
  lemma {:induction false} NoncesInRun(oracle: Oracle, blocks: seq<Block>, a: Bytes)
    requires Run(oracle, blocks).Some?
    ensures CountsUp(SentInRun(blocks, a), 0)
    ensures ReadAccount(Run(oracle, blocks).value, a).nonce == |SentInRun(blocks, a)| % WORD
  {
    hide View, ReadAccount, After, Execute, Writes, CountsUp, Sent, Run, AddressOf, StateBefore;
    if blocks == [] {
      EmptyNonces(oracle, a);
    } else {
      var height, b := |blocks| - 1, blocks[|blocks| - 1];
      LastBlockRan(oracle, blocks);
      NoncesInRun(oracle, blocks[..height], a);
      var s := StateBefore(oracle, blocks);
      var ctx := ContextOf(oracle, s, b, height);
      ExecutedWrites(oracle, s, b, height);
      NoncesInBlock(ctx, b.txs, |b.txs|, a);
      ChangedAreTouched(ctx, b.txs, |b.txs|);
      NonceAfterCommit(ctx, After(ctx, b.txs, |b.txs|).value, a, Run(oracle, blocks).value);
      Concatenate(SentInRun(blocks[..height], a), Sent(b.txs, |b.txs|, a));
    }
  }

  lemma Concatenate(first: seq<Tx>, second: seq<Tx>)
    requires CountsUp(first, 0) && CountsUp(second, |first| % WORD)
    ensures CountsUp(first + second, 0)
    ensures (|first| % WORD + |second|) % WORD == |first + second| % WORD
  {
    var n := |first|;
    ModAdd(n, |second|, WORD);
    forall k | 0 <= k < |first + second| ensures (first + second)[k].nonce == k % WORD {
      if k >= n {
        assert (first + second)[k] == second[k - n];
        ModAdd(n, k - n, WORD);
      }
    }
  }
}
