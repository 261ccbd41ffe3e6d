/**
The other half of packing: a block that is not full leaves nothing out that could have
gone in, and no block goes on once it is full.
*/
module PackingFull {
  import opened Machine
  import opened Mempool
  import opened Packing
  import opened PackingNode

  /** In the block, or too large for what room is left. */
  predicate Handled(limits: Limits, block: seq<TxItem>, item: TxItem) {
    item in block || TotalSize(block) + item.size > limits.maxSize
  }

  /** Positions from `start` to j: everything before j decodes and each nonce follows the one before. */
  predicate Reachable(q: seq<TxItem>, decodes: Bytes -> bool, start: nat, j: nat) {
    start <= j < |q| && forall i :: start <= i < j ==> decodes(q[i].data) && q[i + 1].nonce == WrapAdd64(q[i].nonce, 1)
  }

  /** The first position the ledger has not passed. */
  predicate IsStart(q: seq<TxItem>, nonce: u64, start: nat) {
    start < |q| && nonce <= q[start].nonce && forall i :: 0 <= i < start ==> q[i].nonce < nonce
  }

  lemma HandledLater(limits: Limits, before: seq<TxItem>, x: TxItem, item: TxItem)
    requires Handled(limits, before, item)
    ensures Handled(limits, before + [x], item)
  {
    SizeOfPush(before, x);
  }

  /** A pop handles its own item when that decodes. */
  lemma PopHandles(p: Pool, decodes: Bytes -> bool, limits: Limits, before: Merge, s: Sender, after: Merge)
    requires PopStep(p, decodes, limits, before, s, after) && decodes(p.queues[s][before.heads[s]].data)
    ensures Handled(limits, after.block, p.queues[s][before.heads[s]])
  {
    hide Best, HeapOf, Advance;
  }

  /** A pop of a decoding item moves its sender on while the nonces follow. */
  lemma PopMovesOn(p: Pool, decodes: Bytes -> bool, limits: Limits, before: Merge, s: Sender, after: Merge)
    requires PopStep(p, decodes, limits, before, s, after) && decodes(p.queues[s][before.heads[s]].data)
    requires before.heads[s] + 1 < |p.queues[s]|
    requires p.queues[s][before.heads[s] + 1].nonce == WrapAdd64(p.queues[s][before.heads[s]].nonce, 1)
    ensures s in after.heads && after.heads[s] == before.heads[s] + 1
  {
    hide Best, HeapOf, Takes;
  }

  lemma PopKeepsHandled(p: Pool, decodes: Bytes -> bool, limits: Limits, before: Merge, s: Sender, after: Merge, item: TxItem)
    requires PopStep(p, decodes, limits, before, s, after) && Handled(limits, before.block, item)
    ensures Handled(limits, after.block, item)
  {
    hide Best, HeapOf, Takes, Advance, Handled;
    HandledLater(limits, before.block, p.queues[s][before.heads[s]], item);
  }

  lemma StartHead(p: Pool, nonces: map<Sender, u64>, s: Sender, start: nat)
    requires s in p.queues && IsStart(p.queues[s], NonceFor(nonces, s), start)
    ensures s in StartHeads(p, nonces) && StartHeads(p, nonces)[s] == start
  {
    hide StartOf;
    var found := StartOf(p.queues[s], NonceFor(nonces, s));
    assert found == start;
  }

  /** After n pops a reachable item is handled, or its sender still has a head at or before it. */
  lemma {:induction false} ComesUp(p: Pool, nonces: map<Sender, u64>, decodes: Bytes -> bool, limits: Limits,
                                   states: seq<Merge>, pops: seq<Sender>, n: nat, s: Sender, start: nat, j: nat)
    requires Agrees(p) && Packs(p, nonces, decodes, limits, states, pops) && n <= |pops|
    requires s in p.queues && IsStart(p.queues[s], NonceFor(nonces, s), start)
    requires Reachable(p.queues[s], decodes, start, j) && decodes(p.queues[s][j].data)
    ensures Handled(limits, states[n].block, p.queues[s][j]) || (s in states[n].heads && start <= states[n].heads[s] <= j)
  {
    hide Agrees, PopStep, Handled, StartOf, StartHeads, IsStart;
    var q := p.queues[s];
    if n == 0 {
      StartHead(p, nonces, s, start);
    } else {
      ComesUp(p, nonces, decodes, limits, states, pops, n - 1, s, start, j);
      StepOf(p, nonces, decodes, limits, states, pops, n - 1);
      var before, t, after := states[n - 1], pops[n - 1], states[n];
      PopEffect(p, decodes, limits, before, t, after);
      if Handled(limits, before.block, q[j]) {
        PopKeepsHandled(p, decodes, limits, before, t, after, q[j]);
      } else if t == s {
        if before.heads[s] == j {
          PopHandles(p, decodes, limits, before, s, after);
        } else {
          PopMovesOn(p, decodes, limits, before, s, after);
        }
      }
    }
  }

  /**
  A block below both limits leaves out, of every sender, only what its queue does not reach
  without a gap or an undecodable transaction, and what does not fit in the room that is left.
  */
  lemma NothingLeftOut(p: Pool, nonces: map<Sender, u64>, decodes: Bytes -> bool, limits: Limits, block: seq<TxItem>,
                       s: Sender, start: nat, j: nat)
    requires Agrees(p) && IsPacked(p, nonces, decodes, limits, block)
    requires |block| < limits.maxTxs && TotalSize(block) < limits.maxSize - 1024
    requires s in p.queues && IsStart(p.queues[s], NonceFor(nonces, s), start)
    requires Reachable(p.queues[s], decodes, start, j) && decodes(p.queues[s][j].data)
    ensures p.queues[s][j] in block || TotalSize(block) + p.queues[s][j].size > limits.maxSize
  {
    hide Agrees, Packs, IsStart, Reachable, TotalSize;
    var states: seq<Merge>, pops: seq<Sender> :|
      Packs(p, nonces, decodes, limits, states, pops) && |states| == |pops| + 1 && Stopped(limits, states[|pops|], block);
    ReachableIn(p.queues[s], decodes, start, j);
    ComesUp(p, nonces, decodes, limits, states, pops, |pops|, s, start, j);
  }

  lemma ReachableIn(q: seq<TxItem>, decodes: Bytes -> bool, start: nat, j: nat)
    requires Reachable(q, decodes, start, j)
    ensures start <= j < |q|
  {
  }

  /** Before its last transaction a block was below both limits. */
  lemma LastMayFill(p: Pool, nonces: map<Sender, u64>, decodes: Bytes -> bool, limits: Limits, block: seq<TxItem>)
    requires Agrees(p) && IsPacked(p, nonces, decodes, limits, block) && |block| > 1
    ensures |block| - 1 < limits.maxTxs && TotalSize(block[..|block| - 1]) < limits.maxSize - 1024
  {
    hide Agrees, Packs, TotalSize;
    var states: seq<Merge>, pops: seq<Sender> :|
      Packs(p, nonces, decodes, limits, states, pops) && |states| == |pops| + 1 && Stopped(limits, states[|pops|], block);
    FrontNotFull(p, nonces, decodes, limits, states, pops, |pops|);
  }

  lemma {:induction false} FrontNotFull(p: Pool, nonces: map<Sender, u64>, decodes: Bytes -> bool, limits: Limits,
                                        states: seq<Merge>, pops: seq<Sender>, n: nat)
    requires Agrees(p) && Packs(p, nonces, decodes, limits, states, pops) && n <= |pops|
    ensures |states[n].block| > 1 ==> !Full(limits, states[n].block[..|states[n].block| - 1])
  {
    hide Agrees, PopStep, Full;
    if n > 0 {
      FrontNotFull(p, nonces, decodes, limits, states, pops, n - 1);
      BelowCount(p, nonces, decodes, limits, states, pops, n - 1);
      StepOf(p, nonces, decodes, limits, states, pops, n - 1);
      PopEffect(p, decodes, limits, states[n - 1], pops[n - 1], states[n]);
      assert states[n].block != states[n - 1].block ==>
        states[n].block[..|states[n].block| - 1] == states[n - 1].block;
    } else {
      assert states[0].block == [];
    }
  }
}
