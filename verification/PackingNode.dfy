/** `GetPartitionedTransactions`, and what every block it packs is. */
module PackingNode {
  import opened Mempool
  import opened Machine
  import opened MempoolNode
  import opened MempoolStale
  import opened Packing

  /** `getSenderNoncesBatch`: the first queued nonce, or the projected one. */
  method GetSenderNoncesBatch(pool: TxPool, senders: set<Sender>) returns (nonces: map<Sender, u64>)
    requires pool.Valid()
    ensures nonces.Keys == senders
    ensures forall s :: s in senders && s in pool.txBySender ==>
              pool.txBySender[s] != [] && nonces[s] == pool.txBySender[s][0].nonce
    ensures forall s :: s in senders && s !in pool.txBySender ==>
              nonces[s] == if s in pool.projectedNonce then pool.projectedNonce[s] else 0
    ensures forall s :: s in senders && s in pool.txBySender ==> StartOf(pool.txBySender[s], nonces[s]) == 0
  {
    hide Agrees;
    nonces := map[];
    NonEmptyQueues(pool.State());
    var todo := senders;
    while todo != {}
      invariant todo <= senders && nonces.Keys == senders - todo
      invariant forall s :: s in nonces && s in pool.txBySender ==> nonces[s] == pool.txBySender[s][0].nonce
      invariant forall s :: s in nonces && s !in pool.txBySender ==>
                  nonces[s] == if s in pool.projectedNonce then pool.projectedNonce[s] else 0
      invariant forall s :: s in nonces && s in pool.txBySender ==> StartOf(pool.txBySender[s], nonces[s]) == 0
    {
      var s :| s in todo;
      todo := todo - {s};
      var queue := if s in pool.txBySender then pool.txBySender[s] else [];
      var nonce := if queue != [] then queue[0].nonce else if s in pool.projectedNonce then pool.projectedNonce[s] else 0;
      nonces := nonces[s := nonce];
    }
  }

  method FindStart(q: seq<TxItem>, nonce: u64) returns (start: nat)
    ensures start == StartOf(q, nonce)
  {
    start := 0;
    while start < |q| && q[start].nonce < nonce
      invariant start <= |q| && StartOf(q, nonce) == start + StartOf(q[start..], nonce)
    {
      assert q[start..][1..] == q[start + 1..];
      start := start + 1;
    }
  }

  /** Pop of the heap: any element no other beats. */
  method PopHeap(heap: set<TxItem>) returns (item: TxItem, rest: set<TxItem>)
    requires heap != {}
    ensures Best(heap, item) && rest == heap - {item}
  {
    BestExists(heap);
    item :| item in heap && forall y :: y in heap ==> !Less(y, item);
    rest := heap - {item};
  }

  /** The block of some run of the merge that stopped: nothing left, or the last transaction taken filled it. */
  ghost predicate IsPacked(p: Pool, nonces: map<Sender, u64>, decodes: Bytes -> bool, limits: Limits, block: seq<TxItem>) {
    exists states: seq<Merge>, pops: seq<Sender> ::
      Packs(p, nonces, decodes, limits, states, pops) && |states| == |pops| + 1 && Stopped(limits, states[|pops|], block)
  }

  predicate Stopped(limits: Limits, last: Merge, block: seq<TxItem>) {
    block == last.block && (last.heads == map[] || (block != [] && Full(limits, block)))
  }

  /** What a packed block is, whichever elements the heap popped among equals. */
  lemma PackedBlock(p: Pool, nonces: map<Sender, u64>, decodes: Bytes -> bool, limits: Limits, block: seq<TxItem>, s: Sender)
    requires Agrees(p) && IsPacked(p, nonces, decodes, limits, block)
    ensures block != [] ==> TotalSize(block) <= limits.maxSize
    ensures |block| <= Max(limits.maxTxs, 1)
    ensures forall i, j :: 0 <= i < j < |block| ==> block[i].hash != block[j].hash
    ensures Sorted(OfSender(block, s))
    ensures forall x :: x in OfSender(block, s) ==> x in QueueOf(p, s) && x.nonce >= NonceFor(nonces, s)
  {
    hide Agrees, Packs, StartOf, GapFree, OfSender, TotalSize;
    var states: seq<Merge>, pops: seq<Sender> :|
      Packs(p, nonces, decodes, limits, states, pops) && |states| == |pops| + 1 && Stopped(limits, states[|pops|], block);
    var n := |pops|;
    PackingFits(p, nonces, decodes, limits, states, pops, n);
    NoRepeats(p, nonces, decodes, limits, states, pops, n);
    NonceOrder(p, nonces, decodes, limits, states, pops, n, s);
    SenderRun(p, nonces, decodes, limits, states, pops, n, s);
    var q := QueueOf(p, s);
    var start := StartOf(q, NonceFor(nonces, s));
    QueueSorted(p, s);
    forall x | x in OfSender(block, s) ensures x in q && x.nonce >= NonceFor(nonces, s) {
      assert x in PopsOf(p, states, pops, n, s);
      assert x in q[start..];
    }
  }

  /** `GetPartitionedTransactions`; the nonces were read earlier, under another lock. */
  method GetPartitionedTransactions(pool: TxPool, nonces: map<Sender, u64>, limits: Limits, decodes: Bytes -> bool)
    returns (block: seq<TxItem>)
    requires pool.Valid()
    ensures IsPacked(pool.State(), nonces, decodes, limits, block)
  {
    hide Agrees, Best, Packs, PopStep, HeapOf, Advance, Without, HeadsOk, AllRefs, TotalSize, StartHeads;
    ghost var p := pool.State();
    var heap, senderIdx := StartHeap(pool, nonces);
    ghost var heads := StartHeads(p, nonces);
    block := [];
    var currentSize := 0;
    ghost var states, pops := [Merge(heads, block)], [];
    PacksStart(p, nonces, decodes, limits);
    while heap != {}
      invariant |states| == |pops| + 1 && Packs(p, nonces, decodes, limits, states, pops)
      invariant states[|pops|] == Merge(heads, block) && Continues(limits, states, pops)
      invariant HeadsOk(p, heads) && heap == HeapOf(p, heads) && currentSize == TotalSize(block)
      invariant forall s :: s in heads ==> s in senderIdx && senderIdx[s] == heads[s]
      decreases |AllRefs(p)| - |pops|
    {
      var item, rest := PopHeap(heap);
      ItemIsHead(p, heads, item);
      MakePop(p, decodes, limits, heads, block, item);
      HeapWithout(p, heads, item.sender);
      heap := rest;
      var decoded := decodes(item.data);
      if !decoded {
        ghost var next := Merge(Without(heads, {item.sender}), block);
        ExtendRun(p, nonces, decodes, limits, states, pops, item.sender, next);
        states, pops, heads := states + [next], pops + [item.sender], next.heads;
        continue;
      }
      heap, senderIdx := PushNextTx(pool, heap, item, senderIdx, heads);
      var taken := currentSize + item.size <= limits.maxSize;
      ghost var next := Merge(Advance(p, heads, item.sender), if taken then block + [item] else block);
      ExtendRun(p, nonces, decodes, limits, states, pops, item.sender, next);
      states, pops, heads := states + [next], pops + [item.sender], next.heads;
      if !taken {
        continue;
      }
      SizeOfPush(block, item);
      block := block + [item];
      currentSize := currentSize + item.size;
      if |block| >= limits.maxTxs || currentSize >= limits.maxSize - 1024 {
        return;
      }
    }
    EmptyHeap(p, heads);
  }

  /** The head of every queue that is not entirely behind the ledger. */
  method StartHeap(pool: TxPool, nonces: map<Sender, u64>) returns (heap: set<TxItem>, senderIdx: map<Sender, nat>)
    requires pool.Valid()
    ensures senderIdx == StartHeads(pool.State(), nonces) && HeadsOk(pool.State(), senderIdx)
    ensures heap == HeapOf(pool.State(), senderIdx)
  {
    hide Agrees, StartOf, HeapOf, StartHeads, Without, HeadsOk;
    heap, senderIdx := {}, map[];
    ghost var p := pool.State();
    NoHeap(p);
    StartsInPool(p, nonces);
    var todo := pool.txBySender.Keys;
    while todo != {}
      invariant todo <= pool.txBySender.Keys
      invariant senderIdx.Keys == StartHeads(p, nonces).Keys - todo
      invariant forall s :: s in senderIdx ==> senderIdx[s] == StartHeads(p, nonces)[s]
      invariant HeadsOk(p, senderIdx) && heap == HeapOf(p, senderIdx)
    {
      var s :| s in todo;
      todo := todo - {s};
      var queue := pool.txBySender[s];
      StartHeadOf(p, nonces, s);
      if queue == [] {
        continue;
      }
      var start := FindStart(queue, NonceFor(nonces, s));
      if start < |queue| {
        HeapPush(p, senderIdx, s, start);
        WithoutNothing(senderIdx, s);
        heap := heap + {queue[start]};
        senderIdx := senderIdx[s := start];
      }
    }
  }

  /** `pushNextTx`, after the popped item has left the heap. */
  method PushNextTx(pool: TxPool, heap: set<TxItem>, item: TxItem, senderIdx: map<Sender, nat>, ghost heads: map<Sender, nat>)
    returns (pushed: set<TxItem>, indices: map<Sender, nat>)
    requires pool.Valid() && HeadsOk(pool.State(), heads)
    requires item.sender in heads && item == pool.txBySender[item.sender][heads[item.sender]]
    requires forall s :: s in heads ==> s in senderIdx && senderIdx[s] == heads[s]
    requires heap == HeapOf(pool.State(), Without(heads, {item.sender}))
    ensures HeadsOk(pool.State(), Advance(pool.State(), heads, item.sender))
    ensures pushed == HeapOf(pool.State(), Advance(pool.State(), heads, item.sender))
    ensures forall s :: s in Advance(pool.State(), heads, item.sender) ==>
              s in indices && indices[s] == Advance(pool.State(), heads, item.sender)[s]
  {
    hide Agrees;
    pushed, indices := heap, senderIdx;
    var sender := item.sender;
    var nextIdx := senderIdx[sender] + 1;
    var queue := pool.txBySender[sender];
    if nextIdx < |queue| && queue[nextIdx].nonce == WrapAdd64(item.nonce, 1) {
      pushed := heap + {queue[nextIdx]};
      indices := senderIdx[sender := nextIdx];
      HeapPush(pool.State(), heads, sender, nextIdx);
    }
  }

  // ----- steps of the method

  /** Not yet stopped: the block is empty, unchanged by the last pop, or not full. */
  ghost predicate Continues(limits: Limits, states: seq<Merge>, pops: seq<Sender>) {
    |states| == |pops| + 1 && (|pops| > 0 && states[|pops|].block != states[|pops| - 1].block ==> !Full(limits, states[|pops|].block))
  }

  lemma PacksStart(p: Pool, nonces: map<Sender, u64>, decodes: Bytes -> bool, limits: Limits)
    ensures Packs(p, nonces, decodes, limits, [Merge(StartHeads(p, nonces), [])], [])
    ensures TotalSize([]) == 0
  {
  }

  /** One more pop on a run that has not stopped. */
  lemma ExtendRun(p: Pool, nonces: map<Sender, u64>, decodes: Bytes -> bool, limits: Limits,
                  states: seq<Merge>, pops: seq<Sender>, s: Sender, next: Merge)
    requires Packs(p, nonces, decodes, limits, states, pops) && Continues(limits, states, pops)
    requires PopStep(p, decodes, limits, states[|pops|], s, next)
    ensures Packs(p, nonces, decodes, limits, states + [next], pops + [s])
    ensures |pops| < |AllRefs(p)|
  {
    hide PopStep, Full, AllRefs;
    PacksStep(p, nonces, decodes, limits, states + [next], pops + [s]);
    PopsBounded(p, nonces, decodes, limits, states + [next], pops + [s]);
  }

  lemma PacksStep(p: Pool, nonces: map<Sender, u64>, decodes: Bytes -> bool, limits: Limits,
                  states: seq<Merge>, pops: seq<Sender>)
    requires pops != [] && |states| == |pops| + 1
    requires Packs(p, nonces, decodes, limits, states[..|pops|], pops[..|pops| - 1])
    requires Continues(limits, states[..|pops|], pops[..|pops| - 1])
    requires PopStep(p, decodes, limits, states[|pops| - 1], pops[|pops| - 1], states[|pops|])
    ensures Packs(p, nonces, decodes, limits, states, pops)
  {
    hide PopStep, Full;
  }

  /** The pop the loop body performs is a step of the merge. */
  lemma MakePop(p: Pool, decodes: Bytes -> bool, limits: Limits, heads: map<Sender, nat>, block: seq<TxItem>, item: TxItem)
    requires HeadsOk(p, heads) && Best(HeapOf(p, heads), item)
    requires item.sender in heads && p.queues[item.sender][heads[item.sender]] == item
    ensures
      var s := item.sender;
      var next := if decodes(item.data) then Advance(p, heads, s) else Without(heads, {s});
      var packed := if Takes(decodes, limits, block, item) then block + [item] else block;
      PopStep(p, decodes, limits, Merge(heads, block), s, Merge(next, packed))
  {
  }

  lemma StartHeadOf(p: Pool, nonces: map<Sender, u64>, s: Sender)
    requires s in p.queues
    ensures
      var start := StartOf(p.queues[s], NonceFor(nonces, s));
      && (s in StartHeads(p, nonces) <==> start < |p.queues[s]|)
      && (s in StartHeads(p, nonces) ==> StartHeads(p, nonces)[s] == start)
    ensures StartHeads(p, nonces).Keys <= p.queues.Keys
  {
  }

  lemma StartsInPool(p: Pool, nonces: map<Sender, u64>)
    ensures StartHeads(p, nonces).Keys <= p.queues.Keys
  {
  }

  lemma WithoutNothing(heads: map<Sender, nat>, s: Sender)
    requires s !in heads
    ensures Without(heads, {s}) == heads
  {
  }

  lemma HeapWithout(p: Pool, heads: map<Sender, nat>, s: Sender)
    requires Agrees(p) && HeadsOk(p, heads) && s in heads
    ensures HeadsOk(p, Without(heads, {s}))
    ensures forall t :: t in Without(heads, {s}) ==> t in heads && Without(heads, {s})[t] == heads[t]
    ensures HeapOf(p, Without(heads, {s})) == HeapOf(p, heads) - {p.queues[s][heads[s]]}
  {
    hide Agrees;
    forall t | t in heads ensures p.queues[t][heads[t]].sender == t {
      ItemSender(p, t, heads[t]);
    }
  }

  lemma ItemIsHead(p: Pool, heads: map<Sender, nat>, item: TxItem)
    requires Agrees(p) && HeadsOk(p, heads) && Best(HeapOf(p, heads), item)
    ensures item.sender in heads && item.sender in p.queues && heads[item.sender] < |p.queues[item.sender]|
    ensures p.queues[item.sender][heads[item.sender]] == item
  {
    hide Agrees, Less;
    var s :| s in heads && p.queues[s][heads[s]] == item;
    ItemSender(p, s, heads[s]);
  }

  lemma HeapPush(p: Pool, heads: map<Sender, nat>, s: Sender, i: nat)
    requires HeadsOk(p, heads) && s in p.queues && i < |p.queues[s]|
    ensures HeadsOk(p, heads[s := i]) && HeadsOk(p, Without(heads, {s}))
    ensures HeapOf(p, heads[s := i]) == HeapOf(p, Without(heads, {s})) + {p.queues[s][i]}
  {
    var after := heads[s := i];
    forall x | x in HeapOf(p, Without(heads, {s})) ensures x in HeapOf(p, after) {
      var t :| t in Without(heads, {s}) && p.queues[t][heads[t]] == x;
      assert t in after && p.queues[t][after[t]] == x;
    }
    assert p.queues[s][after[s]] == p.queues[s][i];
    forall x | x in HeapOf(p, after) ensures x in HeapOf(p, Without(heads, {s})) || x == p.queues[s][i] {
      var t :| t in after && p.queues[t][after[t]] == x;
      if t != s { assert t in Without(heads, {s}); }
    }
  }

  lemma EmptyHeap(p: Pool, heads: map<Sender, nat>)
    requires HeadsOk(p, heads) && HeapOf(p, heads) == {}
    ensures heads == map[]
  {
    if heads != map[] {
      var s :| s in heads;
      HeadInHeap(p, heads, s);
    }
  }

  lemma HeadInHeap(p: Pool, heads: map<Sender, nat>, s: Sender)
    requires HeadsOk(p, heads) && s in heads
    ensures HeapOf(p, heads) != {}
  {
    assert p.queues[s][heads[s]] in HeapOf(p, heads);
  }

  lemma NoHeap(p: Pool)
    ensures HeadsOk(p, map[]) && HeapOf(p, map[]) == {}
  {
  }

  lemma SizeOfPush(block: seq<TxItem>, item: TxItem)
    ensures TotalSize(block + [item]) == TotalSize(block) + item.size
  {
    assert (block + [item])[..|block|] == block;
  }
}
