/**
Filling a block from the pool: a merge of the sender queues by a priority heap. A run of
the merge is a sequence of states; the method at the end produces one.
*/
module Packing {
  import opened Mempool
  import opened Machine

  // ----- priorities

  const EXACT := 0x20_0000_0000_0000 // 2^53

  /** The gap between neighbouring doubles around a fee. */
  function Unit(fee: nat): (u: nat)
    ensures u >= 1 && fee < EXACT * u
    ensures u > 1 ==> 2 * fee >= EXACT * u
    decreases fee
  {
    if fee < EXACT then 1 else 2 * Unit(fee / 2)
  }

  /** `float64(fee)`: to the nearest double, ties to the even one. */
  function Priority(fee: nat): nat {
    var u := Unit(fee);
    var q, r := fee / u, fee % u;
    if 2 * r < u || (2 * r == u && q % 2 == 0) then q * u else (q + 1) * u
  }

  /** The order of the heap: higher priority, then older. */
  predicate Less(x: TxItem, y: TxItem) {
    Priority(x.fee) > Priority(y.fee) || (Priority(x.fee) == Priority(y.fee) && x.timestamp < y.timestamp)
  }

  ghost predicate Best(heap: set<TxItem>, x: TxItem) {
    x in heap && forall y :: y in heap ==> !Less(y, x)
  }

  lemma {:induction false} BestExists(heap: set<TxItem>)
    requires heap != {}
    ensures exists x :: Best(heap, x)
    decreases |heap|
  {
    hide Priority;
    var x :| x in heap;
    var rest := heap - {x};
    if rest == {} {
      assert heap == {x};
      assert Best(heap, x);
    } else {
      BestExists(rest);
      var y :| Best(rest, y);
      assert heap == rest + {x};
      if Less(x, y) { assert Best(heap, x); } else { assert Best(heap, y); }
    }
  }

  // ----- runs of the merge

  /** `heads` gives the position of each sender still in the heap. */
  datatype Merge = Merge(heads: map<Sender, nat>, block: seq<TxItem>)

  datatype Limits = Limits(maxSize: int, maxTxs: int)

  function TotalSize(block: seq<TxItem>): nat {
    if block == [] then 0 else TotalSize(block[..|block| - 1]) + block[|block| - 1].size
  }

  /** First position whose nonce the ledger has not passed. */
  function StartOf(q: seq<TxItem>, nonce: u64): (i: nat)
    ensures i <= |q|
    ensures forall j :: 0 <= j < i ==> q[j].nonce < nonce
    ensures i < |q| ==> nonce <= q[i].nonce
  {
    if q == [] || nonce <= q[0].nonce then 0 else 1 + StartOf(q[1..], nonce)
  }

  function NonceFor(nonces: map<Sender, u64>, s: Sender): u64 {
    if s in nonces then nonces[s] else 0
  }

  function StartHeads(p: Pool, nonces: map<Sender, u64>): map<Sender, nat> {
    map s | s in p.queues && StartOf(p.queues[s], NonceFor(nonces, s)) < |p.queues[s]| ::
      StartOf(p.queues[s], NonceFor(nonces, s))
  }

  ghost predicate HeadsOk(p: Pool, heads: map<Sender, nat>) {
    forall s :: s in heads ==> s in p.queues && heads[s] < |p.queues[s]|
  }

  ghost function HeapOf(p: Pool, heads: map<Sender, nat>): set<TxItem>
    requires HeadsOk(p, heads)
  {
    set s | s in heads :: p.queues[s][heads[s]]
  }

  /** `pushNextTx`: a sender stays in the heap while its next nonce follows on. */
  function Advance(p: Pool, heads: map<Sender, nat>, s: Sender): map<Sender, nat>
    requires s in heads && s in p.queues && heads[s] < |p.queues[s]|
  {
    var q, i := p.queues[s], heads[s];
    if i + 1 < |q| && q[i + 1].nonce == WrapAdd64(q[i].nonce, 1) then heads[s := i + 1] else Without(heads, {s})
  }

  /** One pop of the heap: the head of sender s, taken or not. */
  ghost predicate PopStep(p: Pool, decodes: Bytes -> bool, limits: Limits, before: Merge, s: Sender, after: Merge) {
    && HeadsOk(p, before.heads) && s in before.heads
    && var item := p.queues[s][before.heads[s]];
       && Best(HeapOf(p, before.heads), item)
       && after.heads == (if decodes(item.data) then Advance(p, before.heads, s) else Without(before.heads, {s}))
       && after.block == (if Takes(decodes, limits, before.block, item) then before.block + [item] else before.block)
  }

  predicate Takes(decodes: Bytes -> bool, limits: Limits, block: seq<TxItem>, item: TxItem) {
    decodes(item.data) && TotalSize(block) + item.size <= limits.maxSize
  }

  predicate Full(limits: Limits, block: seq<TxItem>) {
    |block| >= limits.maxTxs || TotalSize(block) >= limits.maxSize - 1024
  }

  /** A run of the merge; it goes on only while the last transaction taken did not fill the block. */
  ghost predicate Packs(p: Pool, nonces: map<Sender, u64>, decodes: Bytes -> bool, limits: Limits,
                        states: seq<Merge>, pops: seq<Sender>)
  {
    && |states| == |pops| + 1
    && states[0] == Merge(StartHeads(p, nonces), [])
    && (forall i :: 0 <= i < |pops| ==> PopStep(p, decodes, limits, states[i], pops[i], states[i + 1]))
    && (forall i :: 0 < i < |pops| && states[i].block != states[i - 1].block ==> !Full(limits, states[i].block))
  }

  // ----- limits

  /** The block never exceeds the byte limit, nor the count limit when that is positive. */
  lemma {:induction false} PackingFits(p: Pool, nonces: map<Sender, u64>, decodes: Bytes -> bool, limits: Limits,
                                       states: seq<Merge>, pops: seq<Sender>, n: nat)
    requires Packs(p, nonces, decodes, limits, states, pops) && n <= |pops|
    ensures states[n].block != [] ==> TotalSize(states[n].block) <= limits.maxSize
    ensures |states[n].block| <= Max(limits.maxTxs, 1)
  {
    hide Best, Advance, Without, HeapOf;
    if n > 0 {
      PackingFits(p, nonces, decodes, limits, states, pops, n - 1);
      assert PopStep(p, decodes, limits, states[n - 1], pops[n - 1], states[n]);
      BelowCount(p, nonces, decodes, limits, states, pops, n - 1);
      var block := states[n].block;
      if block != states[n - 1].block {
        assert block[..|block| - 1] == states[n - 1].block;
      }
    }
  }

  /** While the merge goes on, the block holds fewer than the count limit. */
  lemma {:induction false} BelowCount(p: Pool, nonces: map<Sender, u64>, decodes: Bytes -> bool, limits: Limits,
                                      states: seq<Merge>, pops: seq<Sender>, n: nat)
    requires Packs(p, nonces, decodes, limits, states, pops) && n < |pops|
    ensures states[n].block == [] || !Full(limits, states[n].block)
  {
    hide Best, Advance, Without, HeapOf, Full, Takes;
    if n > 0 {
      BelowCount(p, nonces, decodes, limits, states, pops, n - 1);
    }
  }

  // ----- each sender's run

  /** The popped transactions of one sender, in order. */
  ghost function PopsOf(p: Pool, states: seq<Merge>, pops: seq<Sender>, n: nat, s: Sender): seq<TxItem>
    requires n <= |pops| && n <= |states|
  {
    if n == 0 then []
    else
      var front := PopsOf(p, states, pops, n - 1, s);
      var heads := states[n - 1].heads;
      if pops[n - 1] == s && s in heads && s in p.queues && heads[s] < |p.queues[s]| then front + [p.queues[s][heads[s]]]
      else front
  }

  /** Consecutive nonces. */
  ghost predicate GapFree(q: seq<TxItem>) {
    forall i :: 0 <= i < |q| ==> q[i].nonce == q[0].nonce + i
  }

  /** What one pop does: the sender's head moves one on or leaves, all other heads stay. */
  lemma PopEffect(p: Pool, decodes: Bytes -> bool, limits: Limits, before: Merge, s: Sender, after: Merge)
    requires Agrees(p) && PopStep(p, decodes, limits, before, s, after)
    ensures s in before.heads && s in p.queues && before.heads[s] < |p.queues[s]|
    ensures
      var q, k := p.queues[s], before.heads[s];
      && q[k].sender == s
      && (s in after.heads ==> after.heads[s] == k + 1 < |q| && q[k + 1].nonce == q[k].nonce + 1 && decodes(q[k].data))
      && (after.block == before.block || after.block == before.block + [q[k]])
      && (decodes(q[k].data) && TotalSize(before.block) + q[k].size <= limits.maxSize <==>
          after.block == before.block + [q[k]])
    ensures forall t :: t != s ==> (t in after.heads <==> t in before.heads)
    ensures forall t :: t != s && t in after.heads ==> after.heads[t] == before.heads[t]
  {
    hide Agrees, Best, HeapOf;
    var k := before.heads[s];
    ItemSender(p, s, k);
    if k + 1 < |p.queues[s]| { NonceFollows(p, s, k); }
  }

  lemma StepOf(p: Pool, nonces: map<Sender, u64>, decodes: Bytes -> bool, limits: Limits,
               states: seq<Merge>, pops: seq<Sender>, i: nat)
    requires Packs(p, nonces, decodes, limits, states, pops) && i < |pops|
    ensures |states| == |pops| + 1 && PopStep(p, decodes, limits, states[i], pops[i], states[i + 1])
  {
  }

  lemma StartState(p: Pool, nonces: map<Sender, u64>, decodes: Bytes -> bool, limits: Limits,
                   states: seq<Merge>, pops: seq<Sender>, s: Sender)
    requires Packs(p, nonces, decodes, limits, states, pops)
    ensures |states| == |pops| + 1 && states[0].block == []
    ensures s in states[0].heads ==>
              s in p.queues && states[0].heads[s] == StartOf(QueueOf(p, s), NonceFor(nonces, s)) < |p.queues[s]|
  {
  }

  lemma PopsOfStep(p: Pool, states: seq<Merge>, pops: seq<Sender>, n: nat, s: Sender)
    requires 0 < n <= |pops| && n <= |states| && HeadsOk(p, states[n - 1].heads) && pops[n - 1] in states[n - 1].heads
    ensures
      var t, front := pops[n - 1], PopsOf(p, states, pops, n - 1, s);
      PopsOf(p, states, pops, n, s) == if t == s then front + [p.queues[t][states[n - 1].heads[t]]] else front
  {
  }

  lemma HeadsOf(p: Pool, decodes: Bytes -> bool, limits: Limits, before: Merge, s: Sender, after: Merge)
    requires PopStep(p, decodes, limits, before, s, after)
    ensures HeadsOk(p, before.heads) && s in before.heads
  {
  }

  lemma NoPops(p: Pool, states: seq<Merge>, pops: seq<Sender>, s: Sender)
    ensures PopsOf(p, states, pops, 0, s) == []
  {
  }

  /** What n pops took from sender s: the front of its queue from the start position on, without a gap. */
  lemma {:induction false} SenderRun(p: Pool, nonces: map<Sender, u64>, decodes: Bytes -> bool, limits: Limits,
                                     states: seq<Merge>, pops: seq<Sender>, n: nat, s: Sender)
    requires Agrees(p) && Packs(p, nonces, decodes, limits, states, pops) && n <= |pops|
    ensures
      var q := QueueOf(p, s);
      var start := StartOf(q, NonceFor(nonces, s));
      var k := |PopsOf(p, states, pops, n, s)|;
      && start + k <= |q|
      && PopsOf(p, states, pops, n, s) == q[start..start + k]
      && GapFree(q[start..start + k])
      && (s in states[n].heads ==>
            states[n].heads[s] == start + k < |q| && q[start + k].nonce == q[start].nonce + k)
  {
    hide Agrees, PopStep, StartOf, Packs, GapFree, NonceFor, PopsOf;
    var q := QueueOf(p, s);
    var start := StartOf(q, NonceFor(nonces, s));
    if n == 0 {
      NoPops(p, states, pops, s);
      StartState(p, nonces, decodes, limits, states, pops, s);
      GapFreeStart(q, start);
    } else {
      SenderRun(p, nonces, decodes, limits, states, pops, n - 1, s);
      StepOf(p, nonces, decodes, limits, states, pops, n - 1);
      PopEffect(p, decodes, limits, states[n - 1], pops[n - 1], states[n]);
      HeadsOf(p, decodes, limits, states[n - 1], pops[n - 1], states[n]);
      PopsOfStep(p, states, pops, n, s);
      if pops[n - 1] == s {
        GapFreeStep(q, start, |PopsOf(p, states, pops, n - 1, s)|);
      }
    }
  }

  lemma GapFreeStart(q: seq<TxItem>, start: nat)
    requires start <= |q|
    ensures q[start..start] == [] && GapFree(q[start..start])
  {
  }

  lemma GapFreeStep(q: seq<TxItem>, start: nat, k: nat)
    requires start + k < |q| && GapFree(q[start..start + k]) && q[start + k].nonce == q[start].nonce + k
    ensures q[start..start + k + 1] == q[start..start + k] + [q[start + k]]
    ensures GapFree(q[start..start + k + 1])
  {
  }

  lemma NonceFollows(p: Pool, s: Sender, i: nat)
    requires Agrees(p) && s in p.queues && i + 1 < |p.queues[s]|
    ensures p.queues[s][i + 1].nonce == WrapAdd64(p.queues[s][i].nonce, 1) ==>
            p.queues[s][i + 1].nonce == p.queues[s][i].nonce + 1
  {
    assert Sorted(p.queues[s]);
  }

  function OfSender(block: seq<TxItem>, s: Sender): seq<TxItem> {
    if block == [] then []
    else
      var front := OfSender(block[..|block| - 1], s);
      if block[|block| - 1].sender == s then front + [block[|block| - 1]] else front
  }

  lemma OfSenderPush(block: seq<TxItem>, x: TxItem, s: Sender)
    ensures OfSender(block + [x], s) == if x.sender == s then OfSender(block, s) + [x] else OfSender(block, s)
  {
    assert (block + [x])[..|block|] == block;
  }

  ghost predicate FromRun(taken: seq<TxItem>, run: seq<TxItem>) {
    forall x :: x in taken ==> x in run
  }

  /** Taking or leaving an item at the end of its sender's run. */
  lemma TakenStep(before: seq<TxItem>, after: seq<TxItem>, item: TxItem, s: Sender, run: seq<TxItem>)
    requires after == before || after == before + [item]
    requires FromRun(OfSender(before, s), run) && Sorted(OfSender(before, s))
    requires item.sender == s ==> GapFree(run) && (run != [] ==> item.nonce == run[0].nonce + |run|)
    ensures FromRun(OfSender(after, s), if item.sender == s then run + [item] else run)
    ensures Sorted(OfSender(after, s))
  {
    hide OfSender, Sorted, FromRun, GapFree;
    OfSenderPush(before, item, s);
    if item.sender == s {
      RunBelow(run, OfSender(before, s), item);
    }
  }

  lemma RunEnds(p: Pool, nonces: map<Sender, u64>, decodes: Bytes -> bool, limits: Limits,
                states: seq<Merge>, pops: seq<Sender>, n: nat, s: Sender)
    requires Agrees(p) && Packs(p, nonces, decodes, limits, states, pops) && n <= |pops|
    requires s in states[n].heads && s in p.queues && states[n].heads[s] < |p.queues[s]|
    ensures
      var run := PopsOf(p, states, pops, n, s);
      GapFree(run) && (run != [] ==> p.queues[s][states[n].heads[s]].nonce == run[0].nonce + |run|)
  {
    hide Agrees, Packs, StartOf, PopsOf, NonceFor, GapFree;
    SenderRun(p, nonces, decodes, limits, states, pops, n, s);
  }

  /** Each sender's packed transactions come from its gap-free run, in nonce order. */
  lemma {:induction false} NonceOrder(p: Pool, nonces: map<Sender, u64>, decodes: Bytes -> bool, limits: Limits,
                                      states: seq<Merge>, pops: seq<Sender>, n: nat, s: Sender)
    requires Agrees(p) && Packs(p, nonces, decodes, limits, states, pops) && n <= |pops|
    ensures FromRun(OfSender(states[n].block, s), PopsOf(p, states, pops, n, s))
    ensures Sorted(OfSender(states[n].block, s))
  {
    hide Agrees, PopStep, Packs, GapFree, Sorted, FromRun, OfSender, PopsOf, QueueOf;
    if n == 0 {
      StartState(p, nonces, decodes, limits, states, pops, s);
      NothingTaken(s);
      NoPops(p, states, pops, s);
    } else {
      NonceOrder(p, nonces, decodes, limits, states, pops, n - 1, s);
      StepOf(p, nonces, decodes, limits, states, pops, n - 1);
      var before, t, after := states[n - 1], pops[n - 1], states[n];
      PopEffect(p, decodes, limits, before, t, after);
      HeadsOf(p, decodes, limits, before, t, after);
      PopsOfStep(p, states, pops, n, s);
      if t == s { RunEnds(p, nonces, decodes, limits, states, pops, n - 1, s); }
      TakenStep(before.block, after.block, p.queues[t][before.heads[t]], s, PopsOf(p, states, pops, n - 1, s));
    }
  }

  lemma NothingTaken(s: Sender)
    ensures OfSender([], s) == [] && Sorted([]) && FromRun([], [])
  {
  }

  lemma RunBelow(run: seq<TxItem>, taken: seq<TxItem>, item: TxItem)
    requires GapFree(run) && FromRun(taken, run) && Sorted(taken)
    requires run != [] ==> item.nonce == run[0].nonce + |run|
    ensures Sorted(taken + [item])
    ensures FromRun(taken, run + [item]) && FromRun(taken + [item], run + [item])
  {
    forall i | 0 <= i < |taken| ensures taken[i].nonce < item.nonce {
      assert taken[i] in run;
    }
  }

  lemma ItemSender(p: Pool, s: Sender, i: nat)
    requires Agrees(p) && s in p.queues && i < |p.queues[s]|
    ensures p.queues[s][i].sender == s
  {
  }

  /** When none is refused for size, a sender with more to give has had its whole run packed, consecutively. */
  lemma {:induction false} Consecutive(p: Pool, nonces: map<Sender, u64>, decodes: Bytes -> bool, limits: Limits,
                                       states: seq<Merge>, pops: seq<Sender>, n: nat, s: Sender)
    requires Agrees(p) && Packs(p, nonces, decodes, limits, states, pops) && n <= |pops|
    requires forall i :: 0 <= i < n && pops[i] == s ==> Fits(p, decodes, limits, states[i], s)
    ensures
      var run, taken := PopsOf(p, states, pops, n, s), OfSender(states[n].block, s);
      && (taken == run || (s !in states[n].heads && run != [] && !decodes(run[|run| - 1].data) && taken == run[..|run| - 1]))
      && GapFree(taken)
  {
    hide Agrees, PopStep, Packs, StartOf, QueueOf, GapFree, OfSender, TotalSize, PopsOf;
    StartState(p, nonces, decodes, limits, states, pops, s);
    SenderRun(p, nonces, decodes, limits, states, pops, n, s);
    GapFreeFront(PopsOf(p, states, pops, n, s));
    if n == 0 {
      NoPops(p, states, pops, s);
      NothingTaken(s);
    } else {
      Consecutive(p, nonces, decodes, limits, states, pops, n - 1, s);
      StepOf(p, nonces, decodes, limits, states, pops, n - 1);
      var before, t, after := states[n - 1], pops[n - 1], states[n];
      PopEffect(p, decodes, limits, before, t, after);
      HeadsOf(p, decodes, limits, before, t, after);
      PopsOfStep(p, states, pops, n, s);
      OfSenderPush(before.block, p.queues[t][before.heads[t]], s);
    }
  }

  lemma GapFreeFront(run: seq<TxItem>)
    requires GapFree(run)
    ensures run != [] ==> GapFree(run[..|run| - 1])
  {
  }

  /** A pop of sender s is not refused for size. */
  ghost predicate Fits(p: Pool, decodes: Bytes -> bool, limits: Limits, m: Merge, s: Sender) {
    s in m.heads && s in p.queues && m.heads[s] < |p.queues[s]| ==>
      TotalSize(m.block) + p.queues[s][m.heads[s]].size <= limits.maxSize
  }

  // ----- no repeats, and an end

  /** Every packed transaction sits in its queue behind its sender's head. */
  ghost predicate Behind(p: Pool, m: Merge) {
    forall x :: x in m.block ==>
      exists i :: 0 <= i < |QueueOf(p, x.sender)| && QueueOf(p, x.sender)[i] == x
                  && (x.sender in m.heads ==> i < m.heads[x.sender])
  }

  /** No transaction is packed twice. */
  lemma {:induction false} NoRepeats(p: Pool, nonces: map<Sender, u64>, decodes: Bytes -> bool, limits: Limits,
                                     states: seq<Merge>, pops: seq<Sender>, n: nat)
    requires Agrees(p) && Packs(p, nonces, decodes, limits, states, pops) && n <= |pops|
    ensures forall i, j :: 0 <= i < j < |states[n].block| ==> states[n].block[i].hash != states[n].block[j].hash
    ensures Behind(p, states[n])
  {
    hide Agrees, PopStep;
    if n > 0 {
      NoRepeats(p, nonces, decodes, limits, states, pops, n - 1);
      assert PopStep(p, decodes, limits, states[n - 1], pops[n - 1], states[n]);
      FreshItem(p, decodes, limits, states[n - 1], pops[n - 1], states[n]);
    }
  }

  lemma FreshItem(p: Pool, decodes: Bytes -> bool, limits: Limits, before: Merge, s: Sender, after: Merge)
    requires Agrees(p) && PopStep(p, decodes, limits, before, s, after) && Behind(p, before)
    ensures Behind(p, after)
    ensures after.block == before.block ||
            (after.block == before.block + [p.queues[s][before.heads[s]]] &&
             forall x :: x in before.block ==> x.hash != p.queues[s][before.heads[s]].hash)
  {
    hide Agrees, Best, HeapOf, Takes;
    var k := before.heads[s];
    var item := p.queues[s][k];
    ItemSender(p, s, k);
    assert QueueOf(p, s) == p.queues[s];
    forall x | x in before.block
      ensures x.hash != item.hash
      ensures exists i :: 0 <= i < |QueueOf(p, x.sender)| && QueueOf(p, x.sender)[i] == x
                          && (x.sender in after.heads ==> i < after.heads[x.sender])
    {
      var i :| 0 <= i < |QueueOf(p, x.sender)| && QueueOf(p, x.sender)[i] == x
               && (x.sender in before.heads ==> i < before.heads[x.sender]);
      if x.hash == item.hash { OneHash(p, x.sender, i, s, k); }
    }
    assert QueueOf(p, item.sender)[k] == item && (item.sender in after.heads ==> k < after.heads[item.sender]);
  }

  ghost function AllRefs(p: Pool): set<(Sender, nat)> {
    set s, i | s in p.queues && 0 <= i < |p.queues[s]| :: (s, i)
  }

  ghost function Refs(states: seq<Merge>, pops: seq<Sender>, n: nat): set<(Sender, nat)>
    requires n <= |pops| && n <= |states|
  {
    if n == 0 then {}
    else if pops[n - 1] in states[n - 1].heads then
      Refs(states, pops, n - 1) + {(pops[n - 1], states[n - 1].heads[pops[n - 1]])}
    else Refs(states, pops, n - 1)
  }

  /** The merge ends: it pops each queue position at most once. */
  lemma {:induction false} PopsAreDistinct(p: Pool, nonces: map<Sender, u64>, decodes: Bytes -> bool, limits: Limits,
                                           states: seq<Merge>, pops: seq<Sender>, n: nat)
    requires Packs(p, nonces, decodes, limits, states, pops) && n <= |pops|
    ensures |Refs(states, pops, n)| == n && Refs(states, pops, n) <= AllRefs(p)
    ensures forall s, i :: (s, i) in Refs(states, pops, n) && s in states[n].heads ==> i < states[n].heads[s]
  {
    hide PopStep, Packs;
    if n > 0 {
      PopsAreDistinct(p, nonces, decodes, limits, states, pops, n - 1);
      StepOf(p, nonces, decodes, limits, states, pops, n - 1);
      PopMoves(p, decodes, limits, states[n - 1], pops[n - 1], states[n]);
    }
  }

  lemma PopMoves(p: Pool, decodes: Bytes -> bool, limits: Limits, before: Merge, s: Sender, after: Merge)
    requires PopStep(p, decodes, limits, before, s, after)
    ensures s in before.heads && s in p.queues && before.heads[s] < |p.queues[s]|
    ensures s in after.heads ==> after.heads[s] == before.heads[s] + 1
    ensures forall t :: t != s && t in after.heads ==> t in before.heads && after.heads[t] == before.heads[t]
  {
    hide Best, HeapOf, Takes;
  }

  lemma {:induction false} SubsetSize<T>(a: set<T>, b: set<T>)
    requires a <= b
    ensures |a| <= |b|
  {
    assert b == a + (b - a);
  }

  lemma PopsBounded(p: Pool, nonces: map<Sender, u64>, decodes: Bytes -> bool, limits: Limits,
                    states: seq<Merge>, pops: seq<Sender>)
    requires Packs(p, nonces, decodes, limits, states, pops)
    ensures |pops| <= |AllRefs(p)|
  {
    PopsAreDistinct(p, nonces, decodes, limits, states, pops, |pops|);
    SubsetSize(Refs(states, pops, |pops|), AllRefs(p));
  }
}
