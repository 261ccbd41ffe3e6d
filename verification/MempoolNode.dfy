/**
The pool as the node runs it: a class whose methods update the maps in place, each proved
equal to the value operation of modules `Mempool`, `MempoolStale` and `MempoolEviction`.
*/
module MempoolNode {
  import opened Mempool
  import opened MempoolStale
  import opened MempoolEviction
  import opened Machine
  import opened Wrappers

  /** Scanning a queue for a hash. */
  method FindInQueue(q: seq<TxItem>, h: Hash) returns (found: Option<TxItem>)
    ensures found.Some? ==> found.value in q && found.value.hash == h
    ensures found.None? ==> forall i :: 0 <= i < |q| ==> q[i].hash != h
  {
    for i := 0 to |q|
      invariant forall j :: 0 <= j < i ==> q[j].hash != h
    {
      if q[i].hash == h {
        return Some(q[i]);
      }
    }
    found := None;
  }

  method FilterQueue(q: seq<TxItem>, gone: set<Hash>) returns (kept: seq<TxItem>)
    ensures kept == Keep(q, gone)
  {
    kept := [];
    for i := 0 to |q|
      invariant kept == Keep(q[..i], gone)
    {
      assert q[..i + 1][..i] == q[..i];
      if q[i].hash !in gone {
        kept := kept + [q[i]];
      }
    }
    assert q[..|q|] == q;
  }

  function Splice(q: seq<TxItem>, place: nat, item: TxItem): seq<TxItem>
    requires place <= |q|
  {
    q[..place] + [item] + q[place..]
  }

  /** Where a nonce goes in a sorted queue, or that it is taken. */
  method FindPlace(queue: seq<TxItem>, nonce: u64) returns (place: nat, taken: bool)
    requires Sorted(queue)
    ensures place <= |queue| && taken == NonceTaken(queue, nonce)
    ensures !taken ==> forall item: TxItem :: item.nonce == nonce ==>
              InsertItem(queue, item) == Splice(queue, place, item)
  {
    hide NonceTaken;
    place := |queue|;
    for i := 0 to |queue|
      invariant place == |queue| && forall j :: 0 <= j < i ==> queue[j].nonce < nonce
    {
      if nonce < queue[i].nonce {
        PlaceIsInsert(queue, i, nonce);
        return i, false;
      } else if nonce == queue[i].nonce {
        TakenAt(queue, i);
        return i, true;
      }
    }
    PlaceIsInsert(queue, place, nonce);
    taken := false;
  }

  class TxPool {
    var pendingTxs: map<Hash, Bytes>
    var txSender: map<Hash, Sender>
    var txItems: map<Hash, TxItem>
    var txBySender: map<Sender, seq<TxItem>>
    var pendingSpend: map<Sender, u64>
    var projectedNonce: map<Sender, u64>

    ghost function State(): Pool
      reads this
    {
      Pool(pendingTxs, txSender, txItems, txBySender, pendingSpend, projectedNonce)
    }

    ghost predicate Valid()
      reads this
    {
      Agrees(State())
    }

    constructor ()
      ensures Valid() && State() == EMPTY
    {
      pendingTxs, txSender, txItems, txBySender := map[], map[], map[], map[];
      pendingSpend, projectedNonce := map[], map[];
      new;
      EmptyAgrees();
    }

    /** `addValidatedTxLocked`; senders are "0x" followed by hex digits, never empty. */
    method AddValidatedTx(hash: Hash, data: Bytes, sender: Sender, amount: u64, fee: u64, nonce: u64, creationFee: u64, now: int)
      returns (ok: bool)
      requires Valid() && sender != ""
      modifies this
      ensures
        var item := TxItem(hash, data, fee, amount, creationFee, |data|, now, nonce, sender);
        ok == AddedOk(old(State()), item) && State() == Added(old(State()), item)
      ensures Valid()
    {
      hide Agrees, InsertItem, NonceTaken, Sorted, Added, AddedOk, WrapAdd64, QueueOf, Splice, Reserved;
      ghost var before := State();
      var item := TxItem(hash, data, fee, amount, creationFee, |data|, now, nonce, sender);
      AddedCases(before, item);
      if hash in pendingTxs {
        return true;
      }
      pendingTxs := pendingTxs[hash := data];
      txSender := txSender[hash := sender];
      AddAgrees(before, item);
      var queue := if sender in txBySender then txBySender[sender] else [];
      QueueHere(before, sender);
      QueueSorted(before, sender);
      var place, taken := FindPlace(queue, nonce);
      if taken {
        return false;
      }
      Enqueue(item, queue, place);
      ok := true;
    }

    /** The four maps written once the place in the queue is known. */
    method Enqueue(item: TxItem, queue: seq<TxItem>, place: nat)
      requires place <= |queue|
      modifies this`txBySender, this`txItems, this`pendingSpend, this`projectedNonce
      ensures txBySender == old(txBySender)[item.sender := Splice(queue, place, item)]
      ensures txItems == old(txItems)[item.hash := item]
      ensures pendingSpend == Reserved(old(pendingSpend), item)
      ensures projectedNonce == old(projectedNonce)[item.sender := WrapAdd64(item.nonce, 1)]
    {
      txBySender := txBySender[item.sender := Splice(queue, place, item)];
      txItems := txItems[item.hash := item];
      var cost := WrapAdd64(WrapAdd64(item.amount, item.fee), item.creationFee);
      var spent := if item.sender in pendingSpend then pendingSpend[item.sender] else 0;
      pendingSpend := pendingSpend[item.sender := WrapAdd64(spent, cost)];
      projectedNonce := projectedNonce[item.sender := WrapAdd64(item.nonce, 1)];
    }

    /** `removeTransactionsLocked`: gather, filter the touched queues once, then settle each hash. */
    method RemoveTransactions(hashes: seq<Hash>)
      requires Valid()
      modifies this
      ensures State() == RemovedAll(old(State()), hashes)
      ensures Valid()
    {
      hide Agrees, RemovedAll, Without, Dropped, Members, Subtract, ChargesOf, AffectedBy;
      ghost var before := State();
      if hashes == [] {
        RemoveNothing(before);
        return;
      }
      RemoveAllAgrees(before, hashes);
      var gone := Members(hashes);
      var affected, charges := Gather(hashes);
      FilterAffected(affected, gone, hashes);
      RemoveNothing(before);
      assert hashes[..0] == [];
      for i := 0 to |hashes|
        invariant State() == RemovedAll(before, hashes[..i]).(queues := Dropped(before.queues, Members(hashes)))
      {
        var h := hashes[i];
        SettleStep(before, hashes, i, charges);
        if h !in pendingTxs {
          continue;
        }
        if h in charges && h in txSender {
          pendingSpend := Subtract(pendingSpend, txSender[h], charges[h]);
        }
        pendingTxs := Without(pendingTxs, {h});
        txItems := Without(txItems, {h});
        txSender := Without(txSender, {h});
      }
      assert hashes[..|hashes|] == hashes;
      NonEmptyQueues(before);
      RemoveAllIsFilter(before, hashes);
    }

    /** Senders touched by a batch, and what each queued transaction of it had reserved. */
    method Gather(hashes: seq<Hash>) returns (affected: set<Sender>, charges: map<Hash, Charge>)
      requires Valid()
      ensures affected == AffectedBy(State(), hashes)
      ensures charges == ChargesOf(State(), hashes)
    {
      hide Agrees;
      affected, charges := {}, map[];
      for i := 0 to |hashes|
        invariant affected == AffectedBy(State(), hashes[..i])
        invariant charges == ChargesOf(State(), hashes[..i])
      {
        var h := hashes[i];
        assert hashes[..i + 1] == hashes[..i] + [h];
        GatherStep(State(), h);
        ChargesStep(State(), hashes[..i], h);
        if h !in pendingTxs || h !in txSender {
          continue;
        }
        affected := affected + {txSender[h]};
        if h in txItems {
          charges := charges[h := ChargeOf(txItems[h])];
        } else {
          var queue := if txSender[h] in txBySender then txBySender[txSender[h]] else [];
          assert queue == QueueOf(State(), txSender[h]);
          var found := FindInQueue(queue, h);
          if found.Some? {
            charges := charges[h := ChargeOf(found.value)];
          }
        }
      }
      assert hashes[..|hashes|] == hashes;
    }

    /** One pass over the queue of every touched sender, in any order. */
    method FilterAffected(affected: set<Sender>, gone: set<Hash>, ghost hashes: seq<Hash>)
      requires Valid() && affected == AffectedBy(State(), hashes) && gone == Members(hashes)
      modifies this`txBySender
      ensures txBySender == Dropped(old(txBySender), gone)
    {
      hide Agrees, Keep, AffectedBy, Members, Dropped;
      ghost var before := State();
      NonEmptyQueues(before);
      var todo := affected;
      while todo != {}
        invariant todo <= affected
        invariant forall s :: s in txBySender <==>
                    s in before.queues && (s in affected - todo ==> Keep(before.queues[s], gone) != [])
        invariant forall s :: s in txBySender ==>
                    txBySender[s] == if s in affected - todo then Keep(before.queues[s], gone) else before.queues[s]
      {
        var s :| s in todo;
        todo := todo - {s};
        KeepOfNothing(gone);
        if s !in txBySender || txBySender[s] == [] {
          continue;
        }
        var kept := FilterQueue(txBySender[s], gone);
        if kept == [] {
          txBySender := Without(txBySender, {s});
        } else {
          txBySender := txBySender[s := kept];
        }
      }
      forall s | s in before.queues && s !in affected ensures Keep(before.queues[s], gone) == before.queues[s] != [] {
        UntouchedQueue(before, hashes, s);
      }
      FilteredIsDropped(before.queues, affected, txBySender, gone);
    }

    /** `RemoveStaleNonceTxsBatch` */
    method RemoveStaleNonceTxsBatch(senders: seq<Sender>, nonces: seq<u64>) returns (total: nat)
      requires Valid()
      modifies this
      ensures State() == StaleRemovedAll(old(State()), senders, nonces, Min(|senders|, |nonces|))
      ensures total == |old(pendingTxs)| - |pendingTxs|
      ensures Valid()
    {
      hide Agrees, StaleRemoved;
      ghost var before := State();
      total := 0;
      var n := Min(|senders|, |nonces|);
      for i := 0 to n
        invariant Valid() && State() == StaleRemovedAll(before, senders, nonces, i)
        invariant total == |before.pendingTxs| - |pendingTxs|
      {
        StaleAllAgrees(before, senders, nonces, i + 1);
        var removed := RemoveStaleOf(senders[i], nonces[i]);
        total := total + removed;
      }
    }

    /** The body of the stale removal for one sender. */
    method RemoveStaleOf(sender: Sender, nonce: u64) returns (removed: nat)
      requires Valid()
      modifies this
      ensures State() == StaleRemoved(old(State()), sender, nonce)
      ensures removed == |old(pendingTxs)| - |pendingTxs|
      ensures Valid()
    {
      hide Agrees, RemovedAll, StaleOf, CurrentOf, Without, HashesOf, StaleRemoved;
      ghost var before := State();
      StaleAgrees(before, sender, nonce);
      removed := 0;
      var queue := if sender in txBySender then txBySender[sender] else [];
      var stale := CollectStale(queue, nonce);
      if stale == [] {
        NothingStale(before, sender, nonce);
        return;
      }
      removed := SettleStale(sender, nonce, queue, stale);
      var remaining := CollectCurrent(queue, nonce);
      StaleFinish(before, sender, nonce);
      txBySender := if remaining != [] then txBySender[sender := remaining] else Without(txBySender, {sender});
      projectedNonce := Without(projectedNonce, {sender});
    }

    /** Settling the stale hashes of one sender in every map but the queues. */
    method SettleStale(sender: Sender, nonce: u64, queue: seq<TxItem>, stale: seq<Hash>) returns (removed: nat)
      requires Valid() && queue == QueueOf(State(), sender) && stale == HashesOf(StaleOf(queue, nonce))
      modifies this`pendingTxs, this`txItems, this`txSender, this`pendingSpend
      ensures State() == RemovedAll(old(State()), stale).(queues := old(txBySender))
      ensures removed == |stale| == |old(pendingTxs)| - |pendingTxs|
    {
      hide Agrees, RemovedAll, StaleOf, Without, Subtract, HashesOf, QueueOf, ChargeOf;
      ghost var before := State();
      removed := 0;
      RemoveNothing(before);
      assert stale[..0] == [];
      for i := 0 to |stale|
        invariant removed == i == |before.pendingTxs| - |pendingTxs|
        invariant State() == RemovedAll(before, stale[..i]).(queues := before.queues)
      {
        var h := stale[i];
        StaleStep(before, sender, nonce, i);
        var found := FindInQueue(queue, h);
        if found.Some? {
          pendingSpend := Subtract(pendingSpend, sender, ChargeOf(found.value));
        }
        pendingTxs := Without(pendingTxs, {h});
        txItems := Without(txItems, {h});
        txSender := Without(txSender, {h});
        removed := removed + 1;
      }
      assert stale[..|stale|] == stale;
    }

    /** `PerformCapacityEviction` */
    method PerformCapacityEviction() returns (ghost order: seq<Sender>)
      requires Valid()
      modifies this
      ensures Ranked(old(State()), order) && State() == Evicted(old(State()), order)
      ensures Valid()
    {
      hide Agrees, Ranked, RemovedAll, CutHashes;
      ghost var before := State();
      var spammers := RankSenders();
      var hashes := CutTails(spammers);
      RemoveTransactions(hashes);
      order := spammers;
    }

    /** Senders by queue length, longest first, then by address. */
    method RankSenders() returns (order: seq<Sender>)
      ensures Ranked(State(), order)
    {
      hide Ahead;
      order := [];
      var todo := txBySender.Keys;
      while todo != {}
        invariant todo <= txBySender.Keys && Ordered(State(), order)
        invariant forall s :: s in order <==> s in txBySender.Keys - todo
        invariant forall j :: 0 <= j < |order| ==> order[j] in txBySender
      {
        var s :| s in todo;
        todo := todo - {s};
        var place := 0;
        while place < |order| && (|txBySender[order[place]]| > |txBySender[s]| ||
                                  (|txBySender[order[place]]| == |txBySender[s]| && Precedes(order[place], s)))
          invariant place <= |order|
          invariant forall j :: 0 <= j < place ==> Ahead(State(), order[j], s)
        {
          AheadHere(State(), order[place], s);
          place := place + 1;
        }
        if place < |order| { AheadHere(State(), order[place], s); }
        OrderedInsert(State(), order, place, s);
        order := order[..place] + [s] + order[place..];
      }
    }

    /** Hashes of the tails to cut, sender by sender. */
    method CutTails(order: seq<Sender>) returns (hashes: seq<Hash>)
      requires Valid() && Ranked(State(), order)
      ensures hashes == CutHashes(State(), order, |order|)
    {
      hide Agrees, Ranked, CutHashes;
      hashes := [];
      var needed: nat := EVICT_THRESHOLD;
      NothingCut(State(), order);
      for n := 0 to |order|
        invariant needed == Needed(State(), order, n)
        invariant hashes == CutHashes(State(), order, n)
      {
        if needed == 0 {
          CutsNothingMore(State(), order, n, |order|);
          return;
        }
        RankedNonEmpty(State(), order, n);
        CutNext(State(), order, n);
        var queue := txBySender[order[n]];
        var cut := |queue| / 5;
        if cut == 0 {
          cut := 1;
        }
        if cut > needed {
          cut := needed;
        }
        hashes := hashes + HashesOf(queue[|queue| - cut..]);
        needed := needed - cut;
      }
    }

    method GetPendingSpend(sender: Sender) returns (spend: u64)
      ensures Exact(State(), sender) ==> spend == TotalCost(QueueOf(State(), sender))
    {
      spend := if sender in pendingSpend then pendingSpend[sender] else 0;
    }

    /** `getNextNonceLocked`: the first nonce from the current one on that is not queued, on 64 bits. */
    method GetNextNonce(sender: Sender, current: u64) returns (next: u64)
      requires Valid()
      ensures next == FirstFree(QueueOf(State(), sender), current) % (U64_MAX + 1)
    {
      hide Agrees;
      QueueSorted(State(), sender);
      next := ScanNonces(if sender in txBySender then txBySender[sender] else [], current);
    }

    method ClearProjectedNonce(sender: Sender)
      requires Valid()
      modifies this
      ensures State() == Step(old(State()), ClearProjected(sender)) && Valid()
    {
      ProjectedIsFree(State(), Without(projectedNonce, {sender}));
      projectedNonce := Without(projectedNonce, {sender});
    }
  }

  /** The first nonce from n on that no queued transaction has; 2^64 when all are taken. */
  ghost function FirstFree(queue: seq<TxItem>, n: nat): (free: nat)
    requires n <= U64_MAX + 1
    ensures n <= free <= U64_MAX + 1
    ensures forall k :: n <= k < free ==> NonceTaken(queue, k)
    ensures free <= U64_MAX ==> !NonceTaken(queue, free)
    decreases U64_MAX + 1 - n
  {
    if n <= U64_MAX && NonceTaken(queue, n) then FirstFree(queue, n + 1) else n
  }

  method ScanNonces(queue: seq<TxItem>, current: u64) returns (next: u64)
    requires Sorted(queue)
    ensures next == FirstFree(queue, current) % (U64_MAX + 1)
  {
    hide NonceTaken, FirstFree;
    next := current;
    ghost var free, seen: nat := current, 0;
    for i := 0 to |queue|
      invariant i == seen && current <= free <= U64_MAX + 1 && next == if free > U64_MAX then 0 else free
      invariant free > U64_MAX ==> i > 0 && queue[i - 1].nonce == U64_MAX
      invariant FirstFree(queue, current) == FirstFree(queue, free)
      invariant forall j :: 0 <= j < i ==> queue[j].nonce < free
    {
      var nonce := queue[i].nonce;
      if nonce >= current && nonce == next {
        TakenAt(queue, i);
        OneTaken(queue, free);
        next := WrapAdd64(next, 1);
        free := free + 1;
      } else if nonce >= current && nonce > next {
        break;
      }
      seen := i + 1;
    }
    NotTaken(queue, free, seen);
    NoneTaken(queue, free);
  }

  lemma OneTaken(queue: seq<TxItem>, n: nat)
    requires n <= U64_MAX && NonceTaken(queue, n)
    ensures FirstFree(queue, n) == FirstFree(queue, n + 1)
  {
    hide NonceTaken;
  }

  lemma NoneTaken(queue: seq<TxItem>, n: nat)
    requires n <= U64_MAX + 1 && (n <= U64_MAX ==> !NonceTaken(queue, n))
    ensures FirstFree(queue, n) == n
  {
    hide NonceTaken;
  }

  lemma TakenAt(queue: seq<TxItem>, i: nat)
    requires i < |queue|
    ensures NonceTaken(queue, queue[i].nonce)
  {
  }

  lemma NotTaken(queue: seq<TxItem>, free: nat, seen: nat)
    requires Sorted(queue) && seen <= |queue|
    requires forall j :: 0 <= j < seen ==> queue[j].nonce < free
    requires seen < |queue| ==> queue[seen].nonce > free
    ensures free <= U64_MAX ==> !NonceTaken(queue, free)
  {
  }

  lemma QueueSorted(p: Pool, s: Sender)
    requires Agrees(p)
    ensures Sorted(QueueOf(p, s))
  {
    EmptySorted();
  }

  // ----- steps of the methods

  lemma PlaceIsInsert(q: seq<TxItem>, place: nat, nonce: u64)
    requires Sorted(q) && place <= |q|
    requires forall j :: 0 <= j < place ==> q[j].nonce < nonce
    requires place < |q| ==> nonce < q[place].nonce
    ensures forall item: TxItem :: item.nonce == nonce ==> InsertItem(q, item) == Splice(q, place, item)
    ensures !NonceTaken(q, nonce)
  {
    forall j | place <= j < |q| ensures nonce < q[j].nonce {
    }
    var i := InsertIndex(q, nonce);
    assert i <= place && place <= i;
  }

  lemma QueueHere(p: Pool, s: Sender)
    ensures QueueOf(p, s) == if s in p.queues then p.queues[s] else []
  {
  }

  lemma AddedCases(p: Pool, x: TxItem)
    ensures x.hash in p.pendingTxs ==> AddedOk(p, x) && Added(p, x) == p
    ensures x.hash !in p.pendingTxs ==> AddedOk(p, x) == !NonceTaken(QueueOf(p, x.sender), x.nonce)
    ensures x.hash !in p.pendingTxs && !AddedOk(p, x) ==> Added(p, x) == Noted(p, x)
    ensures x.hash !in p.pendingTxs && AddedOk(p, x) ==>
              Added(p, x) == Noted(p, x).(
                txItems := p.txItems[x.hash := x],
                queues := p.queues[x.sender := InsertItem(QueueOf(p, x.sender), x)],
                pendingSpend := Reserved(p.pendingSpend, x),
                projectedNonce := p.projectedNonce[x.sender := WrapAdd64(x.nonce, 1)])
  {
    hide InsertItem, NonceTaken;
  }

  lemma RemoveNothing(p: Pool)
    ensures RemovedAll(p, []) == p
  {
  }

  function AffectedBy(p: Pool, hashes: seq<Hash>): set<Sender> {
    set h | h in hashes && h in p.pendingTxs && h in p.txSender :: p.txSender[h]
  }

  function ChargesOf(p: Pool, hashes: seq<Hash>): map<Hash, Charge> {
    map h | h in hashes && h in p.txItems :: ChargeOf(p.txItems[h])
  }

  lemma ChargesStep(p: Pool, hashes: seq<Hash>, h: Hash)
    ensures ChargesOf(p, hashes + [h]) ==
            if h in p.txItems then ChargesOf(p, hashes)[h := ChargeOf(p.txItems[h])] else ChargesOf(p, hashes)
  {
  }

  /** A pending hash outside `txItems` is in no queue. */
  lemma GatherStep(p: Pool, h: Hash)
    requires Agrees(p)
    ensures h in p.txItems ==> h in p.pendingTxs && h in p.txSender
    ensures h !in p.txItems ==> forall s, i :: 0 <= i < |QueueOf(p, s)| ==> QueueOf(p, s)[i].hash != h
  {
    IndexedIsPending(p);
    if h !in p.txItems {
      forall s, i | 0 <= i < |QueueOf(p, s)| ensures QueueOf(p, s)[i].hash != h {
        assert s in p.queues && p.queues[s][i].hash in p.txItems;
      }
    }
  }

  lemma UntouchedQueue(p: Pool, hashes: seq<Hash>, s: Sender)
    requires Agrees(p) && s in p.queues && s !in AffectedBy(p, hashes)
    ensures Keep(p.queues[s], Members(hashes)) == p.queues[s] != []
  {
    hide Keep;
    forall i | 0 <= i < |p.queues[s]| ensures p.queues[s][i].hash !in Members(hashes) {
    }
    KeepAll(p.queues[s], Members(hashes));
  }

  lemma FilteredIsDropped(before: map<Sender, seq<TxItem>>, affected: set<Sender>, after: map<Sender, seq<TxItem>>, gone: set<Hash>)
    requires forall s :: s in after <==> s in before && (s in affected ==> Keep(before[s], gone) != [])
    requires forall s :: s in after ==> after[s] == if s in affected then Keep(before[s], gone) else before[s]
    requires forall s :: s in before && s !in affected ==> Keep(before[s], gone) == before[s] != []
    ensures after == Dropped(before, gone)
  {
    hide Keep;
  }

  /** Settling hash i of a batch whose queues were filtered already. */
  lemma SettleStep(p: Pool, hashes: seq<Hash>, i: nat, charges: map<Hash, Charge>)
    requires Agrees(p) && i < |hashes| && charges == ChargesOf(p, hashes)
    ensures
      var h := hashes[i];
      var now := RemovedAll(p, hashes[..i]);
      var next := RemovedAll(p, hashes[..i + 1]);
      && next.pendingTxs == Without(now.pendingTxs, {h})
      && next.txSender == Without(now.txSender, {h})
      && next.txItems == Without(now.txItems, {h})
      && next.projectedNonce == now.projectedNonce
      && (h !in now.pendingTxs ==> next.(queues := now.queues) == now)
      && (h in now.pendingTxs && h !in charges ==> next.pendingSpend == now.pendingSpend)
      && (h in now.pendingTxs && h in charges ==>
            h in now.txSender && next.pendingSpend == Subtract(now.pendingSpend, now.txSender[h], charges[h]))
  {
    hide Agrees, Dropped, RemovedAll, Members;
    var h := hashes[i];
    var now := RemovedAll(p, hashes[..i]);
    RemoveLast(p, hashes, i);
    RemoveAllAgrees(p, hashes[..i]);
    ItemUnchanged(p, hashes[..i], h);
    RemoveOneEffect(now, h);
  }

  lemma RemoveLast(p: Pool, hashes: seq<Hash>, i: nat)
    requires i < |hashes|
    ensures RemovedAll(p, hashes[..i + 1]) == Removed(RemovedAll(p, hashes[..i]), hashes[i])
  {
    hide Removed;
    assert hashes[..i + 1][..i] == hashes[..i];
  }

  /** A hash still pending after some removals is indexed as it was before them. */
  lemma ItemUnchanged(p: Pool, hashes: seq<Hash>, h: Hash)
    requires Agrees(p)
    ensures
      var now := RemovedAll(p, hashes);
      h in now.pendingTxs ==> (h in now.txItems <==> h in p.txItems) && (h in now.txItems ==> now.txItems[h] == p.txItems[h])
  {
    hide Agrees, Dropped, RemovedAll;
    NonEmptyQueues(p);
    RemoveAllIsFilter(p, hashes);
  }

  lemma RemoveOneEffect(p: Pool, h: Hash)
    requires Agrees(p)
    ensures
      var next := Removed(p, h);
      && (h !in p.pendingTxs ==> next.(queues := p.queues) == p)
      && (h in p.txItems ==>
            && h in p.txSender && p.txSender[h] == p.txItems[h].sender
            && next.pendingSpend == Subtract(p.pendingSpend, p.txSender[h], ChargeOf(p.txItems[h])))
  {
    hide Agrees, Dropped;
    IndexedIsPending(p);
    SenderOfItem(p, h);
  }

  lemma SenderOfItem(p: Pool, h: Hash)
    requires Agrees(p)
    ensures h in p.txItems ==> h in p.txSender && p.txSender[h] == p.txItems[h].sender
    ensures h !in p.pendingTxs ==> h !in p.txSender
  {
    if h in p.txItems {
      assert p.txItems[h] in QueueOf(p, p.txItems[h].sender);
    }
  }

  method CollectStale(q: seq<TxItem>, nonce: u64) returns (stale: seq<Hash>)
    ensures stale == HashesOf(StaleOf(q, nonce))
  {
    stale := [];
    for i := 0 to |q|
      invariant stale == HashesOf(StaleOf(q[..i], nonce))
    {
      assert q[..i + 1][..i] == q[..i];
      if q[i].nonce < nonce {
        stale := stale + [q[i].hash];
      }
    }
    assert q[..|q|] == q;
  }

  method CollectCurrent(q: seq<TxItem>, nonce: u64) returns (remaining: seq<TxItem>)
    ensures remaining == CurrentOf(q, nonce)
  {
    remaining := [];
    for i := 0 to |q|
      invariant remaining == CurrentOf(q[..i], nonce)
    {
      assert q[..i + 1][..i] == q[..i];
      if q[i].nonce >= nonce {
        remaining := remaining + [q[i]];
      }
    }
    assert q[..|q|] == q;
  }

  lemma OnlyOneHas(p: Pool, s: Sender, h: Hash, x: TxItem)
    requires Agrees(p) && x in QueueOf(p, s) && x.hash == h
    ensures h in p.txItems && p.txItems[h] == x && x.sender == s
  {
    var i :| 0 <= i < |QueueOf(p, s)| && QueueOf(p, s)[i] == x;
    assert s in p.queues && p.queues[s][i] == x;
  }

  lemma {:induction false} StaleSorted(q: seq<TxItem>, nonce: u64)
    requires Sorted(q)
    ensures Sorted(StaleOf(q, nonce))
  {
    if q != [] {
      var rest := q[..|q| - 1];
      StaleSorted(rest, nonce);
      StaleMembers(rest, nonce);
      var front := StaleOf(rest, nonce);
      forall i | 0 <= i < |front| ensures front[i].nonce < q[|q| - 1].nonce {
        assert front[i] in rest;
      }
    }
  }

  /** The stale hashes of one sender are distinct. */
  lemma StaleDistinct(p: Pool, s: Sender, nonce: u64, i: nat, j: nat)
    requires Agrees(p)
    requires i < j < |StaleOf(QueueOf(p, s), nonce)|
    ensures StaleOf(QueueOf(p, s), nonce)[i].hash != StaleOf(QueueOf(p, s), nonce)[j].hash
  {
    hide QueuedIsIndexed, IndexedIsQueued;
    var q := QueueOf(p, s);
    var stale := StaleOf(q, nonce);
    EmptySorted();
    StaleSorted(q, nonce);
    StaleMembers(q, nonce);
    assert stale[i] in q && stale[j] in q;
    OnlyOneHas(p, s, stale[i].hash, stale[i]);
    OnlyOneHas(p, s, stale[j].hash, stale[j]);
  }

  /** Settling the i-th stale hash. */
  lemma StaleStep(p: Pool, s: Sender, nonce: u64, i: nat)
    requires Agrees(p) && i < |StaleOf(QueueOf(p, s), nonce)|
    ensures
      var q := QueueOf(p, s);
      var hashes := HashesOf(StaleOf(q, nonce));
      var h := hashes[i];
      var now := RemovedAll(p, hashes[..i]);
      var next := RemovedAll(p, hashes[..i + 1]);
      && (exists k :: 0 <= k < |q| && q[k].hash == h)
      && next.pendingTxs == Without(now.pendingTxs, {h}) && h in now.pendingTxs
      && |next.pendingTxs| == |now.pendingTxs| - 1
      && next.txSender == Without(now.txSender, {h})
      && next.txItems == Without(now.txItems, {h})
      && next.projectedNonce == now.projectedNonce
      && (forall x :: x in q && x.hash == h ==> next.pendingSpend == Subtract(now.pendingSpend, s, ChargeOf(x)))
  {
    hide Agrees, Dropped, StaleOf, RemovedAll, Without, Subtract;
    var q := QueueOf(p, s);
    var stale := StaleOf(q, nonce);
    var hashes := HashesOf(stale);
    var h := hashes[i];
    var now := RemovedAll(p, hashes[..i]);
    StaleMembers(q, nonce);
    assert stale[i] in q;
    OnlyOneHas(p, s, h, stale[i]);
    StaleStillThere(p, s, nonce, i);
    RemoveLast(p, hashes, i);
    RemoveAllAgrees(p, hashes[..i]);
    RemoveOneEffect(now, h);
    forall x | x in q && x.hash == h ensures x == stale[i] {
      OnlyOneHas(p, s, h, x);
    }
    WithoutOne(now.pendingTxs, h);
  }

  lemma StaleStillThere(p: Pool, s: Sender, nonce: u64, i: nat)
    requires Agrees(p) && i < |StaleOf(QueueOf(p, s), nonce)|
    ensures
      var stale := StaleOf(QueueOf(p, s), nonce);
      var now := RemovedAll(p, HashesOf(stale)[..i]);
      && stale[i].hash in now.pendingTxs && stale[i].hash in now.txItems
      && now.txItems[stale[i].hash] == stale[i] && stale[i].sender == s
  {
    hide Agrees, Dropped, StaleOf, RemovedAll;
    var q := QueueOf(p, s);
    var stale := StaleOf(q, nonce);
    StaleMembers(q, nonce);
    assert stale[i] in q;
    OnlyOneHas(p, s, stale[i].hash, stale[i]);
    IndexedIsPending(p);
    NonEmptyQueues(p);
    RemoveAllIsFilter(p, HashesOf(stale)[..i]);
    forall j | 0 <= j < i ensures HashesOf(stale)[j] != stale[i].hash {
      StaleDistinct(p, s, nonce, j, i);
    }
  }

  lemma WithoutOne<T>(m: map<Hash, T>, h: Hash)
    requires h in m
    ensures |Without(m, {h})| == |m| - 1
  {
    assert Without(m, {h}).Keys == m.Keys - {h};
    assert |Without(m, {h})| == |Without(m, {h}).Keys|;
    assert |m| == |m.Keys|;
  }

  lemma NothingStale(p: Pool, s: Sender, nonce: u64)
    requires StaleOf(QueueOf(p, s), nonce) == []
    ensures StaleRemoved(p, s, nonce) == p
  {
  }

  lemma StaleFinish(p: Pool, s: Sender, nonce: u64)
    requires Agrees(p) && StaleOf(QueueOf(p, s), nonce) != []
    ensures s in p.queues
    ensures
      var r := RemovedAll(p, HashesOf(StaleOf(p.queues[s], nonce)));
      && r.projectedNonce == p.projectedNonce
      && var remaining := CurrentOf(p.queues[s], nonce);
         && r.queues == (if remaining != [] then p.queues[s := remaining] else Without(p.queues, {s}))
         && StaleRemoved(p, s, nonce) == r.(projectedNonce := Without(p.projectedNonce, {s}))
  {
    hide Agrees, Dropped, CurrentOf;
    assert StaleOf([], nonce) == [];
    NonEmptyQueues(p);
    RemoveAllIsFilter(p, HashesOf(StaleOf(p.queues[s], nonce)));
    StaleQueues(p, s, nonce);
  }

  lemma AheadHere(p: Pool, a: Sender, b: Sender)
    requires a in p.queues && b in p.queues
    ensures Ahead(p, a, b) <==>
            |p.queues[a]| > |p.queues[b]| || (|p.queues[a]| == |p.queues[b]| && Precedes(a, b))
  {
  }

  lemma OrderedInsert(p: Pool, order: seq<Sender>, place: nat, s: Sender)
    requires Ordered(p, order) && place <= |order| && s !in order
    requires forall j :: 0 <= j < place ==> Ahead(p, order[j], s)
    requires place < |order| ==> !Ahead(p, order[place], s)
    ensures Ordered(p, order[..place] + [s] + order[place..])
    ensures forall t :: t in order[..place] + [s] + order[place..] <==> t in order || t == s
  {
    hide Ahead;
    assert order == order[..place] + order[place..];
    forall j | place <= j < |order| ensures Ahead(p, s, order[j]) {
      AheadOrders(p, s, order[place], order[j]);
      assert order[place] in order;
    }
  }

  lemma NothingCut(p: Pool, order: seq<Sender>)
    ensures CutHashes(p, order, 0) == [] && Needed(p, order, 0) == EVICT_THRESHOLD
  {
  }

  lemma CutNext(p: Pool, order: seq<Sender>, n: nat)
    requires n < |order| && QueueOf(p, order[n]) != []
    ensures CutAt(p, order, n) <= |QueueOf(p, order[n])|
    ensures CutHashes(p, order, n + 1) == CutHashes(p, order, n) +
            HashesOf(QueueOf(p, order[n])[|QueueOf(p, order[n])| - CutAt(p, order, n)..])
  {
  }

  lemma {:induction false} CutsNothingMore(p: Pool, order: seq<Sender>, n: nat, m: nat)
    requires n <= m <= |order| && Needed(p, order, n) == 0
    ensures Needed(p, order, m) == 0 && CutHashes(p, order, m) == CutHashes(p, order, n)
    decreases m - n
  {
    hide Needed, CutHashes;
    if n < m {
      CutsNothingMore(p, order, n, m - 1);
      CutNothing(p, order, m - 1);
    }
  }

  lemma CutNothing(p: Pool, order: seq<Sender>, n: nat)
    requires n < |order| && Needed(p, order, n) == 0
    ensures Needed(p, order, n + 1) == 0 && CutHashes(p, order, n + 1) == CutHashes(p, order, n)
  {
    var q := QueueOf(p, order[n]);
    hide QueueOf;
    assert CutAt(p, order, n) == 0;
    assert HashesOf(Tail(q, 0)) == [];
    assert CutHashes(p, order, n) + [] == CutHashes(p, order, n);
  }

}
