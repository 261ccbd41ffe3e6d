/**
The transaction pool as one value: what adding and removing do to its six maps, and the
agreement between those maps that every operation keeps. `MempoolNode` holds the methods
that update the maps in place.
*/
module Mempool {
  import opened Machine

  type Hash = string
  type Sender = string

  datatype TxItem = TxItem(
    hash: Hash, data: Bytes, fee: u64, amount: u64, creationFee: u64, size: nat, timestamp: int, nonce: u64, sender: Sender)

  datatype Pool = Pool(
    pendingTxs: map<Hash, Bytes>,
    txSender: map<Hash, Sender>,
    txItems: map<Hash, TxItem>,
    queues: map<Sender, seq<TxItem>>,
    pendingSpend: map<Sender, u64>,
    projectedNonce: map<Sender, u64>)

  const EMPTY := Pool(map[], map[], map[], map[], map[], map[])

  function QueueOf(p: Pool, s: Sender): seq<TxItem> {
    if s in p.queues then p.queues[s] else []
  }

  function SpendOf(spend: map<Sender, u64>, s: Sender): u64 {
    if s in spend then spend[s] else 0
  }

  // ----- queues

  /** What one transaction takes out of its sender's balance. */
  function Cost(item: TxItem): nat {
    item.amount + item.fee + item.creationFee
  }

  /** What the pool notes of a transaction to give its cost back later. */
  datatype Charge = Charge(amount: u64, fee: u64, creationFee: u64)

  function ChargeOf(x: TxItem): Charge {
    Charge(x.amount, x.fee, x.creationFee)
  }

  /** The cost on 64 bits, as the pool computes it. */
  function ChargeSum(c: Charge): u64 {
    WrapAdd64(WrapAdd64(c.amount, c.fee), c.creationFee)
  }

  function TotalCost(q: seq<TxItem>): nat {
    if q == [] then 0 else TotalCost(q[..|q| - 1]) + Cost(q[|q| - 1])
  }

  ghost predicate Sorted(q: seq<TxItem>) {
    forall i, j :: 0 <= i < j < |q| ==> q[i].nonce < q[j].nonce
  }

  predicate NonceTaken(q: seq<TxItem>, nonce: u64) {
    exists i :: 0 <= i < |q| && q[i].nonce == nonce
  }

  /** The first place whose nonce is larger. */
  function InsertIndex(q: seq<TxItem>, nonce: u64): (i: nat)
    ensures i <= |q|
    ensures forall j :: 0 <= j < i ==> q[j].nonce <= nonce
    ensures i < |q| ==> nonce < q[i].nonce
  {
    if q == [] || nonce < q[0].nonce then 0 else 1 + InsertIndex(q[1..], nonce)
  }

  function InsertItem(q: seq<TxItem>, item: TxItem): seq<TxItem> {
    var i := InsertIndex(q, item.nonce);
    q[..i] + [item] + q[i..]
  }

  function Keep(q: seq<TxItem>, gone: set<Hash>): seq<TxItem> {
    if q == [] then []
    else
      var front := Keep(q[..|q| - 1], gone);
      if q[|q| - 1].hash in gone then front else front + [q[|q| - 1]]
  }

  lemma {:induction false} TotalCostSplit(a: seq<TxItem>, b: seq<TxItem>)
    ensures TotalCost(a + b) == TotalCost(a) + TotalCost(b)
  {
    if b == [] {
      assert a + b == a;
    } else {
      TotalCostSplit(a, b[..|b| - 1]);
      assert (a + b)[..|a + b| - 1] == a + b[..|b| - 1];
    }
  }

  lemma InsertSorts(q: seq<TxItem>, item: TxItem)
    requires Sorted(q) && !NonceTaken(q, item.nonce)
    ensures Sorted(InsertItem(q, item))
    ensures TotalCost(InsertItem(q, item)) == TotalCost(q) + Cost(item)
    ensures multiset(InsertItem(q, item)) == multiset(q) + multiset{item}
  {
    hide TotalCost, NonceTaken, Sorted, InsertIndex;
    InsertStrict(q, item);
    var i := InsertIndex(q, item.nonce);
    var before, after := q[..i], q[i..];
    assert q == before + after;
    assert InsertItem(q, item) == before + ([item] + after);
    TotalCostSplit(before, after);
    TotalCostSplit(before, [item] + after);
    TotalCostSplit([item], after);
    SingleCost(item);
  }

  lemma InsertStrict(q: seq<TxItem>, item: TxItem)
    requires Sorted(q) && !NonceTaken(q, item.nonce)
    ensures Sorted(InsertItem(q, item))
  {
    var i := InsertIndex(q, item.nonce);
    var r := InsertItem(q, item);
    forall j | 0 <= j < i ensures r[j].nonce < item.nonce {
      assert q[j].nonce <= item.nonce && q[j].nonce != item.nonce;
    }
  }

  lemma {:induction false} KeepMembers(q: seq<TxItem>, gone: set<Hash>)
    ensures forall x :: x in Keep(q, gone) <==> x in q && x.hash !in gone
  {
    if q != [] {
      KeepMembers(q[..|q| - 1], gone);
      assert q == q[..|q| - 1] + [q[|q| - 1]];
    }
  }

  lemma {:induction false} KeepSorted(q: seq<TxItem>, gone: set<Hash>)
    requires Sorted(q)
    ensures Sorted(Keep(q, gone))
  {
    if q != [] {
      var rest := q[..|q| - 1];
      KeepSorted(rest, gone);
      KeepMembers(rest, gone);
      var front := Keep(rest, gone);
      forall i | 0 <= i < |front| ensures front[i].nonce < q[|q| - 1].nonce {
        assert front[i] in rest;
      }
    }
  }

  lemma {:induction false} KeepAll(q: seq<TxItem>, gone: set<Hash>)
    requires forall i :: 0 <= i < |q| ==> q[i].hash !in gone
    ensures Keep(q, gone) == q
  {
    if q != [] { KeepAll(q[..|q| - 1], gone); }
  }

  lemma {:induction false} KeepNone(q: seq<TxItem>, gone: set<Hash>)
    requires forall i :: 0 <= i < |q| ==> q[i].hash in gone
    ensures Keep(q, gone) == []
  {
    if q != [] { KeepNone(q[..|q| - 1], gone); }
  }

  lemma {:induction false} KeepSplit(a: seq<TxItem>, b: seq<TxItem>, gone: set<Hash>)
    ensures Keep(a + b, gone) == Keep(a, gone) + Keep(b, gone)
  {
    if b == [] {
      assert a + b == a;
    } else {
      KeepSplit(a, b[..|b| - 1], gone);
      assert (a + b)[..|a + b| - 1] == a + b[..|b| - 1];
    }
  }

  lemma {:induction false} KeepTwice(q: seq<TxItem>, first: set<Hash>, second: set<Hash>)
    ensures Keep(Keep(q, first), second) == Keep(q, first + second)
  {
    if q != [] {
      var rest := Keep(q[..|q| - 1], first);
      KeepTwice(q[..|q| - 1], first, second);
      if q[|q| - 1].hash !in first {
        assert (rest + [q[|q| - 1]])[..|rest|] == rest;
      }
    }
  }

  lemma SingleCost(x: TxItem)
    ensures TotalCost([x]) == Cost(x)
  {
    assert [x][..0] == [];
  }

  /** Dropping one of several distinct hashes lowers the total by its cost. */
  lemma KeepOneCost(q: seq<TxItem>, i: nat)
    requires i < |q| && forall j :: 0 <= j < |q| && j != i ==> q[j].hash != q[i].hash
    ensures TotalCost(Keep(q, {q[i].hash})) == TotalCost(q) - Cost(q[i])
  {
    hide TotalCost, Keep;
    var gone := {q[i].hash};
    var before, after := q[..i], q[i + 1..];
    assert q == before + ([q[i]] + after);
    KeepSplit(before, [q[i]] + after, gone);
    KeepSplit([q[i]], after, gone);
    KeepAll(before, gone);
    KeepAll(after, gone);
    KeepNone([q[i]], gone);
    TotalCostSplit(before, after);
    TotalCostSplit(before, [q[i]] + after);
    TotalCostSplit([q[i]], after);
    SingleCost(q[i]);
    assert [] + after == after;
  }

  // ----- the operations

  /** The two maps written before the nonce is looked at. */
  function Noted(p: Pool, item: TxItem): Pool {
    p.(pendingTxs := p.pendingTxs[item.hash := item.data], txSender := p.txSender[item.hash := item.sender])
  }

  function Reserved(spend: map<Sender, u64>, item: TxItem): map<Sender, u64> {
    spend[item.sender := WrapAdd64(SpendOf(spend, item.sender), ChargeSum(ChargeOf(item)))]
  }

  /** `addValidatedTxLocked`: a taken nonce is refused after the first two maps were written. */
  function Added(p: Pool, item: TxItem): Pool {
    if item.hash in p.pendingTxs then p
    else if NonceTaken(QueueOf(p, item.sender), item.nonce) then Noted(p, item)
    else
      Noted(p, item).(
        queues := p.queues[item.sender := InsertItem(QueueOf(p, item.sender), item)],
        txItems := p.txItems[item.hash := item],
        pendingSpend := Reserved(p.pendingSpend, item),
        projectedNonce := p.projectedNonce[item.sender := WrapAdd64(item.nonce, 1)])
  }

  function AddedOk(p: Pool, item: TxItem): bool {
    item.hash in p.pendingTxs || !NonceTaken(QueueOf(p, item.sender), item.nonce)
  }

  /** `delete` on a map. */
  function Without<T>(m: map<string, T>, gone: set<string>): map<string, T> {
    map k | k in m && k !in gone :: m[k]
  }

  /** All queues without some hashes; a queue left empty is dropped. */
  function Dropped(queues: map<Sender, seq<TxItem>>, gone: set<Hash>): map<Sender, seq<TxItem>> {
    map s | s in queues && Keep(queues[s], gone) != [] :: Keep(queues[s], gone)
  }

  /** Giving a cost back, never below zero. */
  function Subtract(spend: map<Sender, u64>, s: Sender, c: Charge): map<Sender, u64> {
    spend[s := if SpendOf(spend, s) >= ChargeSum(c) then SpendOf(spend, s) - ChargeSum(c) else 0]
  }

  /** Taking out one hash. */
  function Removed(p: Pool, h: Hash): Pool {
    Pool(
      Without(p.pendingTxs, {h}), Without(p.txSender, {h}), Without(p.txItems, {h}), Dropped(p.queues, {h}),
      if h in p.txItems then Subtract(p.pendingSpend, p.txItems[h].sender, ChargeOf(p.txItems[h])) else p.pendingSpend,
      p.projectedNonce)
  }

  function RemovedAll(p: Pool, hashes: seq<Hash>): Pool {
    if hashes == [] then p
    else Removed(RemovedAll(p, hashes[..|hashes| - 1]), hashes[|hashes| - 1])
  }

  function HashesOf(q: seq<TxItem>): (hashes: seq<Hash>)
    ensures |hashes| == |q|
  {
    seq(|q|, i requires 0 <= i < |q| => q[i].hash)
  }

  /** The queued transactions of a sender whose nonce is behind the ledger. */
  function StaleOf(q: seq<TxItem>, nonce: u64): seq<TxItem> {
    if q == [] then []
    else
      var front := StaleOf(q[..|q| - 1], nonce);
      if q[|q| - 1].nonce < nonce then front + [q[|q| - 1]] else front
  }

  function StaleRemoved(p: Pool, s: Sender, nonce: u64): Pool {
    var stale := StaleOf(QueueOf(p, s), nonce);
    if stale == [] then p
    else RemovedAll(p, HashesOf(stale)).(projectedNonce := Without(p.projectedNonce, {s}))
  }

  function StaleRemovedAll(p: Pool, senders: seq<Sender>, nonces: seq<u64>, n: nat): Pool
    requires n <= |senders| && n <= |nonces|
  {
    if n == 0 then p else StaleRemoved(StaleRemovedAll(p, senders, nonces, n - 1), senders[n - 1], nonces[n - 1])
  }

  // ----- agreement between the maps

  ghost predicate QueuesOk(queues: map<Sender, seq<TxItem>>) {
    forall s :: s in queues ==>
      s != "" && queues[s] != [] && Sorted(queues[s]) && forall i :: 0 <= i < |queues[s]| ==> queues[s][i].sender == s
  }

  /** Every queued transaction is found by its hash in all three hash maps. */
  ghost predicate QueuedIsIndexed(p: Pool) {
    forall s, i :: s in p.queues && 0 <= i < |p.queues[s]| ==>
      var x := p.queues[s][i];
      && x.hash in p.txItems && p.txItems[x.hash] == x
      && x.hash in p.pendingTxs && x.hash in p.txSender && p.txSender[x.hash] == s
  }

  /** Every indexed transaction is queued under its sender. */
  ghost predicate IndexedIsQueued(p: Pool) {
    forall h :: h in p.txItems ==> p.txItems[h].hash == h && p.txItems[h] in QueueOf(p, p.txItems[h].sender)
  }

  ghost predicate Agrees(p: Pool) {
    QueuesOk(p.queues) && QueuedIsIndexed(p) && IndexedIsQueued(p) && p.pendingTxs.Keys == p.txSender.Keys
  }

  /** The recorded spend of a sender is what its queue costs. */
  ghost predicate Exact(p: Pool, s: Sender) {
    SpendOf(p.pendingSpend, s) == TotalCost(QueueOf(p, s))
  }

  lemma AddAgrees(p: Pool, item: TxItem)
    requires Agrees(p) && item.sender != ""
    ensures Agrees(Added(p, item))
  {
    hide InsertItem, Sorted, QueuesOk, QueuedIsIndexed, IndexedIsQueued, NonceTaken;
    if item.hash !in p.pendingTxs {
      if NonceTaken(QueueOf(p, item.sender), item.nonce) {
        NotedIndexed(p, item);
      } else {
        AddQueues(p, item);
        AddIndexed(p, item);
        AddQueued(p, item);
      }
    }
  }

  lemma NotedIndexed(p: Pool, item: TxItem)
    requires Agrees(p) && item.hash !in p.pendingTxs && NonceTaken(QueueOf(p, item.sender), item.nonce)
    ensures QueuedIsIndexed(Added(p, item)) && IndexedIsQueued(Added(p, item))
  {
    hide InsertItem, Sorted, NonceTaken;
  }

  lemma AddQueues(p: Pool, item: TxItem)
    requires Agrees(p) && item.sender != ""
    requires item.hash !in p.pendingTxs && !NonceTaken(QueueOf(p, item.sender), item.nonce)
    ensures QueuesOk(Added(p, item).queues)
  {
    hide InsertItem, Sorted, NonceTaken;
    var q := QueueOf(p, item.sender);
    EmptySorted();
    InsertSorts(q, item);
    InsertMembers(q, item);
    var r := InsertItem(q, item);
    forall i | 0 <= i < |r| ensures r[i].sender == item.sender {
      assert r[i] in r;
    }
  }

  lemma AddIndexed(p: Pool, item: TxItem)
    requires Agrees(p) && item.hash !in p.pendingTxs && !NonceTaken(QueueOf(p, item.sender), item.nonce)
    ensures QueuedIsIndexed(Added(p, item))
  {
    hide InsertItem, Sorted, NonceTaken;
    var q := QueueOf(p, item.sender);
    InsertMembers(q, item);
    var r := Added(p, item);
    forall s, i | s in r.queues && 0 <= i < |r.queues[s]|
      ensures
        var x := r.queues[s][i];
        && x.hash in r.txItems && r.txItems[x.hash] == x
        && x.hash in r.pendingTxs && x.hash in r.txSender && r.txSender[x.hash] == s
    {
      var x := r.queues[s][i];
      assert x in r.queues[s];
      if x != item {
        assert x in QueueOf(p, s);
      }
    }
  }

  lemma AddQueued(p: Pool, item: TxItem)
    requires Agrees(p) && item.hash !in p.pendingTxs && !NonceTaken(QueueOf(p, item.sender), item.nonce)
    ensures IndexedIsQueued(Added(p, item))
  {
    hide InsertItem, Sorted, NonceTaken;
    InsertMembers(QueueOf(p, item.sender), item);
  }

  lemma EmptySorted()
    ensures Sorted([])
  {
  }

  lemma InsertMembers(q: seq<TxItem>, item: TxItem)
    ensures forall x :: x in InsertItem(q, item) <==> x in q || x == item
    ensures InsertItem(q, item) != []
  {
    var i := InsertIndex(q, item.nonce);
    assert q == q[..i] + q[i..];
  }

  /** While a sender's queue costs less than 2^64, adding keeps its spend exact. */
  lemma AddExact(p: Pool, item: TxItem, s: Sender)
    requires Agrees(p) && Exact(p, s) && TotalCost(QueueOf(Added(p, item), s)) <= U64_MAX
    ensures Exact(Added(p, item), s)
  {
    hide TotalCost, InsertItem;
    var q := QueueOf(p, item.sender);
    if item.hash !in p.pendingTxs && !NonceTaken(q, item.nonce) {
      EmptySorted();
      InsertSorts(q, item);
    }
  }

  /** Two queued transactions with one hash are the same one. */
  lemma OneHash(p: Pool, s: Sender, i: nat, t: Sender, j: nat)
    requires Agrees(p) && i < |QueueOf(p, s)| && j < |QueueOf(p, t)|
    requires QueueOf(p, s)[i].hash == QueueOf(p, t)[j].hash
    ensures s == t && i == j
  {
    assert s in p.queues && t in p.queues;
    var x := p.queues[s][i];
    assert p.txItems[x.hash] == x == p.queues[t][j];
  }

  lemma RemoveAgrees(p: Pool, h: Hash)
    requires Agrees(p)
    ensures Agrees(Removed(p, h))
  {
    hide Keep, Sorted;
    var r := Removed(p, h);
    forall s | s in p.queues
      ensures Sorted(Keep(p.queues[s], {h}))
      ensures forall x :: x in Keep(p.queues[s], {h}) <==> x in p.queues[s] && x.hash != h
    {
      KeepSorted(p.queues[s], {h});
      KeepMembers(p.queues[s], {h});
    }
    DroppedIndexed(p, h);
    DroppedQueued(p, h);
    assert QueuesOk(r.queues) by {
      forall s | s in r.queues
        ensures s != "" && r.queues[s] != [] && Sorted(r.queues[s]) && forall i :: 0 <= i < |r.queues[s]| ==> r.queues[s][i].sender == s
      {
        assert forall i :: 0 <= i < |r.queues[s]| ==> r.queues[s][i] in p.queues[s];
      }
    }
  }

  lemma DroppedIndexed(p: Pool, h: Hash)
    requires QueuedIsIndexed(p)
    ensures QueuedIsIndexed(Removed(p, h))
  {
    hide Keep;
    var r := Removed(p, h);
    forall s, i | s in r.queues && 0 <= i < |r.queues[s]|
      ensures
        var x := r.queues[s][i];
        && x.hash in r.txItems && r.txItems[x.hash] == x
        && x.hash in r.pendingTxs && x.hash in r.txSender && r.txSender[x.hash] == s
    {
      KeepMembers(p.queues[s], {h});
      assert r.queues[s][i] in p.queues[s];
    }
  }

  lemma DroppedQueued(p: Pool, h: Hash)
    requires IndexedIsQueued(p)
    ensures IndexedIsQueued(Removed(p, h))
  {
    hide Keep;
    var r := Removed(p, h);
    forall k | k in r.txItems ensures r.txItems[k].hash == k && r.txItems[k] in QueueOf(r, r.txItems[k].sender) {
      var x := p.txItems[k];
      KeepMembers(p.queues[x.sender], {h});
    }
  }

  /** Removing keeps every exact spend exact. */
  lemma RemoveExact(p: Pool, h: Hash, s: Sender)
    requires Agrees(p) && Exact(p, s)
    requires TotalCost(QueueOf(p, s)) <= U64_MAX
    ensures Exact(Removed(p, h), s)
    ensures TotalCost(QueueOf(Removed(p, h), s)) <= TotalCost(QueueOf(p, s))
  {
    hide Keep, TotalCost, Sorted;
    var q := QueueOf(p, s);
    NothingCostsNothing();
    QueueOfDropped(p, h, s);
    if i :| 0 <= i < |q| && q[i].hash == h {
      forall j | 0 <= j < |q| && j != i ensures q[j].hash != q[i].hash {
        if q[j].hash == q[i].hash { OneHash(p, s, i, s, j); }
      }
      KeepOneCost(q, i);
      assert p.txItems[h] == q[i];
    } else {
      KeepAll(q, {h});
      if h in p.txItems {
        assert p.txItems[h] in QueueOf(p, p.txItems[h].sender);
      }
    }
  }

  lemma NothingCostsNothing()
    ensures TotalCost([]) == 0
  {
  }

  lemma QueueOfDropped(p: Pool, h: Hash, s: Sender)
    ensures QueueOf(Removed(p, h), s) == Keep(QueueOf(p, s), {h})
  {
  }

  lemma {:induction false} RemoveAllAgrees(p: Pool, hashes: seq<Hash>)
    requires Agrees(p)
    ensures Agrees(RemovedAll(p, hashes))
  {
    hide Agrees, Removed;
    if hashes != [] {
      var rest := hashes[..|hashes| - 1];
      RemoveAllAgrees(p, rest);
      RemoveAgrees(RemovedAll(p, rest), hashes[|hashes| - 1]);
    }
  }

  lemma {:induction false} RemoveAllExact(p: Pool, hashes: seq<Hash>, s: Sender)
    requires Agrees(p) && Exact(p, s) && TotalCost(QueueOf(p, s)) <= U64_MAX
    ensures Exact(RemovedAll(p, hashes), s)
    ensures TotalCost(QueueOf(RemovedAll(p, hashes), s)) <= TotalCost(QueueOf(p, s))
  {
    hide Agrees, Removed, Exact, TotalCost, QueueOf;
    if hashes != [] {
      var rest := hashes[..|hashes| - 1];
      RemoveAllAgrees(p, rest);
      RemoveAllExact(p, rest, s);
      RemoveExact(RemovedAll(p, rest), hashes[|hashes| - 1], s);
    }
  }

  lemma DropTwice(queues: map<Sender, seq<TxItem>>, first: set<Hash>, second: set<Hash>)
    ensures Dropped(Dropped(queues, first), second) == Dropped(queues, first + second)
  {
    hide Keep;
    forall s | s in queues ensures Keep(Keep(queues[s], first), second) == Keep(queues[s], first + second) {
      KeepTwice(queues[s], first, second);
    }
    KeepOfNothing(second);
  }

  lemma KeepOfNothing(gone: set<Hash>)
    ensures Keep([], gone) == []
  {
  }

  function Members(hashes: seq<Hash>): set<Hash> {
    set h | h in hashes
  }

  lemma MembersStep(hashes: seq<Hash>)
    requires hashes != []
    ensures Members(hashes) == Members(hashes[..|hashes| - 1]) + {hashes[|hashes| - 1]}
  {
    assert hashes == hashes[..|hashes| - 1] + [hashes[|hashes| - 1]];
  }

  /** Removing hashes one by one leaves what filtering every map once leaves. */
  lemma {:induction false} RemoveAllIsFilter(p: Pool, hashes: seq<Hash>)
    requires forall s :: s in p.queues ==> p.queues[s] != []
    ensures
      var r := RemovedAll(p, hashes);
      && r.pendingTxs == Without(p.pendingTxs, Members(hashes))
      && r.txSender == Without(p.txSender, Members(hashes))
      && r.txItems == Without(p.txItems, Members(hashes))
      && r.queues == Dropped(p.queues, Members(hashes))
      && r.projectedNonce == p.projectedNonce
  {
    hide Keep;
    if hashes == [] {
      forall s | s in p.queues ensures Keep(p.queues[s], {}) == p.queues[s] {
        KeepAll(p.queues[s], {});
      }
      assert Members(hashes) == {};
    } else {
      hide Dropped, Members;
      var rest, h := hashes[..|hashes| - 1], hashes[|hashes| - 1];
      RemoveAllIsFilter(p, rest);
      MembersStep(hashes);
      DropTwice(p.queues, Members(rest), {h});
    }
  }
}
