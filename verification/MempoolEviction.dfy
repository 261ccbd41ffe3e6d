/** Capacity eviction: whom it cuts, how much, and that only tails of queues go. */
module MempoolEviction {
  import opened Mempool
  import opened MempoolStale
  import opened Machine

  const EVICT_THRESHOLD := 5000

  // ----- the order of senders

  /** Go's string order. */
  predicate Precedes(a: Sender, b: Sender) {
    if b == "" then false
    else if a == "" then true
    else a[0] < b[0] || (a[0] == b[0] && Precedes(a[1..], b[1..]))
  }

  lemma {:induction false} PrecedesTotal(a: Sender, b: Sender)
    ensures a == b || Precedes(a, b) || Precedes(b, a)
    ensures !(Precedes(a, b) && Precedes(b, a)) && !Precedes(a, a)
  {
    if a != "" && b != "" {
      PrecedesTotal(a[1..], b[1..]);
      assert a == [a[0]] + a[1..] && b == [b[0]] + b[1..];
    }
    if a != "" { PrecedesTotal(a[1..], a[1..]); }
  }

  lemma {:induction false} PrecedesTransitive(a: Sender, b: Sender, c: Sender)
    requires Precedes(a, b) && Precedes(b, c)
    ensures Precedes(a, c)
  {
    if a != "" && a[0] == b[0] == c[0] {
      PrecedesTransitive(a[1..], b[1..], c[1..]);
    }
  }

  /** Larger queues first, then by address. */
  predicate Ahead(p: Pool, a: Sender, b: Sender) {
    || |QueueOf(p, a)| > |QueueOf(p, b)|
    || (|QueueOf(p, a)| == |QueueOf(p, b)| && Precedes(a, b))
  }

  lemma AheadOrders(p: Pool, a: Sender, b: Sender, c: Sender)
    ensures a == b || Ahead(p, a, b) || Ahead(p, b, a)
    ensures Ahead(p, a, b) && Ahead(p, b, c) ==> Ahead(p, a, c)
    ensures !Ahead(p, a, a)
  {
    PrecedesTotal(a, b);
    PrecedesTotal(a, a);
    if Precedes(a, b) && Precedes(b, c) { PrecedesTransitive(a, b, c); }
  }

  ghost predicate Ordered(p: Pool, order: seq<Sender>) {
    forall i, j :: 0 <= i < j < |order| ==> Ahead(p, order[i], order[j])
  }

  /** The senders of the pool, each once, in cutting order. */
  ghost predicate Ranked(p: Pool, order: seq<Sender>) {
    Ordered(p, order) && forall s :: s in order <==> s in p.queues
  }

  // ----- what is cut

  /** A fifth of the queue, at least one, at most what is still needed. */
  function CutCount(length: nat, needed: nat): nat {
    var fifth := if length / 5 == 0 then 1 else length / 5;
    if fifth > needed then needed else fifth
  }

  /** Still to be freed before the n-th sender of the order. */
  function Needed(p: Pool, order: seq<Sender>, n: nat): nat
    requires n <= |order|
  {
    if n == 0 then EVICT_THRESHOLD
    else
      var before := Needed(p, order, n - 1);
      before - CutCount(|QueueOf(p, order[n - 1])|, before)
  }

  function CutAt(p: Pool, order: seq<Sender>, n: nat): (c: nat)
    requires n < |order|
  {
    CutCount(|QueueOf(p, order[n])|, Needed(p, order, n))
  }

  function Tail(q: seq<TxItem>, count: nat): seq<TxItem> {
    if count <= |q| then q[|q| - count..] else q
  }

  /** The hashes cut from the first n senders. */
  function CutHashes(p: Pool, order: seq<Sender>, n: nat): seq<Hash>
    requires n <= |order|
  {
    if n == 0 then []
    else CutHashes(p, order, n - 1) + HashesOf(Tail(QueueOf(p, order[n - 1]), CutAt(p, order, n - 1)))
  }

  lemma CutFits(p: Pool, order: seq<Sender>, n: nat)
    requires n < |order| && QueueOf(p, order[n]) != []
    ensures CutAt(p, order, n) <= |QueueOf(p, order[n])|
    ensures |Tail(QueueOf(p, order[n]), CutAt(p, order, n))| == CutAt(p, order, n)
  {
  }

  /** Every hash cut lowers what is still needed by one. */
  lemma {:induction false} CutTotal(p: Pool, order: seq<Sender>, n: nat)
    requires n <= |order| && forall i :: 0 <= i < |order| ==> QueueOf(p, order[i]) != []
    ensures |CutHashes(p, order, n)| + Needed(p, order, n) == EVICT_THRESHOLD
  {
    hide CutCount, Tail;
    if n > 0 {
      CutTotal(p, order, n - 1);
      CutFits(p, order, n - 1);
    }
  }

  /** A hash is cut exactly when its transaction is in the cut tail of its queue. */
  lemma {:induction false} CutMembers(p: Pool, order: seq<Sender>, n: nat, m: nat, j: nat)
    requires Agrees(p) && Ranked(p, order) && n <= |order| && m < |order| && j < |QueueOf(p, order[m])|
    ensures QueueOf(p, order[m])[j].hash in CutHashes(p, order, n) <==>
            m < n && j >= |QueueOf(p, order[m])| - CutAt(p, order, m)
  {
    hide Agrees, CutAt, Ranked, Tail, QueueOf, HashesOf;
    if n > 0 {
      CutMembers(p, order, n - 1, m, j);
      CutsOf(p, order, n - 1, m, j);
    }
  }

  /** The hashes cut from one sender. */
  lemma CutsOf(p: Pool, order: seq<Sender>, n: nat, m: nat, j: nat)
    requires Agrees(p) && Ranked(p, order) && n < |order| && m < |order| && j < |QueueOf(p, order[m])|
    ensures QueueOf(p, order[m])[j].hash in HashesOf(Tail(QueueOf(p, order[n]), CutAt(p, order, n))) <==>
            m == n && j >= |QueueOf(p, order[m])| - CutAt(p, order, m)
  {
    hide Agrees, CutAt, Ranked, QueueOf;
    var q := QueueOf(p, order[n]);
    var x := QueueOf(p, order[m])[j];
    RankedNonEmpty(p, order, n);
    CutFits(p, order, n);
    var tail := Tail(q, CutAt(p, order, n));
    if x.hash in HashesOf(tail) {
      var k :| 0 <= k < |tail| && tail[k].hash == x.hash;
      OneHash(p, order[n], |q| - |tail| + k, order[m], j);
      RankedOnce(p, order, n, m);
    }
    if m == n && j >= |q| - CutAt(p, order, m) {
      assert tail[j - (|q| - |tail|)] == x;
      assert HashesOf(tail)[j - (|q| - |tail|)] == x.hash;
    }
  }

  lemma RankedNonEmpty(p: Pool, order: seq<Sender>, n: nat)
    requires Agrees(p) && Ranked(p, order) && n < |order|
    ensures order[n] in p.queues && QueueOf(p, order[n]) != []
  {
    assert order[n] in order;
  }

  lemma RankedOnce(p: Pool, order: seq<Sender>, i: nat, j: nat)
    requires Ranked(p, order) && i < |order| && j < |order| && order[i] == order[j]
    ensures i == j
  {
    AheadOrders(p, order[i], order[j], order[i]);
  }

  ghost function Evicted(p: Pool, order: seq<Sender>): Pool {
    RemovedAll(p, CutHashes(p, order, |order|))
  }

  /** Eviction leaves each queue without a tail of the counted length, and takes at most 5000. */
  lemma EvictionCutsTails(p: Pool, order: seq<Sender>)
    requires Agrees(p) && Ranked(p, order)
    ensures |CutHashes(p, order, |order|)| <= EVICT_THRESHOLD
    ensures forall m :: 0 <= m < |order| ==>
              && CutAt(p, order, m) <= |QueueOf(p, order[m])|
              && QueueOf(Evicted(p, order), order[m]) ==
                 QueueOf(p, order[m])[..|QueueOf(p, order[m])| - CutAt(p, order, m)]
  {
    hide Agrees, CutAt, Ranked, Dropped;
    forall i | 0 <= i < |order| ensures QueueOf(p, order[i]) != [] {
      RankedNonEmpty(p, order, i);
    }
    CutTotal(p, order, |order|);
    NonEmptyQueues(p);
    RemoveAllIsFilter(p, CutHashes(p, order, |order|));
    forall m | 0 <= m < |order|
      ensures CutAt(p, order, m) <= |QueueOf(p, order[m])|
      ensures QueueOf(Evicted(p, order), order[m]) ==
              QueueOf(p, order[m])[..|QueueOf(p, order[m])| - CutAt(p, order, m)]
    {
      CutFits(p, order, m);
      KeepsFront(p, order, m);
      DroppedQueue(p.queues, Members(CutHashes(p, order, |order|)), order[m], Evicted(p, order));
    }
  }

  lemma DroppedQueue(queues: map<Sender, seq<TxItem>>, gone: set<Hash>, s: Sender, r: Pool)
    requires s in queues && r.queues == Dropped(queues, gone)
    ensures QueueOf(r, s) == Keep(queues[s], gone)
  {
  }

  lemma KeepsFront(p: Pool, order: seq<Sender>, m: nat)
    requires Agrees(p) && Ranked(p, order) && m < |order| && CutAt(p, order, m) <= |QueueOf(p, order[m])|
    ensures Keep(QueueOf(p, order[m]), Members(CutHashes(p, order, |order|))) ==
            QueueOf(p, order[m])[..|QueueOf(p, order[m])| - CutAt(p, order, m)]
  {
    hide Agrees, CutAt, Ranked, Keep;
    var q, gone := QueueOf(p, order[m]), Members(CutHashes(p, order, |order|));
    var keep := |q| - CutAt(p, order, m);
    forall j | 0 <= j < |q| ensures q[j].hash in gone <==> j >= keep {
      CutMembers(p, order, |order|, m, j);
    }
    KeepSplit(q[..keep], q[keep..], gone);
    KeepAll(q[..keep], gone);
    KeepNone(q[keep..], gone);
    assert q[..keep] + q[keep..] == q;
    assert q[..keep] + [] == q[..keep];
  }

  /** Nobody is cut before everyone ahead of them has lost their full fifth. */
  lemma {:induction false} LargestFirst(p: Pool, order: seq<Sender>, i: nat, j: nat)
    requires i < j < |order| && CutAt(p, order, j) > 0
    ensures CutAt(p, order, i) == Max(|QueueOf(p, order[i])| / 5, 1)
  {
    NeededFalls(p, order, i + 1, j);
  }

  lemma {:induction false} NeededFalls(p: Pool, order: seq<Sender>, i: nat, j: nat)
    requires i <= j <= |order|
    ensures Needed(p, order, j) <= Needed(p, order, i)
    decreases j - i
  {
    if i < j { NeededFalls(p, order, i, j - 1); }
  }

  lemma EvictAgrees(p: Pool, order: seq<Sender>, s: Sender)
    requires Agrees(p)
    ensures Agrees(Evicted(p, order))
    ensures (Exact(p, s) && TotalCost(QueueOf(p, s)) <= U64_MAX) ==>
              Exact(Evicted(p, order), s) && TotalCost(QueueOf(Evicted(p, order), s)) <= TotalCost(QueueOf(p, s))
  {
    hide Agrees, Exact, TotalCost;
    RemoveAllAgrees(p, CutHashes(p, order, |order|));
    if Exact(p, s) && TotalCost(QueueOf(p, s)) <= U64_MAX {
      RemoveAllExact(p, CutHashes(p, order, |order|), s);
    }
  }

  // ----- whole runs

  datatype Op =
    | Add(item: TxItem)
    | Remove(hashes: seq<Hash>)
    | RemoveStale(senders: seq<Sender>, nonces: seq<u64>)
    | Evict(order: seq<Sender>)
    | ClearProjected(sender: Sender)

  ghost predicate Enabled(p: Pool, op: Op) {
    match op
    case Add(item) => item.sender != ""
    case Evict(order) => Ranked(p, order)
    case _ => true
  }

  ghost function Step(p: Pool, op: Op): Pool {
    match op
    case Add(item) => Added(p, item)
    case Remove(hashes) => RemovedAll(p, hashes)
    case RemoveStale(senders, nonces) => StaleRemovedAll(p, senders, nonces, Min(|senders|, |nonces|))
    case Evict(order) => Evicted(p, order)
    case ClearProjected(s) => p.(projectedNonce := Without(p.projectedNonce, {s}))
  }

  ghost predicate Run(pools: seq<Pool>, ops: seq<Op>) {
    && |pools| == |ops| + 1 && pools[0] == EMPTY
    && forall i :: 0 <= i < |ops| ==> Enabled(pools[i], ops[i]) && pools[i + 1] == Step(pools[i], ops[i])
  }

  lemma StepAgrees(p: Pool, op: Op)
    requires Agrees(p) && Enabled(p, op)
    ensures Agrees(Step(p, op))
  {
    hide Agrees, Added, RemovedAll, StaleRemovedAll, Evicted;
    match op
    case Add(item) => AddAgrees(p, item);
    case Remove(hashes) => RemoveAllAgrees(p, hashes);
    case RemoveStale(senders, nonces) => StaleAllAgrees(p, senders, nonces, Min(|senders|, |nonces|));
    case Evict(order) => EvictAgrees(p, order, "");
    case ClearProjected(s) => ProjectedIsFree(p, Step(p, op).projectedNonce);
  }

  lemma StepExact(p: Pool, op: Op, s: Sender)
    requires Agrees(p) && Enabled(p, op) && Exact(p, s)
    requires TotalCost(QueueOf(p, s)) <= U64_MAX && TotalCost(QueueOf(Step(p, op), s)) <= U64_MAX
    ensures Exact(Step(p, op), s)
  {
    hide Agrees, Added, RemovedAll, StaleRemovedAll, Evicted, TotalCost;
    match op
    case Add(item) => AddExact(p, item, s);
    case Remove(hashes) => RemoveAllExact(p, hashes, s);
    case RemoveStale(senders, nonces) => StaleAllExact(p, senders, nonces, Min(|senders|, |nonces|), s);
    case Evict(order) => EvictAgrees(p, order, s);
    case ClearProjected(_) =>
  }

  /** In every run the maps agree: sorted queues, `txItems` exactly the queued hashes. */
  lemma {:induction false} RunAgrees(pools: seq<Pool>, ops: seq<Op>, n: nat)
    requires Run(pools, ops) && n < |pools|
    ensures Agrees(pools[n])
  {
    hide Step, Enabled;
    if n == 0 {
      EmptyAgrees();
    } else {
      RunAgrees(pools, ops, n - 1);
      StepAgrees(pools[n - 1], ops[n - 1]);
    }
  }

  lemma EmptyAgrees()
    ensures Agrees(EMPTY)
  {
  }

  /**
  The recorded spend of a sender is the exact cost of its queue at every point of a run up to
  n, if and only if that cost fits in 64 bits at every such point.
  */
  lemma RunExact(pools: seq<Pool>, ops: seq<Op>, n: nat, s: Sender)
    requires Run(pools, ops) && n < |pools|
    ensures (forall m :: 0 <= m <= n ==> Exact(pools[m], s)) <==>
            (forall m :: 0 <= m <= n ==> TotalCost(QueueOf(pools[m], s)) <= U64_MAX)
  {
    hide Run, Exact, TotalCost, QueueOf;
    if forall m :: 0 <= m <= n ==> TotalCost(QueueOf(pools[m], s)) <= U64_MAX {
      forall m | 0 <= m <= n ensures Exact(pools[m], s) {
        RunStaysExact(pools, ops, m, s);
      }
    }
    if forall m :: 0 <= m <= n ==> Exact(pools[m], s) {
      forall m | 0 <= m <= n ensures TotalCost(QueueOf(pools[m], s)) <= U64_MAX {
        ExactFits(pools[m], s);
      }
    }
  }

  lemma ExactFits(p: Pool, s: Sender)
    requires Exact(p, s)
    ensures TotalCost(QueueOf(p, s)) <= U64_MAX
  {
  }

  lemma {:induction false} RunStaysExact(pools: seq<Pool>, ops: seq<Op>, n: nat, s: Sender)
    requires Run(pools, ops) && n < |pools|
    requires forall m :: 0 <= m <= n ==> TotalCost(QueueOf(pools[m], s)) <= U64_MAX
    ensures Exact(pools[n], s)
  {
    hide Step, Enabled, TotalCost, Agrees;
    if n == 0 {
      NothingCostsNothing();
    } else {
      RunStaysExact(pools, ops, n - 1, s);
      RunAgrees(pools, ops, n - 1);
      assert pools[n] == Step(pools[n - 1], ops[n - 1]);
      StepExact(pools[n - 1], ops[n - 1], s);
    }
  }

  // ----- pending and queued hashes

  /** The hash of a transaction refused for its nonce stays known, so offering it again reports success unqueued. */
  lemma RefusedStaysNoted(p: Pool, item: TxItem)
    requires Agrees(p) && item.sender != "" && !AddedOk(p, item)
    ensures
      var r := Added(p, item);
      && item.hash in r.pendingTxs && item.hash !in r.txItems
      && r.queues == p.queues && r.pendingSpend == p.pendingSpend
      && AddedOk(r, item) && Added(r, item) == r
  {
    IndexedIsPending(p);
  }

  /** Pending hashes that are not queued. */
  function Stranded(p: Pool): set<Hash> {
    p.pendingTxs.Keys - p.txItems.Keys
  }

  /** Adding strands a hash exactly when it refuses the transaction. */
  lemma AddStrands(p: Pool, item: TxItem)
    requires Agrees(p)
    ensures Stranded(Added(p, item)) == Stranded(p) + if AddedOk(p, item) then {} else {item.hash}
    ensures p.pendingTxs.Keys == p.txItems.Keys ==>
              (Added(p, item).pendingTxs.Keys == Added(p, item).txItems.Keys <==> AddedOk(p, item))
  {
    hide Agrees, NonceTaken, InsertItem, QueueOf, WrapAdd64, SpendOf, ChargeSum;
    IndexedIsPending(p);
  }

  /** Removing hashes strands none; it frees those of them that were stranded. */
  lemma RemoveStrands(p: Pool, hashes: seq<Hash>)
    requires Agrees(p)
    ensures Stranded(RemovedAll(p, hashes)) == Stranded(p) - Members(hashes)
  {
    hide Agrees, Dropped;
    NonEmptyQueues(p);
    RemoveAllIsFilter(p, hashes);
  }

  /** Hashes of queued transactions are not stranded. */
  lemma QueuedNotStranded(p: Pool, s: Sender, i: nat)
    requires Agrees(p) && i < |QueueOf(p, s)|
    ensures QueueOf(p, s)[i].hash !in Stranded(p)
  {
    assert s in p.queues && p.queues[s][i].hash in p.txItems;
  }

  lemma StaleStrandsNone(p: Pool, s: Sender, nonce: u64)
    requires Agrees(p)
    ensures Stranded(StaleRemoved(p, s, nonce)) == Stranded(p)
  {
    hide Agrees, RemovedAll;
    var q := QueueOf(p, s);
    var stale := StaleOf(q, nonce);
    RemoveStrands(p, HashesOf(stale));
    StaleMembers(q, nonce);
    forall h | h in Members(HashesOf(stale)) ensures h !in Stranded(p) {
      var k :| 0 <= k < |stale| && stale[k].hash == h;
      assert stale[k] in q;
      var i :| 0 <= i < |q| && q[i] == stale[k];
      QueuedNotStranded(p, s, i);
    }
  }

  lemma {:induction false} StaleAllStrandsNone(p: Pool, senders: seq<Sender>, nonces: seq<u64>, n: nat)
    requires Agrees(p) && n <= |senders| && n <= |nonces|
    ensures Stranded(StaleRemovedAll(p, senders, nonces, n)) == Stranded(p)
  {
    hide Agrees, StaleRemoved, Stranded;
    if n > 0 {
      StaleAllStrandsNone(p, senders, nonces, n - 1);
      StaleAllAgrees(p, senders, nonces, n - 1);
      StaleStrandsNone(StaleRemovedAll(p, senders, nonces, n - 1), senders[n - 1], nonces[n - 1]);
    }
  }

  lemma {:induction false} CutsAreQueued(p: Pool, order: seq<Sender>, n: nat)
    requires Agrees(p) && n <= |order|
    ensures forall h :: h in CutHashes(p, order, n) ==> h !in Stranded(p)
  {
    hide Agrees, Stranded, CutAt;
    if n > 0 {
      CutsAreQueued(p, order, n - 1);
      var q := QueueOf(p, order[n - 1]);
      var tail := Tail(q, CutAt(p, order, n - 1));
      forall k | 0 <= k < |tail| ensures tail[k].hash !in Stranded(p) {
        QueuedNotStranded(p, order[n - 1], |q| - |tail| + k);
      }
    }
  }

  /** The refused hashes of a run that no removal has named since. */
  ghost function RefusedInRun(pools: seq<Pool>, ops: seq<Op>, n: nat): set<Hash>
    requires n <= |ops| < |pools|
  {
    if n == 0 then {}
    else
      var before := RefusedInRun(pools, ops, n - 1);
      match ops[n - 1]
      case Add(item) => if AddedOk(pools[n - 1], item) then before else before + {item.hash}
      case Remove(hashes) => before - Members(hashes)
      case _ => before
  }

  lemma StepStrands(p: Pool, op: Op)
    requires Agrees(p)
    ensures Stranded(Step(p, op)) ==
            match op
            case Add(item) => if AddedOk(p, item) then Stranded(p) else Stranded(p) + {item.hash}
            case Remove(hashes) => Stranded(p) - Members(hashes)
            case _ => Stranded(p)
  {
    hide Agrees, Added, RemovedAll, StaleRemovedAll, CutHashes;
    match op
    case Add(item) => AddStrands(p, item);
    case Remove(hashes) => RemoveStrands(p, hashes);
    case RemoveStale(senders, nonces) => StaleAllStrandsNone(p, senders, nonces, Min(|senders|, |nonces|));
    case Evict(order) =>
      RemoveStrands(p, CutHashes(p, order, |order|));
      CutsAreQueued(p, order, |order|);
    case ClearProjected(_) =>
  }

  /**
  In every run the pending hashes outside the queues are exactly the refused ones that no
  removal named; so `pendingTxs` and `txItems` hold the same hashes exactly when there are none.
  */
  lemma {:induction false} RunStrands(pools: seq<Pool>, ops: seq<Op>, n: nat)
    requires Run(pools, ops) && n < |pools|
    ensures Stranded(pools[n]) == RefusedInRun(pools, ops, n)
    ensures pools[n].pendingTxs.Keys == pools[n].txItems.Keys <==> RefusedInRun(pools, ops, n) == {}
  {
    hide Step, Enabled, Agrees, Stranded;
    RunAgrees(pools, ops, n);
    StrandedNone(pools[n]);
    if n == 0 {
      NoneStranded();
    } else {
      RunStrands(pools, ops, n - 1);
      RunAgrees(pools, ops, n - 1);
      assert pools[n] == Step(pools[n - 1], ops[n - 1]);
      StepStrands(pools[n - 1], ops[n - 1]);
    }
  }

  lemma StrandedNone(p: Pool)
    requires Agrees(p)
    ensures p.pendingTxs.Keys == p.txItems.Keys <==> Stranded(p) == {}
  {
    hide Agrees;
    IndexedIsPending(p);
    if Stranded(p) == {} {
      forall h | h in p.pendingTxs ensures h in p.txItems {
        assert h !in Stranded(p);
      }
    }
  }

  lemma NoneStranded()
    ensures Stranded(EMPTY) == {}
  {
  }

  /** Two transactions of one sender with one nonce: the second is refused and stays pending, in a run of two adds. */
  lemma RefusalHappens(first: TxItem, second: TxItem)
    requires first.sender == second.sender != "" && first.nonce == second.nonce && first.hash != second.hash
    ensures
      var pools := [EMPTY, Added(EMPTY, first), Added(Added(EMPTY, first), second)];
      && Run(pools, [Add(first), Add(second)])
      && !AddedOk(pools[1], second) && Stranded(pools[2]) == {second.hash}
  {
    hide Added, Stranded, Agrees, NonceTaken;
    OneAdded(first);
    EmptyAgrees();
    AddAgrees(EMPTY, first);
    AddStrands(EMPTY, first);
    AddStrands(Added(EMPTY, first), second);
    NoneStranded();
    SameNonce(first, second);
  }

  lemma OneAdded(item: TxItem)
    ensures AddedOk(EMPTY, item) && QueueOf(Added(EMPTY, item), item.sender) == [item]
    ensures Added(EMPTY, item).pendingTxs.Keys == {item.hash}
  {
    assert !NonceTaken([], item.nonce);
    assert InsertItem([], item) == [item];
  }

  lemma SameNonce(first: TxItem, second: TxItem)
    requires first.nonce == second.nonce
    ensures NonceTaken([first], second.nonce)
  {
    assert [first][0] == first;
  }

  lemma IndexedIsPending(p: Pool)
    requires Agrees(p)
    ensures p.txItems.Keys <= p.pendingTxs.Keys
  {
    forall h | h in p.txItems ensures h in p.pendingTxs {
      assert p.txItems[h] in QueueOf(p, p.txItems[h].sender);
    }
  }
}
