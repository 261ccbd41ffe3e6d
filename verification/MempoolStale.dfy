/** What removing stale transactions leaves, and runs of pool operations. */
module MempoolStale {
  import opened Mempool
  import opened Machine

  /** The transactions of a queue the ledger has not passed yet. */
  function CurrentOf(q: seq<TxItem>, nonce: u64): seq<TxItem> {
    if q == [] then []
    else
      var front := CurrentOf(q[..|q| - 1], nonce);
      if q[|q| - 1].nonce < nonce then front else front + [q[|q| - 1]]
  }

  lemma {:induction false} StaleMembers(q: seq<TxItem>, nonce: u64)
    ensures forall x :: x in StaleOf(q, nonce) <==> x in q && x.nonce < nonce
  {
    if q != [] {
      StaleMembers(q[..|q| - 1], nonce);
      assert q == q[..|q| - 1] + [q[|q| - 1]];
    }
  }

  lemma {:induction false} KeepCurrent(q: seq<TxItem>, gone: set<Hash>, nonce: u64)
    requires forall i :: 0 <= i < |q| ==> (q[i].hash in gone <==> q[i].nonce < nonce)
    ensures Keep(q, gone) == CurrentOf(q, nonce)
  {
    if q != [] { KeepCurrent(q[..|q| - 1], gone, nonce); }
  }

  /** A stale hash belongs to one transaction of one sender. */
  lemma StaleHashes(p: Pool, s: Sender, nonce: u64, t: Sender, j: nat)
    requires Agrees(p) && j < |QueueOf(p, t)|
    ensures QueueOf(p, t)[j].hash in Members(HashesOf(StaleOf(QueueOf(p, s), nonce))) <==>
            s == t && QueueOf(p, t)[j].nonce < nonce
  {
    hide Agrees;
    var q := QueueOf(p, s);
    var x := QueueOf(p, t)[j];
    var stale := StaleOf(q, nonce);
    StaleMembers(q, nonce);
    if x.hash in Members(HashesOf(stale)) {
      var k :| 0 <= k < |stale| && stale[k].hash == x.hash;
      assert stale[k] in q;
      var i :| 0 <= i < |q| && q[i] == stale[k];
      OneHash(p, s, i, t, j);
    }
    if s == t && x.nonce < nonce {
      assert x in stale;
      var k :| 0 <= k < |stale| && stale[k] == x;
      assert HashesOf(stale)[k] == x.hash;
    }
  }

  /** Removing a sender's stale hashes touches its queue alone and keeps exactly the current part. */
  lemma StaleQueues(p: Pool, s: Sender, nonce: u64)
    requires Agrees(p) && s in p.queues
    ensures
      var gone := Members(HashesOf(StaleOf(p.queues[s], nonce)));
      Dropped(p.queues, gone) ==
      map t | t in p.queues && (t != s || CurrentOf(p.queues[s], nonce) != []) ::
        if t == s then CurrentOf(p.queues[s], nonce) else p.queues[t]
  {
    hide Keep, CurrentOf, Sorted, QueuedIsIndexed, IndexedIsQueued;
    var gone := Members(HashesOf(StaleOf(p.queues[s], nonce)));
    forall t | t in p.queues
      ensures Keep(p.queues[t], gone) == if t == s then CurrentOf(p.queues[s], nonce) else p.queues[t]
    {
      forall j | 0 <= j < |p.queues[t]|
        ensures p.queues[t][j].hash in gone <==> t == s && p.queues[t][j].nonce < nonce
      {
        StaleHashes(p, s, nonce, t, j);
      }
      if t == s { KeepCurrent(p.queues[s], gone, nonce); } else { KeepAll(p.queues[t], gone); }
    }
  }

  lemma StaleAgrees(p: Pool, s: Sender, nonce: u64)
    requires Agrees(p)
    ensures Agrees(StaleRemoved(p, s, nonce))
  {
    hide Agrees, RemovedAll, StaleOf, HashesOf;
    var hashes := HashesOf(StaleOf(QueueOf(p, s), nonce));
    RemoveAllAgrees(p, hashes);
    ProjectedIsFree(RemovedAll(p, hashes), StaleRemoved(p, s, nonce).projectedNonce);
  }

  lemma ProjectedIsFree(p: Pool, projected: map<Sender, u64>)
    requires Agrees(p)
    ensures Agrees(p.(projectedNonce := projected))
  {
  }

  lemma StaleExact(p: Pool, s: Sender, nonce: u64, t: Sender)
    requires Agrees(p) && Exact(p, t) && TotalCost(QueueOf(p, t)) <= U64_MAX
    ensures Exact(StaleRemoved(p, s, nonce), t)
    ensures TotalCost(QueueOf(StaleRemoved(p, s, nonce), t)) <= TotalCost(QueueOf(p, t))
  {
    hide Agrees, RemovedAll, StaleOf, HashesOf, TotalCost;
    RemoveAllExact(p, HashesOf(StaleOf(QueueOf(p, s), nonce)), t);
  }

  lemma {:induction false} StaleAllAgrees(p: Pool, senders: seq<Sender>, nonces: seq<u64>, n: nat)
    requires Agrees(p) && n <= |senders| && n <= |nonces|
    ensures Agrees(StaleRemovedAll(p, senders, nonces, n))
  {
    hide Agrees, StaleRemoved;
    if n > 0 {
      StaleAllAgrees(p, senders, nonces, n - 1);
      StaleAgrees(StaleRemovedAll(p, senders, nonces, n - 1), senders[n - 1], nonces[n - 1]);
    }
  }

  lemma {:induction false} StaleAllExact(p: Pool, senders: seq<Sender>, nonces: seq<u64>, n: nat, t: Sender)
    requires Agrees(p) && n <= |senders| && n <= |nonces|
    requires Exact(p, t) && TotalCost(QueueOf(p, t)) <= U64_MAX
    ensures Exact(StaleRemovedAll(p, senders, nonces, n), t)
    ensures TotalCost(QueueOf(StaleRemovedAll(p, senders, nonces, n), t)) <= TotalCost(QueueOf(p, t))
  {
    hide Agrees, StaleRemoved, Exact, TotalCost, QueueOf;
    if n > 0 {
      StaleAllAgrees(p, senders, nonces, n - 1);
      StaleAllExact(p, senders, nonces, n - 1, t);
      StaleExact(StaleRemovedAll(p, senders, nonces, n - 1), senders[n - 1], nonces[n - 1], t);
    }
  }

  /** After the batch no listed sender has a queued nonce below the one given, if it is listed once. */
  lemma StaleGone(p: Pool, s: Sender, nonce: u64)
    requires Agrees(p)
    ensures forall x :: x in QueueOf(StaleRemoved(p, s, nonce), s) <==> x in QueueOf(p, s) && x.nonce >= nonce
    ensures forall t :: t != s ==> QueueOf(StaleRemoved(p, s, nonce), t) == QueueOf(p, t)
  {
    hide Agrees, Dropped;
    var stale := StaleOf(QueueOf(p, s), nonce);
    StaleMembers(QueueOf(p, s), nonce);
    if stale != [] {
      assert s in p.queues;
      NonEmptyQueues(p);
      RemoveAllIsFilter(p, HashesOf(stale));
      StaleQueues(p, s, nonce);
      CurrentMembers(p.queues[s], nonce);
    }
  }

  lemma NonEmptyQueues(p: Pool)
    requires Agrees(p)
    ensures forall s :: s in p.queues ==> p.queues[s] != []
  {
  }

  lemma {:induction false} CurrentMembers(q: seq<TxItem>, nonce: u64)
    ensures forall x :: x in CurrentOf(q, nonce) <==> x in q && x.nonce >= nonce
  {
    if q != [] {
      CurrentMembers(q[..|q| - 1], nonce);
      assert q == q[..|q| - 1] + [q[|q| - 1]];
    }
  }
}
