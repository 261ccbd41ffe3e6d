/**
What each pool operation does to each map, written out: who is queued, what is reserved,
which nonce is projected, and which senders lose how much to eviction.
*/
module MempoolEffects {
  import opened Mempool
  import opened MempoolStale
  import opened MempoolEviction
  import opened Machine

  // ----- adding

  /** Everything but the queue of one sender and the entries of one hash is as before. */
  ghost predicate OthersUnchanged(p: Pool, r: Pool, hash: Hash, sender: Sender) {
    && (forall s :: s != sender ==> QueueOf(r, s) == QueueOf(p, s) && SpendOf(r.pendingSpend, s) == SpendOf(p.pendingSpend, s))
    && (forall s :: s != sender ==> (s in r.projectedNonce <==> s in p.projectedNonce))
    && (forall s :: s != sender && s in p.projectedNonce ==> r.projectedNonce[s] == p.projectedNonce[s])
    && (forall h :: h != hash ==> (h in r.pendingTxs <==> h in p.pendingTxs) && (h in r.txItems <==> h in p.txItems))
    && (forall h :: h != hash && h in p.pendingTxs ==> r.pendingTxs[h] == p.pendingTxs[h])
    && (forall h :: h != hash && h in p.txItems ==> r.txItems[h] == p.txItems[h])
  }

  /** A new transaction with a free nonce: queued in nonce order, its cost reserved, the next nonce projected. */
  lemma AddEffect(p: Pool, item: TxItem)
    requires Agrees(p) && item.hash !in p.pendingTxs
    requires forall x :: x in QueueOf(p, item.sender) ==> x.nonce != item.nonce
    ensures AddedOk(p, item)
    ensures
      var r := Added(p, item);
      && multiset(QueueOf(r, item.sender)) == multiset(QueueOf(p, item.sender)) + multiset{item}
      && (forall i, j :: 0 <= i < j < |QueueOf(r, item.sender)| ==> QueueOf(r, item.sender)[i].nonce < QueueOf(r, item.sender)[j].nonce)
      && item.hash in r.pendingTxs && r.pendingTxs[item.hash] == item.data
      && item.hash in r.txItems && r.txItems[item.hash] == item
      && item.hash in r.txSender && r.txSender[item.hash] == item.sender
      && item.sender in r.projectedNonce && r.projectedNonce[item.sender] == (item.nonce + 1) % 0x1_0000_0000_0000_0000
      && SpendOf(r.pendingSpend, item.sender) ==
         (SpendOf(p.pendingSpend, item.sender) + item.amount + item.fee + item.creationFee) % 0x1_0000_0000_0000_0000
      && OthersUnchanged(p, r, item.hash, item.sender)
  {
    hide *;
    FreeNonce(p, item);
    AddQueue(p, item);
    AddMaps(p, item);
    AddOthers(p, item);
  }

  lemma FreeNonce(p: Pool, item: TxItem)
    requires forall x :: x in QueueOf(p, item.sender) ==> x.nonce != item.nonce
    ensures !NonceTaken(QueueOf(p, item.sender), item.nonce) && AddedOk(p, item)
  {
    hide QueueOf;
  }

  lemma AddQueue(p: Pool, item: TxItem)
    requires Agrees(p) && item.hash !in p.pendingTxs && !NonceTaken(QueueOf(p, item.sender), item.nonce)
    ensures
      var r := QueueOf(Added(p, item), item.sender);
      && multiset(r) == multiset(QueueOf(p, item.sender)) + multiset{item}
      && (forall i, j :: 0 <= i < j < |r| ==> r[i].nonce < r[j].nonce)
  {
    hide InsertItem, Sorted, Agrees, NonceTaken, Reserved;
    var q := QueueOf(p, item.sender);
    SortedQueue(p, item.sender);
    InsertSorts(q, item);
    SortedMeans(InsertItem(q, item));
  }

  lemma AddMaps(p: Pool, item: TxItem)
    requires item.hash !in p.pendingTxs && !NonceTaken(QueueOf(p, item.sender), item.nonce)
    ensures
      var r := Added(p, item);
      && item.hash in r.pendingTxs && r.pendingTxs[item.hash] == item.data
      && item.hash in r.txItems && r.txItems[item.hash] == item
      && item.hash in r.txSender && r.txSender[item.hash] == item.sender
      && item.sender in r.projectedNonce && r.projectedNonce[item.sender] == (item.nonce + 1) % 0x1_0000_0000_0000_0000
      && SpendOf(r.pendingSpend, item.sender) ==
         (SpendOf(p.pendingSpend, item.sender) + item.amount + item.fee + item.creationFee) % 0x1_0000_0000_0000_0000
  {
    hide InsertItem, NonceTaken, WrapAdd64, ChargeSum, QueueOf;
    Wraps(SpendOf(p.pendingSpend, item.sender), item.amount, item.fee, item.creationFee);
    WrapsOnce(item.nonce);
  }

  lemma AddOthers(p: Pool, item: TxItem)
    requires item.hash !in p.pendingTxs && !NonceTaken(QueueOf(p, item.sender), item.nonce)
    ensures OthersUnchanged(p, Added(p, item), item.hash, item.sender)
  {
    hide InsertItem, NonceTaken, WrapAdd64, ChargeSum;
  }

  lemma SortedQueue(p: Pool, s: Sender)
    requires Agrees(p)
    ensures Sorted(QueueOf(p, s))
  {
  }

  lemma SortedMeans(q: seq<TxItem>)
    ensures Sorted(q) <==> forall i, j :: 0 <= i < j < |q| ==> q[i].nonce < q[j].nonce
  {
  }

  lemma Wraps(spent: u64, amount: u64, fee: u64, creationFee: u64)
    ensures WrapAdd64(spent, ChargeSum(Charge(amount, fee, creationFee))) ==
            (spent + amount + fee + creationFee) % 0x1_0000_0000_0000_0000
  {
  }

  lemma WrapsOnce(nonce: u64)
    ensures WrapAdd64(nonce, 1) == (nonce + 1) % 0x1_0000_0000_0000_0000
  {
  }

  /** A known hash changes nothing; a taken nonce leaves two notes and nothing else. */
  lemma RefusedEffect(p: Pool, item: TxItem)
    ensures item.hash in p.pendingTxs ==> AddedOk(p, item) && Added(p, item) == p
    ensures (item.hash !in p.pendingTxs && exists i :: 0 <= i < |QueueOf(p, item.sender)| && QueueOf(p, item.sender)[i].nonce == item.nonce) ==>
              && !AddedOk(p, item)
              && Added(p, item) == p.(pendingTxs := p.pendingTxs[item.hash := item.data],
                                      txSender := p.txSender[item.hash := item.sender])
  {
  }

  // ----- removing

  /** The named hashes leave all maps, and nothing else does; projected nonces stay. */
  lemma RemoveEffect(p: Pool, hashes: seq<Hash>)
    requires Agrees(p)
    ensures
      var r := RemovedAll(p, hashes);
      && (forall h :: h in r.pendingTxs <==> h in p.pendingTxs && h !in hashes)
      && (forall h :: h in r.txItems <==> h in p.txItems && h !in hashes)
      && (forall h :: h in r.txSender <==> h in p.txSender && h !in hashes)
      && (forall h :: h in r.pendingTxs ==> r.pendingTxs[h] == p.pendingTxs[h])
      && (forall s, x :: x in QueueOf(r, s) <==> x in QueueOf(p, s) && x.hash !in hashes)
      && r.projectedNonce == p.projectedNonce && Agrees(r)
  {
    hide Agrees, Keep;
    NonEmptyQueues(p);
    RemoveAllIsFilter(p, hashes);
    RemoveAllAgrees(p, hashes);
    forall s ensures forall x :: x in QueueOf(RemovedAll(p, hashes), s) <==> x in QueueOf(p, s) && x.hash !in hashes {
      KeepMembers(QueueOf(p, s), Members(hashes));
      KeepOfNothing(Members(hashes));
    }
  }

  /** Removing one queued hash gives back its cost on 64 bits, never below zero, to its sender alone. */
  lemma RemoveRefunds(p: Pool, h: Hash, s: Sender)
    ensures
      var back := if h in p.txItems && p.txItems[h].sender == s
                  then (p.txItems[h].amount + p.txItems[h].fee + p.txItems[h].creationFee) % 0x1_0000_0000_0000_0000 else 0;
      SpendOf(Removed(p, h).pendingSpend, s) == Max(SpendOf(p.pendingSpend, s) - back, 0)
  {
    hide Keep, Dropped;
    if h in p.txItems {
      Wraps(0, p.txItems[h].amount, p.txItems[h].fee, p.txItems[h].creationFee);
    }
  }

  // ----- stale transactions

  /** The queue keeps what the ledger has not passed; a projected nonce is forgotten when something went. */
  lemma StaleEffect(p: Pool, s: Sender, nonce: u64)
    requires Agrees(p)
    ensures
      var r := StaleRemoved(p, s, nonce);
      var some := exists i :: 0 <= i < |QueueOf(p, s)| && QueueOf(p, s)[i].nonce < nonce;
      && (forall x :: x in QueueOf(r, s) <==> x in QueueOf(p, s) && x.nonce >= nonce)
      && (forall t :: t != s ==> QueueOf(r, t) == QueueOf(p, t))
      && (s in r.projectedNonce <==> s in p.projectedNonce && !some)
      && (forall t :: t != s ==> (t in r.projectedNonce <==> t in p.projectedNonce))
      && (forall t :: t in r.projectedNonce ==> r.projectedNonce[t] == p.projectedNonce[t])
      && (!some ==> r == p)
  {
    hide Agrees, Dropped, StaleOf;
    StaleGone(p, s, nonce);
    NonEmptyQueues(p);
    var stale := StaleOf(QueueOf(p, s), nonce);
    RemoveAllIsFilter(p, HashesOf(stale));
    SomeStale(QueueOf(p, s), nonce);
  }

  lemma SomeStale(q: seq<TxItem>, nonce: u64)
    ensures StaleOf(q, nonce) != [] <==> exists i :: 0 <= i < |q| && q[i].nonce < nonce
  {
    hide StaleOf;
    StaleMembers(q, nonce);
    forall i | 0 <= i < |q| ensures q[i] in StaleOf(q, nonce) <==> q[i].nonce < nonce {
      assert q[i] in q;
    }
    if StaleOf(q, nonce) != [] {
      var x := StaleOf(q, nonce)[0];
      assert x in q;
    }
  }

  // ----- eviction

  /** Equal up to some place, where the first ends or has the smaller letter. */
  ghost predicate LetterBefore(a: Sender, b: Sender, k: nat) {
    && k <= |a| && k < |b| && a[..k] == b[..k]
    && (k == |a| || a[k] < b[k])
  }

  lemma FirstLetters(a: Sender, b: Sender, k: nat)
    requires LetterBefore(a, b, k)
    ensures a == "" || a[0] <= b[0]
  {
    if k > 0 { assert a[..k][0] == b[..k][0]; }
  }

  lemma {:induction false} PrecedesIff(a: Sender, b: Sender)
    ensures Precedes(a, b) <==> exists k :: LetterBefore(a, b, k)
  {
    forall k: nat | LetterBefore(a, b, k) ensures a == "" || a[0] <= b[0] {
      FirstLetters(a, b, k);
    }
    if b != "" && a == "" {
      assert LetterBefore(a, b, 0);
    } else if b != "" {
      PrecedesIff(a[1..], b[1..]);
      if a[0] < b[0] {
        assert LetterBefore(a, b, 0);
      } else if a[0] == b[0] {
        if k: nat :| LetterBefore(a[1..], b[1..], k) {
          assert a[..k + 1] == [a[0]] + a[1..][..k] && b[..k + 1] == [b[0]] + b[1..][..k];
          assert LetterBefore(a, b, k + 1);
        }
        if k: nat :| LetterBefore(a, b, k) {
          assert k > 0;
          assert a[1..][..k - 1] == a[..k][1..] && b[1..][..k - 1] == b[..k][1..];
          assert LetterBefore(a[1..], b[1..], k - 1);
        }
      }
    }
  }

  /** The cutting order: every sender once, longer queues first, equal ones by address. */
  lemma RankedMeaning(p: Pool, order: seq<Sender>, i: nat, j: nat)
    requires Ranked(p, order) && i < j < |order|
    ensures order[i] != order[j] && order[i] in p.queues && order[j] in p.queues
    ensures |QueueOf(p, order[i])| >= |QueueOf(p, order[j])|
    ensures |QueueOf(p, order[i])| == |QueueOf(p, order[j])| ==> exists k :: LetterBefore(order[i], order[j], k)
  {
    AheadOrders(p, order[i], order[j], order[i]);
    PrecedesIff(order[i], order[j]);
    assert order[i] in order && order[j] in order;
  }

  function CutsBefore(p: Pool, order: seq<Sender>, n: nat): nat
    requires n <= |order|
  {
    if n == 0 then 0 else CutsBefore(p, order, n - 1) + CutAt(p, order, n - 1)
  }

  lemma {:induction false} NeededIs(p: Pool, order: seq<Sender>, n: nat)
    requires n <= |order|
    ensures Needed(p, order, n) + CutsBefore(p, order, n) == 5000
  {
    if n > 0 { NeededIs(p, order, n - 1); }
  }

  /** Each sender loses a fifth, at least one, but never more than what is left of 5000. */
  lemma CutMeaning(p: Pool, order: seq<Sender>, n: nat)
    requires n < |order|
    ensures CutsBefore(p, order, n) <= 5000
    ensures CutAt(p, order, n) == Min(Max(|QueueOf(p, order[n])| / 5, 1), 5000 - CutsBefore(p, order, n))
  {
    NeededIs(p, order, n);
  }
}
