/**
What the priorities of the merge say about fees. Priorities are fees rounded to doubles: the
order of two fees is never reversed, a pop is never more than one rounding step below the best,
and the best fee goes first in every run exactly as long as no fee exceeds 2^53. Fees that get
in through the validator stay below that, on every ledger without coinbase fees; through the
exchange endpoint they do while the exact cost of a batch fits in 64 bits; beyond that there is
no bound.
*/
module PackingFees {
  import opened Arith
  import opened Machine
  import opened Mempool
  import opened Packing
  import Admission
  import Emission
  import Ledger
  import LedgerGate
  import LedgerHistory
  import LedgerRuns
  import Wrappers

  // ----- priorities against fees

  lemma {:induction false} UnitGrows(a: nat, b: nat)
    requires a <= b
    ensures Unit(a) <= Unit(b)
    ensures Unit(a) < Unit(b) ==> 2 * Unit(a) <= Unit(b)
    decreases b
  {
    if a >= EXACT {
      UnitGrows(a / 2, b / 2);
    }
  }

  lemma PriorityBounds(fee: nat)
    ensures
      var u := Unit(fee);
      var down := fee / u * u;
      && down <= fee < down + u
      && (Priority(fee) == down || Priority(fee) == down + u)
      && down + u <= EXACT * u
      && (u > 1 ==> EXACT * u <= 2 * down)
  {
    hide Unit;
    var u := Unit(fee);
    DivMod(fee, u);
    Distribute(fee / u, 1, u);
    DivGalois(EXACT, u, fee);
    MulMonotone(fee / u + 1, EXACT, u);
    if u > 1 {
      HalfExact(u);
      DivGalois(EXACT / 2, u, fee);
      MulMonotone(EXACT / 2, fee / u, u);
    }
  }

  lemma HalfExact(u: nat)
    ensures 2 * (EXACT / 2 * u) == EXACT * u
  {
  }

  /** Rounding to a double never reverses the order of two fees. */
  lemma PriorityMonotone(a: nat, b: nat)
    requires a <= b
    ensures Priority(a) <= Priority(b)
  {
    hide Unit;
    UnitGrows(a, b);
    var u, v := Unit(a), Unit(b);
    PriorityBounds(a);
    PriorityBounds(b);
    if u < v {
      MulMonotone(2 * u, v, EXACT);
      Distribute(u, u, EXACT);
    } else {
      DivMonotone(a, b, u);
      if a / u < b / u {
        MulMonotone(a / u + 1, b / u, u);
        Distribute(a / u, 1, u);
      } else {
        SameCell(a, b);
      }
    }
  }

  lemma SameCell(a: nat, b: nat)
    requires a <= b && Unit(a) == Unit(b) && a / Unit(a) == b / Unit(b)
    ensures Priority(a) <= Priority(b)
  {
    hide Unit;
    var u := Unit(a);
    DivMod(a, u);
    DivMod(b, u);
    Distribute(a / u, 1, u);
  }

  /** Fees up to 2^53 are compared exactly. */
  lemma PriorityExact(fee: nat)
    requires fee <= EXACT
    ensures Priority(fee) == fee
  {
    if fee < EXACT {
      assert Unit(fee) == 1;
      assert fee / 1 == fee && fee % 1 == 0;
    } else {
      assert Unit(EXACT / 2) == 1;
      assert Unit(EXACT) == 2;
    }
  }

  /** Above it the next fee shares its priority, and the older, lower fee goes first. */
  lemma PriorityBlurs(high: TxItem, low: TxItem)
    requires high.fee == EXACT + 1 && low.fee == EXACT && low.timestamp < high.timestamp
    ensures Best({high, low}, low) && !Best({high, low}, high)
  {
    assert Unit(EXACT / 2) == 1;
    assert Unit(EXACT) == 2 && Unit(EXACT + 1) == 2;
    assert Priority(EXACT + 1) == EXACT == Priority(EXACT);
  }

  // ----- the best fee

  /** x has the highest fee of the heap, and is the oldest of those that have it. */
  ghost predicate BestFee(heap: set<TxItem>, x: TxItem) {
    x in heap && forall y :: y in heap ==> x.fee > y.fee || (x.fee == y.fee && x.timestamp <= y.timestamp)
  }

  ghost predicate FeesUpTo(heap: set<TxItem>, n: nat) {
    forall y :: y in heap ==> y.fee <= n
  }

  /** With fees up to 2^53 the heap pops the highest fee, the oldest of equals. */
  lemma SmallFeesPopBest(heap: set<TxItem>, x: TxItem)
    requires Best(heap, x) && FeesUpTo(heap, EXACT)
    ensures BestFee(heap, x)
  {
    hide Priority;
    forall y | y in heap ensures x.fee > y.fee || (x.fee == y.fee && x.timestamp <= y.timestamp) {
      PriorityExact(x.fee);
      PriorityExact(y.fee);
    }
  }

  /** A queued transaction whose amount and fee add up to 2^64. */
  function Witness(sender: Sender, fee: u64, timestamp: int, hash: Hash): TxItem
    requires fee > 0
  {
    TxItem(hash, [], fee, U64_MAX + 1 - fee, 0, 0, timestamp, 1, sender)
  }

  // The two transactions the threshold turns on.

  function High(): TxItem { Witness("0xa", EXACT + 1, 1, "h") }

  function Low(): TxItem { Witness("0xb", EXACT, 0, "l") }

  lemma BlurredHeap()
    ensures Best({High(), Low()}, Low()) && !BestFee({High(), Low()}, Low())
    ensures FeesUpTo({High(), Low()}, EXACT + 1)
  {
    hide Priority;
    PriorityBlurs(High(), Low());
    assert High() in {High(), Low()};
  }

  /** Every heap with fees up to n pops only the highest fee, the oldest of equals, if and only if n is at most 2^53. */
  lemma HeapByFeeIff(n: nat)
    ensures (forall heap, x :: Best(heap, x) && FeesUpTo(heap, n) ==> BestFee(heap, x)) <==> n <= EXACT
  {
    hide Best, BestFee;
    if n <= EXACT {
      forall heap, x | Best(heap, x) && FeesUpTo(heap, n) ensures BestFee(heap, x) {
        SmallFeesPopBest(heap, x);
      }
    } else {
      BlurredHeap();
      assert FeesUpTo({High(), Low()}, n);
    }
  }

  // ----- runs of the merge

  /** The sender popped from this state has the best fee of all heads. */
  ghost predicate PopsBestFee(p: Pool, m: Merge, s: Sender) {
    HeadsOk(p, m.heads) && s in m.heads && BestFee(HeapOf(p, m.heads), p.queues[s][m.heads[s]])
  }

  ghost predicate PoolFeesUpTo(p: Pool, n: nat) {
    forall s, j :: s in p.queues && 0 <= j < |p.queues[s]| ==> p.queues[s][j].fee <= n
  }

  /** A pop takes the best fee whenever no head exceeds 2^53, whatever is queued behind. */
  lemma SmallHeadsPopBest(p: Pool, nonces: map<Sender, u64>, decodes: Bytes -> bool, limits: Limits,
                          states: seq<Merge>, pops: seq<Sender>, i: nat)
    requires Packs(p, nonces, decodes, limits, states, pops) && i < |pops|
    requires HeadsOk(p, states[i].heads) ==> FeesUpTo(HeapOf(p, states[i].heads), EXACT)
    ensures PopsBestFee(p, states[i], pops[i])
  {
    hide Best, BestFee, Takes, Packs, Advance, Without, FeesUpTo;
    StepOf(p, nonces, decodes, limits, states, pops, i);
    SmallFeesPopBest(HeapOf(p, states[i].heads), p.queues[pops[i]][states[i].heads[pops[i]]]);
  }

  /** Over every run of the merge from a pool with fees up to n, each pop takes the best fee. */
  ghost predicate MergesByFee(n: nat) {
    forall p: Pool, nonces, decodes, limits, states: seq<Merge>, pops: seq<Sender>, i |
      Packs(p, nonces, decodes, limits, states, pops) && 0 <= i < |pops| && PoolFeesUpTo(p, n) ::
      PopsBestFee(p, states[i], pops[i])
  }

  /** The pool of two adds in which the lower fee goes first. */
  function BlurredPool(): Pool {
    Added(Added(EMPTY, High()), Low())
  }

  lemma FirstOfSender(p: Pool, x: TxItem)
    requires x.hash !in p.pendingTxs && x.sender !in p.queues
    ensures Added(p, x).queues == p.queues[x.sender := [x]]
    ensures Added(p, x).pendingTxs.Keys == p.pendingTxs.Keys + {x.hash}
  {
    assert !NonceTaken([], x.nonce);
    assert InsertItem([], x) == [x];
  }

  lemma BlurredQueues()
    ensures BlurredPool().queues == map["0xa" := [High()], "0xb" := [Low()]]
    ensures PoolFeesUpTo(BlurredPool(), EXACT + 1)
  {
    hide Added;
    assert "h" != "l" && "0xa" != "0xb" by { assert "h"[0] != "l"[0] && "0xa"[2] != "0xb"[2]; }
    FirstOfSender(EMPTY, High());
    FirstOfSender(Added(EMPTY, High()), Low());
  }

  function Decodable(): Bytes -> bool {
    bytes => true
  }

  /** One pop of that pool: the lower fee. */
  lemma BlurredMerge() returns (states: seq<Merge>, pops: seq<Sender>)
    ensures Packs(BlurredPool(), map[], Decodable(), Limits(0, 1), states, pops)
    ensures |states| > 0 && |pops| == 1 && !PopsBestFee(BlurredPool(), states[0], pops[0])
  {
    hide Best, BestFee, BlurredPool, PopStep, High, Low;
    BlurredQueues();
    BlurredHeap();
    var p, heads := BlurredPool(), map["0xa" := 0, "0xb" := 0];
    BlurredStart(p, heads);
    BlurredHeads(p, heads);
    pops := ["0xb"];
    var after := BlurredPop(p, heads);
    states := [Merge(heads, []), after];
  }

  lemma BlurredStart(p: Pool, heads: map<Sender, nat>)
    requires p.queues == map["0xa" := [High()], "0xb" := [Low()]] && heads == map["0xa" := 0, "0xb" := 0]
    ensures StartHeads(p, map[]) == heads
  {
  }

  lemma BlurredPop(p: Pool, heads: map<Sender, nat>) returns (after: Merge)
    requires p.queues == map["0xa" := [High()], "0xb" := [Low()]] && heads == map["0xa" := 0, "0xb" := 0]
    requires HeadsOk(p, heads) && Best(HeapOf(p, heads), Low())
    ensures PopStep(p, Decodable(), Limits(0, 1), Merge(heads, []), "0xb", after)
  {
    hide Best, HeapOf;
    assert TotalSize([]) == 0;
    after := Merge(Advance(p, heads, "0xb"), [Low()]);
  }

  lemma BlurredHeads(p: Pool, heads: map<Sender, nat>)
    requires p.queues == map["0xa" := [High()], "0xb" := [Low()]] && heads == map["0xa" := 0, "0xb" := 0]
    ensures HeadsOk(p, heads) && HeapOf(p, heads) == {High(), Low()}
  {
    assert p.queues["0xa"][heads["0xa"]] == High() && p.queues["0xb"][heads["0xb"]] == Low();
  }

  /** Best-fee packing holds over every run from every pool with fees up to n if and only if n is at most 2^53. */
  lemma MergesByFeeIff(n: nat)
    ensures MergesByFee(n) <==> n <= EXACT
  {
    hide Packs, PopsBestFee, HeapOf, HeadsOk, Best, BlurredPool;
    if n <= EXACT {
      forall p: Pool, nonces, decodes, limits, states: seq<Merge>, pops: seq<Sender>, i |
        Packs(p, nonces, decodes, limits, states, pops) && 0 <= i < |pops| && PoolFeesUpTo(p, n)
        ensures |states| == |pops| + 1 && PopsBestFee(p, states[i], pops[i])
      {
        StepOf(p, nonces, decodes, limits, states, pops, i);
        SmallPoolSmallHeads(p, states[i].heads, n);
        SmallHeadsPopBest(p, nonces, decodes, limits, states, pops, i);
      }
    } else {
      BlurredQueues();
      var states, pops := BlurredMerge();
      assert PoolFeesUpTo(BlurredPool(), n);
      assert Packs(BlurredPool(), map[], Decodable(), Limits(0, 1), states, pops);
    }
  }

  lemma SmallPoolSmallHeads(p: Pool, heads: map<Sender, nat>, n: nat)
    requires PoolFeesUpTo(p, n) && n <= EXACT
    ensures HeadsOk(p, heads) ==> FeesUpTo(HeapOf(p, heads), EXACT)
  {
  }

  // ----- whatever the fees

  lemma RoundsNear(fee: nat)
    ensures 2 * (Priority(fee) - fee) <= Unit(fee) && 2 * (fee - Priority(fee)) <= Unit(fee)
  {
    hide Unit;
    var u := Unit(fee);
    DivMod(fee, u);
    Distribute(fee / u, 1, u);
  }

  /** For fees of any size a pop is at most one rounding step below the best head. */
  lemma PopsNearBest(heap: set<TxItem>, x: TxItem, y: TxItem)
    requires Best(heap, x) && y in heap
    ensures y.fee - x.fee <= Unit(y.fee)
  {
    hide Priority, Unit;
    if x.fee < y.fee {
      PriorityMonotone(x.fee, y.fee);
      UnitGrows(x.fee, y.fee);
      RoundsNear(x.fee);
      RoundsNear(y.fee);
    }
  }

  // ----- which fees get in

  /** The fee of a transaction the validator approved on a ledger reached without coinbase fees. */
  ghost predicate ApprovedFee(fee: u64, oracle: Ledger.Oracle, blocks: seq<LedgerRuns.Block>, txs: seq<Ledger.Tx>, i: nat) {
    && LedgerRuns.Run(oracle, blocks).Some? && LedgerRuns.FeeFree(blocks)
    && Admission.ApprovedAt(oracle, LedgerRuns.Run(oracle, blocks).value, txs, i) && fee == txs[i].fee
  }

  /** The batch passed the endpoint's check against what some address can spend. */
  ghost predicate Covered(s: Ledger.State, txs: seq<Ledger.Tx>) {
    exists a: Bytes, spendable: u64 ::
      spendable <= LedgerHistory.GetSpendableBalance(s, a) && Admission.Affordable(spendable, txs)
  }

  /** A fee of an exchange batch that passed the endpoint's check there, its exact cost within 64 bits. */
  ghost predicate BatchFee(fee: u64, oracle: Ledger.Oracle, blocks: seq<LedgerRuns.Block>, txs: seq<Ledger.Tx>, i: nat) {
    && LedgerRuns.Run(oracle, blocks).Some? && LedgerRuns.FeeFree(blocks)
    && Covered(LedgerRuns.Run(oracle, blocks).value, txs)
    && i < |txs| && fee == txs[i].fee && Admission.Cost(txs, |txs|) <= U64_MAX
  }

  /** Both ways in keep fees at the supply or below, so below 2^53. */
  lemma AdmittedFeesAreSmall(fee: u64, oracle: Ledger.Oracle, blocks: seq<LedgerRuns.Block>, txs: seq<Ledger.Tx>, i: nat)
    requires ApprovedFee(fee, oracle, blocks, txs, i) || BatchFee(fee, oracle, blocks, txs, i)
    ensures fee <= Emission.TOTAL_SUPPLY < EXACT
  {
    hide LedgerRuns.Run, Admission.Verdict, LedgerHistory.GetSpendableBalance, Admission.Affordable, Admission.Cost;
    if ApprovedFee(fee, oracle, blocks, txs, i) {
      Admission.ApprovedWithinSupply(oracle, blocks, txs, i);
    } else {
      var s := LedgerRuns.Run(oracle, blocks).value;
      var a: Bytes, spendable: u64 :|
        spendable <= LedgerHistory.GetSpendableBalance(s, a) && Admission.Affordable(spendable, txs);
      Admission.SpendableWithinSupply(oracle, blocks, a);
      Admission.AffordableIff(spendable, txs);
    }
  }

  ghost predicate Admitted(fee: u64) {
    exists oracle, blocks, txs, i :: ApprovedFee(fee, oracle, blocks, txs, i) || BatchFee(fee, oracle, blocks, txs, i)
  }

  /** A pool all of whose fees were so admitted is packed by the best fee, in every run of the merge. */
  lemma AdmittedPoolsPackBest(p: Pool, nonces: map<Sender, u64>, decodes: Bytes -> bool, limits: Limits,
                              states: seq<Merge>, pops: seq<Sender>, i: nat)
    requires Packs(p, nonces, decodes, limits, states, pops) && i < |pops|
    requires forall s, j :: s in p.queues && 0 <= j < |p.queues[s]| ==> Admitted(p.queues[s][j].fee)
    ensures PopsBestFee(p, states[i], pops[i])
  {
    hide Packs, PopsBestFee, HeapOf, ApprovedFee, BatchFee;
    forall s, j | s in p.queues && 0 <= j < |p.queues[s]| ensures p.queues[s][j].fee <= EXACT {
      var fee := p.queues[s][j].fee;
      var oracle, blocks, txs, k :| ApprovedFee(fee, oracle, blocks, txs, k) || BatchFee(fee, oracle, blocks, txs, k);
      AdmittedFeesAreSmall(fee, oracle, blocks, txs, k);
    }
    StepOf(p, nonces, decodes, limits, states, pops, i);
    SmallPoolSmallHeads(p, states[i].heads, EXACT);
    SmallHeadsPopBest(p, nonces, decodes, limits, states, pops, i);
  }

  // ----- a larger fee gets in where the exact cost exceeds 64 bits

  /** The ledger transaction behind such a witness. */
  function WitnessTx(sender: Bytes, fee: u64): Ledger.Tx
    requires fee > 0
  {
    Ledger.Tx(sender, [], U64_MAX + 1 - fee, fee, 1, 0, [], Wrappers.Some(LedgerGate.SIGNATURE))
  }

  /** The exchange endpoint admits this transaction, which is what the pool then queues. */
  ghost predicate Enters(item: TxItem) {
    exists oracle, s, spendable, current, tx ::
      && Admission.EndpointAdmits(oracle, s, spendable, current, [tx], 0)
      && item.fee == tx.fee && item.amount == tx.amount && item.nonce == tx.nonce
  }

  /** Whatever the fee, the endpoint admits its witness. */
  lemma WitnessEnters(sender: Sender, fee: u64, timestamp: int, hash: Hash)
    requires fee > 0
    ensures Enters(Witness(sender, fee, timestamp, hash))
  {
    hide Admission.EndpointAdmits;
    var tx := WitnessTx(LedgerGate.OWNER, fee);
    WitnessIsAhead(tx, fee);
    Admission.WrappedCostPasses(LedgerGate.OpenOracle(), LedgerRuns.EMPTY, 0, tx);
  }

  lemma WitnessIsAhead(tx: Ledger.Tx, fee: u64)
    requires fee > 0 && tx == WitnessTx(LedgerGate.OWNER, fee)
    ensures Admission.AheadOfLedger(LedgerGate.OpenOracle(), LedgerRuns.EMPTY, tx)
  {
    assert |LedgerGate.SIGNATURE| == 64;
    assert Ledger.ReadAccount(LedgerRuns.EMPTY, tx.sender).nonce == 0;
  }

  /** The pool in which the lower fee goes first holds transactions the endpoint admits. */
  lemma BlurredPoolEnters()
    ensures BlurredPool().queues == map["0xa" := [High()], "0xb" := [Low()]]
    ensures Enters(High()) && Enters(Low())
  {
    hide Enters, Added;
    BlurredQueues();
    WitnessEnters("0xa", EXACT + 1, 1, "h");
    WitnessEnters("0xb", EXACT, 0, "l");
  }
}
