/**
Which transactions get into the pool: the validator that approves a batch against the ledger,
and the running total the exchange endpoint takes over its own batch. Both bound the fees the
pool ever sees.
*/
module Admission {
  import opened Emission
  import opened Ledger
  import opened LedgerHistory
  import opened LedgerMoney
  import opened LedgerRuns
  import opened Machine

  const APPROVED := 1
  const BAD_SENDER := 102
  const BAD_SIGNATURE_LENGTH := 103
  const SIGNATURE_REFUSED := 104
  const NONCE_TOO_LOW := 105
  const NONCE_GAP := 106
  const OUTDATED_OR_UNCOVERED := 107
  const NO_RECENT_HASH := 108

  // ----- the validator's cache of wallets

  /** Wallets changed by the approved part of the batch, and receivers it credited. */
  datatype Cache = Cache(wallets: map<Bytes, Account>, credited: set<Bytes>)

  function AtTip(oracle: Oracle, s: State): Context {
    Context(oracle, s, ZERO32, s.version + 1, false)
  }

  function HashesAtTip(s: State): set<Bytes> {
    set h | h in s.blockHashes && s.version - RECENT_WINDOW <= h <= s.version :: s.blockHashes[h]
  }

  /** Three of the four conditions of the executor: the coin id is not looked at. */
  predicate LooksNew(a: Account) {
    a.balance == 0 && a.nonce == 0 && a.maturing == []
  }

  function ReceiverFee(ctx: Context, cache: Cache, tx: Tx): u64 {
    if |tx.receiver| == 32 && LooksNew(ReadAccount(ctx.state, tx.receiver)) && tx.receiver !in cache.credited
    then WALLET_CREATION_FEE else 0
  }

  function FormVerdict(oracle: Oracle, tx: Tx): nat {
    if |tx.sender| != 32 then BAD_SENDER
    else if tx.signature.None? || |tx.signature.value| != 64 then BAD_SIGNATURE_LENGTH
    else if !oracle.verify(tx.sender, oracle.signingHash(tx), tx.signature.value) then SIGNATURE_REFUSED
    else APPROVED
  }

  /** The verdict on one transaction after the approved ones before it. */
  function Verdict(ctx: Context, cache: Cache, tx: Tx): nat {
    if FormVerdict(ctx.oracle, tx) != APPROVED then FormVerdict(ctx.oracle, tx)
    else if tx.amount > 0 && ctx.state.version >= REPLAY_CHECK_FROM && |tx.recentBlockHash| != 32 then NO_RECENT_HASH
    else if tx.amount > 0 && ctx.state.version >= REPLAY_CHECK_FROM && tx.recentBlockHash !in HashesAtTip(ctx.state) then
      OUTDATED_OR_UNCOVERED
    else
      var sender := View(ctx, cache.wallets, tx.sender);
      if tx.nonce < sender.nonce then NONCE_TOO_LOW
      else if tx.nonce != sender.nonce then NONCE_GAP
      else if sender.balance < TotalSpend(tx, ReceiverFee(ctx, cache, tx)) then OUTDATED_OR_UNCOVERED
      else APPROVED
  }

  /** The receiver is credited first, then the sender debited; the two may be one wallet. */
  function Admit(ctx: Context, cache: Cache, tx: Tx): Cache {
    var spend := TotalSpend(tx, ReceiverFee(ctx, cache, tx));
    var paid :=
      if |tx.receiver| == 32 then cache.wallets[tx.receiver := Credit(View(ctx, cache.wallets, tx.receiver), tx.amount)]
      else cache.wallets;
    var sender := View(ctx, paid, tx.sender);
    Cache(paid[tx.sender := sender.(balance := SatSub64(sender.balance, spend), nonce := SatAdd64(sender.nonce, 1))],
          if |tx.receiver| == 32 then cache.credited + {tx.receiver} else cache.credited)
  }

  /** The cache after the first n transactions of a batch. */
  function CacheAfter(ctx: Context, txs: seq<Tx>, n: nat): Cache
    requires n <= |txs|
  {
    if n == 0 then Cache(map[], {})
    else
      var before := CacheAfter(ctx, txs, n - 1);
      if Verdict(ctx, before, txs[n - 1]) == APPROVED then Admit(ctx, before, txs[n - 1]) else before
  }

  // ----- the validator as the node runs it

  /** A prefetched wallet: spendable balance, expected nonce, and whether it is new. */
  datatype Wallet = Wallet(balance: u64, nonce: u64, isNew: bool)

  function WalletOf(a: Account): Wallet {
    Wallet(a.balance, a.nonce, LooksNew(a))
  }

  /** The prefetched wallets show what the cache of the specification shows. */
  ghost predicate SameWallets(ctx: Context, wallets: map<Bytes, Wallet>, cache: Cache) {
    forall a :: a in wallets ==>
      && wallets[a].balance == View(ctx, cache.wallets, a).balance
      && wallets[a].nonce == View(ctx, cache.wallets, a).nonce
      && wallets[a].isNew == (LooksNew(ReadAccount(ctx.state, a)) && a !in cache.credited)
  }

  ghost predicate Prefetched(oracle: Oracle, wallets: map<Bytes, Wallet>, tx: Tx) {
    FormVerdict(oracle, tx) == APPROVED ==> tx.sender in wallets && (|tx.receiver| == 32 ==> tx.receiver in wallets)
  }

  /** The wallets of all well-formed transactions, read before the first verdict. */
  method PrefetchWallets(ctx: Context, txs: seq<Tx>, forms: seq<nat>) returns (wallets: map<Bytes, Wallet>)
    requires |forms| == |txs| && forall i :: 0 <= i < |txs| ==> forms[i] == FormVerdict(ctx.oracle, txs[i])
    ensures SameWallets(ctx, wallets, Cache(map[], {}))
    ensures forall i :: 0 <= i < |txs| ==> Prefetched(ctx.oracle, wallets, txs[i])
  {
    hide ReadAccount, FormVerdict;
    var addresses: set<Bytes> := {};
    for i := 0 to |txs|
      invariant forall j :: 0 <= j < i && FormVerdict(ctx.oracle, txs[j]) == APPROVED ==>
                  txs[j].sender in addresses && (|txs[j].receiver| == 32 ==> txs[j].receiver in addresses)
    {
      if forms[i] == APPROVED {
        addresses := addresses + {txs[i].sender};
        if |txs[i].receiver| == 32 {
          addresses := addresses + {txs[i].receiver};
        }
      }
    }
    wallets := map a | a in addresses :: WalletOf(ReadAccount(ctx.state, a));
  }

  /** The hashes of the last 100 blocks and of the tip. */
  method LoadHashesAtTip(s: State) returns (recent: set<Bytes>)
    ensures recent == HashesAtTip(s)
  {
    recent := {};
    var start := if s.version >= RECENT_WINDOW then s.version - RECENT_WINDOW else 0;
    for h := start to s.version + 1
      invariant recent == set k | k in s.blockHashes && start <= k < h :: s.blockHashes[k]
    {
      if h in s.blockHashes {
        recent := recent + {s.blockHashes[h]};
      }
    }
  }

  /** One verdict read off the wallets, and the wallets after it. */
  method JudgeFromWallets(ctx: Context, tx: Tx, form: nat, recent: set<Bytes>, wallets: map<Bytes, Wallet>, ghost cache: Cache)
    returns (code: nat, updated: map<Bytes, Wallet>)
    requires form == FormVerdict(ctx.oracle, tx) && recent == HashesAtTip(ctx.state)
    requires SameWallets(ctx, wallets, cache) && Prefetched(ctx.oracle, wallets, tx)
    ensures code == Verdict(ctx, cache, tx) && updated.Keys == wallets.Keys
    ensures SameWallets(ctx, updated, if code == APPROVED then Admit(ctx, cache, tx) else cache)
  {
    hide ReadAccount, FormVerdict, HashesAtTip, LooksNew, View;
    updated := wallets;
    if form != APPROVED {
      return form, updated;
    }
    if tx.amount > 0 && ctx.state.version >= REPLAY_CHECK_FROM {
      if |tx.recentBlockHash| == 32 {
        if tx.recentBlockHash !in recent {
          return OUTDATED_OR_UNCOVERED, updated;
        }
      } else {
        return NO_RECENT_HASH, updated;
      }
    }
    var sender := wallets[tx.sender];
    if tx.nonce < sender.nonce {
      return NONCE_TOO_LOW, updated;
    }
    if tx.nonce != sender.nonce {
      return NONCE_GAP, updated;
    }
    var creationFee: u64 := 0;
    if |tx.receiver| == 32 && wallets[tx.receiver].isNew {
      creationFee := WALLET_CREATION_FEE;
    }
    var total := SatAdd64(SatAdd64(tx.amount, tx.fee), creationFee);
    if sender.balance < total {
      return OUTDATED_OR_UNCOVERED, updated;
    }
    ghost var paid := cache.wallets;
    if |tx.receiver| == 32 {
      var r := updated[tx.receiver];
      updated := updated[tx.receiver := r.(balance := SatAdd64(r.balance, tx.amount), isNew := false)];
      paid := paid[tx.receiver := Credit(View(ctx, paid, tx.receiver), tx.amount)];
      CreditBoth(ctx, wallets, cache, tx.receiver, tx.amount);
    }
    var s := updated[tx.sender];
    ghost var credited := if |tx.receiver| == 32 then cache.credited + {tx.receiver} else cache.credited;
    DebitBoth(ctx, updated, Cache(paid, credited), tx.sender, total);
    updated := updated[tx.sender := s.(balance := SatSub64(s.balance, total), nonce := SatAdd64(s.nonce, 1))];
    code := APPROVED;
  }

  lemma CreditBoth(ctx: Context, wallets: map<Bytes, Wallet>, cache: Cache, a: Bytes, amount: u64)
    requires SameWallets(ctx, wallets, cache) && a in wallets
    ensures SameWallets(ctx, wallets[a := wallets[a].(balance := SatAdd64(wallets[a].balance, amount), isNew := false)],
                        Cache(cache.wallets[a := Credit(View(ctx, cache.wallets, a), amount)], cache.credited + {a}))
  {
    hide ReadAccount, LooksNew;
  }

  lemma DebitBoth(ctx: Context, wallets: map<Bytes, Wallet>, cache: Cache, a: Bytes, spend: u64)
    requires SameWallets(ctx, wallets, cache) && a in wallets
    ensures
      var w, x := wallets[a], View(ctx, cache.wallets, a);
      SameWallets(ctx, wallets[a := w.(balance := SatSub64(w.balance, spend), nonce := SatAdd64(w.nonce, 1))],
                  Cache(cache.wallets[a := x.(balance := SatSub64(x.balance, spend), nonce := SatAdd64(x.nonce, 1))],
                        cache.credited))
  {
    hide ReadAccount, LooksNew;
  }

  /** `validate_transaction_batch` on decoded transactions. */
  method ValidateTransactionBatch(oracle: Oracle, s: State, txs: seq<Tx>) returns (codes: seq<nat>)
    ensures |codes| == |txs|
    ensures forall i :: 0 <= i < |txs| ==> codes[i] == Verdict(AtTip(oracle, s), CacheAfter(AtTip(oracle, s), txs, i), txs[i])
  {
    hide Verdict, Admit, FormVerdict, SameWallets;
    var ctx := AtTip(oracle, s);
    var forms: seq<nat> := [];
    for i := 0 to |txs|
      invariant |forms| == i && forall j :: 0 <= j < i ==> forms[j] == FormVerdict(oracle, txs[j])
    {
      forms := forms + [FormVerdict(oracle, txs[i])];
    }
    var wallets := PrefetchWallets(ctx, txs, forms);
    var recent := LoadHashesAtTip(s);
    ghost var cache := Cache(map[], {});
    codes := [];
    for i := 0 to |txs|
      invariant |codes| == i && cache == CacheAfter(ctx, txs, i) && SameWallets(ctx, wallets, cache)
      invariant forall j :: 0 <= j < |txs| ==> Prefetched(oracle, wallets, txs[j])
      invariant forall j :: 0 <= j < i ==> codes[j] == Verdict(ctx, CacheAfter(ctx, txs, j), txs[j])
    {
      var code, updated := JudgeFromWallets(ctx, txs[i], forms[i], recent, wallets, cache);
      if code == APPROVED {
        cache := Admit(ctx, cache, txs[i]);
      }
      wallets := updated;
      codes := codes + [code];
    }
  }

  // ----- what approval bounds

  lemma AdmitTotal(ctx: Context, cache: Cache, tx: Tx)
    requires Verdict(ctx, cache, tx) == APPROVED && Total(Shown(ctx, cache.wallets)) < U64_MAX
    ensures Total(Shown(ctx, Admit(ctx, cache, tx).wallets)) <= Total(Shown(ctx, cache.wallets))
    ensures tx.amount + tx.fee + ReceiverFee(ctx, cache, tx) <= Total(Shown(ctx, cache.wallets))
  {
    hide View, Shown, Total, TotalSpend, HashesAtTip, FormVerdict, ReceiverFee, Pending;
    var balance := View(ctx, cache.wallets, tx.sender).balance;
    var spend := TotalSpend(tx, ReceiverFee(ctx, cache, tx));
    ApprovedIsCovered(ctx, cache, tx);
    ShownPut(ctx, cache.wallets, tx.sender, FRESH);
    SpendWithin(tx, ReceiverFee(ctx, cache, tx), balance);
    var paid := cache.wallets;
    if |tx.receiver| == 32 {
      var r := View(ctx, cache.wallets, tx.receiver);
      paid := cache.wallets[tx.receiver := Credit(r, tx.amount)];
      ShownPut(ctx, cache.wallets, tx.receiver, Credit(r, tx.amount));
      CreditedView(ctx, cache.wallets, tx.receiver, tx.amount, tx.sender);
    }
    var sender := View(ctx, paid, tx.sender);
    ShownPut(ctx, paid, tx.sender, sender.(balance := SatSub64(sender.balance, spend), nonce := SatAdd64(sender.nonce, 1)));
  }

  lemma ApprovedIsCovered(ctx: Context, cache: Cache, tx: Tx)
    requires Verdict(ctx, cache, tx) == APPROVED
    ensures TotalSpend(tx, ReceiverFee(ctx, cache, tx)) <= View(ctx, cache.wallets, tx.sender).balance
  {
    hide View, TotalSpend, ReceiverFee;
  }

  lemma CreditedView(ctx: Context, wallets: map<Bytes, Account>, a: Bytes, amount: u64, b: Bytes)
    ensures
      var paid := wallets[a := Credit(View(ctx, wallets, a), amount)];
      View(ctx, paid, b).balance >= View(ctx, wallets, b).balance
  {
    hide ReadAccount;
  }

  lemma {:induction false} CachedTotal(ctx: Context, txs: seq<Tx>, n: nat)
    requires n <= |txs| && Total(ctx.state.accounts) < U64_MAX
    ensures Total(Shown(ctx, CacheAfter(ctx, txs, n).wallets)) <= Total(ctx.state.accounts)
  {
    hide Verdict, Admit, Shown, Total;
    if n == 0 {
      ShownAtStart(ctx);
    } else {
      CachedTotal(ctx, txs, n - 1);
      var before := CacheAfter(ctx, txs, n - 1);
      if Verdict(ctx, before, txs[n - 1]) == APPROVED { AdmitTotal(ctx, before, txs[n - 1]); }
    }
  }

  /** Transaction i of a batch was approved on this ledger. */
  ghost predicate ApprovedAt(oracle: Oracle, s: State, txs: seq<Tx>, i: nat) {
    i < |txs| && Verdict(AtTip(oracle, s), CacheAfter(AtTip(oracle, s), txs, i), txs[i]) == APPROVED
  }

  /** What an approved transaction costs is at most all the money in the ledger. */
  lemma ApprovedWithinTotal(oracle: Oracle, s: State, txs: seq<Tx>, i: nat)
    requires ApprovedAt(oracle, s, txs, i) && Total(s.accounts) < U64_MAX
    ensures txs[i].amount + txs[i].fee <= Total(s.accounts)
  {
    hide Verdict, Admit, Shown, Total;
    CachedTotal(AtTip(oracle, s), txs, i);
    AdmitTotal(AtTip(oracle, s), CacheAfter(AtTip(oracle, s), txs, i), txs[i]);
  }

  /** On a ledger reached without coinbase fees it is at most the whole supply. */
  lemma ApprovedWithinSupply(oracle: Oracle, blocks: seq<Block>, txs: seq<Tx>, i: nat)
    requires Run(oracle, blocks).Some? && FeeFree(blocks)
    requires ApprovedAt(oracle, Run(oracle, blocks).value, txs, i)
    ensures txs[i].amount + txs[i].fee <= TOTAL_SUPPLY
  {
    hide Run, Total, ApprovedAt, SupplyAfter;
    RunConserves(oracle, blocks);
    ApprovedWithinTotal(oracle, Run(oracle, blocks).value, txs, i);
  }

  /** Nor can anyone spend more than the supply there. */
  lemma SpendableWithinSupply(oracle: Oracle, blocks: seq<Block>, a: Bytes)
    requires Run(oracle, blocks).Some? && FeeFree(blocks)
    ensures GetSpendableBalance(Run(oracle, blocks).value, a) <= TOTAL_SUPPLY
  {
    hide Run, Total, ReadAccount, SupplyAfter;
    RunConserves(oracle, blocks);
    var s := Run(oracle, blocks).value;
    if a in s.accounts { StoredWorthBounded(s, a); } else { MissingIsFresh(s, a); }
  }

  // ----- the exchange endpoint's own check

  /** The endpoint's running total of amounts and fees, on 64 bits. */
  function Required(txs: seq<Tx>, n: nat): u64
    requires n <= |txs|
  {
    if n == 0 then 0 else WrapAdd64(Required(txs, n - 1), WrapAdd64(txs[n - 1].amount, txs[n - 1].fee))
  }

  /** The same without wrapping. */
  function Cost(txs: seq<Tx>, n: nat): nat
    requires n <= |txs|
  {
    if n == 0 then 0 else Cost(txs, n - 1) + txs[n - 1].amount + txs[n - 1].fee
  }

  predicate Affordable(spendable: u64, txs: seq<Tx>) {
    forall n :: 0 < n <= |txs| ==> Required(txs, n) <= spendable
  }

  /** The cumulative balance check over a signed batch: true when no running total exceeds the balance. */
  method CheckBatch(spendable: u64, txs: seq<Tx>) returns (ok: bool)
    ensures ok == Affordable(spendable, txs)
  {
    var required: u64 := 0;
    for i := 0 to |txs|
      invariant required == Required(txs, i) && forall n :: 0 < n <= i ==> Required(txs, n) <= spendable
    {
      required := WrapAdd64(required, WrapAdd64(txs[i].amount, txs[i].fee));
      if spendable < required {
        assert Required(txs, i + 1) == required;
        return false;
      }
    }
    ok := true;
  }

  lemma {:induction false} RequiredIsCost(txs: seq<Tx>, n: nat)
    requires n <= |txs| && Cost(txs, n) <= U64_MAX
    ensures Required(txs, n) == Cost(txs, n)
  {
    if n > 0 { RequiredIsCost(txs, n - 1); }
  }

  lemma {:induction false} CostGrows(txs: seq<Tx>, m: nat, n: nat)
    requires m <= n <= |txs|
    ensures Cost(txs, m) <= Cost(txs, n)
    ensures m < n ==> txs[m].amount + txs[m].fee <= Cost(txs, n)
    decreases n - m
  {
    if m < n { CostGrows(txs, m, n - 1); }
  }

  /**
  A batch that passes costs no more than the balance if and only if its exact cost fits in 64
  bits; then every fee in it is covered by the balance too.
  */
  lemma AffordableIff(spendable: u64, txs: seq<Tx>)
    requires Affordable(spendable, txs)
    ensures Cost(txs, |txs|) <= spendable <==> Cost(txs, |txs|) <= U64_MAX
    ensures Cost(txs, |txs|) <= U64_MAX ==> forall i :: 0 <= i < |txs| ==> txs[i].fee <= spendable
  {
    if Cost(txs, |txs|) <= U64_MAX {
      RequiredIsCost(txs, |txs|);
      forall i | 0 <= i < |txs| ensures txs[i].fee <= spendable {
        CostGrows(txs, i, |txs|);
      }
    }
  }

  /** The endpoint admits what was approved, and a nonce gap when the nonce is the one it expects itself. */
  predicate Readmitted(code: nat, nonce: u64, expected: u64) {
    code == APPROVED || (code == NONCE_GAP && nonce == expected)
  }

  /** Transaction i of a batch passes the endpoint, whose next expected nonce is `current`. */
  ghost predicate EndpointAdmits(oracle: Oracle, s: State, spendable: u64, current: u64, txs: seq<Tx>, i: nat) {
    && i < |txs| && Affordable(spendable, txs)
    && (forall j :: 0 <= j < |txs| ==> txs[j].nonce == (current + j) % (U64_MAX + 1))
    && Readmitted(Verdict(AtTip(oracle, s), CacheAfter(AtTip(oracle, s), txs, i), txs[i]), txs[i].nonce,
                  (current + i) % (U64_MAX + 1))
  }

  /** Nothing but the nonce order stands in the way of the transaction. */
  ghost predicate AheadOfLedger(oracle: Oracle, s: State, tx: Tx) {
    && FormVerdict(oracle, tx) == APPROVED
    && (tx.amount > 0 && s.version >= REPLAY_CHECK_FROM ==> |tx.recentBlockHash| == 32 && tx.recentBlockHash in HashesAtTip(s))
    && tx.nonce > ReadAccount(s, tx.sender).nonce
  }

  /**
  Where the exact cost exceeds 64 bits the bound fails: an amount and a fee that add up to 2^64
  wrap to zero, which any balance covers. Ahead of the ledger's nonce such a transaction draws
  the nonce-gap verdict before its cost is looked at, so the endpoint admits it, whatever the fee.
  */
  lemma WrappedCostPasses(oracle: Oracle, s: State, spendable: u64, tx: Tx)
    requires AheadOfLedger(oracle, s, tx) && tx.amount + tx.fee == U64_MAX + 1
    ensures Verdict(AtTip(oracle, s), CacheAfter(AtTip(oracle, s), [tx], 0), tx) == NONCE_GAP
    ensures Affordable(spendable, [tx]) && Cost([tx], 1) > U64_MAX
    ensures EndpointAdmits(oracle, s, spendable, tx.nonce, [tx], 0)
  {
    hide ReadAccount, FormVerdict, HashesAtTip;
    assert CacheAfter(AtTip(oracle, s), [tx], 0) == Cache(map[], {});
    assert Cost([tx], 0) == 0 && Required([tx], 0) == 0;
    assert Required([tx], 1) == 0;
  }
}
