/**
Where the money is. `Total` adds up balances and waiting rewards over all accounts; the
lemmas follow it through one transaction, one block, and a whole run of blocks.
*/
module LedgerMoney {
  import opened Ledger
  import opened Machine
  import opened Wrappers

  // ----- worth of an account, total of a map

  ghost function Pending(rewards: seq<MaturingReward>): nat {
    if rewards == [] then 0 else Pending(rewards[..|rewards| - 1]) + rewards[|rewards| - 1].amount
  }

  /** The exact sum of the rewards due at `height`. */
  ghost function Due(rewards: seq<MaturingReward>, height: nat): nat {
    if rewards == [] then 0
    else
      var r := rewards[|rewards| - 1];
      Due(rewards[..|rewards| - 1], height) + if r.height <= height then r.amount else 0
  }

  ghost function Worth(a: Account): nat {
    a.balance + Pending(a.maturing)
  }

  ghost function Total(m: map<Bytes, Account>): nat {
    if m == map[] then 0
    else
      var k :| k in m;
      Worth(m[k]) + Total(m - {k})
  }

  lemma {:induction false} TotalRemove(m: map<Bytes, Account>, k: Bytes)
    requires k in m
    ensures Total(m) == Worth(m[k]) + Total(m - {k})
    decreases |m|
  {
    var j :| j in m && Total(m) == Worth(m[j]) + Total(m - {j});
    if j != k {
      TotalRemove(m - {j}, k);
      TotalRemove(m - {k}, j);
      assert m - {j} - {k} == m - {k} - {j};
    }
  }

  ghost function WorthAt(m: map<Bytes, Account>, k: Bytes): nat {
    if k in m then Worth(m[k]) else 0
  }

  lemma TotalPut(m: map<Bytes, Account>, k: Bytes, x: Account)
    ensures Total(m[k := x]) == Total(m) - WorthAt(m, k) + Worth(x)
    ensures WorthAt(m, k) <= Total(m)
  {
    TotalRemove(m[k := x], k);
    assert m[k := x] - {k} == m - {k};
    if k in m {
      TotalRemove(m, k);
    } else {
      assert m - {k} == m;
    }
  }

  lemma {:induction false} TotalSameWorth(m: map<Bytes, Account>, n: map<Bytes, Account>)
    requires m.Keys == n.Keys
    requires forall k :: k in m ==> Worth(m[k]) == Worth(n[k])
    ensures Total(m) == Total(n)
    decreases |m|
  {
    if m == map[] {
      assert n == map[];
    } else {
      var k :| k in m;
      TotalRemove(m, k);
      TotalRemove(n, k);
      TotalSameWorth(m - {k}, n - {k});
    }
  }

  // ----- maturing moves money from waiting to spendable

  lemma {:induction false} MatureParts(rewards: seq<MaturingReward>, height: nat)
    ensures Pending(rewards) == Due(rewards, height) + Pending(Waiting(rewards, height))
    ensures Due(rewards, height) <= U64_MAX ==> Payout(rewards, height) == Due(rewards, height)
  {
    if rewards != [] {
      var before, r := rewards[..|rewards| - 1], rewards[|rewards| - 1];
      MatureParts(before, height);
      var w := Waiting(before, height);
      assert (w + [r])[..|w|] == w && w + [] == w;
    }
  }

  /** Maturing neither creates nor destroys money, as long as the payout fits in 64 bits. */
  lemma MatureKeepsWorth(a: Account, height: nat)
    requires a.balance + Due(a.maturing, height) <= U64_MAX
    ensures Worth(Mature(a, height)) == Worth(a)
    ensures Mature(a, height).balance == a.balance + Due(a.maturing, height)
  {
    MatureParts(a.maturing, height);
  }

  lemma MissingIsFresh(s: State, a: Bytes)
    requires a !in s.accounts
    ensures ReadAccount(s, a) == FRESH && Worth(ReadAccount(s, a)) == 0
  {
  }

  // ----- the accounts a block sees

  /** Every account the block can see, stored or changed. */
  ghost function Shown(ctx: Context, changed: map<Bytes, Account>): map<Bytes, Account> {
    map a | a in ctx.state.accounts.Keys + changed.Keys :: View(ctx, changed, a)
  }

  lemma ShownUpdate(ctx: Context, changed: map<Bytes, Account>, a: Bytes, x: Account)
    ensures Shown(ctx, changed[a := x]) == Shown(ctx, changed)[a := x]
  {
    var after := changed[a := x];
    forall b ensures b != a ==> View(ctx, after, b) == View(ctx, changed, b) {}
  }

  /** What an account shows is its entry among the shown accounts, or a fresh account. */
  lemma ShownWorth(ctx: Context, changed: map<Bytes, Account>, a: Bytes)
    ensures WorthAt(Shown(ctx, changed), a) == Worth(View(ctx, changed, a))
  {
    var m := Shown(ctx, changed);
    if a in m {
      assert m[a] == View(ctx, changed, a);
    } else {
      assert View(ctx, changed, a) == ReadAccount(ctx.state, a);
      MissingIsFresh(ctx.state, a);
    }
  }

  lemma ShownPut(ctx: Context, changed: map<Bytes, Account>, a: Bytes, x: Account)
    ensures Total(Shown(ctx, changed[a := x])) ==
            Total(Shown(ctx, changed)) - Worth(View(ctx, changed, a)) + Worth(x)
    ensures Worth(View(ctx, changed, a)) <= Total(Shown(ctx, changed))
  {
    ShownUpdate(ctx, changed, a, x);
    ShownWorth(ctx, changed, a);
    TotalPut(Shown(ctx, changed), a, x);
  }

  lemma StoredWorthBounded(s: State, a: Bytes)
    requires Total(s.accounts) <= U64_MAX && a in s.accounts
    ensures Worth(ReadAccount(s, a)) == Worth(s.accounts[a]) <= Total(s.accounts)
  {
    TotalRemove(s.accounts, a);
    MatureParts(s.accounts[a].maturing, s.version);
    MatureKeepsWorth(s.accounts[a], s.version);
  }

  lemma ShownAtStart(ctx: Context)
    requires Total(ctx.state.accounts) <= U64_MAX
    ensures Total(Shown(ctx, map[])) == Total(ctx.state.accounts)
  {
    forall a | a in ctx.state.accounts
      ensures Worth(Shown(ctx, map[])[a]) == Worth(ctx.state.accounts[a])
    {
      StoredWorthBounded(ctx.state, a);
    }
    TotalSameWorth(Shown(ctx, map[]), ctx.state.accounts);
  }

  // ----- one transaction

  /** What a transfer costs its sender, in unbounded arithmetic. */
  function SpendOf(ctx: Context, tx: Tx, p: Progress): nat {
    if tx.amount == 0 then 0
    else tx.amount + tx.fee + CreationFee(View(ctx, p.changed, AddressOf(tx.receiver)))
  }

  /** What acceptance means for the accounts. */
  lemma Accepted(ctx: Context, index: nat, tx: Tx, changed: map<Bytes, Account>)
    requires Judge(ctx, index, tx, changed) == None
    ensures index == 0 <==> tx.amount == 0
    ensures tx.amount > 0 ==>
      var sender := View(ctx, changed, AddressOf(tx.sender));
      && tx.nonce == sender.nonce && IsValidFee(tx.fee)
      && TotalSpend(tx, CreationFee(View(ctx, changed, AddressOf(tx.receiver)))) <= sender.balance
  {
    hide View, RecentHashes, IsValidFee, CreationFee, TotalSpend, AddressOf;
  }

  lemma SpendWithin(tx: Tx, creationFee: u64, balance: u64)
    requires TotalSpend(tx, creationFee) <= balance < U64_MAX
    ensures TotalSpend(tx, creationFee) == tx.amount + tx.fee + creationFee
  {
  }

  /** An accepted transfer's cost is computed without saturating and is covered by the balance. */
  lemma SpendIsExact(ctx: Context, index: nat, tx: Tx, p: Progress)
    requires Judge(ctx, index, tx, p.changed) == None && tx.amount > 0
    requires Total(Shown(ctx, p.changed)) < U64_MAX
    ensures index > 0
    ensures TotalSpend(tx, CreationFee(View(ctx, p.changed, AddressOf(tx.receiver)))) == SpendOf(ctx, tx, p)
    ensures SpendOf(ctx, tx, p) <= View(ctx, p.changed, AddressOf(tx.sender)).balance
  {
    hide Judge, Shown, Total, View, IsNewWallet, TotalSpend, Pending;
    Accepted(ctx, index, tx, p.changed);
    var sender := View(ctx, p.changed, AddressOf(tx.sender));
    ShownPut(ctx, p.changed, AddressOf(tx.sender), FRESH);
    SpendWithin(tx, CreationFee(View(ctx, p.changed, AddressOf(tx.receiver))), sender.balance);
  }

  ghost function Debited(ctx: Context, tx: Tx, p: Progress): map<Bytes, Account>
    requires SpendOf(ctx, tx, p) <= U64_MAX
  {
    p.changed[AddressOf(tx.sender) := Debit(View(ctx, p.changed, AddressOf(tx.sender)), SpendOf(ctx, tx, p))]
  }

  /** The exact effect of one executed transfer on the accounts: no addition saturates. */
  lemma TransferIsExact(ctx: Context, index: nat, tx: Tx, p: Progress)
    requires Judge(ctx, index, tx, p.changed) == None && tx.amount > 0
    requires Total(Shown(ctx, p.changed)) < U64_MAX
    ensures SpendOf(ctx, tx, p) <= View(ctx, p.changed, AddressOf(tx.sender)).balance
    ensures
      var r := View(ctx, Debited(ctx, tx, p), AddressOf(tx.receiver));
      && Apply(ctx, index, tx, p).changed == Debited(ctx, tx, p)[AddressOf(tx.receiver) := Credit(r, tx.amount)]
      && Credit(r, tx.amount).balance == r.balance + tx.amount
  {
    SpendIsExact(ctx, index, tx, p);
    DebitedTotal(ctx, tx, p);
    CreditIsExact(ctx, tx, p);
    ApplyTransfer(ctx, index, tx, p);
  }

  lemma ApplyTransfer(ctx: Context, index: nat, tx: Tx, p: Progress)
    requires index > 0 && tx.amount > 0
    requires SpendOf(ctx, tx, p) <= U64_MAX
    ensures
      var r := View(ctx, Debited(ctx, tx, p), AddressOf(tx.receiver));
      Apply(ctx, index, tx, p).changed == Debited(ctx, tx, p)[AddressOf(tx.receiver) := Credit(r, tx.amount)]
  {
  }

  lemma CreditIsExact(ctx: Context, tx: Tx, p: Progress)
    requires SpendOf(ctx, tx, p) <= U64_MAX
    requires Total(Shown(ctx, Debited(ctx, tx, p))) + tx.amount <= U64_MAX
    ensures
      var r := View(ctx, Debited(ctx, tx, p), AddressOf(tx.receiver));
      Credit(r, tx.amount).balance == r.balance + tx.amount
  {
    hide *;
    ShownPut(ctx, Debited(ctx, tx, p), AddressOf(tx.receiver), FRESH);
    CreditWithin(View(ctx, Debited(ctx, tx, p), AddressOf(tx.receiver)), tx.amount);
  }

  lemma CreditWithin(a: Account, amount: u64)
    ensures Worth(a) + amount <= U64_MAX ==> Credit(a, amount).balance == a.balance + amount
  {
  }

  lemma DebitedTotal(ctx: Context, tx: Tx, p: Progress)
    requires SpendOf(ctx, tx, p) <= View(ctx, p.changed, AddressOf(tx.sender)).balance
    ensures Total(Shown(ctx, Debited(ctx, tx, p))) + SpendOf(ctx, tx, p) == Total(Shown(ctx, p.changed))
  {
    var before := View(ctx, p.changed, AddressOf(tx.sender));
    ShownPut(ctx, p.changed, AddressOf(tx.sender), Debit(before, SpendOf(ctx, tx, p)));
  }

  /** Only the fees leave the accounts. */
  lemma TransferTotal(ctx: Context, index: nat, tx: Tx, p: Progress)
    requires Judge(ctx, index, tx, p.changed) == None && tx.amount > 0
    requires Total(Shown(ctx, p.changed)) < U64_MAX
    ensures Total(Shown(ctx, Apply(ctx, index, tx, p).changed)) + SpendOf(ctx, tx, p) ==
            Total(Shown(ctx, p.changed)) + tx.amount
  {
    TransferIsExact(ctx, index, tx, p);
    DebitedTotal(ctx, tx, p);
    var debited, receiver := Debited(ctx, tx, p), AddressOf(tx.receiver);
    ShownPut(ctx, debited, receiver, Credit(View(ctx, debited, receiver), tx.amount));
  }

  // ----- the transactions of a block

  datatype Tally = Tally(volume: nat, amounts: nat)

  /** What the first `count` transactions took from senders and gave to receivers, unbounded. */
  ghost function TallyAfter(ctx: Context, txs: seq<Tx>, count: nat): Tally
    requires count <= |txs| && After(ctx, txs, count).Ok? && !ctx.simulation
  {
    if count == 0 then Tally(0, 0)
    else
      var t := TallyAfter(ctx, txs, count - 1);
      var tx := txs[count - 1];
      Tally(t.volume + SpendOf(ctx, tx, After(ctx, txs, count - 1).value), t.amounts + tx.amount)
  }

  function CoinbaseFee(txs: seq<Tx>): nat {
    if txs == [] then 0 else txs[0].fee
  }

  function Clamp(x: nat): u64 {
    if x <= U64_MAX then x else U64_MAX
  }

  lemma ClampAdd(x: nat, y: nat)
    ensures SatAdd64(Clamp(x), Clamp(y)) == Clamp(x + y)
  {
  }

  ghost predicate Tallied(p: Progress, t: Tally, coinbaseFee: nat) {
    && t.amounts <= t.volume
    && p.deducted == Clamp(t.volume)
    && p.credited == Clamp(t.amounts)
    && p.fees == Clamp(t.volume - t.amounts + coinbaseFee)
    && p.changed.Keys == p.touched
  }

  lemma TallyTransfer(ctx: Context, index: nat, tx: Tx, p: Progress, t: Tally, coinbaseFee: nat)
    requires Judge(ctx, index, tx, p.changed) == None && tx.amount > 0
    requires Total(Shown(ctx, p.changed)) < U64_MAX
    requires Tallied(p, t, coinbaseFee)
    ensures Tallied(Apply(ctx, index, tx, p),
                    Tally(t.volume + SpendOf(ctx, tx, p), t.amounts + tx.amount), coinbaseFee)
  {
    SpendIsExact(ctx, index, tx, p);
    hide Judge, Shown, Total, View, IsNewWallet;
    var creationFee := CreationFee(View(ctx, p.changed, AddressOf(tx.receiver)));
    ClampAdd(t.volume, SpendOf(ctx, tx, p));
    ClampAdd(t.amounts, tx.amount);
    var fees := t.volume - t.amounts + coinbaseFee;
    ClampAdd(fees, tx.fee);
    ClampAdd(fees + tx.fee, creationFee);
  }

  lemma TallyCoinbase(ctx: Context, tx: Tx)
    requires tx.amount == 0
    ensures Tallied(Apply(ctx, 0, tx, START), Tally(0, 0), tx.fee)
    ensures Total(Shown(ctx, Apply(ctx, 0, tx, START).changed)) == Total(Shown(ctx, START.changed))
  {
    var receiver := AddressOf(tx.receiver);
    var r := View(ctx, START.changed, receiver);
    ShownPut(ctx, START.changed, receiver, Credit(r, 0));
    assert Credit(r, 0) == r;
  }

  /**
  The invariant of the executor's loop: the counters are the clamped exact sums, and money
  in accounts plus fees taken is what the block started with.
  */
  ghost predicate Invariant(ctx: Context, txs: seq<Tx>, count: nat, p: Progress, t: Tally) {
    && (count == 0 ==> p == START && t == Tally(0, 0))
    && Tallied(p, t, if count == 0 then 0 else CoinbaseFee(txs))
    && Total(Shown(ctx, p.changed)) + (t.volume - t.amounts) == Total(ctx.state.accounts)
  }

  lemma SpendOfCoinbase(ctx: Context, tx: Tx, p: Progress)
    requires tx.amount == 0
    ensures SpendOf(ctx, tx, p) == 0
  {
  }

  lemma InvariantStep(ctx: Context, txs: seq<Tx>, index: nat, p: Progress, t: Tally)
    requires index < |txs| && Judge(ctx, index, txs[index], p.changed) == None
    requires Invariant(ctx, txs, index, p, t)
    requires Total(ctx.state.accounts) < U64_MAX
    ensures Invariant(ctx, txs, index + 1, Apply(ctx, index, txs[index], p),
                      Tally(t.volume + SpendOf(ctx, txs[index], p), t.amounts + txs[index].amount))
  {
    hide Apply, Judge, Shown, Total, SpendOf, Clamp;
    Accepted(ctx, index, txs[index], p.changed);
    if index == 0 {
      SpendOfCoinbase(ctx, txs[0], p);
      TallyCoinbase(ctx, txs[0]);
    } else {
      TransferTotal(ctx, index, txs[index], p);
      TallyTransfer(ctx, index, txs[index], p, t, CoinbaseFee(txs));
    }
  }

  /** A successful real run executed every transaction. */
  lemma AfterUnfolds(ctx: Context, txs: seq<Tx>, count: nat)
    requires 0 < count <= |txs| && After(ctx, txs, count).Ok? && !ctx.simulation
    ensures After(ctx, txs, count - 1).Ok?
    ensures
      var p := After(ctx, txs, count - 1).value;
      && Judge(ctx, count - 1, txs[count - 1], p.changed) == None
      && After(ctx, txs, count).value == Apply(ctx, count - 1, txs[count - 1], p)
  {
  }

  lemma {:induction false} ChangedAreTouched(ctx: Context, txs: seq<Tx>, count: nat)
    requires count <= |txs| && After(ctx, txs, count).Ok? && !ctx.simulation
    ensures After(ctx, txs, count).value.changed.Keys <= After(ctx, txs, count).value.touched
  {
    hide View, Judge, CreationFee, TotalSpend, Debit, Credit;
    if count > 0 {
      AfterUnfolds(ctx, txs, count);
      ChangedAreTouched(ctx, txs, count - 1);
      Accepted(ctx, count - 1, txs[count - 1], After(ctx, txs, count - 1).value.changed);
    }
  }

  /** The invariant of the executor's loop. */
  lemma InvariantBase(ctx: Context, txs: seq<Tx>)
    requires Total(ctx.state.accounts) < U64_MAX && !ctx.simulation
    ensures After(ctx, txs, 0) == Ok(START)
    ensures Invariant(ctx, txs, 0, After(ctx, txs, 0).value, TallyAfter(ctx, txs, 0))
  {
    ShownAtStart(ctx);
  }

  lemma TallyUnfolds(ctx: Context, txs: seq<Tx>, count: nat)
    requires 0 < count <= |txs| && After(ctx, txs, count).Ok? && !ctx.simulation
    ensures After(ctx, txs, count - 1).Ok?
    ensures
      var p, t, tx := After(ctx, txs, count - 1).value, TallyAfter(ctx, txs, count - 1), txs[count - 1];
      TallyAfter(ctx, txs, count) == Tally(t.volume + SpendOf(ctx, tx, p), t.amounts + tx.amount)
  {
  }

  lemma {:induction false} BlockInvariant(ctx: Context, txs: seq<Tx>, count: nat)
    requires count <= |txs| && After(ctx, txs, count).Ok? && !ctx.simulation
    requires Total(ctx.state.accounts) < U64_MAX
    ensures Invariant(ctx, txs, count, After(ctx, txs, count).value, TallyAfter(ctx, txs, count))
  {
    hide *;
    if count == 0 {
      InvariantBase(ctx, txs);
    } else {
      AfterUnfolds(ctx, txs, count);
      TallyUnfolds(ctx, txs, count);
      BlockInvariant(ctx, txs, count - 1);
      InvariantStep(ctx, txs, count - 1, After(ctx, txs, count - 1).value, TallyAfter(ctx, txs, count - 1));
    }
  }
}
