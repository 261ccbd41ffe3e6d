/**
One account over a whole run: which rewards it was scheduled, which of them are spendable,
what it received and spent, and which nonces it used.
*/
module LedgerHistory {
  import Emission
  import opened Ledger
  import opened LedgerMoney
  import opened LedgerRuns
  import opened Machine
  import opened Wrappers

  // ----- maturing twice is maturing once

  lemma {:induction false} WaitingTwice(rewards: seq<MaturingReward>, early: nat, late: nat)
    requires early <= late
    ensures Waiting(Waiting(rewards, early), late) == Waiting(rewards, late)
    ensures Due(rewards, late) == Due(rewards, early) + Due(Waiting(rewards, early), late)
  {
    if rewards != [] {
      var before, r := rewards[..|rewards| - 1], rewards[|rewards| - 1];
      WaitingTwice(before, early, late);
      var w := Waiting(before, early);
      assert (w + [r])[..|w|] == w && w + [] == w;
    }
  }

  lemma MatureTwice(a: Account, early: nat, late: nat)
    requires early <= late && Worth(a) <= U64_MAX
    ensures Mature(Mature(a, early), late) == Mature(a, late)
  {
    WaitingTwice(a.maturing, early, late);
    MatureParts(a.maturing, early);
    MatureParts(a.maturing, late);
    MatureParts(Waiting(a.maturing, early), late);
  }

  /** An account matured at a height holds nothing due there, so maturing it again changes nothing. */
  lemma {:induction false} NothingDueWaits(rewards: seq<MaturingReward>, height: nat)
    ensures Payout(Waiting(rewards, height), height) == 0
    ensures forall r :: r in Waiting(rewards, height) ==> r.height > height
  {
    if rewards != [] {
      var before, r := rewards[..|rewards| - 1], rewards[|rewards| - 1];
      NothingDueWaits(before, height);
      var w := Waiting(before, height);
      assert (w + [r])[..|w|] == w && w + [] == w;
    }
  }

  lemma MatureSettled(a: Account, height: nat)
    ensures Mature(Mature(a, height), height) == Mature(a, height)
  {
    NothingDueWaits(a.maturing, height);
    WaitingTwice(a.maturing, height, height);
  }

  /** The rewards due at `height`, in order: what `Waiting` leaves out. */
  function Ripe(rewards: seq<MaturingReward>, height: nat): seq<MaturingReward> {
    if rewards == [] then []
    else
      var r := rewards[|rewards| - 1];
      Ripe(rewards[..|rewards| - 1], height) + if r.height <= height then [r] else []
  }

  /** A sum of amounts on 64 bits, as payout and wallet query compute it. */
  function WrappedSum(rewards: seq<MaturingReward>): u64 {
    if rewards == [] then 0 else WrapAdd64(WrappedSum(rewards[..|rewards| - 1]), rewards[|rewards| - 1].amount)
  }

  /** Maturing pays exactly the due rewards. */
  lemma {:induction false} RipePays(rewards: seq<MaturingReward>, height: nat)
    ensures Payout(rewards, height) == WrappedSum(Ripe(rewards, height))
    ensures forall r :: r in Ripe(rewards, height) ==> r.height <= height
  {
    if rewards != [] {
      var before, r := rewards[..|rewards| - 1], rewards[|rewards| - 1];
      RipePays(before, height);
      var ripe := Ripe(before, height);
      assert (ripe + [r])[..|ripe|] == ripe && ripe + [] == ripe;
    }
  }

  /** Due and waiting rewards are all there are, each once. */
  lemma {:induction false} RipeAndWaiting(rewards: seq<MaturingReward>, height: nat)
    ensures multiset(rewards) == multiset(Ripe(rewards, height)) + multiset(Waiting(rewards, height))
  {
    if rewards != [] {
      var before, r := rewards[..|rewards| - 1], rewards[|rewards| - 1];
      RipeAndWaiting(before, height);
      Snoc(rewards);
    }
  }

  lemma Snoc(rewards: seq<MaturingReward>)
    requires rewards != []
    ensures multiset(rewards) == multiset(rewards[..|rewards| - 1]) + multiset{rewards[|rewards| - 1]}
  {
    assert rewards == rewards[..|rewards| - 1] + [rewards[|rewards| - 1]];
  }

  // ----- what one block does to one account

  function Received(txs: seq<Tx>, count: nat, a: Bytes): nat
    requires count <= |txs|
  {
    if count <= 1 then 0
    else
      var tx := txs[count - 1];
      Received(txs, count - 1, a) + if AddressOf(tx.receiver) == a then tx.amount else 0
  }

  ghost function Spent(ctx: Context, txs: seq<Tx>, count: nat, a: Bytes): nat
    requires count <= |txs| && After(ctx, txs, count).Ok? && !ctx.simulation
  {
    if count <= 1 then 0
    else
      var tx := txs[count - 1];
      Spent(ctx, txs, count - 1, a) +
      if AddressOf(tx.sender) == a then SpendOf(ctx, tx, After(ctx, txs, count - 1).value) else 0
  }

  /** The account as the block found it and as the first `count` transactions left it. */
  ghost predicate Moved(before: Account, now: Account, spent: nat, received: nat) {
    now.balance + spent == before.balance + received && now.maturing == before.maturing
  }

  lemma MovedByTransfer(ctx: Context, index: nat, tx: Tx, p: Progress, a: Bytes,
                        before: Account, spent: nat, received: nat)
    requires Judge(ctx, index, tx, p.changed) == None && tx.amount > 0
    requires Total(Shown(ctx, p.changed)) < U64_MAX
    requires Moved(before, View(ctx, p.changed, a), spent, received)
    ensures
      var isSender, isReceiver := AddressOf(tx.sender) == a, AddressOf(tx.receiver) == a;
      Moved(before, View(ctx, Apply(ctx, index, tx, p).changed, a),
            spent + (if isSender then SpendOf(ctx, tx, p) else 0),
            received + (if isReceiver then tx.amount else 0))
  {
    hide Judge, Apply, Shown, Total, SpendOf, ReadAccount;
    TransferIsExact(ctx, index, tx, p);
    var sender, receiver := AddressOf(tx.sender), AddressOf(tx.receiver);
    var now := View(ctx, p.changed, a);
    var debited := View(ctx, Debited(ctx, tx, p), a);
    if sender == a {
      assert debited == Debit(now, SpendOf(ctx, tx, p));
    } else {
      assert debited == now;
    }
    if receiver == a {
      assert View(ctx, Apply(ctx, index, tx, p).changed, a) == Credit(debited, tx.amount);
    } else {
      assert View(ctx, Apply(ctx, index, tx, p).changed, a) == debited;
    }
  }

  lemma MovedByCoinbase(ctx: Context, tx: Tx, a: Bytes)
    requires tx.amount == 0
    ensures View(ctx, Apply(ctx, 0, tx, START).changed, a) == View(ctx, START.changed, a)
  {
    hide ReadAccount;
  }

  lemma ViewAtStart(ctx: Context, txs: seq<Tx>, a: Bytes)
    ensures After(ctx, txs, 0) == Ok(START)
    ensures View(ctx, START.changed, a) == ReadAccount(ctx.state, a)
  {
  }

  lemma MovedNot(before: Account)
    ensures Moved(before, before, 0, 0)
  {
  }

  lemma MoneyBound(ctx: Context, txs: seq<Tx>, count: nat)
    requires count <= |txs| && After(ctx, txs, count).Ok? && !ctx.simulation
    requires Total(ctx.state.accounts) < U64_MAX
    ensures Total(Shown(ctx, After(ctx, txs, count).value.changed)) <= Total(ctx.state.accounts)
  {
    hide After, Total, Shown, TallyAfter;
    BlockInvariant(ctx, txs, count);
  }

  lemma {:induction false} AccountInBlock(ctx: Context, txs: seq<Tx>, count: nat, a: Bytes)
    requires count <= |txs| && After(ctx, txs, count).Ok? && !ctx.simulation
    requires Total(ctx.state.accounts) < U64_MAX
    ensures
      Moved(ReadAccount(ctx.state, a), View(ctx, After(ctx, txs, count).value.changed, a),
            Spent(ctx, txs, count, a), Received(txs, count, a))
  {
    hide After, View, ReadAccount, Moved, Judge, Apply, SpendOf, Total, Shown, AddressOf;
    ViewAtStart(ctx, txs, a);
    MovedNot(ReadAccount(ctx.state, a));
    if count > 0 {
      AfterUnfolds(ctx, txs, count);
      var p, tx := After(ctx, txs, count - 1).value, txs[count - 1];
      Accepted(ctx, count - 1, tx, p.changed);
      if count == 1 {
        MovedByCoinbase(ctx, tx, a);
      } else {
        AccountInBlock(ctx, txs, count - 1, a);
        MoneyBound(ctx, txs, count - 1);
        MovedByTransfer(ctx, count - 1, tx, p, a, ReadAccount(ctx.state, a),
                        Spent(ctx, txs, count - 1, a), Received(txs, count - 1, a));
      }
    }
  }

  lemma WaitingAfterTransfer(ctx: Context, index: nat, tx: Tx, p: Progress, a: Bytes)
    ensures View(ctx, Apply(ctx, index, tx, p).changed, a).maturing == View(ctx, p.changed, a).maturing
  {
    hide ReadAccount, CreationFee, TotalSpend;
  }

  /** The transactions of a block leave every waiting list alone. */
  lemma {:induction false} WaitingInBlock(ctx: Context, txs: seq<Tx>, count: nat, a: Bytes)
    requires count <= |txs| && After(ctx, txs, count).Ok? && !ctx.simulation
    ensures View(ctx, After(ctx, txs, count).value.changed, a).maturing == ReadAccount(ctx.state, a).maturing
  {
    hide View, ReadAccount, Judge, Apply;
    ViewAtStart(ctx, txs, a);
    if count > 0 {
      AfterUnfolds(ctx, txs, count);
      WaitingInBlock(ctx, txs, count - 1, a);
      WaitingAfterTransfer(ctx, count - 1, txs[count - 1], After(ctx, txs, count - 1).value, a);
    }
  }

  // ----- the end of a block

  /** The reward an accepted block schedules for its miner. */
  ghost function RewardOf(oracle: Oracle, s: State, b: Block, height: nat): MaturingReward
    requires After(ContextOf(oracle, s, b, height), b.txs, |b.txs|).Ok?
  {
    var fees := After(ContextOf(oracle, s, b, height), b.txs, |b.txs|).value.fees;
    MaturingReward(SatAdd64(Reward(height), fees), height + MATURITY)
  }

  /** What is stored and what waits after the block, whatever the balances. */
  lemma NextWaiting(ctx: Context, p: Progress, a: Bytes, after: State)
    requires ctx.state.version <= ctx.height && p.changed.Keys <= p.touched
    requires after.accounts == ctx.state.accounts + Writes(ctx, p) && after.version == ctx.height
    ensures ReadAccount(after, a).maturing == Waiting(View(ctx, Rewarded(ctx, p), a).maturing, ctx.height)
    ensures a in Writes(ctx, p) ==>
              after.accounts[a] == ReadAccount(after, a) == Mature(View(ctx, Rewarded(ctx, p), a), ctx.height)
  {
    var v := View(ctx, Rewarded(ctx, p), a);
    if a in Writes(ctx, p) {
      assert after.accounts[a] == Mature(v, ctx.height);
      MatureSettled(v, ctx.height);
    } else {
      assert v == ReadAccount(ctx.state, a);
      if a in ctx.state.accounts {
        WaitingTwice(ctx.state.accounts[a].maturing, ctx.state.version, ctx.height);
      }
    }
  }

  /** What an account shows after the block: the block's view of it, matured at its height. */
  lemma NextRead(ctx: Context, p: Progress, a: Bytes, after: State)
    requires Total(ctx.state.accounts) <= U64_MAX && ctx.state.version <= ctx.height
    requires p.changed.Keys <= p.touched
    requires after.accounts == ctx.state.accounts + Writes(ctx, p) && after.version == ctx.height
    ensures ReadAccount(after, a) == Mature(View(ctx, Rewarded(ctx, p), a), ctx.height)
  {
    hide Mature, Total;
    var v := View(ctx, Rewarded(ctx, p), a);
    if a in Writes(ctx, p) {
      NextWaiting(ctx, p, a, after);
    } else if a in ctx.state.accounts {
      StoredWorthBounded(ctx.state, a);
      assert v == ReadAccount(ctx.state, a);
      MatureTwice(ctx.state.accounts[a], ctx.state.version, ctx.height);
    } else {
      assert v == ReadAccount(ctx.state, a);
      FreshMatures(ctx.state.version, ctx.height);
    }
  }

  lemma FreshMatures(early: nat, late: nat)
    ensures Mature(FRESH, late) == Mature(Mature(FRESH, early), late)
  {
  }

  /** What may be due at the end of an accepted block: the rewards already waiting and a new one. */
  ghost function WaitingOrNew(oracle: Oracle, s: State, b: Block, height: nat, a: Bytes): seq<MaturingReward>
    requires After(ContextOf(oracle, s, b, height), b.txs, |b.txs|).Ok?
  {
    ReadAccount(s, a).maturing + if AddressOf(b.minerAddress) == a then [RewardOf(oracle, s, b, height)] else []
  }

  /**
  One accepted block and one account's rewards, whatever the money in the ledger: what is not
  due stays waiting; an account the block touches is stored with nothing due left, its balance
  raised by the due rewards and nothing else.
  */
  lemma WaitingAfterBlock(oracle: Oracle, s: State, b: Block, height: nat, a: Bytes)
    requires s.version <= height
    requires Execute(oracle, s, b.txs, b.minerAddress, b.parentHash, height, false).Ok?
    ensures After(ContextOf(oracle, s, b, height), b.txs, |b.txs|).Ok?
    ensures
      var e := Execute(oracle, s, b.txs, b.minerAddress, b.parentHash, height, false).value;
      var after := Commit(s, e, height, b.hash);
      var waiting := WaitingOrNew(oracle, s, b, height, a);
      var left := View(ContextOf(oracle, s, b, height), After(ContextOf(oracle, s, b, height), b.txs, |b.txs|).value.changed, a);
      && ReadAccount(after, a).maturing == Waiting(waiting, height)
      && (a in e.writes ==>
            && after.accounts[a] == ReadAccount(after, a)
            && after.accounts[a].balance == SatAdd64(left.balance, WrappedSum(Ripe(waiting, height))))
  {
    hide After, Reward, ReadAccount, View, Waiting, Writes, Rewarded, WrappedSum, Ripe, Payout, Execute;
    var ctx := ContextOf(oracle, s, b, height);
    ExecutedWrites(oracle, s, b, height);
    var p := After(ctx, b.txs, |b.txs|).value;
    ChangedAreTouched(ctx, b.txs, |b.txs|);
    WaitingInBlock(ctx, b.txs, |b.txs|, a);
    var e := Execute(oracle, s, b.txs, b.minerAddress, b.parentHash, height, false).value;
    NextWaiting(ctx, p, a, Commit(s, e, height, b.hash));
    RewardedView(ctx, p, a);
    RipePays(WaitingOrNew(oracle, s, b, height, a), height);
  }

  /** One accepted block, seen from one account, in exact money. */
  lemma AccountAfterBlock(oracle: Oracle, s: State, b: Block, height: nat, a: Bytes)
    requires Total(s.accounts) < U64_MAX && s.version <= height
    requires Execute(oracle, s, b.txs, b.minerAddress, b.parentHash, height, false).Ok?
    ensures After(ContextOf(oracle, s, b, height), b.txs, |b.txs|).Ok?
    ensures
      var e := Execute(oracle, s, b.txs, b.minerAddress, b.parentHash, height, false).value;
      var before, now := ReadAccount(s, a), ReadAccount(Commit(s, e, height, b.hash), a);
      now.balance + Spent(ContextOf(oracle, s, b, height), b.txs, |b.txs|, a) ==
      before.balance + Received(b.txs, |b.txs|, a) + Due(WaitingOrNew(oracle, s, b, height, a), height)
  {
    hide After, Total, Shown, Reward, Spent, Received, ReadAccount, View, Waiting, Due, Invariant, Writes, Execute, Rewarded;
    var ctx := ContextOf(oracle, s, b, height);
    ExecutedWrites(oracle, s, b, height);
    var p := After(ctx, b.txs, |b.txs|).value;
    ChangedAreTouched(ctx, b.txs, |b.txs|);
    MoneyBound(ctx, b.txs, |b.txs|);
    AccountInBlock(ctx, b.txs, |b.txs|, a);
    var e := Execute(oracle, s, b.txs, b.minerAddress, b.parentHash, height, false).value;
    NextRead(ctx, p, a, Commit(s, e, height, b.hash));
    PayoutIsExact(ctx, p, a);
    RewardedView(ctx, p, a);
  }

  lemma RewardedView(ctx: Context, p: Progress, a: Bytes)
    ensures
      var before, v := View(ctx, p.changed, a), View(ctx, Rewarded(ctx, p), a);
      var reward := MaturingReward(SatAdd64(Reward(ctx.height), p.fees), ctx.height + MATURITY);
      && v.balance == before.balance
      && v.maturing == before.maturing + if ctx.miner == a then [reward] else []
  {
    hide ReadAccount;
  }

  // ----- one account over a run

  /** All rewards scheduled for `a`, oldest first. */
  ghost function Scheduled(oracle: Oracle, blocks: seq<Block>, a: Bytes): seq<MaturingReward>
    requires Run(oracle, blocks).Some?
  {
    if blocks == [] then []
    else
      var height := |blocks| - 1;
      var b := blocks[height];
      Scheduled(oracle, blocks[..height], a) +
      if AddressOf(b.minerAddress) == a then [RewardOf(oracle, StateBefore(oracle, blocks), b, height)] else []
  }

  function ReceivedInRun(blocks: seq<Block>, a: Bytes): nat {
    if blocks == [] then 0
    else
      var b := blocks[|blocks| - 1];
      ReceivedInRun(blocks[..|blocks| - 1], a) + Received(b.txs, |b.txs|, a)
  }

  ghost function SpentInRun(oracle: Oracle, blocks: seq<Block>, a: Bytes): nat
    requires Run(oracle, blocks).Some?
  {
    if blocks == [] then 0
    else
      var height := |blocks| - 1;
      var b := blocks[height];
      SpentInRun(oracle, blocks[..height], a) +
      Spent(ContextOf(oracle, StateBefore(oracle, blocks), b, height), b.txs, |b.txs|, a)
  }

  function TipOf(blocks: seq<Block>): nat {
    if blocks == [] then 0 else |blocks| - 1
  }

  lemma RunVersion(oracle: Oracle, blocks: seq<Block>)
    requires Run(oracle, blocks).Some?
    ensures Run(oracle, blocks).value.version == TipOf(blocks)
  {
  }

  /** The rewards still waiting at the tip, extended by a later block, split like the full list. */
  lemma WaitingExtended(rewards: seq<MaturingReward>, more: seq<MaturingReward>, early: nat, late: nat)
    requires early <= late && |more| <= 1
    ensures Waiting(Waiting(rewards, early) + more, late) == Waiting(rewards + more, late)
    ensures Due(rewards + more, late) == Due(rewards, early) + Due(Waiting(rewards, early) + more, late)
  {
    hide Waiting, Due;
    WaitingTwice(rewards, early, late);
    var w := Waiting(rewards, early);
    if more == [] {
      assert w + more == w && rewards + more == rewards;
    } else {
      assert more == [more[0]];
      OneMore(w, more[0], late);
      OneMore(rewards, more[0], late);
    }
  }

  lemma OneMore(rewards: seq<MaturingReward>, r: MaturingReward, height: nat)
    ensures Waiting(rewards + [r], height) == Waiting(rewards, height) + if r.height <= height then [] else [r]
    ensures Due(rewards + [r], height) == Due(rewards, height) + if r.height <= height then r.amount else 0
  {
    assert (rewards + [r])[..|rewards|] == rewards;
  }

  // ----- maturity, in every run

  /** The rewards the last block of a run pays to `a`. */
  ghost function PaidByLast(oracle: Oracle, blocks: seq<Block>, a: Bytes): seq<MaturingReward>
    requires blocks != [] && Run(oracle, blocks).Some?
  {
    Ripe(WaitingOrNew(oracle, StateBefore(oracle, blocks), blocks[|blocks| - 1], |blocks| - 1, a), |blocks| - 1)
  }

  /** All rewards paid to `a`, block by block. */
  ghost function PaidInRun(oracle: Oracle, blocks: seq<Block>, a: Bytes): seq<MaturingReward>
    requires Run(oracle, blocks).Some?
  {
    if blocks == [] then [] else PaidInRun(oracle, blocks[..|blocks| - 1], a) + PaidByLast(oracle, blocks, a)
  }

  lemma EmptyWaiting(oracle: Oracle, a: Bytes)
    ensures ReadAccount(Run(oracle, []).value, a).maturing == [] == Scheduled(oracle, [], a)
    ensures Waiting([], TipOf([])) == [] == PaidInRun(oracle, [], a)
  {
  }

  lemma ScheduledUnfolds(oracle: Oracle, blocks: seq<Block>, a: Bytes)
    requires blocks != [] && Run(oracle, blocks).Some? && Run(oracle, blocks[..|blocks| - 1]).Some?
    requires
      var b := blocks[|blocks| - 1];
      After(ContextOf(oracle, StateBefore(oracle, blocks), b, |blocks| - 1), b.txs, |b.txs|).Ok?
    ensures
      var b := blocks[|blocks| - 1];
      Scheduled(oracle, blocks, a) == Scheduled(oracle, blocks[..|blocks| - 1], a) +
        if AddressOf(b.minerAddress) == a then [RewardOf(oracle, StateBefore(oracle, blocks), b, |blocks| - 1)] else []
  {
    hide RewardOf, After, Run, StateBefore, AddressOf;
  }

  lemma ScheduledStep(oracle: Oracle, blocks: seq<Block>, a: Bytes) returns (more: seq<MaturingReward>)
    requires blocks != [] && Run(oracle, blocks).Some?
    ensures |more| <= 1 && Run(oracle, blocks[..|blocks| - 1]).Some?
    ensures Scheduled(oracle, blocks, a) == Scheduled(oracle, blocks[..|blocks| - 1], a) + more
    ensures WaitingOrNew(oracle, StateBefore(oracle, blocks), blocks[|blocks| - 1], |blocks| - 1, a) ==
            ReadAccount(StateBefore(oracle, blocks), a).maturing + more
  {
    hide ReadAccount, RewardOf, Execute, After, Run, StateBefore, Scheduled, AddressOf, Commit;
    LastBlockRan(oracle, blocks);
    ScheduledUnfolds(oracle, blocks, a);
    var b, s := blocks[|blocks| - 1], StateBefore(oracle, blocks);
    more := if AddressOf(b.minerAddress) == a then [RewardOf(oracle, s, b, |blocks| - 1)] else [];
  }

  /** In every run, what an account shows as waiting is exactly the scheduled rewards not due at the tip. */
  lemma {:induction false} WaitingInRun(oracle: Oracle, blocks: seq<Block>, a: Bytes)
    requires Run(oracle, blocks).Some?
    ensures ReadAccount(Run(oracle, blocks).value, a).maturing == Waiting(Scheduled(oracle, blocks, a), TipOf(blocks))
  {
    hide Run, ReadAccount, Waiting, Execute, Commit, StateBefore, Scheduled, WaitingOrNew;
    if blocks == [] {
      EmptyWaiting(oracle, a);
    } else {
      var height := |blocks| - 1;
      LastBlockRan(oracle, blocks);
      WaitingInRun(oracle, blocks[..height], a);
      RunVersion(oracle, blocks[..height]);
      WaitingAfterBlock(oracle, StateBefore(oracle, blocks), blocks[height], height, a);
      var more := ScheduledStep(oracle, blocks, a);
      WaitingExtended(Scheduled(oracle, blocks[..height], a), more, TipOf(blocks[..height]), height);
    }
  }

  /**
  Maturity in every run: each scheduled reward has either been paid, once, or is still
  waiting; none was paid before its height, and none is waiting past it.
  */
  lemma {:induction false} MaturityInRun(oracle: Oracle, blocks: seq<Block>, a: Bytes)
    requires Run(oracle, blocks).Some?
    ensures
      var waiting := ReadAccount(Run(oracle, blocks).value, a).maturing;
      && multiset(Scheduled(oracle, blocks, a)) == multiset(PaidInRun(oracle, blocks, a)) + multiset(waiting)
      && (forall r :: r in PaidInRun(oracle, blocks, a) ==> r.height <= TipOf(blocks))
      && (forall r :: r in waiting ==> r.height > TipOf(blocks))
  {
    hide Run, ReadAccount, Waiting, Execute, Commit, StateBefore, Scheduled, WaitingOrNew, Ripe;
    WaitingInRun(oracle, blocks, a);
    NothingDueWaits(Scheduled(oracle, blocks, a), TipOf(blocks));
    if blocks == [] {
      EmptyWaiting(oracle, a);
    } else {
      var height := |blocks| - 1;
      LastBlockRan(oracle, blocks);
      MaturityInRun(oracle, blocks[..height], a);
      var s, b := StateBefore(oracle, blocks), blocks[height];
      RunVersion(oracle, blocks[..height]);
      WaitingAfterBlock(oracle, s, b, height, a);
      var more := ScheduledStep(oracle, blocks, a);
      var waiting := WaitingOrNew(oracle, s, b, height, a);
      RipePays(waiting, height);
      RipeAndWaiting(waiting, height);
      OneMorePaid(Scheduled(oracle, blocks[..height], a), PaidInRun(oracle, blocks[..height], a),
                  ReadAccount(s, a).maturing, more, Ripe(waiting, height), Waiting(waiting, height));
    }
  }

  lemma OneMorePaid(scheduled: seq<MaturingReward>, paid: seq<MaturingReward>, before: seq<MaturingReward>,
                    more: seq<MaturingReward>, ripe: seq<MaturingReward>, waiting: seq<MaturingReward>)
    requires multiset(scheduled) == multiset(paid) + multiset(before)
    requires multiset(before + more) == multiset(ripe) + multiset(waiting)
    ensures multiset(scheduled + more) == multiset(paid + ripe) + multiset(waiting)
  {
    var left, right := multiset(scheduled + more), multiset(paid + ripe) + multiset(waiting);
    forall r ensures left[r] == right[r] {
      assert multiset(before + more)[r] == multiset(before)[r] + multiset(more)[r];
    }
  }

  /** A block pays only rewards scheduled six blocks earlier or more. */
  lemma {:induction false} ScheduledSixAhead(oracle: Oracle, blocks: seq<Block>, a: Bytes)
    requires Run(oracle, blocks).Some?
    ensures forall r :: r in Scheduled(oracle, blocks, a) ==> 6 <= r.height <= |blocks| + 5
    ensures blocks != [] ==> forall r :: r in PaidByLast(oracle, blocks, a) ==> r.height <= |blocks| - 1
  {
    hide Run, Execute, StateBefore, After;
    if blocks != [] {
      LastBlockRan(oracle, blocks);
      ScheduledSixAhead(oracle, blocks[..|blocks| - 1], a);
      RipePays(WaitingOrNew(oracle, StateBefore(oracle, blocks), blocks[|blocks| - 1], |blocks| - 1, a), |blocks| - 1);
    }
  }

  /** A block schedules its reward and its fees, on 64 bits, six blocks ahead. */
  lemma RewardMeaning(oracle: Oracle, s: State, b: Block, height: nat)
    requires After(ContextOf(oracle, s, b, height), b.txs, |b.txs|).Ok?
    ensures
      var fees := After(ContextOf(oracle, s, b, height), b.txs, |b.txs|).value.fees;
      RewardOf(oracle, s, b, height) == MaturingReward(Min(Emission.BlockReward(height) + fees, U64_MAX), height + 6)
  {
    hide After, Emission.BlockReward;
  }

  /**
  In every run, an account its last block touches is stored as it is shown: nothing due is left
  waiting, and the due rewards are what the payout added to its balance.
  */
  lemma StoredAfterTouch(oracle: Oracle, blocks: seq<Block>, a: Bytes)
    requires blocks != [] && Run(oracle, blocks).Some?
    ensures
      var height, b := |blocks| - 1, blocks[|blocks| - 1];
      var ctx := ContextOf(oracle, StateBefore(oracle, blocks), b, height);
      var e := Execute(oracle, StateBefore(oracle, blocks), b.txs, b.minerAddress, b.parentHash, height, false);
      && e.Ok? && After(ctx, b.txs, |b.txs|).Ok?
      && (a in e.value.writes ==>
            var stored := Run(oracle, blocks).value.accounts[a];
            && stored == ReadAccount(Run(oracle, blocks).value, a)
            && (forall r :: r in stored.maturing ==> r.height > height)
            && stored.balance == SatAdd64(View(ctx, After(ctx, b.txs, |b.txs|).value.changed, a).balance,
                                          WrappedSum(PaidByLast(oracle, blocks, a))))
  {
    hide Run, ReadAccount, Waiting, View, Ripe, WrappedSum, Execute, StateBefore, After, WaitingOrNew;
    var height := |blocks| - 1;
    LastBlockRan(oracle, blocks);
    RunVersion(oracle, blocks[..height]);
    WaitingAfterBlock(oracle, StateBefore(oracle, blocks), blocks[height], height, a);
    NothingDueWaits(WaitingOrNew(oracle, StateBefore(oracle, blocks), blocks[height], height, a), height);
  }

  // ----- balances, in exact money

  /** The wallet statement of an account at the tip of a run. */
  ghost predicate Statement(oracle: Oracle, blocks: seq<Block>, a: Bytes)
    requires Run(oracle, blocks).Some?
  {
    var shown := ReadAccount(Run(oracle, blocks).value, a);
    var scheduled := Scheduled(oracle, blocks, a);
    && shown.maturing == Waiting(scheduled, TipOf(blocks))
    && shown.balance + SpentInRun(oracle, blocks, a) ==
       Due(scheduled, TipOf(blocks)) + ReceivedInRun(blocks, a)
  }

  lemma EmptyStatement(oracle: Oracle, a: Bytes)
    ensures Statement(oracle, [], a)
  {
  }

  /**
  At the tip of a run whose totals fit, with or without coinbase fees, an account's spendable
  balance is every reward scheduled for it at least six blocks ago, counted once, plus what it
  received, minus what it spent; the other rewards are exactly the ones it shows as waiting.
  */
  lemma {:induction false} AccountInRun(oracle: Oracle, blocks: seq<Block>, a: Bytes)
    requires Run(oracle, blocks).Some? && TotalsFit(oracle, blocks)
    ensures Statement(oracle, blocks, a)
  {
    hide Run, ReadAccount, Waiting, Due, Spent, Received, Execute, RewardOf, Commit, Total, StateBefore, Scheduled, WaitingOrNew, TotalsFit;
    if blocks == [] {
      EmptyStatement(oracle, a);
    } else {
      var height, b := |blocks| - 1, blocks[|blocks| - 1];
      LastBlockRan(oracle, blocks);
      TotalsFitBefore(oracle, blocks);
      AccountInRun(oracle, blocks[..height], a);
      RunVersion(oracle, blocks[..height]);
      WaitingInRun(oracle, blocks, a);
      AccountAfterBlock(oracle, StateBefore(oracle, blocks), b, height, a);
      var more := ScheduledStep(oracle, blocks, a);
      WaitingExtended(Scheduled(oracle, blocks[..height], a), more, TipOf(blocks[..height]), height);
    }
  }

  /** The total balance the wallet shows counts every scheduled reward, due or not. */
  lemma BalanceInRun(oracle: Oracle, blocks: seq<Block>, a: Bytes)
    requires Run(oracle, blocks).Some? && TotalsFit(oracle, blocks)
    ensures
      Worth(ReadAccount(Run(oracle, blocks).value, a)) + SpentInRun(oracle, blocks, a) ==
      Pending(Scheduled(oracle, blocks, a)) + ReceivedInRun(blocks, a)
  {
    hide Run, ReadAccount, Waiting, Due, TotalsFit;
    AccountInRun(oracle, blocks, a);
    MatureParts(Scheduled(oracle, blocks, a), TipOf(blocks));
  }

  // ----- the two balance queries

  lemma {:induction false} WrappedSumExact(rewards: seq<MaturingReward>)
    requires Pending(rewards) <= U64_MAX
    ensures WrappedSum(rewards) == Pending(rewards)
  {
    if rewards != [] {
      WrappedSumExact(rewards[..|rewards| - 1]);
    }
  }

  function GetSpendableBalance(s: State, address: Bytes): u64 {
    if |address| != 32 then 0 else ReadAccount(s, address).balance
  }

  function GetBalance(s: State, address: Bytes): u64 {
    if |address| != 32 then 0
    else SatAdd64(ReadAccount(s, address).balance, WrappedSum(ReadAccount(s, address).maturing))
  }

  lemma ShownWithinTotal(s: State, a: Bytes)
    requires Total(s.accounts) <= U64_MAX
    ensures Worth(ReadAccount(s, a)) <= U64_MAX
  {
    hide ReadAccount, Total;
    if a in s.accounts { StoredWorthBounded(s, a); } else { MissingIsFresh(s, a); }
  }

  /**
  At the tip of a run whose totals fit the queries report the statement: due rewards only, and
  all rewards. The second also needs the money at the tip to fit, as it adds the waiting ones.
  */
  lemma QueriesInRun(oracle: Oracle, blocks: seq<Block>, a: Bytes)
    requires Run(oracle, blocks).Some? && TotalsFit(oracle, blocks) && |a| == 32
    ensures
      var s, scheduled := Run(oracle, blocks).value, Scheduled(oracle, blocks, a);
      && GetSpendableBalance(s, a) + SpentInRun(oracle, blocks, a) ==
         Due(scheduled, TipOf(blocks)) + ReceivedInRun(blocks, a)
      && (Total(s.accounts) <= U64_MAX ==>
            GetBalance(s, a) + SpentInRun(oracle, blocks, a) == Pending(scheduled) + ReceivedInRun(blocks, a))
  {
    hide Run, ReadAccount, Waiting, Due, Pending, WrappedSum, Scheduled, SpentInRun, ReceivedInRun, Total, TotalsFit;
    AccountInRun(oracle, blocks, a);
    if Total(Run(oracle, blocks).value.accounts) <= U64_MAX {
      BalanceInRun(oracle, blocks, a);
      ShownWithinTotal(Run(oracle, blocks).value, a);
      WrappedSumExact(ReadAccount(Run(oracle, blocks).value, a).maturing);
    }
  }
}
