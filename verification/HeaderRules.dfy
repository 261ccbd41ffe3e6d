/**
What a verdict on a candidate chain means, in terms of the headers alone: the median rule
as a count of earlier blocks, a sound header, and the choice between two segments by the
sums of their difficulties.
*/
module HeaderRules {
  import opened Arith
  import opened Difficulty
  import opened HeaderChain
  import opened HeaderEvaluation
  import opened Machine
  import opened Sequences

  // ----- the median

  /** How many entries are below t. */
  function Below(s: seq<u64>, t: nat): nat {
    if s == [] then 0 else (if s[0] < t then 1 else 0) + Below(s[1..], t)
  }

  ghost predicate AscendingTimes(s: seq<u64>) {
    forall i, j :: 0 <= i < j < |s| ==> s[i] <= s[j]
  }

  lemma {:induction false} InsertKeepsTimes(x: u64, sorted: seq<u64>)
    ensures multiset(Insert(x, sorted)) == multiset(sorted) + multiset{x}
  {
    if sorted != [] && x > sorted[0] {
      InsertKeepsTimes(x, sorted[1..]);
      assert sorted == [sorted[0]] + sorted[1..];
    }
  }

  lemma {:induction false} InsertAtLeast(x: u64, sorted: seq<u64>, low: u64)
    requires low <= x && forall i :: 0 <= i < |sorted| ==> low <= sorted[i]
    ensures forall i :: 0 <= i < |Insert(x, sorted)| ==> low <= Insert(x, sorted)[i]
  {
    if sorted != [] && x > sorted[0] {
      InsertAtLeast(x, sorted[1..], low);
    }
  }

  lemma PrependAscending(x: u64, rest: seq<u64>)
    requires AscendingTimes(rest) && forall i :: 0 <= i < |rest| ==> x <= rest[i]
    ensures AscendingTimes([x] + rest)
  {
  }

  lemma {:induction false} InsertAscendingTimes(x: u64, sorted: seq<u64>)
    requires AscendingTimes(sorted)
    ensures AscendingTimes(Insert(x, sorted))
  {
    if sorted == [] || x <= sorted[0] {
      PrependAscending(x, sorted);
    } else {
      InsertAscendingTimes(x, sorted[1..]);
      InsertAtLeast(x, sorted[1..], sorted[0]);
      PrependAscending(sorted[0], Insert(x, sorted[1..]));
    }
  }

  /** The sort behind the median keeps the times and ascends. */
  lemma {:induction false} SortSorts(s: seq<u64>)
    ensures multiset(Sort(s)) == multiset(s) && AscendingTimes(Sort(s))
  {
    if s != [] {
      SortSorts(s[1..]);
      InsertKeepsTimes(s[0], Sort(s[1..]));
      InsertAscendingTimes(s[0], Sort(s[1..]));
      assert s == [s[0]] + s[1..];
    }
  }

  lemma {:induction false} InsertBelow(x: u64, sorted: seq<u64>, t: nat)
    ensures Below(Insert(x, sorted), t) == (if x < t then 1 else 0) + Below(sorted, t)
  {
    if sorted != [] && x > sorted[0] {
      InsertBelow(x, sorted[1..], t);
    }
  }

  lemma {:induction false} SortBelow(s: seq<u64>, t: nat)
    ensures Below(Sort(s), t) == Below(s, t)
  {
    if s != [] {
      SortBelow(s[1..], t);
      InsertBelow(s[0], Sort(s[1..]), t);
    }
  }

  lemma {:induction false} NoneBelow(s: seq<u64>, t: nat)
    requires forall i :: 0 <= i < |s| ==> t <= s[i]
    ensures Below(s, t) == 0
  {
    if s != [] { NoneBelow(s[1..], t); }
  }

  lemma {:induction false} AscendingRank(s: seq<u64>, t: nat, k: nat)
    requires AscendingTimes(s) && k < |s|
    ensures s[k] < t <==> Below(s, t) > k
  {
    if t <= s[0] {
      NoneBelow(s, t);
    } else if k > 0 {
      AscendingRank(s[1..], t, k - 1);
    }
  }

  /** The last n entries, or all of them. */
  function Recent<T>(s: seq<T>, n: nat): seq<T> {
    s[if |s| > n then |s| - n else 0..]
  }

  /** A time is after the median exactly when more than half of the last eleven times are before it. */
  lemma AfterMedianIff(ts: seq<u64>, t: nat)
    requires ts != []
    ensures MedianTime(ts) < t <==> 2 * Below(Recent(ts, 11), t) > |Recent(ts, 11)|
  {
    var recent := Recent(ts, 11);
    assert LastN(ts, MTP_WINDOW) == recent;
    SortSorts(recent);
    SortLength(recent);
    SortBelow(recent, t);
    AscendingRank(Sort(recent), t, |recent| / 2);
  }

  // ----- a sound candidate

  /** Of the expected difficulty, with enough work, after the median and not too far ahead. */
  ghost predicate Fit(rules: Rules, now: nat, before: seq<Header>, h: Header) {
    && (before != [] ==> h.difficulty == NextDifficulty(Times(Recent(before, 121)), Diffs(Recent(before, 121))))
    && rules.pow(HashOf(rules, h), h.nonce, h.difficulty, h.height)
    && (before != [] ==> 2 * Below(Times(Recent(before, 11)), h.timestamp) > |Recent(before, 11)|)
    && 0 < h.timestamp <= now + 300
  }

  ghost predicate Sound(rules: Rules, chain: seq<Header>, now: nat, before: seq<Header>, h: Header) {
    (h.height < |chain| && HashOf(rules, h) == HashOf(rules, chain[h.height])) || Fit(rules, now, before, h)
  }

  /** Each header names the one before it, and each is sound after all the headers below it. */
  ghost predicate SoundCandidate(rules: Rules, chain: seq<Header>, now: nat, headers: seq<Header>)
    requires ParentCanonical(rules, headers, chain)
  {
    && (forall i :: 0 < i < |headers| ==>
          headers[i].height == headers[i - 1].height + 1 && headers[i].parentHash == HashOf(rules, headers[i - 1]))
    && (forall i :: 0 <= i < |headers| ==>
          Sound(rules, chain, now, chain[..headers[0].height] + headers[..i], headers[i]))
  }

  /** The check of a header that is not stored. */
  lemma FitIff(rules: Rules, now: nat, before: seq<Header>, h: Header)
    ensures Fit(rules, now, before, h) <==> Valid(rules, now, before, h)
  {
    hide NextDifficulty, MedianTime, Below, HashOf;
    if before == [] {
      NoMedian();
      assert Times(before) == [];
    } else {
      assert LastN(before, HISTORY) == Recent(before, 121);
      assert Recent(Times(before), 11) == Times(Recent(before, 11));
      AfterMedianIff(Times(before), h.timestamp);
    }
  }

  lemma SoundIff(rules: Rules, chain: seq<Header>, now: nat, before: seq<Header>, h: Header)
    ensures Sound(rules, chain, now, before, h) <==> (Matched(rules, chain, h) || Valid(rules, now, before, h))
  {
    hide Fit, Valid;
    FitIff(rules, now, before, h);
  }

  lemma SoundCandidateIff(rules: Rules, chain: seq<Header>, now: nat, headers: seq<Header>)
    requires ParentCanonical(rules, headers, chain)
    ensures SoundCandidate(rules, chain, now, headers) <==> (Linked(rules, headers) && AllSound(rules, chain, now, headers))
  {
    hide Sound, Matched, Valid;
    forall i | 0 <= i < |headers|
      ensures Sound(rules, chain, now, chain[..headers[0].height] + headers[..i], headers[i]) <==>
              (Matched(rules, chain, headers[i]) || Valid(rules, now, Ancestors(chain, headers, i), headers[i]))
    {
      SoundIff(rules, chain, now, Ancestors(chain, headers, i), headers[i]);
    }
  }

  // ----- the work of two segments

  lemma {:induction false} WorkIsSum(headers: seq<Header>)
    ensures Work(headers) == Sum(Diffs(headers))
  {
    if headers != [] {
      var last := |headers| - 1;
      WorkIsSum(headers[..last]);
      assert Diffs(headers)[..last] == Diffs(headers[..last]);
    }
  }

  lemma {:induction false} WeightIsWork(rules: Rules, chain: seq<Header>, fork: nat, top: nat)
    requires ChainOk(rules, chain) && fork <= top < |chain|
    ensures chain[top].weight == chain[fork].weight + Work(chain[fork + 1..top + 1])
    decreases top - fork
  {
    if fork < top {
      WeightIsWork(rules, chain, fork, top - 1);
      assert chain[fork + 1..top + 1][..top - fork - 1] == chain[fork + 1..top];
    }
  }

  /** The first k headers are stored and the next one, if there is one, is not. */
  ghost predicate StoredUpTo(rules: Rules, chain: seq<Header>, headers: seq<Header>, k: nat) {
    && k <= |headers|
    && (forall i :: 0 <= i < k ==>
          headers[i].height < |chain| && HashOf(rules, headers[i]) == HashOf(rules, chain[headers[i].height]))
    && (k < |headers| && headers[k].height < |chain| ==>
          HashOf(rules, headers[k]) != HashOf(rules, chain[headers[k].height]))
  }

  lemma {:induction false} CommonIs(rules: Rules, chain: seq<Header>, headers: seq<Header>, k: nat)
    requires StoredUpTo(rules, chain, headers, k)
    ensures CommonCount(rules, chain, headers) == k
  {
    hide HashOf;
    if k > 0 {
      CommonIs(rules, chain, headers[1..], k - 1);
    }
  }

  lemma HeightsRise(rules: Rules, headers: seq<Header>, i: nat)
    requires Linked(rules, headers) && i < |headers|
    ensures headers[i].height == headers[0].height + i
  {
    forall j | 0 < j <= i ensures LinkedAt(rules, headers, j) {}
    LinkedHeights(rules, headers, i);
  }

  lemma DeepIff(rules: Rules, chain: seq<Header>, finalized: nat, headers: seq<Header>, k: nat)
    requires headers != [] && headers[0].height > 0 && Linked(rules, headers) && StoredUpTo(rules, chain, headers, k)
    ensures
      var fork := headers[0].height - 1 + k;
      Deep(rules, chain, finalized, headers) <==> k < |headers| && fork < finalized && fork < |chain| - 1
  {
    hide HashOf, Linked;
    if k < |headers| {
      HeightsRise(rules, headers, k);
      assert !Matched(rules, chain, headers[k]);
    }
    if Deep(rules, chain, finalized, headers) {
      var i :| 0 <= i < |headers| &&
        headers[i].height < |chain| && headers[i].height <= finalized && !Matched(rules, chain, headers[i]);
      HeightsRise(rules, headers, i);
      assert k <= i;
    }
  }

  lemma ForkStored(rules: Rules, chain: seq<Header>, headers: seq<Header>, k: nat)
    requires ParentCanonical(rules, headers, chain) && Linked(rules, headers) && StoredUpTo(rules, chain, headers, k)
    ensures headers[0].height - 1 + k < |chain|
  {
    hide HashOf, Linked;
    if k > 0 { HeightsRise(rules, headers, k - 1); }
  }

  /** Sums of difficulties above the fork, on both sides. */
  lemma SegmentWork(rules: Rules, chain: seq<Header>, headers: seq<Header>, k: nat, fork: nat)
    requires ChainOk(rules, chain) && k <= |headers| && fork < |chain|
    ensures chain[|chain| - 1].weight == chain[fork].weight + Sum(Diffs(chain[fork + 1..]))
    ensures Work(headers[k..]) == Sum(Diffs(headers[k..]))
  {
    hide ChainOk, Work, Sum;
    WeightIsWork(rules, chain, fork, |chain| - 1);
    assert chain[fork + 1..|chain|] == chain[fork + 1..];
    WorkIsSum(chain[fork + 1..]);
    WorkIsSum(headers[k..]);
  }

  // ----- the verdict

  /** An unsound candidate is invalid. */
  lemma UnsoundIsInvalid(rules: Rules, chain: seq<Header>, finalized: nat, now: nat, headers: seq<Header>)
    requires ParentCanonical(rules, headers, chain) && !SoundCandidate(rules, chain, now, headers)
    ensures Judgement(rules, chain, finalized, now, headers) == Verdict(2, 0)
  {
    hide SoundCandidate, Linked, AllSound, ParentCanonical;
    SoundCandidateIff(rules, chain, now, headers);
  }

  /**
  A sound candidate replaces the blocks above the fork exactly when its new headers carry
  more work than they do; when those blocks reach down to finality, ten times as much.
  Between one and ten times a deep candidate is ignored, and below that it is invalid.
  */
  lemma VerdictMeaning(rules: Rules, chain: seq<Header>, finalized: nat, now: nat, headers: seq<Header>, k: nat)
    requires ChainOk(rules, chain) && ParentCanonical(rules, headers, chain)
    requires SoundCandidate(rules, chain, now, headers) && StoredUpTo(rules, chain, headers, k)
    ensures headers[0].height - 1 + k < |chain|
    ensures
      var v, fork := Judgement(rules, chain, finalized, now, headers), headers[0].height - 1 + k;
      var ours, theirs := Sum(Diffs(chain[fork + 1..])), Sum(Diffs(headers[k..]));
      var deep := k < |headers| && fork < finalized && fork < |chain| - 1;
      && ours == chain[|chain| - 1].weight - chain[fork].weight
      && (!deep ==> v.status == (if theirs > ours then 0 else 1) && v.forkPoint == fork)
      && (deep && theirs >= Min(10 * ours, U256_MAX) ==> v.status == 0 && v.forkPoint == fork)
      && (deep && ours <= theirs < Min(10 * ours, U256_MAX) ==> v.status == 1 && v.forkPoint == fork)
      && (deep && theirs < Min(ours, U256_MAX) ==> v.status == 2 && v.forkPoint == 0)
  {
    hide SoundCandidate, Linked, AllSound, ChainOk, StoredUpTo, Deep, Sum, Work, CommonCount;
    SoundCandidateIff(rules, chain, now, headers);
    CommonIs(rules, chain, headers, k);
    ForkStored(rules, chain, headers, k);
    DeepIff(rules, chain, finalized, headers, k);
    SegmentWork(rules, chain, headers, k, headers[0].height - 1 + k);
  }

  // ----- candidates that start at the genesis block

  /** Linked to the header before it, and stored or fit after the headers of the candidate. */
  ghost predicate FitsAt(rules: Rules, db: Db, now: nat, headers: seq<Header>, i: nat)
    requires i < |headers|
  {
    && (i > 0 ==> headers[i].height == headers[i - 1].height + 1 && headers[i].parentHash == HashOf(rules, headers[i - 1]))
    && ((headers[i].height in db.hashAt && db.hashAt[headers[i].height] == HashOf(rules, headers[i])) ||
        Fit(rules, now, headers[..i], headers[i]))
  }

  lemma FitsIff(rules: Rules, db: Db, now: nat, headers: seq<Header>, i: nat)
    requires i < |headers|
    ensures FitsAt(rules, db, now, headers, i) <==> GrownAt(rules, db, now, headers, i)
  {
    hide Fit, Valid, HashOf;
    FitIff(rules, now, headers[..i], headers[i]);
  }

  /** What the evaluator answers with 0 for such a candidate: a genesis chain of its own. */
  lemma FromGenesisIff(rules: Rules, db: Db, now: nat, headers: seq<Header>)
    ensures FromGenesis(rules, db, now, headers) <==>
            && headers != [] && headers[0].height == 0
            && (rules.genesisHash != ZERO32 ==> HashOf(rules, headers[0].(parentHash := ZERO32)) == rules.genesisHash)
            && forall i :: 0 <= i < |headers| ==> FitsAt(rules, db, now, headers, i)
  {
    hide FitsAt, GrownAt, HashOf;
    forall i | 0 <= i < |headers|
      ensures FitsAt(rules, db, now, headers, i) <==> GrownAt(rules, db, now, headers, i)
    {
      FitsIff(rules, db, now, headers, i);
    }
  }
}
