/**
The other three places that work out the next difficulty: accepting a block on the tip,
the proof-of-work gate that walks parent hashes, and the miner's own history. Each
rebuilds the window from scratch; all of them agree with the header evaluator.
*/
module HeaderWindows {
  import opened Difficulty
  import opened HeaderChain
  import opened HeaderEvaluation
  import opened Machine
  import opened Sequences
  import opened Wrappers

  // ----- which candidate headers are stored

  /** In a linked candidate on a canonical parent, the stored headers are a prefix. */
  lemma {:induction false} StoredHeadersArePrefix(rules: Rules, chain: seq<Header>, headers: seq<Header>, i: nat, j: nat)
    requires Setting(rules, chain, headers) && Linked(rules, headers)
    requires i <= j < |headers| && Matched(rules, chain, headers[j])
    ensures Matched(rules, chain, headers[i])
    decreases j - i
  {
    hide Matched, Setting;
    if i < j {
      assert LinkedAt(rules, headers, j);
      MatchedBackward(rules, chain, headers, j);
      StoredHeadersArePrefix(rules, chain, headers, i, j - 1);
    }
  }

  /** The fork point of an accepted candidate: everything up to it is stored, nothing after it. */
  lemma ForkPointIsLastCommon(rules: Rules, chain: seq<Header>, finalized: nat, now: nat, headers: seq<Header>)
    requires Setting(rules, chain, headers)
    requires Judgement(rules, chain, finalized, now, headers).status <= 1
    ensures
      var v := Judgement(rules, chain, finalized, now, headers);
      && headers[0].height - 1 <= v.forkPoint < |chain|
      && v.forkPoint < headers[0].height + |headers|
      && forall i :: 0 <= i < |headers| ==>
           && headers[i].height == headers[0].height + i
           && (Matched(rules, chain, headers[i]) <==> headers[i].height <= v.forkPoint)
  {
    hide Matched, AllSound, Compare, Deep, Work, Setting;
    SettingHas(rules, chain, headers);
    var k := CommonCount(rules, chain, headers);
    CompareFork(rules, chain, finalized, now, headers);
    forall i | 0 <= i < |headers|
      ensures headers[i].height == headers[0].height + i
      ensures Matched(rules, chain, headers[i]) <==> i < k
    {
      assert forall j :: 0 < j <= i ==> LinkedAt(rules, headers, j);
      LinkedHeights(rules, headers, i);
      if k <= i && Matched(rules, chain, headers[i]) {
        StoredHeadersArePrefix(rules, chain, headers, k, i);
      }
    }
    if k > 0 { HeightInChain(rules, chain, headers[k - 1]); }
  }

  lemma CompareFork(rules: Rules, chain: seq<Header>, finalized: nat, now: nat, headers: seq<Header>)
    requires ParentCanonical(rules, headers, chain)
    requires Judgement(rules, chain, finalized, now, headers).status <= 1
    ensures Linked(rules, headers) && AllSound(rules, chain, now, headers)
    ensures Judgement(rules, chain, finalized, now, headers).forkPoint ==
            headers[0].height - 1 + CommonCount(rules, chain, headers)
  {
    hide Linked, AllSound, CommonCount, Deep, Work;
  }

  // ----- accepting a block on the tip

  /** The header checks of `process_new_block`: 0 accepted, 1 rejected, 2 orphan or side chain. */
  method CheckNewBlock(rules: Rules, db: Db, now: nat, h: Header, ghost chain: seq<Header>) returns (status: nat)
    ensures Canonical(rules, db, chain) && Hashes32(rules) && NeverZero(rules, chain) && h.height > 0 ==>
              status ==
              if h.height != |chain| || h.parentHash != HashOf(rules, chain[h.height - 1]) then 2
              else if Valid(rules, now, chain, h) then 0 else 1
  {
    hide Expected, NextDifficulty, MedianTime, Times, Diffs;
    var parent := if |h.parentHash| == 32 then h.parentHash else ZERO32;
    if h.height > 0 {
      if h.height - 1 !in db.hashAt || db.hashAt[h.height - 1] != parent || h.height - 1 != db.tip {
        return 2;
      }
    } else if db.tip > 0 {
      return 1;
    }
    if !rules.pow(HashOf(rules, h), h.nonce, h.difficulty, h.height) {
      return 1;
    }
    ghost var good := Canonical(rules, db, chain) && Hashes32(rules) && NeverZero(rules, chain) && h.height > 0;
    assert good ==> chain[..h.height] == chain;
    if h.height > 0 {
      var ts, ds := LoadWindow(rules, db, h.height, HISTORY, chain);
      if good { WindowLoaded(chain, ts, ds); }
      if |ts| < Min(h.height, HISTORY) {
        return 1;
      }
      if ts != [] {
        var expected := CalculateNextDifficulty(ts, ds);
        if h.difficulty != expected {
          return 1;
        }
      }
    }
    var recent, _ := LoadWindow(rules, db, h.height, MTP_WINDOW, chain);
    MedianOfRecent(recent);
    if good {
      MedianOfLastEleven(chain);
    }
    if !InTime(h.timestamp, MedianTime(recent), now) {
      return 1;
    }
    status := 0;
  }

  lemma WindowLoaded(chain: seq<Header>, ts: seq<u64>, ds: seq<u256>)
    requires ts == Times(LastN(chain, HISTORY)) && ds == Diffs(LastN(chain, HISTORY))
    ensures |ts| == Min(|chain|, HISTORY)
    ensures NextDifficulty(ts, ds) == Expected(chain)
  {
    hide NextDifficulty, Times, Diffs;
  }

  /** The stored median is taken over the eleven blocks it loads. */
  lemma MedianOfRecent(ts: seq<u64>)
    ensures |ts| <= MTP_WINDOW ==> LastN(ts, MTP_WINDOW) == ts
  {
  }

  lemma MedianOfLastEleven(ancestors: seq<Header>)
    ensures MedianTime(Times(LastN(ancestors, MTP_WINDOW))) == MedianTime(Times(ancestors))
  {
    hide Sort;
    assert LastN(Times(LastN(ancestors, MTP_WINDOW)), MTP_WINDOW) == LastN(Times(ancestors), MTP_WINDOW);
  }

  // ----- the proof-of-work gate

  datatype GateResult = Success | InvalidPow | DbBusy

  lemma ReverseExtend(window: seq<Header>, h: Header, ts: seq<u64>, ds: seq<u256>)
    requires Reverse(ts) == Times(window) && Reverse(ds) == Diffs(window)
    ensures Reverse(ts + [h.timestamp]) == Times([h] + window)
    ensures Reverse(ds + [h.difficulty]) == Diffs([h] + window)
  {
    assert Reverse(ts + [h.timestamp]) == [h.timestamp] + Reverse(ts);
    assert Reverse(ds + [h.difficulty]) == [h.difficulty] + Reverse(ds);
  }

  /** The first header names no stored parent: the field is absent, zero, or a hash that is not there. */
  ghost predicate NoParent(db: Db, h: Header) {
    |h.parentHash| != 32 || h.parentHash == ZERO32 || ReadHeader(db, h.parentHash).None?
  }

  /** The walk starts at a stored block; if it can reach the first header, that one names no stored parent. */
  ghost predicate Walkable(rules: Rules, db: Db, chain: seq<Header>, height: nat, parent: Bytes) {
    && Canonical(rules, db, chain) && Hashes32(rules) && NeverZero(rules, chain)
    && chain != [] && (height < HISTORY ==> NoParent(db, chain[0]))
    && 0 < height <= |chain| && parent == HashOf(rules, chain[height - 1])
  }

  /** Collecting up to 121 headers by following parent hashes, newest first. */
  method WalkParents(rules: Rules, db: Db, parent: Bytes, ghost chain: seq<Header>, ghost height: nat)
    returns (ts: seq<u64>, ds: seq<u256>)
    ensures Walkable(rules, db, chain, height, parent) ==>
        Reverse(ts) == Times(LastN(chain[..height], HISTORY)) && Reverse(ds) == Diffs(LastN(chain[..height], HISTORY))
  {
    hide Times, Diffs, Reverse, HashOf, Canonical, Hashes32;
    ts, ds := [], [];
    var current := parent;
    ghost var good := Walkable(rules, db, chain, height, parent);
    ghost var at := height;
    ghost var window: seq<Header> := [];
    EmptyWindow();
    for count := 0 to HISTORY
      invariant good ==> 0 <= at == height - count <= height <= |chain| && window == chain[at..height]
      invariant good && at > 0 ==> current == HashOf(rules, chain[at - 1])
      invariant good && at == 0 && height < HISTORY ==> current == ZERO32 || ReadHeader(db, current).None?
      invariant good ==> Reverse(ts) == Times(window) && Reverse(ds) == Diffs(window)
    {
      if good && at > 0 { WalkStep(rules, db, chain, at); }
      if current == ZERO32 {
        assert good ==> LastN(chain[..height], HISTORY) == window;
        return;
      }
      var stored := ReadHeader(db, current);
      if stored.None? {
        assert good ==> LastN(chain[..height], HISTORY) == window;
        return;
      }
      if good {
        ReverseExtend(window, chain[at - 1], ts, ds);
        at := at - 1;
        window := [chain[at]] + window;
      }
      ts := ts + [stored.value.timestamp];
      ds := ds + [stored.value.difficulty];
      if |stored.value.parentHash| != 32 {
        assert good ==> LastN(chain[..height], HISTORY) == window;
        return;
      }
      current := stored.value.parentHash;
    }
    assert good ==> LastN(chain[..height], HISTORY) == window;
  }

  lemma EmptyWindow()
    ensures Reverse<u64>([]) == Times([]) && Reverse<u256>([]) == Diffs([])
  {
  }

  lemma WalkStep(rules: Rules, db: Db, chain: seq<Header>, at: nat)
    requires Canonical(rules, db, chain) && Hashes32(rules) && NeverZero(rules, chain) && 0 < at <= |chain|
    ensures HashOf(rules, chain[at - 1]) != ZERO32
    ensures ReadHeader(db, HashOf(rules, chain[at - 1])) == Some(chain[at - 1])
    ensures at > 1 ==> chain[at - 1].parentHash == HashOf(rules, chain[at - 2]) && |chain[at - 1].parentHash| == 32
  {
    if at > 1 {
      assert |rules.hash(Pack(chain[at - 2]))| == 32;
    }
  }

  /** The difficulty and work checks of `verify_pow` on a decoded header. */
  method PowGate(rules: Rules, db: Db, h: Header, ghost chain: seq<Header>) returns (r: GateResult)
    ensures Walkable(rules, db, chain, h.height, h.parentHash) ==>
        r == if h.difficulty == Expected(chain[..h.height]) && rules.pow(HashOf(rules, h), h.nonce, h.difficulty, h.height)
             then Success else InvalidPow
  {
    hide NextDifficulty, Times, Diffs, Reverse, Canonical, HashOf, Expected;
    ghost var good := Walkable(rules, db, chain, h.height, h.parentHash);
    if h.height > 0 {
      var parent := Fixed32(h.parentHash);
      if good { GateFacts(rules, db, chain, h); }
      if h.difficulty < MIN_DIFFICULTY {
        return InvalidPow;
      }
      if parent in db.headers {
        var newestTs, newestDs := WalkParents(rules, db, parent, chain, h.height);
        var ts, ds := Reverse(newestTs), Reverse(newestDs);
        if good { WindowLoaded(chain[..h.height], ts, ds); }
        if |ts| < Min(h.height, HISTORY) {
          return DbBusy;
        }
        if ts != [] {
          var expected := CalculateNextDifficulty(ts, ds);
          if h.difficulty != expected {
            return InvalidPow;
          }
        }
      }
    }
    r := if rules.pow(HashOf(rules, h), h.nonce, h.difficulty, h.height) then Success else InvalidPow;
  }

  lemma GateFacts(rules: Rules, db: Db, chain: seq<Header>, h: Header)
    requires Canonical(rules, db, chain) && Hashes32(rules)
    requires 0 < h.height <= |chain| && h.parentHash == HashOf(rules, chain[h.height - 1])
    ensures Fixed32(h.parentHash) == h.parentHash && h.parentHash in db.headers
    ensures MIN_DIFFICULTY <= Expected(chain[..h.height])
  {
    hide NextDifficulty;
    WithinQuarter(Times(LastN(chain[..h.height], HISTORY)), Diffs(LastN(chain[..h.height], HISTORY)));
  }

  // ----- the miner's history

  lemma TipIsLast(rules: Rules, db: Db, chain: seq<Header>)
    requires Canonical(rules, db, chain)
    ensures |chain| == db.tip + 1
  {
  }

  lemma StoredKeys(rules: Rules, db: Db, chain: seq<Header>, h: nat)
    requires Canonical(rules, db, chain) && h < |chain|
    ensures h in db.hashAt && db.hashAt[h] in db.headers
  {
  }

  /** `getMiningHistory` followed by the difficulty rule; None when a block cannot be read. */
  method MinerExpects(rules: Rules, db: Db, ghost chain: seq<Header>) returns (r: Option<u256>)
    ensures Canonical(rules, db, chain) ==> r == Some(Expected(chain))
  {
    hide Times, Diffs, NextDifficulty, Canonical, HeaderAt, Expected;
    var highest := db.tip;
    var start := if highest >= WINDOW then highest - WINDOW else 0;
    var ts: seq<u64>, ds: seq<u256> := [], [];
    ghost var good := Canonical(rules, db, chain);
    ghost var window: seq<Header> := [];
    if good { TipStored(rules, db, chain); TipIsLast(rules, db, chain); }
    for h := start to highest + 1
      invariant good ==> window == chain[start..h] && ts == Times(window) && ds == Diffs(window)
    {
      if good {
        StoredHeader(rules, db, chain, h);
        StoredKeys(rules, db, chain, h);
        TimesExtend(window, chain[h]);
        window := window + [chain[h]];
      }
      if h !in db.hashAt || db.hashAt[h] !in db.headers {
        if highest == 0 && h == 0 {
          continue;
        }
        return None;
      }
      var stored := HeaderAt(db, h);
      if stored.None? {
        return None;
      }
      ts := ts + [stored.value.timestamp];
      ds := ds + [stored.value.difficulty];
    }
    if good {
      assert LastN(chain, HISTORY) == window;
      WindowLoaded(chain, ts, ds);
    }
    if ds == [] {
      var minimum := CalculateNextDifficulty([], []);
      ds := [minimum];
    }
    var expected := CalculateNextDifficulty(ts, ds);
    r := Some(expected);
  }
}
